/** The audios page's greeting: the user's name title-cased by
    `str.replace(/\w\S*\/g, txt => upper(first) + lower(rest))`. Case mapping
    is ASCII: the pattern's word characters are ASCII, and on ASCII input the
    ASCII mappings are the full ones. */
module AudiosPage {
  import opened Errors
  import opened Strings

  predicate NoSpace(t: string)
  {
    forall k :: 0 <= k < |t| ==> !IsSpace(t[k])
  }

  /** The end of the run that starts at 0: the first whitespace after the
      leading character, or the end of the string. */
  function RunEnd(s: string): (j: nat)
    requires |s| > 0
    ensures 1 <= j <= |s|
    ensures NoSpace(s[1..j])
    ensures j < |s| ==> IsSpace(s[j])
    decreases |s|
  {
    if |s| == 1 || IsSpace(s[1]) then 1
    else
      var j := 1 + RunEnd(s[1..]);
      assert s[1..j] == [s[1]] + s[1..][1..j - 1];
      j
  }

  /** The replace as the pattern reads: find the next word character, take it
      and the non-whitespace after it as one match, replace the match, and
      carry on after it; everything between matches is copied. */
  function ToTitleCase(s: string): (r: string)
    ensures |r| == |s|
    ensures forall i :: 0 <= i < |s| ==> r[i] in {s[i], UpperChar(s[i]), LowerChar(s[i])}
    decreases |s|
  {
    if |s| == 0 then ""
    else if !IsWordChar(s[0]) then [s[0]] + ToTitleCase(s[1..])
    else
      var j := RunEnd(s);
      [UpperChar(s[0])] + ToLower(s[1..j]) + ToTitleCase(s[j..])
  }

  /** One character of the scan: inside a run it is lower-cased, at a run's
      start upper-cased, elsewhere kept. */
  function Emit(inRun: bool, c: char): char
  {
    if inRun then LowerChar(c) else if IsWordChar(c) then UpperChar(c) else c
  }

  /** Whether a run is open after `c`: a run opens at a word character and
      closes at whitespace. */
  function Next(inRun: bool, c: char): bool
  {
    if inRun then !IsSpace(c) else IsWordChar(c)
  }

  /** Whether a run is open after reading `p`, starting from `inRun`. */
  function StateAfter(inRun: bool, p: string): bool
    decreases |p|
  {
    if |p| == 0 then inRun else StateAfter(Next(inRun, p[0]), p[1..])
  }

  /** The same replace as a left-to-right scan with one bit of state. */
  function Scan(s: string, inRun: bool): (r: string)
    ensures |r| == |s|
    decreases |s|
  {
    if |s| == 0 then "" else [Emit(inRun, s[0])] + Scan(s[1..], Next(inRun, s[0]))
  }

  /** Each output character depends only on its input character and on
      whether a run is open before it. */
  lemma {:induction false} ScanPointwise(s: string, inRun: bool, i: nat)
    requires i < |s|
    ensures Scan(s, inRun)[i] == Emit(StateAfter(inRun, s[..i]), s[i])
    decreases |s|
  {
    if i > 0 {
      ScanPointwise(s[1..], Next(inRun, s[0]), i - 1);
      assert s[1..][..i - 1] == s[..i][1..];
    }
  }

  /** Inside an open run, a stretch without whitespace is lower-cased. */
  lemma {:induction false} ScanInsideRun(t: string, rest: string)
    requires NoSpace(t)
    ensures Scan(t + rest, true) == ToLower(t) + Scan(rest, true)
    decreases |t|
  {
    if |t| > 0 {
      ScanInsideRun(t[1..], rest);
      assert (t + rest)[1..] == t[1..] + rest;
      assert ToLower(t) == [LowerChar(t[0])] + ToLower(t[1..]);
    } else {
      assert t + rest == rest;
    }
  }

  /** Whitespace closes a run, and after it the scan is as if none was
      open. */
  lemma ScanAtSpace(rest: string)
    requires |rest| > 0 && IsSpace(rest[0])
    ensures Scan(rest, true) == Scan(rest, false)
  {
    assert !IsWordChar(rest[0]);
  }

  /** The scan over one match: the run's first character upper-cased, the
      rest lower-cased, and the scan starts afresh after it. */
  lemma ScanOverRun(c: char, t: string, rest: string)
    requires IsWordChar(c) && NoSpace(t) && (|rest| == 0 || IsSpace(rest[0]))
    ensures Scan([c] + t + rest, false) == [UpperChar(c)] + ToLower(t) + Scan(rest, false)
  {
    var s := [c] + t + rest;
    assert s[0] == c && s[1..] == t + rest;
    ScanInsideRun(t, rest);
    if |rest| > 0 {
      ScanAtSpace(rest);
    }
  }

  /** The pattern's replace and the scan agree. */
  lemma {:induction false} ToTitleCaseIsScan(s: string)
    ensures ToTitleCase(s) == Scan(s, false)
    decreases |s|
  {
    if |s| > 0 {
      if !IsWordChar(s[0]) {
        ToTitleCaseIsScan(s[1..]);
      } else {
        var j := RunEnd(s);
        ToTitleCaseIsScan(s[j..]);
        assert s == [s[0]] + s[1..j] + s[j..];
        ScanOverRun(s[0], s[1..j], s[j..]);
      }
    }
  }

  /** The title-cased string read position by position: the first character
      of each run upper-cased, the rest of the run lower-cased, everything
      outside runs unchanged. */
  lemma TitleCasePointwise(s: string, i: nat)
    requires i < |s|
    ensures var open := StateAfter(false, s[..i]);
      && (!open && IsWordChar(s[i]) ==> ToTitleCase(s)[i] == UpperChar(s[i]))
      && (open ==> ToTitleCase(s)[i] == LowerChar(s[i]))
      && (!open && !IsWordChar(s[i]) ==> ToTitleCase(s)[i] == s[i])
  {
    ToTitleCaseIsScan(s);
    ScanPointwise(s, false, i);
  }

  lemma UpperCharIdempotent(c: char)
    ensures UpperChar(UpperChar(c)) == UpperChar(c)
  {
  }

  /** Scanning the output again changes nothing: the output opens and closes
      runs at the same places and is already in the cases the scan
      produces. */
  lemma {:induction false} ScanIdempotent(s: string, inRun: bool)
    ensures Scan(Scan(s, inRun), inRun) == Scan(s, inRun)
    decreases |s|
  {
    if |s| > 0 {
      var c := s[0];
      var e := Emit(inRun, c);
      CaseMappingKeepsClasses(c);
      assert Next(inRun, e) == Next(inRun, c);
      LowerCharIdempotent(c);
      UpperCharIdempotent(c);
      assert Emit(inRun, e) == e;
      ScanIdempotent(s[1..], Next(inRun, c));
      var r := Scan(s, inRun);
      assert r[0] == e && r[1..] == Scan(s[1..], Next(inRun, c));
    }
  }

  /** Title-casing twice is title-casing once. */
  lemma TitleCaseIdempotent(s: string)
    ensures ToTitleCase(ToTitleCase(s)) == ToTitleCase(s)
  {
    ToTitleCaseIsScan(s);
    ToTitleCaseIsScan(ToTitleCase(s));
    ScanIdempotent(s, false);
  }

  /** `user?.name ? toTitleCase(user.name) : ""`: a missing or empty name
      greets no one rather than failing. */
  function WelcomeName(name: Option<string>): (shown: string)
    ensures name.None? ==> shown == ""
    ensures name.Some? ==> shown == ToTitleCase(name.value) && |shown| == |name.value|
  {
    if name.Some? && name.value != "" then ToTitleCase(name.value) else ""
  }
}
