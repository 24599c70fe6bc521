/** The genres page: the create-genre form's name rule and the count shown
    above the list. */
module GenresPage {
  import opened Strings

  const NameRequired: string := "Genre name is required"
  const NameTooLong: string := "Genre name must be less than 50 characters"
  const MaxGenreName: nat := 50

  /** `z.string().min(1, …).max(50, …)`: the issues a name raises, measured in
      UTF-16 code units as JavaScript's `length` is. */
  function GenreNameIssues(name: string): (issues: seq<string>)
    ensures |issues| <= 1
    ensures |issues| == 0 <==> 1 <= Utf16Length(name) <= MaxGenreName
    ensures name == "" <==> issues == [NameRequired]
    ensures Utf16Length(name) > MaxGenreName <==> issues == [NameTooLong]
  {
    var n := Utf16Length(name);
    if n < 1 then [NameRequired]
    else if n > MaxGenreName then [NameTooLong]
    else []
  }

  /** Fifty characters from the Basic Multilingual Plane pass and fifty-one
      do not, whatever they are. */
  lemma GenreNameBoundary(name: string, c: char)
    requires |name| == MaxGenreName && (c as int) <= 0xFFFF
    requires forall i :: 0 <= i < |name| ==> (name[i] as int) <= 0xFFFF
    ensures GenreNameIssues(name) == []
    ensures GenreNameIssues(name + [c]) == [NameTooLong]
  {
    Utf16LengthBmp(name);
    Utf16LengthBmp(name + [c]);
  }

  /** Below U+10000 every character is one code unit. */
  lemma {:induction false} Utf16LengthBmp(s: string)
    requires forall i :: 0 <= i < |s| ==> (s[i] as int) <= 0xFFFF
    ensures Utf16Length(s) == |s|
    decreases |s|
  {
    if |s| > 0 {
      Utf16LengthBmp(s[1..]);
    }
  }

  /** The line under the heading: nothing yet, or the count with the noun
      in the right number. */
  function GenreCountLabel(total: nat): (text: string)
    ensures total == 0 <==> text == "No genres created yet"
    ensures total >= 1 ==> var cut := IndexOf(text, ' ');
      && (forall i :: 0 <= i < cut ==> IsDigit(text[i]))
      && ParseNat(text[..cut]) == total
      && text[cut..] == " " + (if total == 1 then "genre total" else "genres total")
  {
    if total == 0 then "No genres created yet"
    else
      var digits := NatToString(total);
      var noun := if total == 1 then "genre total" else "genres total";
      PrefixBeforeSpace(digits, noun);
      ParseNatToString(total);
      digits + " " + noun
  }

  /** A non-zero label starts with the count in decimal, which reads back as
      the count, followed by the singular noun for one and the plural for
      more. */
  lemma CountLabelReadsBack(total: nat)
    requires total >= 1
    ensures var digits := NatToString(total);
      && GenreCountLabel(total) == digits + " " + (if total == 1 then "genre total" else "genres total")
      && ParseNat(digits) == total
  {
    ParseNatToString(total);
  }

  /** Different totals give different labels. */
  lemma CountLabelInjective(a: nat, b: nat)
    requires GenreCountLabel(a) == GenreCountLabel(b)
    ensures a == b
  {
  }

  /** The digits are the part before the first space, and a text that
      starts with a digit is not the empty-list text. */
  lemma PrefixBeforeSpace(digits: string, tail: string)
    requires |digits| >= 1 && forall i :: 0 <= i < |digits| ==> IsDigit(digits[i])
    ensures var s := digits + " " + tail;
      && IndexOf(s, ' ') == |digits|
      && s[..|digits|] == digits
      && s[|digits|..] == " " + tail
      && (forall i :: 0 <= i < |digits| ==> IsDigit(s[i]))
      && s != "No genres created yet"
  {
    var s := digits + " " + tail;
    assert s[|digits|] == ' ';
    assert forall i :: 0 <= i < |digits| ==> s[i] == digits[i];
    IndexOfUnique(s, ' ', |digits|);
    assert s[..|digits|] == digits;
    assert s[|digits|..] == " " + tail;
    assert s[0] != "No genres created yet"[0];
  }
}
