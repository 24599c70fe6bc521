/** The string formats the request schemas use: `uuid` and `email`. Both
    expressions carry the `i` flag and no `u` flag, so case is folded for
    ASCII letters only; the character classes below are exact. */
module StringValidator {
  import opened Errors
  import opened Strings

  // ---------------------------------------------------------------------------
  // separated runs: `x(?:.x)*` where `x` is a run of allowed characters

  /** A piece of a separated run: non-empty, every character allowed, and
      the first and last character fit to stand next to a separator. */
  predicate Piece(w: string, ok: char -> bool, edge: char -> bool)
  {
    |w| > 0 && edge(w[0]) && edge(w[|w| - 1]) && forall j :: 0 <= j < |w| ==> ok(w[j])
  }

  predicate AllPieces(parts: seq<string>, ok: char -> bool, edge: char -> bool)
  {
    forall k :: 0 <= k < |parts| ==> Piece(parts[k], ok, edge)
  }

  /** The same language read position by position: every character is the
      separator or allowed, the string starts and ends with an edge
      character, and every separator sits between two edge characters (so
      there are no leading, trailing or doubled separators). */
  predicate Separated(s: string, c: char, ok: char -> bool, edge: char -> bool)
  {
    && |s| > 0 && edge(s[0]) && edge(s[|s| - 1])
    && (forall i :: 0 <= i < |s| ==> s[i] == c || ok(s[i]))
    && (forall i :: 0 < i < |s| - 1 && s[i] == c ==> edge(s[i - 1]) && edge(s[i + 1]))
  }

  lemma AllPiecesCons(w: string, rest: seq<string>, ok: char -> bool, edge: char -> bool)
    ensures AllPieces([w] + rest, ok, edge) <==> Piece(w, ok, edge) && AllPieces(rest, ok, edge)
  {
    var parts := [w] + rest;
    if Piece(w, ok, edge) && AllPieces(rest, ok, edge) {
      forall k | 0 <= k < |parts| ensures Piece(parts[k], ok, edge) {
        if k > 0 { assert parts[k] == rest[k - 1]; }
      }
    }
    if AllPieces(parts, ok, edge) {
      assert parts[0] == w;
      forall k | 0 <= k < |rest| ensures Piece(rest[k], ok, edge) {
        assert rest[k] == parts[k + 1];
      }
    }
  }

  /** Cutting a separated string at its first separator leaves a piece and a
      separated string. */
  lemma SeparatedCut(s: string, c: char, ok: char -> bool, edge: char -> bool, i: nat)
    requires !ok(c) && forall x :: edge(x) ==> ok(x)
    requires i < |s| && s[i] == c && forall j :: 0 <= j < i ==> s[j] != c
    requires Separated(s, c, ok, edge)
    ensures Piece(s[..i], ok, edge) && Separated(s[i + 1..], c, ok, edge)
  {
    var head := s[..i];
    var rest := s[i + 1..];
    assert 0 < i < |s| - 1;
    assert edge(s[i - 1]) && edge(s[i + 1]);
    assert head[0] == s[0] && head[|head| - 1] == s[i - 1];
    assert rest[0] == s[i + 1] && rest[|rest| - 1] == s[|s| - 1];
    forall j | 0 <= j < |rest| ensures rest[j] == c || ok(rest[j]) {
      assert rest[j] == s[i + 1 + j];
    }
    forall j | 0 < j < |rest| - 1 && rest[j] == c ensures edge(rest[j - 1]) && edge(rest[j + 1]) {
      assert rest[j] == s[i + 1 + j] && rest[j - 1] == s[i + j] && rest[j + 1] == s[i + 2 + j];
    }
  }

  /** A piece, a separator and a separated string make a separated string. */
  lemma SeparatedJoin(head: string, c: char, rest: string, ok: char -> bool, edge: char -> bool)
    requires !ok(c) && forall x :: edge(x) ==> ok(x)
    requires Piece(head, ok, edge) && Separated(rest, c, ok, edge)
    ensures Separated(head + [c] + rest, c, ok, edge)
  {
    var s := head + [c] + rest;
    var i := |head|;
    assert s[0] == head[0] && s[|s| - 1] == rest[|rest| - 1];
    forall m | 0 <= m < |s| ensures s[m] == c || ok(s[m]) {
      if m < i { assert s[m] == head[m]; } else if m > i { assert s[m] == rest[m - i - 1]; }
    }
    forall m | 0 < m < |s| - 1 && s[m] == c ensures edge(s[m - 1]) && edge(s[m + 1]) {
      if m == i {
        assert s[m - 1] == head[i - 1] && s[m + 1] == rest[0];
      } else if m > i && 0 < m - i - 1 < |rest| - 1 {
        assert s[m] == rest[m - i - 1];
        assert s[m - 1] == rest[m - i - 2] && s[m + 1] == rest[m - i];
      }
    }
  }

  /** The positional reading and the pattern's reading agree: a string is
      separated exactly when splitting it at the separator gives pieces
      only. */
  lemma {:induction false} SeparatedSplit(s: string, c: char, ok: char -> bool, edge: char -> bool)
    requires !ok(c) && forall x :: edge(x) ==> ok(x)
    ensures Separated(s, c, ok, edge) <==> AllPieces(Split(s, c), ok, edge)
    decreases |s|
  {
    var i := IndexOf(s, c);
    if i == |s| {
      SplitNoSeparator(s, c);
      AllPiecesCons(s, [], ok, edge);
    } else {
      var head := s[..i];
      var rest := s[i + 1..];
      SplitAt(s, c, i);
      SeparatedSplit(rest, c, ok, edge);
      AllPiecesCons(head, Split(rest, c), ok, edge);
      if Separated(s, c, ok, edge) {
        SeparatedCut(s, c, ok, edge, i);
      }
      if Piece(head, ok, edge) && Separated(rest, c, ok, edge) {
        SeparatedJoin(head, c, rest, ok, edge);
        assert s == head + [c] + rest;
      }
    }
  }

  // ---------------------------------------------------------------------------
  // email

  /** The characters the local part may use besides the dot. */
  predicate IsAtomChar(c: char)
  {
    IsAsciiAlnum(c) || c in "!#$%&'*+/=?^_`{|}~-"
  }

  /** The characters of a domain label. */
  predicate IsLabelChar(c: char)
  {
    IsAsciiAlnum(c) || c == '-'
  }

  /** `[atom]+(?:\.[atom]+)*`: dot-separated runs of atom characters. */
  predicate IsLocalPart(s: string)
  {
    Separated(s, '.', IsAtomChar, IsAtomChar)
  }

  /** `(?:label\.)+label`: at least two dot-separated labels, each starting and
      ending with a letter or digit. */
  predicate IsDomain(s: string)
  {
    '.' in s && Separated(s, '.', IsLabelChar, IsAsciiAlnum)
  }

  /** The `email` format: a local part, `@`, a domain. Neither side can hold
      an `@`, so the split point is the first one. */
  predicate IsEmail(value: string)
  {
    var at := IndexOf(value, '@');
    at < |value| && IsLocalPart(value[..at]) && IsDomain(value[at + 1..])
  }

  /** An accepted address holds exactly one `@`. */
  lemma {:induction false} EmailHasOneAt(value: string)
    requires IsEmail(value)
    ensures var at := IndexOf(value, '@');
      at < |value| && forall i :: 0 <= i < |value| && value[i] == '@' ==> i == at
  {
    var at := IndexOf(value, '@');
    var domain := value[at + 1..];
    forall i | at < i < |value| ensures value[i] != '@' {
      assert value[i] == domain[i - at - 1];
    }
  }

  /** The domain splits into two or more labels, each starting and ending
      with a letter or digit. */
  lemma DomainLabels(domain: string)
    ensures IsDomain(domain) <==>
      |Split(domain, '.')| >= 2 && AllPieces(Split(domain, '.'), IsLabelChar, IsAsciiAlnum)
  {
    SeparatedSplit(domain, '.', IsLabelChar, IsAsciiAlnum);
    var i := IndexOf(domain, '.');
    if i < |domain| {
      SplitAt(domain, '.', i);
    } else {
      SplitNoSeparator(domain, '.');
    }
  }

  /** The local part's pieces between dots are non-empty runs of atom
      characters; the domain splits into two or more labels, each starting and
      ending with a letter or digit. */
  lemma EmailParts(value: string)
    requires IndexOf(value, '@') < |value|
    ensures var at := IndexOf(value, '@');
      IsEmail(value) <==>
        && AllPieces(Split(value[..at], '.'), IsAtomChar, IsAtomChar)
        && |Split(value[at + 1..], '.')| >= 2
        && AllPieces(Split(value[at + 1..], '.'), IsLabelChar, IsAsciiAlnum)
  {
    var at := IndexOf(value, '@');
    SeparatedSplit(value[..at], '.', IsAtomChar, IsAtomChar);
    DomainLabels(value[at + 1..]);
  }

  // ---------------------------------------------------------------------------
  // uuid

  predicate IsHexDigit(c: char)
  {
    IsDigit(c) || 'a' <= c <= 'f' || 'A' <= c <= 'F'
  }

  predicate AllHex(s: string)
  {
    forall i :: 0 <= i < |s| ==> IsHexDigit(s[i])
  }

  /** `[0-9a-f]{8}-(?:[0-9a-f]{4}-){3}[0-9a-f]{12}`, group by group. */
  predicate IsUuidGroups(s: string)
  {
    && |s| == 36
    && AllHex(s[0..8]) && s[8] == '-'
    && AllHex(s[9..13]) && s[13] == '-'
    && AllHex(s[14..18]) && s[18] == '-'
    && AllHex(s[19..23]) && s[23] == '-'
    && AllHex(s[24..36])
  }

  predicate IsHyphenPosition(i: int)
  {
    i == 8 || i == 13 || i == 18 || i == 23
  }

  /** The groups read position by position: hyphens at 8, 13, 18 and 23, a
      hex digit everywhere else. */
  lemma UuidPositions(s: string)
    requires |s| == 36
    ensures IsUuidGroups(s) <==>
      forall i :: 0 <= i < 36 ==> (if IsHyphenPosition(i) then s[i] == '-' else IsHexDigit(s[i]))
  {
    if IsUuidGroups(s) {
      forall i | 0 <= i < 36 && !IsHyphenPosition(i) ensures IsHexDigit(s[i]) {
        if i < 8 { assert s[0..8][i] == s[i]; }
        else if i < 13 { assert s[9..13][i - 9] == s[i]; }
        else if i < 18 { assert s[14..18][i - 14] == s[i]; }
        else if i < 23 { assert s[19..23][i - 19] == s[i]; }
        else { assert s[24..36][i - 24] == s[i]; }
      }
    }
  }

  /** The optional `urn:uuid:` prefix, letters in either case. */
  predicate IsUrnPrefix(s: string)
  {
    ToLower(s) == "urn:uuid:"
  }

  /** The `uuid` format: the five groups, optionally after `urn:uuid:`. */
  predicate IsUuid(value: string)
  {
    || IsUuidGroups(value)
    || (|value| == 45 && IsUrnPrefix(value[..9]) && IsUuidGroups(value[9..]))
  }

  /** Accepted ids are 36 characters long, or 45 with the prefix, and never
      contain `/`. */
  lemma UuidShape(value: string)
    requires IsUuid(value)
    ensures |value| == 36 || |value| == 45
    ensures '/' !in value
  {
    if !IsUuidGroups(value) {
      var p := value[..9];
      forall i | 0 <= i < 9 ensures p[i] != '/' {
        assert LowerChar(p[i]) == "urn:uuid:"[i];
      }
      UuidPositions(value[9..]);
      forall i | 0 <= i < 45 ensures value[i] != '/' {
        if i < 9 { assert value[i] == p[i]; } else { assert value[i] == value[9..][i - 9]; }
      }
    } else {
      UuidPositions(value);
    }
  }

  // ---------------------------------------------------------------------------
  // the registry

  datatype Format = UuidFormat | EmailFormat

  /** The names under which the formats are registered. */
  function FormatNamed(name: string): (f: Option<Format>)
    ensures f == Some(UuidFormat) <==> name == "uuid"
    ensures f == Some(EmailFormat) <==> name == "email"
    ensures f.None? <==> name != "uuid" && name != "email"
  {
    if name == "uuid" then Some(UuidFormat)
    else if name == "email" then Some(EmailFormat)
    else None
  }

  /** The check a registered format runs. */
  predicate Check(f: Format, value: string)
  {
    match f
    case UuidFormat => IsUuid(value)
    case EmailFormat => IsEmail(value)
  }
}
