/** String helpers shared by the whole model: the character classes the
    source's regular expressions use, ASCII case mapping, JavaScript's
    whitespace set, `trim`, `split`/`join` on a one-character separator, and
    decimal rendering of counts. Strings are `seq<char>`. */
module Strings {

  predicate IsAsciiUpper(c: char) { 'A' <= c <= 'Z' }
  predicate IsAsciiLower(c: char) { 'a' <= c <= 'z' }
  predicate IsDigit(c: char) { '0' <= c <= '9' }
  predicate IsAsciiLetter(c: char) { IsAsciiUpper(c) || IsAsciiLower(c) }
  predicate IsAsciiAlnum(c: char) { IsAsciiLetter(c) || IsDigit(c) }

  /** `\w` of a JavaScript regular expression without the `u` flag. */
  predicate IsWordChar(c: char) { IsAsciiAlnum(c) || c == '_' }

  /** JavaScript's WhiteSpace and LineTerminator code points: the set that
      `String.prototype.trim` strips and that `\s` matches. */
  predicate IsSpace(c: char)
  {
    || c == '\t' || c == '\n' || c == '\U{B}' || c == '\U{C}' || c == '\r'
    || c == ' ' || c == '\U{A0}' || c == '\U{1680}'
    || ('\U{2000}' <= c <= '\U{200A}')
    || c == '\U{2028}' || c == '\U{2029}' || c == '\U{202F}' || c == '\U{205F}'
    || c == '\U{3000}' || c == '\U{FEFF}'
  }

  /** Line terminators: the characters a regular-expression `.` does not match. */
  predicate IsLineTerminator(c: char)
  {
    c == '\n' || c == '\r' || c == '\U{2028}' || c == '\U{2029}'
  }

  /** `toLowerCase` restricted to ASCII letters. */
  function LowerChar(c: char): (r: char)
    ensures IsAsciiUpper(c) ==> IsAsciiLower(r)
    ensures !IsAsciiUpper(c) ==> r == c
  {
    if IsAsciiUpper(c) then (c as int + 32) as char else c
  }

  /** `toUpperCase` restricted to ASCII letters. */
  function UpperChar(c: char): (r: char)
    ensures IsAsciiLower(c) ==> IsAsciiUpper(r)
    ensures !IsAsciiLower(c) ==> r == c
  {
    if IsAsciiLower(c) then (c as int - 32) as char else c
  }

  function ToLower(s: string): (r: string)
    ensures |r| == |s|
    ensures forall i :: 0 <= i < |s| ==> r[i] == LowerChar(s[i])
  {
    seq(|s|, i requires 0 <= i < |s| => LowerChar(s[i]))
  }

  /** Case mapping moves letters only: whitespace and word characters stay
      what they are. */
  lemma CaseMappingKeepsClasses(c: char)
    ensures IsSpace(LowerChar(c)) <==> IsSpace(c)
    ensures IsSpace(UpperChar(c)) <==> IsSpace(c)
    ensures IsWordChar(LowerChar(c)) <==> IsWordChar(c)
    ensures IsWordChar(UpperChar(c)) <==> IsWordChar(c)
  {
  }

  lemma LowerCharIdempotent(c: char)
    ensures LowerChar(LowerChar(c)) == LowerChar(c)
    ensures LowerChar(UpperChar(c)) == LowerChar(c)
  {
  }

  // ---------------------------------------------------------------------------
  // trim

  /** The number of whitespace characters `s` starts with. */
  function LeadingSpaces(s: string): (n: nat)
    ensures n <= |s|
    ensures forall i :: 0 <= i < n ==> IsSpace(s[i])
    ensures n < |s| ==> !IsSpace(s[n])
    decreases |s|
  {
    if |s| > 0 && IsSpace(s[0]) then 1 + LeadingSpaces(s[1..]) else 0
  }

  /** The number of whitespace characters `s` ends with. */
  function TrailingSpaces(s: string): (n: nat)
    ensures n <= |s|
    ensures forall i :: |s| - n <= i < |s| ==> IsSpace(s[i])
    ensures n < |s| ==> !IsSpace(s[|s| - n - 1])
    decreases |s|
  {
    if |s| > 0 && IsSpace(s[|s| - 1]) then 1 + TrailingSpaces(s[..|s| - 1]) else 0
  }

  /** `String.prototype.trim`: the contiguous middle of `s` left once the
      leading and trailing whitespace is cut off. */
  function Trim(s: string): (r: string)
    ensures var k := LeadingSpaces(s);
      && k + |r| <= |s|
      && r == s[k..k + |r|]
      && forall i :: k + |r| <= i < |s| ==> IsSpace(s[i])
    ensures |r| > 0 ==> !IsSpace(r[0]) && !IsSpace(r[|r| - 1])
    ensures |r| == 0 <==> forall i :: 0 <= i < |s| ==> IsSpace(s[i])
  {
    var k := LeadingSpaces(s);
    if k == |s| then ""
    else
      var n := TrailingSpaces(s);
      assert k < |s| - n;
      s[k..|s| - n]
  }

  // ---------------------------------------------------------------------------
  // split and join on one separator character

  /** Index of the first `c` in `s`, or `|s|` when there is none. */
  function IndexOf(s: string, c: char): (i: nat)
    ensures i <= |s|
    ensures i < |s| ==> s[i] == c
    ensures forall j :: 0 <= j < i ==> s[j] != c
    decreases |s|
  {
    if |s| == 0 then 0 else if s[0] == c then 0 else 1 + IndexOf(s[1..], c)
  }

  lemma IndexOfUnique(s: string, c: char, i: nat)
    requires i <= |s|
    requires i < |s| ==> s[i] == c
    requires forall j :: 0 <= j < i ==> s[j] != c
    ensures IndexOf(s, c) == i
  {
  }

  /** `s.split(c)` of JavaScript for a one-character separator: the pieces
      between separators, always at least one (`"".split(c)` is `[""]`). */
  function Split(s: string, c: char): (parts: seq<string>)
    ensures |parts| >= 1
    ensures forall k :: 0 <= k < |parts| ==> c !in parts[k]
    decreases |s|
  {
    var i := IndexOf(s, c);
    if i == |s| then [s] else [s[..i]] + Split(s[i + 1..], c)
  }

  /** Every character of every piece comes from the split string. */
  lemma {:induction false} SplitPiecesFrom(s: string, c: char)
    ensures forall k, j :: 0 <= k < |Split(s, c)| && 0 <= j < |Split(s, c)[k]| ==> Split(s, c)[k][j] in s
    decreases |s|
  {
    var i := IndexOf(s, c);
    if i < |s| {
      SplitPiecesFrom(s[i + 1..], c);
      var parts := Split(s, c);
      forall k, j | 0 <= k < |parts| && 0 <= j < |parts[k]| ensures parts[k][j] in s {
        if k == 0 {
          assert parts[k][j] == s[j];
        } else {
          assert parts[k] == Split(s[i + 1..], c)[k - 1];
          assert parts[k][j] in s[i + 1..];
        }
      }
    }
  }

  /** `parts.join(sep)` of JavaScript. */
  function Join(parts: seq<string>, sep: string): string
    decreases |parts|
  {
    if |parts| == 0 then ""
    else if |parts| == 1 then parts[0]
    else parts[0] + sep + Join(parts[1..], sep)
  }

  /** Splitting at a known first separator. */
  lemma SplitAt(s: string, c: char, i: nat)
    requires i < |s| && s[i] == c
    requires forall j :: 0 <= j < i ==> s[j] != c
    ensures Split(s, c) == [s[..i]] + Split(s[i + 1..], c)
  {
    IndexOfUnique(s, c, i);
  }

  /** A first character other than the separator opens the first piece. */
  lemma SplitConsChar(s: string, c: char)
    requires |s| > 0 && s[0] != c
    ensures Split(s, c) == [[s[0]] + Split(s[1..], c)[0]] + Split(s[1..], c)[1..]
  {
    var i := IndexOf(s, c);
    IndexOfUnique(s[1..], c, i - 1);
    if i < |s| {
      assert s[1..][..i - 1] == s[1..i];
      assert s[1..][i..] == s[i + 1..];
      assert [s[0]] + s[1..i] == s[..i];
    } else {
      assert [s[0]] + s[1..] == s;
    }
  }

  /** A string without the separator splits into itself alone. */
  lemma SplitNoSeparator(s: string, c: char)
    requires c !in s
    ensures Split(s, c) == [s]
  {
    IndexOfUnique(s, c, |s|);
  }

  /** Splitting `a + c + b` where `a` has no `c`. */
  lemma SplitFirst(a: string, c: char, b: string)
    requires c !in a
    ensures Split(a + [c] + b, c) == [a] + Split(b, c)
  {
    var s := a + [c] + b;
    SplitAt(s, c, |a|);
    assert s[..|a|] == a;
    assert s[|a| + 1..] == b;
  }

  /** Joining the pieces of a split with the same separator gives back the
      original string. */
  lemma {:induction false} JoinSplit(s: string, c: char)
    ensures Join(Split(s, c), [c]) == s
    decreases |s|
  {
    var i := IndexOf(s, c);
    if i < |s| {
      var rest := Split(s[i + 1..], c);
      JoinSplit(s[i + 1..], c);
      assert Split(s, c) == [s[..i]] + rest;
      assert Join(Split(s, c), [c]) == s[..i] + [c] + Join(rest, [c]);
      assert s == s[..i] + [c] + s[i + 1..];
    }
  }

  /** Splitting a join of separator-free pieces gives back the pieces. */
  lemma {:induction false} SplitJoin(parts: seq<string>, c: char)
    requires |parts| >= 1
    requires forall k :: 0 <= k < |parts| ==> c !in parts[k]
    ensures Split(Join(parts, [c]), c) == parts
    decreases |parts|
  {
    if |parts| > 1 {
      var s := Join(parts, [c]);
      var tail := Join(parts[1..], [c]);
      assert s == parts[0] + [c] + tail;
      assert s[..|parts[0]|] == parts[0];
      assert s[|parts[0]| + 1..] == tail;
      forall j | 0 <= j < |parts[0]| ensures s[j] != c {
        assert s[j] == parts[0][j];
      }
      SplitAt(s, c, |parts[0]|);
      SplitJoin(parts[1..], c);
      assert parts == [parts[0]] + parts[1..];
    } else {
      IndexOfUnique(parts[0], c, |parts[0]|);
    }
  }

  /** The last piece of `Split(s, c)` is the text after the last `c`: the
      longest separator-free suffix of `s`. */
  lemma {:induction false} LastPieceIsSuffix(s: string, c: char)
    ensures var last := Split(s, c)[|Split(s, c)| - 1];
      && |last| <= |s|
      && last == s[|s| - |last|..]
      && (|last| < |s| ==> s[|s| - |last| - 1] == c)
    decreases |s|
  {
    var i := IndexOf(s, c);
    if i < |s| {
      LastPieceIsSuffix(s[i + 1..], c);
      SplitAt(s, c, i);
      LastPieceStep(s, c, i, Split(s[i + 1..], c));
    } else {
      SplitNoSeparator(s, c);
    }
  }

  /** The inductive step of `LastPieceIsSuffix`: prepending the piece before
      the first separator keeps the last piece a suffix of the whole. */
  lemma LastPieceStep(s: string, c: char, i: nat, parts: seq<string>)
    requires i < |s| && s[i] == c && |parts| >= 1
    requires var last := parts[|parts| - 1]; var tail := s[i + 1..];
      && |last| <= |tail| && last == tail[|tail| - |last|..]
      && (|last| < |tail| ==> tail[|tail| - |last| - 1] == c)
    ensures var whole := [s[..i]] + parts; var last := whole[|whole| - 1];
      && |last| <= |s| && last == s[|s| - |last|..]
      && (|last| < |s| ==> s[|s| - |last| - 1] == c)
  {
    LastOfCons(s[..i], parts);
    SuffixOfSuffix(s, s[i + 1..], parts[|parts| - 1], c);
  }

  lemma LastOfCons(w: string, rest: seq<string>)
    requires |rest| > 0
    ensures ([w] + rest)[|[w] + rest| - 1] == rest[|rest| - 1]
  {
  }

  /** A suffix of a suffix is a suffix, preceded by the same character. */
  lemma SuffixOfSuffix(s: string, tail: string, last: string, c: char)
    requires |tail| < |s| && tail == s[|s| - |tail|..]
    requires |last| <= |tail| && last == tail[|tail| - |last|..]
    requires |last| < |tail| ==> tail[|tail| - |last| - 1] == c
    requires |last| == |tail| ==> s[|s| - |tail| - 1] == c
    ensures last == s[|s| - |last|..] && s[|s| - |last| - 1] == c
  {
    if |last| < |tail| {
      assert tail[|tail| - |last| - 1] == s[|s| - |last| - 1];
    }
  }

  /** Removes every occurrence of `c`. */
  function Remove(s: string, c: char): (r: string)
    ensures c !in r
    ensures |r| <= |s|
    decreases |s|
  {
    if |s| == 0 then [] else (if s[0] == c then [] else [s[0]]) + Remove(s[1..], c)
  }

  lemma {:induction false} RemoveAppend(a: string, b: string, c: char)
    ensures Remove(a + b, c) == Remove(a, c) + Remove(b, c)
    decreases |a|
  {
    if |a| > 0 {
      assert (a + b)[1..] == a[1..] + b;
      RemoveAppend(a[1..], b, c);
    } else {
      assert a + b == b;
    }
  }

  lemma {:induction false} RemoveAbsent(s: string, c: char)
    requires c !in s
    ensures Remove(s, c) == s
    decreases |s|
  {
    if |s| > 0 {
      RemoveAbsent(s[1..], c);
      assert s == [s[0]] + s[1..];
    }
  }

  /** Concatenation of a sequence of strings. */
  function Concat(parts: seq<string>): string
    decreases |parts|
  {
    if |parts| == 0 then "" else parts[0] + Concat(parts[1..])
  }

  /** The pieces of a split, glued back together without separators, are the
      string with every separator removed. */
  lemma {:induction false} ConcatSplit(s: string, c: char)
    ensures Concat(Split(s, c)) == Remove(s, c)
    decreases |s|
  {
    var i := IndexOf(s, c);
    if i == |s| {
      SplitNoSeparator(s, c);
      RemoveAbsent(s, c);
      assert Concat([s]) == s + Concat([]);
    } else {
      var head, tail := s[..i], s[i + 1..];
      SplitAt(s, c, i);
      ConcatCons(head, Split(tail, c));
      ConcatSplit(tail, c);
      RemoveAtFirst(s, c, i);
    }
  }

  /** Removing separators around the first one. */
  lemma RemoveAtFirst(s: string, c: char, i: nat)
    requires i < |s| && s[i] == c && forall j :: 0 <= j < i ==> s[j] != c
    ensures Remove(s, c) == s[..i] + Remove(s[i + 1..], c)
  {
    assert s == s[..i] + [c] + s[i + 1..];
    assert c !in s[..i];
    RemoveSeparator(s[..i], s[i + 1..], c);
  }

  lemma ConcatCons(w: string, rest: seq<string>)
    ensures Concat([w] + rest) == w + Concat(rest)
  {
    assert ([w] + rest)[1..] == rest;
  }

  lemma RemoveSeparatorFirst(c: char, tail: string)
    ensures Remove([c] + tail, c) == Remove(tail, c)
  {
    assert ([c] + tail)[1..] == tail;
  }

  lemma {:induction false} RemoveSeparator(head: string, tail: string, c: char)
    requires c !in head
    ensures Remove(head + [c] + tail, c) == head + Remove(tail, c)
  {
    var x := [c] + tail;
    assert head + [c] + tail == head + x;
    RemoveAppend(head, x, c);
    RemoveSeparatorFirst(c, tail);
    RemoveAbsent(head, c);
  }

  // ---------------------------------------------------------------------------
  // numbers

  function DigitChar(d: nat): (c: char)
    requires d < 10
    ensures IsDigit(c)
  {
    ('0' as int + d) as char
  }

  function DigitValue(c: char): nat
    requires IsDigit(c)
  {
    c as int - '0' as int
  }

  /** Decimal rendering of a count, as JavaScript's template literals render
      a non-negative integer. */
  function NatToString(n: nat): (r: string)
    ensures |r| >= 1
    ensures forall i :: 0 <= i < |r| ==> IsDigit(r[i])
    ensures n >= 10 ==> r[0] != '0'
    decreases n
  {
    if n < 10 then [DigitChar(n)] else NatToString(n / 10) + [DigitChar(n % 10)]
  }

  function ParseNat(s: string): nat
    requires forall i :: 0 <= i < |s| ==> IsDigit(s[i])
    decreases |s|
  {
    if |s| == 0 then 0 else 10 * ParseNat(s[..|s| - 1]) + DigitValue(s[|s| - 1])
  }

  /** Reading the decimal rendering back yields the number. */
  lemma {:induction false} ParseNatToString(n: nat)
    ensures ParseNat(NatToString(n)) == n
    decreases n
  {
    if n >= 10 {
      ParseNatToString(n / 10);
      var s := NatToString(n);
      assert s[..|s| - 1] == NatToString(n / 10);
    }
  }

  /** JavaScript's `length`: the number of UTF-16 code units, two for a code
      point above U+FFFF. */
  function Utf16Length(s: string): (n: nat)
    ensures |s| <= n <= 2 * |s|
    decreases |s|
  {
    if |s| == 0 then 0
    else (if s[0] as int > 0xFFFF then 2 else 1) + Utf16Length(s[1..])
  }

  /** The number of bytes UTF-8 spends on one code point. */
  function Utf8Width(c: char): (w: nat)
    ensures 1 <= w <= 4
    ensures w == 1 <==> c as int < 0x80
  {
    if c as int < 0x80 then 1
    else if c as int < 0x800 then 2
    else if c as int < 0x10000 then 3
    else 4
  }

  /** The length of `s` in UTF-8 bytes. */
  function Utf8Length(s: string): (n: nat)
    ensures |s| <= n <= 4 * |s|
    decreases |s|
  {
    if |s| == 0 then 0 else Utf8Width(s[0]) + Utf8Length(s[1..])
  }

  /** A string of ASCII characters takes one byte per character. */
  lemma {:induction false} AsciiUtf8Length(s: string)
    requires forall i :: 0 <= i < |s| ==> s[i] as int < 0x80
    ensures Utf8Length(s) == |s|
    decreases |s|
  {
    if |s| > 0 {
      AsciiUtf8Length(s[1..]);
    }
  }

  /** The longest prefix of `s`, in whole characters, that fits in `budget`
      bytes of UTF-8. Its properties are `ClipUtf8Fits`. */
  function ClipUtf8(s: string, budget: nat): string
    decreases |s|
  {
    if |s| == 0 || Utf8Width(s[0]) > budget then ""
    else [s[0]] + ClipUtf8(s[1..], budget - Utf8Width(s[0]))
  }

  /** The clipped text is a prefix of `s` within the budget, no character
      more would fit, and a text within the budget is kept whole. */
  lemma {:induction false} ClipUtf8Fits(s: string, budget: nat)
    ensures var r := ClipUtf8(s, budget);
      && |r| <= |s| && r == s[..|r|]
      && Utf8Length(r) <= budget
      && (|r| < |s| ==> Utf8Length(r) + Utf8Width(s[|r|]) > budget)
      && (Utf8Length(s) <= budget ==> r == s)
    decreases |s|
  {
    if |s| == 0 || Utf8Width(s[0]) > budget {
    } else {
      var rest := ClipUtf8(s[1..], budget - Utf8Width(s[0]));
      ClipUtf8Fits(s[1..], budget - Utf8Width(s[0]));
      var r := [s[0]] + rest;
      assert r[1..] == rest;
      assert |rest| < |s[1..]| ==> s[1..][|rest|] == s[|r|];
      assert s == [s[0]] + s[1..];
    }
  }
}
