/** The listing-query builder shared by the audio and genre listings: the
    pagination parameters' schema, the ORDER BY terms derived from `sortBy`
    and `sortOrder`, and the full-text search condition derived from free
    text. The model produces abstract terms, a prefix-match query string and
    per-column weights; it never produces SQL. */
module Pagination {
  import opened Strings
  import opened Seqs
  import opened Errors

  datatype SortOrder = Asc | Desc

  /** A column as the ORM describes it: the name of its table and its own name. */
  datatype PgColumn = PgColumn(table: string, name: string)

  /** What an ORDER BY term sorts on: a bare identifier, or a column
      qualified by its table. */
  datatype ColumnRef = Identifier(name: string) | Qualified(table: string, column: string)

  datatype OrderTerm = OrderTerm(column: ColumnRef, order: SortOrder)

  /** The query parameters of a listing request; `textSearch` is the field the
      audio and genre listings add to the common ones. `offset` and `limit`
      are JavaScript numbers, which need not be whole. */
  datatype PaginationFilter = PaginationFilter(
    offset: Option<real>,
    limit: Option<real>,
    sortBy: Option<string>,
    sortOrder: Option<string>,
    textSearch: Option<string>)

  const DefaultOffset: nat := 0
  const DefaultLimit: nat := 10
  const DefaultSortColumn: string := "updatedAt"

  // ---------------------------------------------------------------------------
  // schema

  /** The `sortOrder` pattern `^(asc|desc)(,(asc|desc))*$`, read left to right. */
  predicate MatchesSortOrderPattern(s: string)
    decreases |s|
  {
    || s == "asc" || s == "desc"
    || (|s| > 4 && s[..4] == "asc," && MatchesSortOrderPattern(s[4..]))
    || (|s| > 5 && s[..5] == "desc," && MatchesSortOrderPattern(s[5..]))
  }

  predicate IsSortWord(w: string) { w == "asc" || w == "desc" }

  /** The schema's constraints: `offset >= 0`, `limit >= 1`, and a `sortOrder`
      matching the pattern. */
  predicate SchemaValid(f: PaginationFilter)
  {
    && (f.offset.Some? ==> f.offset.value >= 0.0)
    && (f.limit.Some? ==> f.limit.value >= 1.0)
    && (f.sortOrder.Some? ==> MatchesSortOrderPattern(f.sortOrder.value))
  }

  predicate AllSortWords(parts: seq<string>)
  {
    forall k :: 0 <= k < |parts| ==> IsSortWord(parts[k])
  }

  lemma {:induction false} AllSortWordsCons(w: string, rest: seq<string>)
    ensures AllSortWords([w] + rest) <==> IsSortWord(w) && AllSortWords(rest)
  {
    var parts := [w] + rest;
    if IsSortWord(w) && AllSortWords(rest) {
      forall k | 0 <= k < |parts| ensures IsSortWord(parts[k]) {
        if k > 0 { assert parts[k] == rest[k - 1]; }
      }
    }
    if AllSortWords(parts) {
      assert IsSortWord(parts[0]);
      forall k | 0 <= k < |rest| ensures IsSortWord(rest[k]) {
        assert rest[k] == parts[k + 1];
      }
    }
  }

  lemma SortWordsHaveNoComma(w: string)
    requires IsSortWord(w)
    ensures ',' !in w
  {
  }

  /** Without a comma only the single-word alternative can match. */
  lemma PatternWithoutComma(s: string)
    requires ',' !in s
    ensures MatchesSortOrderPattern(s) <==> IsSortWord(s)
  {
    if |s| > 4 { assert s[3] == s[..4][3] && s[3] in s; }
    if |s| > 5 { assert s[4] == s[..5][4] && s[4] in s; }
  }

  /** A leading `w,` puts the first comma right after `w`. */
  lemma FirstCommaAfterWord(s: string, i: nat, w: string)
    requires i < |s| && s[i] == ',' && forall j :: 0 <= j < i ==> s[j] != ','
    requires IsSortWord(w) && |s| > |w| + 1 && s[..|w| + 1] == w + ","
    ensures i == |w| && s[..i] == w
  {
    SortWordsHaveNoComma(w);
    assert s[|w|] == s[..|w| + 1][|w|];
    forall j | 0 <= j < |w| ensures s[j] != ',' {
      assert s[j] == s[..|w| + 1][j] == w[j];
    }
    assert s[..|w|] == s[..|w| + 1][..|w|];
  }

  /** A first entry `w` followed by the comma starts the string with `w,`. */
  lemma WordBeforeFirstComma(s: string, i: nat, w: string)
    requires i < |s| && s[i] == ','
    requires IsSortWord(w) && s[..i] == w
    ensures s[..i + 1] == w + ","
  {
    assert s[..i + 1] == s[..i] + [s[i]];
  }

  /** At the first comma the pattern reads a sort word and then starts
      again. */
  lemma PatternAtComma(s: string, i: nat)
    requires i < |s| && s[i] == ',' && forall j :: 0 <= j < i ==> s[j] != ','
    ensures MatchesSortOrderPattern(s) <==> IsSortWord(s[..i]) && MatchesSortOrderPattern(s[i + 1..])
  {
    assert !IsSortWord(s) by {
      if IsSortWord(s) { SortWordsHaveNoComma(s); }
    }
    var head := s[..i];
    if IsSortWord(head) {
      WordBeforeFirstComma(s, i, head);
    }
    if |s| > 4 && s[..4] == "asc," {
      FirstCommaAfterWord(s, i, "asc");
    }
    if |s| > 5 && s[..5] == "desc," {
      FirstCommaAfterWord(s, i, "desc");
    }
  }

  /** A `sortOrder` matches the schema's pattern exactly when it is a
      comma-separated list whose every entry is `asc` or `desc`. */
  lemma {:induction false} SortOrderPatternIsWordList(s: string)
    ensures MatchesSortOrderPattern(s) <==> AllSortWords(Split(s, ','))
    decreases |s|
  {
    var i := IndexOf(s, ',');
    if i == |s| {
      SplitNoSeparator(s, ',');
      AllSortWordsCons(s, []);
      PatternWithoutComma(s);
    } else {
      SplitAt(s, ',', i);
      AllSortWordsCons(s[..i], Split(s[i + 1..], ','));
      SortOrderPatternIsWordList(s[i + 1..]);
      PatternAtComma(s, i);
    }
  }

  // ---------------------------------------------------------------------------
  // ORDER BY

  /** The columns to sort on: `sortBy` split on commas, or the default column
      when `sortBy` is absent or empty. */
  function SortColumns(sortBy: Option<string>, defaultSortCol: string): (cols: seq<string>)
    ensures |cols| >= 1
    ensures sortBy.None? || sortBy.value == "" ==> cols == [defaultSortCol]
    ensures sortBy.Some? && sortBy.value != "" ==>
      Join(cols, ",") == sortBy.value && forall k :: 0 <= k < |cols| ==> ',' !in cols[k]
  {
    if sortBy.Some? && sortBy.value != "" then
      JoinSplit(sortBy.value, ',');
      Split(sortBy.value, ',')
    else [defaultSortCol]
  }

  /** The requested directions: `sortOrder` split on commas, or `["desc"]`
      when it is absent or empty. */
  function SortDirections(sortOrder: Option<string>): (dirs: seq<string>)
    ensures |dirs| >= 1
    ensures sortOrder.None? || sortOrder.value == "" ==> dirs == ["desc"]
    ensures sortOrder.Some? && sortOrder.value != "" ==> Join(dirs, ",") == sortOrder.value
  {
    if sortOrder.Some? && sortOrder.value != "" then
      JoinSplit(sortOrder.value, ',');
      Split(sortOrder.value, ',')
    else ["desc"]
  }

  /** Pads `dirs` with `"desc"` up to `n` entries. */
  function PadWithDesc(dirs: seq<string>, n: nat): (r: seq<string>)
    ensures |r| == if |dirs| < n then n else |dirs|
    ensures r[..|dirs|] == dirs
    ensures forall i :: |dirs| <= i < |r| ==> r[i] == "desc"
  {
    if |dirs| < n then dirs + seq(n - |dirs|, _ => "desc") else dirs
  }

  /** The `switch` on one entry: `"asc"` sorts ascending, anything else
      descending. */
  function Direction(entry: string): (d: SortOrder)
    ensures d == Asc <==> entry == "asc"
  {
    if entry == "asc" then Asc else Desc
  }

  /** The error raised for a field the caller's mapping does not cover. */
  function NoSortingFor(colName: string): Fault
  {
    NewError(NotImplemented, Some("no sorting implemented for - " + colName + "."), None)
  }

  /** `getSortSQL`: look a field up in the caller's mapping; a missing entry
      fails with `NotImplemented`. */
  function GetSortColumn(colName: string, mapping: map<string, PgColumn>, snake: string -> string): (r: Result<ColumnRef>)
    ensures r.Ok? <==> colName in mapping
    ensures r.Err? ==> r.error == NoSortingFor(colName) && r.error.Custom? && StatusCode(r.error.kind) == 501
  {
    if colName in mapping then
      var column := mapping[colName];
      Ok(Qualified(column.table, snake(column.name)))
    else Err(NoSortingFor(colName))
  }

  /** Index of the first field the mapping lacks, or `|names|` when it has
      them all. */
  function FirstUnmapped(names: seq<string>, mapping: map<string, PgColumn>): (i: nat)
    ensures i <= |names|
    ensures i < |names| ==> names[i] !in mapping
    ensures forall j :: 0 <= j < i ==> names[j] in mapping
    decreases |names|
  {
    if |names| == 0 then 0
    else if names[0] !in mapping then 0
    else 1 + FirstUnmapped(names[1..], mapping)
  }

  /** `columnsToSort`: without a mapping every name becomes its snake-cased
      identifier; with one, every name is resolved through it and the first
      missing name aborts the whole list. */
  function ColumnsToSort(names: seq<string>, mapping: Option<map<string, PgColumn>>, snake: string -> string): (r: Result<seq<ColumnRef>>)
    ensures r.Ok? ==> |r.value| == |names|
    ensures mapping.None? ==> r.Ok? && forall i :: 0 <= i < |names| ==> r.value[i] == Identifier(snake(names[i]))
    ensures mapping.Some? ==> (r.Ok? <==> FirstUnmapped(names, mapping.value) == |names|)
    ensures mapping.Some? && r.Ok? ==> forall i :: 0 <= i < |names| ==>
      r.value[i] == Qualified(mapping.value[names[i]].table, snake(mapping.value[names[i]].name))
    ensures mapping.Some? && r.Err? ==>
      FirstUnmapped(names, mapping.value) < |names| &&
      r.error == NoSortingFor(names[FirstUnmapped(names, mapping.value)])
    decreases |names|
  {
    if mapping.None? then
      Ok(seq(|names|, i requires 0 <= i < |names| => Identifier(snake(names[i]))))
    else if |names| == 0 then Ok([])
    else
      match GetSortColumn(names[0], mapping.value, snake)
      case Err(e) => Err(e)
      case Ok(c) =>
        match ColumnsToSort(names[1..], mapping, snake)
        case Err(e) => Err(e)
        case Ok(cs) => Ok([c] + cs)
  }

  /** `queryOrderBy`: one ORDER BY term per requested column, in request
      order. Entry `i` of `sortOrder` gives column `i` its direction; columns
      without an entry sort descending and surplus entries are ignored. */
  function QueryOrderBy(
    sortBy: Option<string>,
    sortOrder: Option<string>,
    mapping: Option<map<string, PgColumn>>,
    snake: string -> string,
    defaultSortCol: string
  ): (r: Result<seq<OrderTerm>>)
    ensures var cols := SortColumns(sortBy, defaultSortCol);
      var dirs := SortDirections(sortOrder);
      && (r.Ok? ==> |r.value| == |cols|)
      && (r.Ok? ==> forall i :: 0 <= i < |cols| ==>
            (r.value[i].order == Asc <==> i < |dirs| && dirs[i] == "asc"))
      && (mapping.None? ==> r.Ok? && forall i :: 0 <= i < |cols| ==>
            r.value[i].column == Identifier(snake(cols[i])))
      && (mapping.Some? ==> (r.Ok? <==> forall i :: 0 <= i < |cols| ==> cols[i] in mapping.value))
      && (mapping.Some? && r.Err? ==> exists i :: 0 <= i < |cols| && r.error == NoSortingFor(cols[i]))
  {
    var cols := SortColumns(sortBy, defaultSortCol);
    var dirs := PadWithDesc(SortDirections(sortOrder), |cols|);
    match ColumnsToSort(cols, mapping, snake)
    case Err(e) => Err(e)
    case Ok(refs) =>
      Ok(seq(|refs|, i requires 0 <= i < |refs| => OrderTerm(refs[i], Direction(dirs[i]))))
  }

  /** With every parameter absent, listings sort by `updatedAt`, newest first. */
  lemma {:induction false} DefaultOrdering(snake: string -> string)
    ensures QueryOrderBy(None, None, None, snake, DefaultSortColumn)
         == Ok([OrderTerm(Identifier(snake("updatedAt")), Desc)])
  {
    var r := QueryOrderBy(None, None, None, snake, DefaultSortColumn);
    assert r.Ok? && |r.value| == 1;
    assert r.value[0] == OrderTerm(Identifier(snake("updatedAt")), Desc);
    assert r.value == [r.value[0]];
  }

  /** `sortBy=a,b` with `sortOrder=asc` (for instance `name,artist`) sorts
      ascending on `a`, then descending (padded) on `b`. */
  lemma {:induction false} PaddingExample(snake: string -> string, a: string, b: string)
    requires ',' !in a && ',' !in b
    ensures QueryOrderBy(Some(a + "," + b), Some("asc"), None, snake, DefaultSortColumn)
         == Ok([OrderTerm(Identifier(snake(a)), Asc), OrderTerm(Identifier(snake(b)), Desc)])
  {
    SplitFirst(a, ',', b);
    SplitNoSeparator(b, ',');
    SplitNoSeparator("asc", ',');
    var sortBy := a + "," + b;
    assert sortBy == a + [','] + b;
    assert SortColumns(Some(sortBy), DefaultSortColumn) == [a, b];
    assert SortDirections(Some("asc")) == ["asc"];
    var r := QueryOrderBy(Some(sortBy), Some("asc"), None, snake, DefaultSortColumn);
    assert r.Ok? && |r.value| == 2;
    assert r.value[0] == OrderTerm(Identifier(snake(a)), Asc);
    assert r.value[1] == OrderTerm(Identifier(snake(b)), Desc);
    assert r.value == [r.value[0], r.value[1]];
  }

  // ---------------------------------------------------------------------------
  // full-text search

  /** The four weight tiers, `A` the highest. */
  datatype Weight = A | B | C | D
  {
    function Rank(): nat
    {
      match this
      case A => 3
      case B => 2
      case C => 1
      case D => 0
    }
  }

  datatype WeightedColumn = WeightedColumn(column: PgColumn, weight: Weight)

  /** The WHERE condition a listing's search produces: no filter at all, or a
      weighted search vector over columns matched against a prefix query. */
  datatype SearchCondition =
    | MatchAll
    | FullText(vector: seq<WeightedColumn>, query: string)

  /** Characters the search text may not pass on to the query parser. */
  predicate IsQueryMeta(c: char)
  {
    c == '(' || c == ')' || c == '&' || c == '|' || c == '!' || c == '<' || c == '>'
  }

  /** The search text trimmed, lower-cased, with every operator character
      replaced by a space: position for position, the trimmed text with each
      metacharacter blanked and each letter lowered. */
  function NormalizeSearchText(text: string): (r: string)
    ensures |r| == |Trim(text)|
    ensures forall i :: 0 <= i < |r| ==>
      r[i] == (if IsQueryMeta(Trim(text)[i]) then ' ' else LowerChar(Trim(text)[i]))
    ensures forall i :: 0 <= i < |r| ==> !IsQueryMeta(r[i]) && !IsAsciiUpper(r[i])
  {
    var t := ToLower(Trim(text));
    seq(|t|, i requires 0 <= i < |t| => if IsQueryMeta(t[i]) then ' ' else t[i])
  }

  predicate NonEmpty(w: string) { |w| > 0 }

  lemma {:induction false} ConcatDropsEmpty(parts: seq<string>)
    ensures Concat(Filter(parts, NonEmpty)) == Concat(parts)
    decreases |parts|
  {
    if |parts| > 0 {
      ConcatDropsEmpty(parts[1..]);
    }
  }

  /** The words of `s`, read one character at a time: a space ends the
      current word, any other character extends it or opens a new one. */
  function Words(s: string): (words: seq<string>)
    ensures |s| > 0 && s[0] != ' ' ==> |words| > 0
    decreases |s|
  {
    if |s| == 0 then []
    else if s[0] == ' ' then Words(s[1..])
    else
      var rest := Words(s[1..]);
      if |s| > 1 && s[1] != ' ' then [[s[0]] + rest[0]] + rest[1..] else [[s[0]]] + rest
  }

  lemma FilterCons(x: string, rest: seq<string>)
    ensures Filter([x] + rest, NonEmpty) == (if |x| > 0 then [x] else []) + Filter(rest, NonEmpty)
  {
    assert ([x] + rest)[1..] == rest;
  }

  /** The first piece of a split that starts inside a word is that word's
      remainder, so it is non-empty exactly when the word goes on. */
  lemma FirstPieceNonEmpty(s: string)
    requires |s| > 0
    ensures |Split(s, ' ')[0]| > 0 <==> s[0] != ' '
  {
    if s[0] == ' ' {
      SplitAt(s, ' ', 0);
    } else {
      SplitConsChar(s, ' ');
    }
  }

  /** Splitting on single spaces and dropping the empty pieces yields exactly
      the words: the runs of non-space characters, in order. */
  lemma {:induction false} SplitWords(s: string)
    ensures Filter(Split(s, ' '), NonEmpty) == Words(s)
    decreases |s|
  {
    if |s| > 0 {
      SplitWords(s[1..]);
      var tail := Split(s[1..], ' ');
      var q0, qs := tail[0], tail[1..];
      assert tail == [q0] + qs;
      if s[0] == ' ' {
        SplitAt(s, ' ', 0);
        FilterCons("", tail);
      } else {
        SplitConsChar(s, ' ');
        FilterCons([s[0]] + q0, qs);
        FilterCons(q0, qs);
        var rest := Words(s[1..]);
        if |s| > 1 && s[1] != ' ' {
          FirstPieceNonEmpty(s[1..]);
          assert rest == [q0] + Filter(qs, NonEmpty);
          assert Words(s) == [[s[0]] + q0] + Filter(qs, NonEmpty);
        } else {
          if |s| > 1 {
            FirstPieceNonEmpty(s[1..]);
          } else {
            assert s[1..] == "" && tail == [""];
          }
          assert q0 == "" && [s[0]] + q0 == [s[0]];
          assert rest == Filter(qs, NonEmpty);
          assert Words(s) == [[s[0]]] + rest;
        }
      }
    }
  }

  /** The search words: the normalized text split on single spaces with the
      empty pieces dropped, which are the words of the normalized text. */
  function SearchTokens(text: string): (tokens: seq<string>)
    ensures tokens == Words(NormalizeSearchText(text))
    ensures forall k :: 0 <= k < |tokens| ==> |tokens[k]| > 0 && ' ' !in tokens[k]
    ensures forall k, j :: 0 <= k < |tokens| && 0 <= j < |tokens[k]| ==>
      !IsQueryMeta(tokens[k][j]) && !IsAsciiUpper(tokens[k][j])
    ensures Concat(tokens) == Remove(NormalizeSearchText(text), ' ')
  {
    var norm := NormalizeSearchText(text);
    var parts := Split(norm, ' ');
    ConcatSplit(norm, ' ');
    ConcatDropsEmpty(parts);
    SplitPiecesFrom(norm, ' ');
    SplitWords(norm);
    Filter(parts, NonEmpty)
  }

  /** `word:*` for every word, joined by `" & "`; empty exactly when there
      are no words. */
  function PrefixQuery(tokens: seq<string>): (q: string)
    ensures q == "" <==> |tokens| == 0
  {
    var w := seq(|tokens|, i requires 0 <= i < |tokens| => tokens[i] + ":*");
    assert |tokens| >= 2 ==> Join(w, " & ") == w[0] + " & " + Join(w[1..], " & ");
    assert |tokens| == 1 ==> Join(w, " & ") == w[0];
    Join(w, " & ")
  }

  function DropWildcard(piece: string): string
  {
    if |piece| >= 2 && piece[|piece| - 2..] == ":*" then piece[..|piece| - 2] else piece
  }

  function DecodePieces(pieces: seq<string>): seq<string>
    decreases |pieces|
  {
    if |pieces| == 0 then []
    else [DropWildcard(pieces[0])] + (if |pieces| > 2 then DecodePieces(pieces[2..]) else [])
  }

  /** Reads a prefix query back into its words: split on spaces, keep every
      other piece, drop the `:*`. */
  function DecodeQuery(query: string): seq<string>
  {
    if query == "" then [] else DecodePieces(Split(query, ' '))
  }

  lemma DropWildcardWord(t: string)
    ensures DropWildcard(t + ":*") == t
  {
    assert (t + ":*")[|t + ":*"| - 2..] == ":*";
    assert (t + ":*")[..|t|] == t;
  }

  lemma {:induction false} PrefixQueryCons(tokens: seq<string>)
    requires |tokens| >= 2
    ensures PrefixQuery(tokens) == (tokens[0] + ":*") + " & " + PrefixQuery(tokens[1..])
  {
    var w := seq(|tokens|, i requires 0 <= i < |tokens| => tokens[i] + ":*");
    var rest := tokens[1..];
    assert w[1..] == seq(|rest|, i requires 0 <= i < |rest| => rest[i] + ":*");
  }

  lemma SplitWordAmp(t: string, q: string)
    requires ' ' !in t
    ensures Split((t + ":*") + " & " + q, ' ') == [t + ":*", "&"] + Split(q, ' ')
  {
    assert (t + ":*") + " & " + q == (t + ":*") + [' '] + ("&" + [' '] + q);
    SplitFirst(t + ":*", ' ', "&" + [' '] + q);
    SplitFirst("&", ' ', q);
  }

  lemma {:induction false} DecodePrefixPieces(tokens: seq<string>)
    requires |tokens| >= 1
    requires forall k :: 0 <= k < |tokens| ==> ' ' !in tokens[k]
    ensures DecodePieces(Split(PrefixQuery(tokens), ' ')) == tokens
    decreases |tokens|
  {
    var t := tokens[0];
    DropWildcardWord(t);
    if |tokens| == 1 {
      assert PrefixQuery(tokens) == t + ":*";
      IndexOfUnique(t + ":*", ' ', |t| + 2);
      assert Split(t + ":*", ' ') == [t + ":*"];
    } else {
      var rest := tokens[1..];
      var q := PrefixQuery(rest);
      PrefixQueryCons(tokens);
      SplitWordAmp(t, q);
      DecodePrefixPieces(rest);
      var pieces := Split(PrefixQuery(tokens), ' ');
      assert pieces[2..] == Split(q, ' ');
      assert DecodePieces(pieces) == [t] + DecodePieces(Split(q, ' '));
    }
  }

  /** `pieces` alternate `word:*`, one per word of `tokens` in order, with
      the `&` operator between consecutive words. */
  predicate AlternatesWords(pieces: seq<string>, tokens: seq<string>)
  {
    && |pieces| == 2 * |tokens| - 1
    && (forall k :: 0 <= k < |tokens| ==> pieces[2 * k] == tokens[k] + ":*")
    && (forall k :: 0 <= k < |tokens| - 1 ==> pieces[2 * k + 1] == "&")
  }

  lemma AlternatesCons(t: string, rest: seq<string>, more: seq<string>)
    requires |rest| >= 1 && AlternatesWords(more, rest)
    ensures AlternatesWords([t + ":*", "&"] + more, [t] + rest)
  {
    var pieces, tokens := [t + ":*", "&"] + more, [t] + rest;
    forall k | 1 <= k < |tokens| ensures pieces[2 * k] == tokens[k] + ":*" {
      assert pieces[2 * k] == more[2 * (k - 1)];
    }
    forall k | 1 <= k < |tokens| - 1 ensures pieces[2 * k + 1] == "&" {
      assert pieces[2 * k + 1] == more[2 * (k - 1) + 1];
    }
  }

  /** The query's space-separated pieces alternate `word:*`, one per word in
      order, with the `&` operator between consecutive words. */
  lemma {:induction false} PrefixQueryPieces(tokens: seq<string>)
    requires |tokens| >= 1
    requires forall k :: 0 <= k < |tokens| ==> ' ' !in tokens[k]
    ensures AlternatesWords(Split(PrefixQuery(tokens), ' '), tokens)
    decreases |tokens|
  {
    var t := tokens[0];
    if |tokens| == 1 {
      assert PrefixQuery(tokens) == t + ":*";
      IndexOfUnique(t + ":*", ' ', |t| + 2);
      assert Split(PrefixQuery(tokens), ' ') == [t + ":*"];
    } else {
      var rest := tokens[1..];
      var q := PrefixQuery(rest);
      PrefixQueryCons(tokens);
      SplitWordAmp(t, q);
      PrefixQueryPieces(rest);
      AlternatesCons(t, rest, Split(q, ' '));
      assert tokens == [t] + rest;
    }
  }

  /** Decoding the query string gives back exactly the search words: the
      query loses and invents nothing. */
  lemma {:induction false} DecodeSearchQuery(text: string)
    ensures DecodeQuery(PrefixQuery(SearchTokens(text))) == SearchTokens(text)
  {
    var tokens := SearchTokens(text);
    if |tokens| > 0 {
      DecodePrefixPieces(tokens);
    }
  }

  /** Search text made only of whitespace is not short-circuited to `TRUE`:
      it yields an empty query. */
  lemma {:induction false} WhitespaceSearchIsEmptyQuery(text: string)
    requires forall i :: 0 <= i < |text| ==> IsSpace(text[i])
    ensures SearchTokens(text) == []
    ensures PrefixQuery(SearchTokens(text)) == ""
  {
    assert |Trim(text)| == 0;
    assert NormalizeSearchText(text) == [];
    assert Split([], ' ') == [[]];
  }

  /** Only the space separates search words: a tab stays inside its word,
      so `a<TAB>b` is one word and one query term. */
  lemma TabStaysInWord()
    ensures SearchTokens("a\tb") == ["a\tb"]
    ensures PrefixQuery(SearchTokens("a\tb")) == "a\tb:*"
  {
    assert Trim("a\tb") == "a\tb";
    assert NormalizeSearchText("a\tb") == "a\tb";
    assert Words("b") == ["b"];
    assert "a\tb"[1..] == "\tb" && "\tb"[1..] == "b";
    assert ['\t'] + "b" == "\tb" && ['a'] + "\tb" == "a\tb";
    assert Words("\tb") == ["\tb"];
    assert Words("a\tb") == ["a\tb"];
    assert PrefixQuery(["a\tb"]) == "a\tb:*";
  }

  /** The weight of the column at position `i`: `A`, `B`, `C`, `D`, then `D`
      for every later column. */
  function WeightAt(i: nat): (w: Weight)
    ensures i == 0 ==> w == A
    ensures i == 1 ==> w == B
    ensures i == 2 ==> w == C
    ensures i >= 3 ==> w == D
  {
    var levels := [A, B, C, D];
    if i < |levels| then levels[i] else D
  }

  /** The search vector: every column with its weight, in column order, the
      weights never increasing along the list. */
  function SearchVector(columns: seq<PgColumn>): (v: seq<WeightedColumn>)
    ensures |v| == |columns|
    ensures forall i :: 0 <= i < |columns| ==> v[i].column == columns[i] && v[i].weight == WeightAt(i)
    ensures forall i, j :: 0 <= i <= j < |v| ==> v[i].weight.Rank() >= v[j].weight.Rank()
  {
    seq(|columns|, i requires 0 <= i < |columns| => WeightedColumn(columns[i], WeightAt(i)))
  }

  /** `generateTextSearchCondition`: no text gives the always-true condition;
      otherwise every column joins the search vector with its weight and the
      text becomes a prefix-match query. An empty column list cannot be folded
      into a vector and throws. */
  function GenerateTextSearchCondition(columns: seq<PgColumn>, searchText: Option<string>): (r: Result<SearchCondition>)
    ensures searchText.None? || searchText.value == "" ==> r == Ok(MatchAll)
    ensures searchText.Some? && searchText.value != "" && |columns| == 0 ==> r.Err? && r.error.Other?
    ensures searchText.Some? && searchText.value != "" && |columns| > 0 ==>
      && r.Ok? && r.value.FullText?
      && r.value.vector == SearchVector(columns)
      && r.value.query == PrefixQuery(SearchTokens(searchText.value))
      && DecodeQuery(r.value.query) == SearchTokens(searchText.value)
  {
    if searchText.None? || searchText.value == "" then Ok(MatchAll)
    else if |columns| == 0 then Err(Other(None, "Reduce of empty array with no initial value"))
    else
      DecodeSearchQuery(searchText.value);
      Ok(FullText(SearchVector(columns), PrefixQuery(SearchTokens(searchText.value))))
  }

  /** Whether a row whose searched columns hold `values` passes `cond`;
      `tsMatch` stands for the database's full-text match, which is not modelled. */
  predicate Satisfies(cond: SearchCondition, values: seq<string>, tsMatch: (SearchCondition, seq<string>) -> bool)
  {
    cond.MatchAll? || tsMatch(cond, values)
  }
}
