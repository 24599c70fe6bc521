/** The count-then-page query both listings run: count the rows a filter
    lets through, then return the filtered rows, ordered by the database,
    after skipping `offset` and taking at most `limit`. */
module Listing {
  import opened Seqs
  import opened Errors
  import opened Strings
  import opened Pagination
  import opened Tables

  /** A listing response: the total number of matching rows and one page of
      them. */
  datatype Page<T> = Page(total: nat, data: seq<T>)

  /** The database's ORDER BY: given the terms and the filtered rows, some
      arrangement of those same rows. How ties and terms are resolved is the
      engine's business. */
  type Ordering<!T> = (seq<OrderTerm>, seq<T>) -> seq<T>

  ghost predicate IsOrdering<T(!new)>(order: Ordering<T>)
  {
    forall terms: seq<OrderTerm>, rows: seq<T> :: multiset(order(terms, rows)) == multiset(rows)
  }

  /** `SELECT count(*) WHERE visible`, then `SELECT … WHERE visible ORDER BY
      terms LIMIT limit OFFSET offset`. */
  function CountThenPage<T(!new)>(
    table: seq<T>,
    visible: T -> bool,
    terms: seq<OrderTerm>,
    order: Ordering<T>,
    offset: nat,
    limit: nat
  ): (page: Page<T>)
    requires IsOrdering(order)
    ensures page.total == |Filter(table, visible)|
    ensures |page.data| <= limit && |page.data| <= page.total
    ensures |page.data| == Min(limit, if offset < page.total then page.total - offset else 0)
    ensures forall i :: 0 <= i < |page.data| ==> page.data[i] in table && visible(page.data[i])
    ensures |order(terms, Filter(table, visible))| == page.total
    ensures forall i :: 0 <= i < |page.data| ==>
      offset + i < page.total && page.data[i] == order(terms, Filter(table, visible))[offset + i]
  {
    var rows := Filter(table, visible);
    var ordered := order(terms, rows);
    var data := Window(ordered, offset, limit);
    assert |ordered| == |rows| by {
      assert |multiset(ordered)| == |multiset(rows)|;
    }
    assert forall i :: 0 <= i < |data| ==> data[i] in rows by {
      forall i | 0 <= i < |data| ensures data[i] in rows {
        PermutedMember(rows, ordered, offset + i);
      }
    }
    Page(|rows|, data)
  }

  /** The page depends on the table only through the rows the filter lets
      through: two tables that agree on those give the same page. */
  lemma {:induction false} PageDependsOnlyOnVisibleRows<T(!new)>(
    table1: seq<T>, table2: seq<T>, visible: T -> bool,
    terms: seq<OrderTerm>, order: Ordering<T>, offset: nat, limit: nat)
    requires IsOrdering(order)
    requires Filter(table1, visible) == Filter(table2, visible)
    ensures CountThenPage(table1, visible, terms, order, offset, limit)
         == CountThenPage(table2, visible, terms, order, offset, limit)
  {
  }

  /** Consecutive pages tile the ordered rows: page `offset` of size `limit`
      followed by the page at `offset + limit` is the page at `offset` of
      size `2 * limit`. */
  lemma {:induction false} ConsecutivePages<T(!new)>(
    table: seq<T>, visible: T -> bool, terms: seq<OrderTerm>, order: Ordering<T>, offset: nat, limit: nat)
    requires IsOrdering(order)
    ensures CountThenPage(table, visible, terms, order, offset, limit).data
          + CountThenPage(table, visible, terms, order, offset + limit, limit).data
         == CountThenPage(table, visible, terms, order, offset, 2 * limit).data
  {
    var a := CountThenPage(table, visible, terms, order, offset, limit).data;
    var b := CountThenPage(table, visible, terms, order, offset + limit, limit).data;
    var c := CountThenPage(table, visible, terms, order, offset, 2 * limit).data;
    var ordered := order(terms, Filter(table, visible));
    assert |a + b| == |c|;
    forall i | 0 <= i < |c| ensures (a + b)[i] == c[i] {
      if i < |a| {
        assert (a + b)[i] == a[i];
      } else {
        assert (a + b)[i] == b[i - |a|];
      }
    }
  }

  /** The ORDER BY terms of a listing: `queryOrderBy` without a mapping, so
      every requested field is taken as its snake-cased column and nothing is
      rejected. */
  function ListingOrder(sortBy: Option<string>, sortOrder: Option<string>, snake: string -> string): (terms: seq<OrderTerm>)
    ensures var cols := SortColumns(sortBy, DefaultSortColumn);
      && |terms| == |cols|
      && forall i :: 0 <= i < |cols| ==> terms[i].column == Identifier(snake(cols[i]))
  {
    QueryOrderBy(sortBy, sortOrder, None, snake, DefaultSortColumn).value
  }

  /** The search condition of a listing that searches one column. */
  function SingleColumnSearch(column: PgColumn, textSearch: Option<string>): (cond: SearchCondition)
    ensures textSearch.None? || textSearch.value == "" ==> cond == MatchAll
    ensures textSearch.Some? && textSearch.value != "" ==>
      && cond.FullText?
      && cond.vector == [WeightedColumn(column, A)]
      && cond.query == PrefixQuery(SearchTokens(textSearch.value))
      && DecodeQuery(cond.query) == SearchTokens(textSearch.value)
  {
    var r := GenerateTextSearchCondition([column], textSearch);
    if r.value.FullText? then
      assert r.value.vector == [WeightedColumn(column, A)] by {
        assert r.value.vector[0] == WeightedColumn(column, A);
      }
      r.value
    else r.value
  }

  /** The largest value of a PostgreSQL `bigint`. */
  const MaxBigint: int := 0x7FFF_FFFF_FFFF_FFFF

  /** From 10^21 up, JavaScript prints a number in exponent form. */
  const ExponentFrom: real := 1000000000000000000000.0

  predicate IsWhole(v: real) { v == v.Floor as real }

  /** Text that is not a `bigint` literal: SQLSTATE 22P02. */
  const BigintSyntaxError: Fault :=
    DrizzleQuery("Failed query", Some(PgCause("22P02", "", "invalid input syntax for type bigint")))

  /** A whole number beyond the `bigint` range: SQLSTATE 22003. */
  const BigintRangeError: Fault :=
    DrizzleQuery("Failed query", Some(PgCause("22003", "", "value is out of range for type bigint")))

  /** A LIMIT or OFFSET value as it reaches the database: the number is sent
      as its text and read as a `bigint`. A whole number in range is taken;
      a fraction, or a number printed with an exponent, is invalid `bigint`
      syntax (SQLSTATE 22P02); a larger whole number is out of range
      (SQLSTATE 22003). Either error fails the query. */
  function BigintParam(v: real): (r: Result<nat>)
    requires v >= 0.0
    ensures r.Ok? <==> IsWhole(v) && v < ExponentFrom && v.Floor <= MaxBigint
    ensures r.Ok? ==> r.value as real == v
    ensures r.Err? ==> r.error == (if !IsWhole(v) || v >= ExponentFrom then BigintSyntaxError else BigintRangeError)
  {
    if !IsWhole(v) || v >= ExponentFrom then Err(BigintSyntaxError)
    else if v.Floor > MaxBigint then Err(BigintRangeError)
    else Ok(v.Floor)
  }

  /** The page size a validated request asks for, `limit ?? 10`, as the
      database reads it: a whole limit is at least 1, a fractional one fails
      the query. */
  function PageLimit(f: PaginationFilter): (r: Result<nat>)
    requires SchemaValid(f)
    ensures f.limit.None? ==> r == Ok(DefaultLimit)
    ensures f.limit.Some? ==> (r.Ok? <==> IsWhole(f.limit.value) && f.limit.value.Floor <= MaxBigint)
    ensures f.limit.Some? && r.Ok? ==> r.value as real == f.limit.value && r.value >= 1
    ensures f.limit.Some? && r.Err? ==> r == Err(BigintParam(f.limit.value).error)
  {
    match f.limit
    case None => Ok(DefaultLimit)
    case Some(v) => BigintParam(v)
  }

  /** The skip a validated request asks for, `offset ?? 0`, as the database
      reads it. */
  function PageOffset(f: PaginationFilter): (r: Result<nat>)
    requires SchemaValid(f)
    ensures f.offset.None? ==> r == Ok(DefaultOffset)
    ensures f.offset.Some? ==> (r.Ok? <==> IsWhole(f.offset.value) && f.offset.value.Floor <= MaxBigint)
    ensures f.offset.Some? && r.Ok? ==> r.value as real == f.offset.value
    ensures f.offset.Some? && r.Err? ==> r == Err(BigintParam(f.offset.value).error)
  {
    match f.offset
    case None => Ok(DefaultOffset)
    case Some(v) => BigintParam(v)
  }

  // ---------------------------------------------------------------------------
  // how the database can refuse a listing query

  /** The text-search part of the filter parses: no search, or a query text
      `to_tsquery` accepts. */
  predicate QueryParses(search: SearchCondition, tsParses: string -> bool)
  {
    search.MatchAll? || tsParses(search.query)
  }

  /** The query text is not valid `tsquery` syntax: SQLSTATE 42601. */
  function TsQuerySyntaxError(query: string): Fault
  {
    DrizzleQuery("Failed query", Some(PgCause("42601", "", "syntax error in tsquery: \"" + query + "\"")))
  }

  /** A quoted identifier with nothing between the quotes: SQLSTATE 42601,
      raised by the parser before any name is looked up. */
  const EmptyIdentifierError: Fault :=
    DrizzleQuery("Failed query", Some(PgCause("42601", "", "zero-length delimited identifier at or near \"\"\"\"")))

  /** An ORDER BY name that is no column of the table: SQLSTATE 42703. */
  function UnknownColumnError(name: string): Fault
  {
    DrizzleQuery("Failed query", Some(PgCause("42703", "", "column \"" + name + "\" does not exist")))
  }

  /** An ORDER BY column whose type has no ordering operator: SQLSTATE 42883. */
  function NoOrderingError(typeName: string): Fault
  {
    DrizzleQuery("Failed query", Some(PgCause("42883", "", "could not identify an ordering operator for type " + typeName)))
  }

  /** The longest identifier the database keeps, in bytes: NAMEDATALEN - 1. */
  const MaxIdentifierBytes: nat := 63

  /** An identifier as the database's scanner keeps it: one longer than
      `MaxIdentifierBytes` bytes of UTF-8 is cut, at a character boundary, to
      the longest prefix that fits. A name of at most 15 characters takes at
      most 60 bytes, so it is kept without being measured. */
  function ClipIdentifier(s: string): string
  {
    if |s| <= 15 then s else ClipUtf8(s, MaxIdentifierBytes)
  }

  /** A name within the limit is kept whole; a longer one keeps the longest
      prefix that fits; only the empty name is kept empty. */
  lemma ClipIdentifierKeeps(s: string)
    ensures var r := ClipIdentifier(s);
      && (Utf8Length(s) <= MaxIdentifierBytes ==> r == s)
      && (Utf8Length(s) > MaxIdentifierBytes ==>
            && |r| < |s| && r == s[..|r|]
            && Utf8Length(r) <= MaxIdentifierBytes < Utf8Length(r) + Utf8Width(s[|r|]))
      && (r == "" <==> s == "")
  {
    ClipUtf8Fits(s, MaxIdentifierBytes);
    var r := ClipIdentifier(s);
    assert |r| == |s| ==> r == s;
  }

  /** An ASCII name longer than 63 characters keeps its first 63. */
  lemma ClipAscii(s: string)
    requires forall i :: 0 <= i < |s| ==> s[i] as int < 0x80
    requires |s| > MaxIdentifierBytes
    ensures ClipIdentifier(s) == s[..MaxIdentifierBytes]
  {
    AsciiUtf8Length(s);
    ClipIdentifierKeeps(s);
    var r := ClipIdentifier(s);
    AsciiUtf8Length(r);
    assert |r| == MaxIdentifierBytes;
  }

  /** A one-part ORDER BY name, as the database keeps it, that can be sorted
      on: a column of the table whose type has an ordering, or, when no
      column has that name, the table's own name, which denotes the whole
      row and sorts when every field does. */
  predicate Sortable(name: string, t: TableSchema)
  {
    var n := ClipIdentifier(name);
    if n in t.Columns() then t.Columns()[n] !in UnorderedTypes
    else n == t.name && RowOrderable(t)
  }

  /** Every term names a bare column, as a listing's terms do. */
  predicate Identifiers(terms: seq<OrderTerm>)
  {
    forall i :: 0 <= i < |terms| ==> terms[i].column.Identifier?
  }

  /** A short name of a column whose type has an ordering can be sorted on. */
  lemma ColumnSortable(name: string, t: TableSchema)
    requires |name| <= 15 && name in t.Columns() && t.Columns()[name] !in UnorderedTypes
    ensures Sortable(name, t)
  {
  }

  /** A short name of a column whose type has no ordering cannot be sorted
      on, and its error names that type. */
  lemma ColumnUnsortable(name: string, t: TableSchema)
    requires |name| <= 15 && name in t.Columns() && t.Columns()[name] in UnorderedTypes
    ensures !Sortable(name, t) && TermFault(name, t) == NoOrderingError(t.Columns()[name])
  {
  }

  /** The table's own name, when no column has it, denotes the whole row:
      it sorts exactly when every field does, and otherwise its error names
      the row type. */
  lemma TableNameResolves(name: string, t: TableSchema)
    requires |name| <= 15 && name == t.name && name !in t.Columns()
    ensures Sortable(name, t) <==> RowOrderable(t)
    ensures !Sortable(name, t) ==> TermFault(name, t) == NoOrderingError(t.name)
  {
  }

  /** An ASCII name longer than 63 characters, against a table whose names
      are all short, is no column: the error names the 63 characters the
      database kept. */
  lemma LongNameUnknown(name: string, t: TableSchema)
    requires forall i :: 0 <= i < |name| ==> name[i] as int < 0x80
    requires |name| > MaxIdentifierBytes
    requires ShortNames(t)
    ensures !Sortable(name, t) && TermFault(name, t) == UnknownColumnError(name[..MaxIdentifierBytes])
  {
    ClipAscii(name);
    var n := name[..MaxIdentifierBytes];
    assert |n| == MaxIdentifierBytes;
  }

  /** The error for a name that cannot be sorted on, naming what the
      database kept of it: a column without an ordering names its type, the
      whole row names the row type (the table's name), and any other name is
      no column. */
  function TermFault(name: string, t: TableSchema): (e: Fault)
  {
    var n := ClipIdentifier(name);
    if n in t.Columns() then NoOrderingError(t.Columns()[n])
    else if n == t.name then NoOrderingError(t.name)
    else UnknownColumnError(n)
  }

  /** Term `k` is the first that cannot be sorted on. */
  predicate FirstUnsortableAt(terms: seq<OrderTerm>, t: TableSchema, k: int)
    requires Identifiers(terms)
  {
    && 0 <= k < |terms|
    && !Sortable(terms[k].column.name, t)
    && forall j :: 0 <= j < k ==> Sortable(terms[j].column.name, t)
  }

  /** Terms are resolved in order, so the error reported is that of the
      first term that cannot be sorted on. */
  function FirstUnsortable(terms: seq<OrderTerm>, t: TableSchema): (r: Option<Fault>)
    requires Identifiers(terms)
    ensures r.None? <==> forall i :: 0 <= i < |terms| ==> Sortable(terms[i].column.name, t)
    ensures r.Some? ==>
      exists k :: FirstUnsortableAt(terms, t, k) && r.value == TermFault(terms[k].column.name, t)
  {
    if |terms| == 0 then None
    else if !Sortable(terms[0].column.name, t) then
      assert FirstUnsortableAt(terms, t, 0);
      Some(TermFault(terms[0].column.name, t))
    else
      var r := FirstUnsortable(terms[1..], t);
      if r.Some? then
        var k :| FirstUnsortableAt(terms[1..], t, k) && r.value == TermFault(terms[1..][k].column.name, t);
        FirstUnsortableShift(terms, t, k);
        r
      else
        AllSortableShift(terms, t);
        r
  }

  /** A first unsortable term of the tail, after a sortable head, is the
      first of the whole. */
  lemma FirstUnsortableShift(terms: seq<OrderTerm>, t: TableSchema, k: int)
    requires Identifiers(terms) && |terms| > 0 && Sortable(terms[0].column.name, t)
    requires Identifiers(terms[1..]) && FirstUnsortableAt(terms[1..], t, k)
    ensures FirstUnsortableAt(terms, t, k + 1) && terms[k + 1] == terms[1..][k]
  {
    forall j | 0 <= j < k + 1 ensures Sortable(terms[j].column.name, t) {
      if j > 0 { assert terms[j] == terms[1..][j - 1]; }
    }
  }

  /** A sortable head and a sortable tail make every term sortable. */
  lemma AllSortableShift(terms: seq<OrderTerm>, t: TableSchema)
    requires Identifiers(terms) && |terms| > 0 && Sortable(terms[0].column.name, t)
    requires forall i :: 0 <= i < |terms[1..]| ==> Sortable(terms[1..][i].column.name, t)
    ensures forall i :: 0 <= i < |terms| ==> Sortable(terms[i].column.name, t)
  {
    forall i | 0 <= i < |terms| ensures Sortable(terms[i].column.name, t) {
      if i > 0 { assert terms[i] == terms[1..][i - 1]; }
    }
  }

  /** The ORDER BY clause's own error, if any: an empty name anywhere is a
      syntax error; otherwise the first term that is no column, or a column
      that cannot be ordered. */
  function OrderByFault(terms: seq<OrderTerm>, t: TableSchema): (r: Option<Fault>)
    requires Identifiers(terms)
    ensures (exists i :: 0 <= i < |terms| && terms[i].column.name == "") ==> r == Some(EmptyIdentifierError)
    ensures (forall i :: 0 <= i < |terms| ==> terms[i].column.name != "") ==> r == FirstUnsortable(terms, t)
    ensures r.None? <==> forall i :: 0 <= i < |terms| ==>
      terms[i].column.name != "" && Sortable(terms[i].column.name, t)
  {
    if exists i :: 0 <= i < |terms| && terms[i].column.name == "" then Some(EmptyIdentifierError)
    else FirstUnsortable(terms, t)
  }

  /** A listing's query is answered exactly when the search parses, every
      requested field names a sortable column and both numbers are
      readable; otherwise its error is the one `ListingFault` names. */
  lemma ListingOutcome<T(!new)>(
    table: seq<T>, visible: T -> bool, search: SearchCondition, tsParses: string -> bool,
    t: TableSchema, sortBy: Option<string>, sortOrder: Option<string>,
    snake: string -> string, order: Ordering<T>, f: PaginationFilter)
    requires SchemaValid(f) && IsOrdering(order) && "" !in t.Columns() && t.name != ""
    ensures Identifiers(ListingOrder(sortBy, sortOrder, snake))
    ensures var cols := SortColumns(sortBy, DefaultSortColumn);
      var r := RequestedPage(table, visible, search, tsParses, t, ListingOrder(sortBy, sortOrder, snake), order, f);
      (r.Ok? <==>
         && QueryParses(search, tsParses)
         && (forall i :: 0 <= i < |cols| ==> Sortable(snake(cols[i]), t))
         && PageLimit(f).Ok? && PageOffset(f).Ok?)
  {
    ListingOrderResolves(sortBy, sortOrder, snake, t);
  }

  /** A `sortBy` without a comma asks for one column. */
  lemma SingleField(name: string, snake: string -> string)
    requires name != "" && ',' !in name
    ensures var terms := ListingOrder(Some(name), None, snake);
      |terms| == 1 && terms[0].column == Identifier(snake(name))
  {
    SplitNoSeparator(name, ',');
  }

  /** A `sortBy` ending in a comma asks, after it, for a column with an
      empty name: whatever the other fields, the ORDER BY is a syntax error. */
  lemma TrailingComma(field: string, snake: string -> string, t: TableSchema)
    requires ',' !in field && snake("") == ""
    ensures Identifiers(ListingOrder(Some(field + ","), None, snake))
    ensures OrderByFault(ListingOrder(Some(field + ","), None, snake), t) == Some(EmptyIdentifierError)
  {
    TrailingCommaFields(field);
    var terms := ListingOrder(Some(field + ","), None, snake);
    assert terms[1].column.name == "";
  }

  lemma TrailingCommaFields(field: string)
    requires ',' !in field
    ensures SortColumns(Some(field + ","), DefaultSortColumn) == [field, ""]
  {
    assert field + "," == field + [','] + "";
    SplitFirst(field, ',', "");
    SplitNoSeparator("", ',');
  }

  /** A single named term that cannot be sorted on is the ORDER BY's error. */
  lemma SingleTermFault(terms: seq<OrderTerm>, t: TableSchema)
    requires |terms| == 1 && terms[0].column.Identifier?
    requires terms[0].column.name != "" && !Sortable(terms[0].column.name, t)
    ensures Identifiers(terms)
    ensures OrderByFault(terms, t) == Some(TermFault(terms[0].column.name, t))
  {
  }

  /** Why the listing query fails, in the order the database meets the
      causes. The count query runs first and evaluates `to_tsquery` on the
      search text; the page query's ORDER BY is parsed and resolved before its
      parameters are read; the limit is read before the offset. */
  function ListingFault(
    search: SearchCondition, tsParses: string -> bool, t: TableSchema,
    terms: seq<OrderTerm>, f: PaginationFilter
  ): (r: Option<Fault>)
    requires SchemaValid(f) && Identifiers(terms)
    ensures !QueryParses(search, tsParses) ==> r == Some(TsQuerySyntaxError(search.query))
    ensures QueryParses(search, tsParses) && OrderByFault(terms, t).Some? ==> r == OrderByFault(terms, t)
    ensures QueryParses(search, tsParses) && OrderByFault(terms, t).None? && PageLimit(f).Err? ==>
      r == Some(PageLimit(f).error)
    ensures QueryParses(search, tsParses) && OrderByFault(terms, t).None? && PageLimit(f).Ok? && PageOffset(f).Err? ==>
      r == Some(PageOffset(f).error)
    ensures r.None? <==>
      && QueryParses(search, tsParses)
      && (forall i :: 0 <= i < |terms| ==> terms[i].column.name != "" && Sortable(terms[i].column.name, t))
      && PageLimit(f).Ok? && PageOffset(f).Ok?
  {
    if !QueryParses(search, tsParses) then Some(TsQuerySyntaxError(search.query))
    else if OrderByFault(terms, t).Some? then OrderByFault(terms, t)
    else if PageLimit(f).Err? then Some(PageLimit(f).error)
    else if PageOffset(f).Err? then Some(PageOffset(f).error)
    else None
  }

  /** The listing query of a validated request: it fails for the first cause
      `ListingFault` names, and otherwise returns the count and the page.
      `search` is the text-search part of `visible`; `t` is the table
      the names resolve against. */
  function RequestedPage<T(!new)>(
    table: seq<T>, visible: T -> bool, search: SearchCondition, tsParses: string -> bool,
    t: TableSchema, terms: seq<OrderTerm>, order: Ordering<T>, f: PaginationFilter
  ): (r: Result<Page<T>>)
    requires SchemaValid(f) && IsOrdering(order) && Identifiers(terms)
    ensures r.Err? <==> ListingFault(search, tsParses, t, terms, f).Some?
    ensures r.Err? ==> r.error == ListingFault(search, tsParses, t, terms, f).value
    ensures r.Ok? ==> r.value == CountThenPage(table, visible, terms, order, PageOffset(f).value, PageLimit(f).value)
  {
    match ListingFault(search, tsParses, t, terms, f)
    case Some(e) => Err(e)
    case None => Ok(CountThenPage(table, visible, terms, order, PageOffset(f).value, PageLimit(f).value))
  }

  /** For a listing's terms, the ORDER BY resolves exactly when every
      requested field, snake-cased, is a sortable column. */
  lemma ListingOrderResolves(sortBy: Option<string>, sortOrder: Option<string>, snake: string -> string, t: TableSchema)
    requires "" !in t.Columns() && t.name != ""
    ensures Identifiers(ListingOrder(sortBy, sortOrder, snake))
    ensures var cols := SortColumns(sortBy, DefaultSortColumn);
      (OrderByFault(ListingOrder(sortBy, sortOrder, snake), t).None? <==>
         forall i :: 0 <= i < |cols| ==> Sortable(snake(cols[i]), t))
  {
  }
}
