/** The genre service: the signed-in user's paged, searchable listing of
    genres. */
module GenreService {
  import opened Errors
  import opened Seqs
  import opened Strings
  import opened Pagination
  import opened Tables
  import opened Listing

  /** The one column the genre search covers. */
  const GenreNameColumn: PgColumn := PgColumn("genres", "name")

  /** Whether `g` belongs in `user`'s listing under `cond`. */
  function GenreListed(cond: SearchCondition, tsMatch: (SearchCondition, seq<string>) -> bool, user: UserSession): GenreRow -> bool
  {
    (g: GenreRow) => Satisfies(cond, [g.name], tsMatch) && g.userId == user.id
  }

  function OwnedBy(user: UserSession): GenreRow -> bool
  {
    (g: GenreRow) => g.userId == user.id
  }

  /** `getGenres`: the number of the user's genres that match the search, and
      one ordered page of them. */
  function GetGenres(
    db: Db,
    pagination: PaginationFilter,
    user: UserSession,
    snake: string -> string,
    tsMatch: (SearchCondition, seq<string>) -> bool,
    tsParses: string -> bool,
    order: Ordering<GenreRow>
  ): (r: Result<Page<GenreRow>>)
    requires SchemaValid(pagination)
    requires IsOrdering(order)
    ensures var cond := SingleColumnSearch(GenreNameColumn, pagination.textSearch);
      var cols := SortColumns(pagination.sortBy, DefaultSortColumn);
      r.Ok? <==>
        && QueryParses(cond, tsParses)
        && (forall i :: 0 <= i < |cols| ==> Sortable(snake(cols[i]), GenreSchema))
        && PageLimit(pagination).Ok? && PageOffset(pagination).Ok?
    ensures r.Err? ==> var terms := ListingOrder(pagination.sortBy, pagination.sortOrder, snake);
      && Identifiers(terms)
      && ListingFault(SingleColumnSearch(GenreNameColumn, pagination.textSearch), tsParses, GenreSchema, terms, pagination) == Some(r.error)
    ensures r.Ok? ==> var page := r.value;
      var cond := SingleColumnSearch(GenreNameColumn, pagination.textSearch);
      && page.total == |Filter(db.genres, GenreListed(cond, tsMatch, user))|
      && (forall i :: 0 <= i < |page.data| ==>
            && page.data[i] in db.genres
            && page.data[i].userId == user.id
            && Satisfies(cond, [page.data[i].name], tsMatch))
    ensures r.Ok? ==> |r.value.data| <= PageLimit(pagination).value && |r.value.data| <= r.value.total
    ensures r.Ok? && pagination.limit.None? ==> |r.value.data| <= 10
    ensures r.Ok? ==> var page := r.value;
      var offset := PageOffset(pagination).value;
      var ordered := order(
        ListingOrder(pagination.sortBy, pagination.sortOrder, snake),
        Filter(db.genres, GenreListed(SingleColumnSearch(GenreNameColumn, pagination.textSearch), tsMatch, user)));
      && |ordered| == page.total
      && forall i :: 0 <= i < |page.data| ==> offset + i < |ordered| && page.data[i] == ordered[offset + i]
  {
    var cond := SingleColumnSearch(GenreNameColumn, pagination.textSearch);
    SchemaNamesNonEmpty();
    ListingOutcome(db.genres, GenreListed(cond, tsMatch, user), cond, tsParses, GenreSchema,
      pagination.sortBy, pagination.sortOrder, snake, order, pagination);
    RequestedPage(db.genres, GenreListed(cond, tsMatch, user), cond, tsParses, GenreSchema,
      ListingOrder(pagination.sortBy, pagination.sortOrder, snake), order, pagination)
  }

  /** Other users' genres are neither returned nor counted. */
  lemma {:induction false} ListingIgnoresOtherUsers(
    db1: Db, db2: Db,
    pagination: PaginationFilter,
    user: UserSession,
    snake: string -> string,
    tsMatch: (SearchCondition, seq<string>) -> bool,
    tsParses: string -> bool,
    order: Ordering<GenreRow>)
    requires SchemaValid(pagination) && IsOrdering(order)
    requires Filter(db1.genres, OwnedBy(user)) == Filter(db2.genres, OwnedBy(user))
    ensures GetGenres(db1, pagination, user, snake, tsMatch, tsParses, order)
         == GetGenres(db2, pagination, user, snake, tsMatch, tsParses, order)
  {
    var cond := SingleColumnSearch(GenreNameColumn, pagination.textSearch);
    var matches := (g: GenreRow) => Satisfies(cond, [g.name], tsMatch);
    FilterFilter(db1.genres, matches, OwnedBy(user), GenreListed(cond, tsMatch, user));
    FilterFilter(db2.genres, matches, OwnedBy(user), GenreListed(cond, tsMatch, user));
    if PageLimit(pagination).Ok? && PageOffset(pagination).Ok? {
      PageDependsOnlyOnVisibleRows(db1.genres, db2.genres, GenreListed(cond, tsMatch, user),
        ListingOrder(pagination.sortBy, pagination.sortOrder, snake),
        order, PageOffset(pagination).value, PageLimit(pagination).value);
    }
  }

  /** A `sortBy` field that names the table itself sorts on the whole row,
      field by field: every field of a genre has an ordering, so a request
      with no search, limit or offset is answered. */
  lemma WholeRowSorted(
    db: Db, f: PaginationFilter, user: UserSession, field: string, snake: string -> string,
    tsMatch: (SearchCondition, seq<string>) -> bool, tsParses: string -> bool, order: Ordering<GenreRow>)
    requires IsOrdering(order) && SchemaValid(f)
    requires f.offset.None? && f.limit.None? && f.textSearch.None? && f.sortBy == Some(field)
    requires field != "" && ',' !in field && snake(field) == "genres"
    ensures GetGenres(db, f, user, snake, tsMatch, tsParses, order).Ok?
  {
    SingleField(field, snake);
    TableNamesAreNoColumns();
    RowOrderings();
    TableNameResolves(snake(field), GenreSchema);
    SplitNoSeparator(field, ',');
    var cols := SortColumns(f.sortBy, DefaultSortColumn);
    assert cols == [field];
    assert Sortable(snake(field), GenreSchema);
    assert forall i :: 0 <= i < |cols| ==> Sortable(snake(cols[i]), GenreSchema);
    assert QueryParses(SingleColumnSearch(GenreNameColumn, f.textSearch), tsParses);
    assert PageLimit(f).Ok? && PageOffset(f).Ok?;
  }
}
