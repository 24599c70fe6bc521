/** The audio service: the signed-in user's paged, searchable listing of
    audio rows, the lookup of one row and its deletion. Every query is scoped
    to the rows the user uploaded. */
module AudioService {
  import opened Errors
  import opened Seqs
  import opened Strings
  import opened StringValidator
  import opened Pagination
  import opened Tables
  import opened Listing

  /** The one column the audio search covers. */
  const AudioNameColumn: PgColumn := PgColumn("audios", "name")

  /** Whether `a` belongs in `user`'s listing under the search condition
      `cond`: it matches the search and the user uploaded it. */
  function AudioListed(cond: SearchCondition, tsMatch: (SearchCondition, seq<string>) -> bool, user: UserSession): AudioRow -> bool
  {
    (a: AudioRow) => Satisfies(cond, [a.name], tsMatch) && a.uploadedBy == user.id
  }

  function OwnedBy(user: UserSession): AudioRow -> bool
  {
    (a: AudioRow) => a.uploadedBy == user.id
  }

  /** `getAllAudios`: the number of the user's audios that match the search,
      and one ordered page of them. */
  function GetAllAudios(
    db: Db,
    pagination: PaginationFilter,
    user: UserSession,
    snake: string -> string,
    tsMatch: (SearchCondition, seq<string>) -> bool,
    tsParses: string -> bool,
    order: Ordering<AudioRow>
  ): (r: Result<Page<AudioRow>>)
    requires SchemaValid(pagination)
    requires IsOrdering(order)
    ensures var cond := SingleColumnSearch(AudioNameColumn, pagination.textSearch);
      var cols := SortColumns(pagination.sortBy, DefaultSortColumn);
      r.Ok? <==>
        && QueryParses(cond, tsParses)
        && (forall i :: 0 <= i < |cols| ==> Sortable(snake(cols[i]), AudioSchema))
        && PageLimit(pagination).Ok? && PageOffset(pagination).Ok?
    ensures r.Err? ==> var terms := ListingOrder(pagination.sortBy, pagination.sortOrder, snake);
      && Identifiers(terms)
      && ListingFault(SingleColumnSearch(AudioNameColumn, pagination.textSearch), tsParses, AudioSchema, terms, pagination) == Some(r.error)
    ensures r.Ok? ==> var page := r.value;
      var cond := SingleColumnSearch(AudioNameColumn, pagination.textSearch);
      && page.total == |Filter(db.audios, AudioListed(cond, tsMatch, user))|
      && (forall i :: 0 <= i < |page.data| ==>
            && page.data[i] in db.audios
            && page.data[i].uploadedBy == user.id
            && Satisfies(cond, [page.data[i].name], tsMatch))
    ensures r.Ok? ==> |r.value.data| <= PageLimit(pagination).value && |r.value.data| <= r.value.total
    ensures r.Ok? && pagination.limit.None? ==> |r.value.data| <= 10
    ensures r.Ok? ==> var page := r.value;
      var offset := PageOffset(pagination).value;
      var ordered := order(
        ListingOrder(pagination.sortBy, pagination.sortOrder, snake),
        Filter(db.audios, AudioListed(SingleColumnSearch(AudioNameColumn, pagination.textSearch), tsMatch, user)));
      && |ordered| == page.total
      && forall i :: 0 <= i < |page.data| ==> offset + i < |ordered| && page.data[i] == ordered[offset + i]
  {
    var cond := SingleColumnSearch(AudioNameColumn, pagination.textSearch);
    SchemaNamesNonEmpty();
    ListingOutcome(db.audios, AudioListed(cond, tsMatch, user), cond, tsParses, AudioSchema,
      pagination.sortBy, pagination.sortOrder, snake, order, pagination);
    RequestedPage(db.audios, AudioListed(cond, tsMatch, user), cond, tsParses, AudioSchema,
      ListingOrder(pagination.sortBy, pagination.sortOrder, snake), order, pagination)
  }

  /** Other users' audios are neither returned nor counted: two stores in
      which the user owns the same rows give the same listing. */
  lemma {:induction false} ListingIgnoresOtherUsers(
    db1: Db, db2: Db,
    pagination: PaginationFilter,
    user: UserSession,
    snake: string -> string,
    tsMatch: (SearchCondition, seq<string>) -> bool,
    tsParses: string -> bool,
    order: Ordering<AudioRow>)
    requires SchemaValid(pagination) && IsOrdering(order)
    requires Filter(db1.audios, OwnedBy(user)) == Filter(db2.audios, OwnedBy(user))
    ensures GetAllAudios(db1, pagination, user, snake, tsMatch, tsParses, order)
         == GetAllAudios(db2, pagination, user, snake, tsMatch, tsParses, order)
  {
    var cond := SingleColumnSearch(AudioNameColumn, pagination.textSearch);
    var matches := (a: AudioRow) => Satisfies(cond, [a.name], tsMatch);
    FilterFilter(db1.audios, matches, OwnedBy(user), AudioListed(cond, tsMatch, user));
    FilterFilter(db2.audios, matches, OwnedBy(user), AudioListed(cond, tsMatch, user));
    if PageLimit(pagination).Ok? && PageOffset(pagination).Ok? {
      PageDependsOnlyOnVisibleRows(db1.audios, db2.audios, AudioListed(cond, tsMatch, user),
        ListingOrder(pagination.sortBy, pagination.sortOrder, snake),
        order, PageOffset(pagination).value, PageLimit(pagination).value);
    }
  }

  /** A request that names no sort field, search, limit or offset sorts on
      `updated_at`, in either direction, and is answered. */
  lemma DefaultListingAnswered(
    db: Db, f: PaginationFilter, user: UserSession, snake: string -> string,
    tsMatch: (SearchCondition, seq<string>) -> bool, tsParses: string -> bool, order: Ordering<AudioRow>)
    requires IsOrdering(order) && SchemaValid(f)
    requires f.offset.None? && f.limit.None? && f.sortBy.None? && f.textSearch.None?
    requires snake(DefaultSortColumn) == "updated_at"
    ensures GetAllAudios(db, f, user, snake, tsMatch, tsParses, order).Ok?
  {
    UpdatedAtOrderable();
    ColumnSortable(snake(DefaultSortColumn), AudioSchema);
    var cols := SortColumns(f.sortBy, DefaultSortColumn);
    assert cols == [DefaultSortColumn];
    assert forall i :: 0 <= i < |cols| ==> Sortable(snake(cols[i]), AudioSchema);
    var cond := SingleColumnSearch(AudioNameColumn, f.textSearch);
    assert QueryParses(cond, tsParses);
    assert PageLimit(f).Ok? && PageOffset(f).Ok?;
  }

  /** A `sortBy` field that names the `json` file-object column (as
      `fileObject` does) cannot be ordered: the database refuses the query. */
  lemma FileObjectNotSortable(
    db: Db, user: UserSession, field: string, snake: string -> string,
    tsMatch: (SearchCondition, seq<string>) -> bool, tsParses: string -> bool, order: Ordering<AudioRow>)
    requires IsOrdering(order)
    requires field != "" && ',' !in field && snake(field) == "file_object"
    ensures GetAllAudios(db, PaginationFilter(None, None, Some(field), None, None), user, snake, tsMatch, tsParses, order)
         == Err(NoOrderingError("json"))
  {
    var f := PaginationFilter(None, None, Some(field), None, None);
    SingleField(field, snake);
    FileObjectIsJson();
    ColumnUnsortable(snake(field), AudioSchema);
    SingleTermFault(ListingOrder(f.sortBy, f.sortOrder, snake), AudioSchema);
    assert SingleColumnSearch(AudioNameColumn, f.textSearch) == MatchAll;
  }

  /** A `sortBy` field that names the table itself denotes the whole row,
      which cannot be ordered because the file object is `json`: the
      database refuses the query and names the row type. */
  lemma WholeRowNotSortable(
    db: Db, user: UserSession, field: string, snake: string -> string,
    tsMatch: (SearchCondition, seq<string>) -> bool, tsParses: string -> bool, order: Ordering<AudioRow>)
    requires IsOrdering(order)
    requires field != "" && ',' !in field && snake(field) == "audios"
    ensures GetAllAudios(db, PaginationFilter(None, None, Some(field), None, None), user, snake, tsMatch, tsParses, order)
         == Err(NoOrderingError("audios"))
  {
    var f := PaginationFilter(None, None, Some(field), None, None);
    SingleField(field, snake);
    TableNamesAreNoColumns();
    RowOrderings();
    TableNameResolves(snake(field), AudioSchema);
    SingleTermFault(ListingOrder(f.sortBy, f.sortOrder, snake), AudioSchema);
    assert SingleColumnSearch(AudioNameColumn, f.textSearch) == MatchAll;
  }

  /** A `sortBy` field whose column name is ASCII and longer than 63
      characters is cut to its first 63 before it is looked up, and the
      error names what was kept. */
  lemma LongFieldUnknown(
    db: Db, user: UserSession, field: string, snake: string -> string,
    tsMatch: (SearchCondition, seq<string>) -> bool, tsParses: string -> bool, order: Ordering<AudioRow>)
    requires IsOrdering(order)
    requires field != "" && ',' !in field
    requires |snake(field)| > MaxIdentifierBytes
    requires forall i :: 0 <= i < |snake(field)| ==> snake(field)[i] as int < 0x80
    ensures GetAllAudios(db, PaginationFilter(None, None, Some(field), None, None), user, snake, tsMatch, tsParses, order)
         == Err(UnknownColumnError(snake(field)[..MaxIdentifierBytes]))
  {
    var f := PaginationFilter(None, None, Some(field), None, None);
    SingleField(field, snake);
    AudioNamesShort();
    LongNameUnknown(snake(field), AudioSchema);
    SingleTermFault(ListingOrder(f.sortBy, f.sortOrder, snake), AudioSchema);
    assert SingleColumnSearch(AudioNameColumn, f.textSearch) == MatchAll;
  }

  /** A `sortBy` with a trailing comma, such as `name,`, is refused by the
      database's parser. */
  lemma TrailingCommaRejected(
    db: Db, user: UserSession, field: string, snake: string -> string,
    tsMatch: (SearchCondition, seq<string>) -> bool, tsParses: string -> bool, order: Ordering<AudioRow>)
    requires IsOrdering(order) && ',' !in field && snake("") == ""
    ensures GetAllAudios(db, PaginationFilter(None, None, Some(field + ","), None, None), user, snake, tsMatch, tsParses, order)
         == Err(EmptyIdentifierError)
  {
    var f := PaginationFilter(None, None, Some(field + ","), None, None);
    TrailingComma(field, snake, AudioSchema);
    assert SingleColumnSearch(AudioNameColumn, f.textSearch) == MatchAll;
  }

  /** A search for `a<TAB>b` sends `a<TAB>b:*` to `to_tsquery`, and the
      listing fails when that text is not valid query syntax. */
  lemma TabInSearchWord(
    db: Db, user: UserSession, snake: string -> string,
    tsMatch: (SearchCondition, seq<string>) -> bool, tsParses: string -> bool, order: Ordering<AudioRow>)
    requires IsOrdering(order) && !tsParses("a\tb:*")
    ensures GetAllAudios(db, PaginationFilter(None, None, None, None, Some("a\tb")), user, snake, tsMatch, tsParses, order)
         == Err(TsQuerySyntaxError("a\tb:*"))
  {
    TabStaysInWord();
  }

  /** The audio id of a request as PostgreSQL reads it for the `uuid`
      column. The route admits only ids in the `uuid` format; of those, the
      five hex groups are a uuid whatever the case of their digits, while the
      `urn:uuid:` spelling is invalid input for the type (SQLSTATE 22P02) and
      fails the query. */
  function UuidParam(audioId: string): (r: Result<string>)
    requires IsUuid(audioId)
    ensures r.Ok? <==> IsUuidGroups(audioId)
    ensures r.Ok? ==> r.value == ToLower(audioId)
    ensures r.Err? ==> |audioId| == 45 && IsUrnPrefix(audioId[..9]) && IsUuidGroups(audioId[9..])
    ensures r.Err? ==> r.error.DrizzleQuery? && r.error.cause.Some? && r.error.cause.value.code == "22P02"
  {
    if IsUuidGroups(audioId) then Ok(ToLower(audioId))
    else Err(DrizzleQuery("Failed query",
      Some(PgCause("22P02", "", "invalid input syntax for type uuid: \"" + audioId + "\""))))
  }

  /** The rows `getAudio` and `deleteAudio` address: the uuid `value`,
      uploaded by the user. */
  function Addressed(value: string, user: UserSession): AudioRow -> bool
  {
    (a: AudioRow) => AudioId(a) == value && a.uploadedBy == user.id
  }

  /** `getAudio`: the user's rows with the given id, compared as uuids, as a
      list; an id the user does not own gives the empty list, not an error.
      An id the column type cannot read fails the query. */
  function GetAudio(db: Db, audioId: string, user: UserSession): (r: Result<seq<AudioRow>>)
    requires IsUuid(audioId)
    ensures r.Err? <==> !IsUuidGroups(audioId)
    ensures r.Err? ==> r == Err(UuidParam(audioId).error)
    ensures r.Ok? ==> forall i :: 0 <= i < |r.value| ==>
      r.value[i] in db.audios && ToLower(r.value[i].id) == ToLower(audioId) && r.value[i].uploadedBy == user.id
    ensures r.Ok? ==> forall i :: 0 <= i < |db.audios| ==>
      (ToLower(db.audios[i].id) == ToLower(audioId) && db.audios[i].uploadedBy == user.id ==> db.audios[i] in r.value)
  {
    match UuidParam(audioId)
    case Err(e) => Err(e)
    case Ok(value) => Ok(Filter(db.audios, Addressed(value, user)))
  }

  /** Ids that spell the same uuid in different case find the same rows. */
  lemma {:induction false} GetAudioIgnoresCase(db: Db, id1: string, id2: string, user: UserSession)
    requires IsUuidGroups(id1) && IsUuidGroups(id2)
    requires ToLower(id1) == ToLower(id2)
    ensures GetAudio(db, id1, user) == GetAudio(db, id2, user)
  {
  }

  /** With `id` a primary key, `getAudio` returns at most one row. */
  lemma {:induction false} GetAudioAtMostOne(db: Db, audioId: string, user: UserSession)
    requires Valid(db) && IsUuid(audioId)
    ensures GetAudio(db, audioId, user).Ok? ==> |GetAudio(db, audioId, user).value| <= 1
  {
    UniqueKeyAtMostOne(db.audios, AudioId, ToLower(audioId), Addressed(ToLower(audioId), user));
  }

  /** An audio that exists but belongs to someone else is reported as no row
      at all. */
  lemma {:induction false} GetAudioOfOtherUser(db: Db, audioId: string, user: UserSession)
    requires IsUuidGroups(audioId)
    requires forall i :: 0 <= i < |db.audios| && ToLower(db.audios[i].id) == ToLower(audioId) ==>
      db.audios[i].uploadedBy != user.id
    ensures GetAudio(db, audioId, user) == Ok([])
  {
    FilterNone(db.audios, Addressed(ToLower(audioId), user));
  }

  /** `deleteAudio`: removes the user's row with that id (and, by cascade,
      its genre links); any other row stays. The stored file is not touched:
      the operation has no access to storage. An id the column type cannot
      read fails the query and changes nothing. */
  function DeleteAudio(db: Db, audioId: string, user: UserSession): (r: Result<Db>)
    requires IsUuid(audioId)
    ensures r.Err? <==> !IsUuidGroups(audioId)
    ensures r.Err? ==> r == Err(UuidParam(audioId).error)
    ensures r.Ok? ==> r.value.users == db.users && r.value.genres == db.genres
    ensures r.Ok? ==> forall i :: 0 <= i < |r.value.audios| ==>
      r.value.audios[i] in db.audios
      && !(ToLower(r.value.audios[i].id) == ToLower(audioId) && r.value.audios[i].uploadedBy == user.id)
    ensures r.Ok? ==> forall i :: 0 <= i < |db.audios| ==>
      (!(ToLower(db.audios[i].id) == ToLower(audioId) && db.audios[i].uploadedBy == user.id) ==>
        db.audios[i] in r.value.audios)
    ensures r.Ok? ==> |r.value.audios| + |GetAudio(db, audioId, user).value| == |db.audios|
    ensures r.Ok? ==> forall k :: 0 <= k < |r.value.audioGenres| ==>
      && r.value.audioGenres[k] in db.audioGenres
      && r.value.audioGenres[k].audioId !in AudioIdsWhere(db.audios, Addressed(ToLower(audioId), user))
    ensures r.Ok? ==> forall k :: 0 <= k < |db.audioGenres| ==>
      (db.audioGenres[k].audioId !in AudioIdsWhere(db.audios, Addressed(ToLower(audioId), user)) ==>
        db.audioGenres[k] in r.value.audioGenres)
  {
    match UuidParam(audioId)
    case Err(e) => Err(e)
    case Ok(value) =>
      FilterComplement(db.audios, Addressed(value, user), (a: AudioRow) => !Addressed(value, user)(a));
      Ok(DeleteAudiosWhere(db, Addressed(value, user)))
  }

  /** Deleting twice is deleting once. */
  lemma {:induction false} DeleteAudioIdempotent(db: Db, audioId: string, user: UserSession)
    requires IsUuid(audioId)
    ensures var once := DeleteAudio(db, audioId, user);
      once.Ok? ==> DeleteAudio(once.value, audioId, user) == once
  {
    if IsUuidGroups(audioId) {
      var p := Addressed(ToLower(audioId), user);
      var once := DeleteAudio(db, audioId, user).value;
      FilterAll(once.audios, (a: AudioRow) => !p(a));
      assert AudioIdsWhere(once.audios, p) == {};
      FilterAll(once.audioGenres, (l: AudioGenreRow) => l.audioId !in AudioIdsWhere(once.audios, p));
    }
  }

  /** Deleting keeps every table constraint. */
  lemma {:induction false} DeleteAudioPreservesValid(db: Db, audioId: string, user: UserSession)
    requires Valid(db) && IsUuid(audioId)
    ensures DeleteAudio(db, audioId, user).Ok? ==> Valid(DeleteAudio(db, audioId, user).value)
  {
    DeleteAudiosPreservesValid(db, Addressed(ToLower(audioId), user));
  }
}
