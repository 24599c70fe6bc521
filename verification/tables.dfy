/** The four tables of the relational store, held in memory as sequences of
    rows, with the constraints their definitions declare: primary keys, unique
    indexes, non-null columns (carried by the row types: only the nullable
    columns are `Option`s) and foreign keys that cascade on delete. */
module Tables {
  import opened Errors
  import opened Seqs
  import opened Strings

  /** Row identifiers are UUID strings. */
  type Id = string

  /** Timestamps are stored in their ISO string form. */
  type Timestamp = string

  /** The object-store buckets: only `audio` exists. */
  datatype Bucket = AudioBucket

  function BucketName(b: Bucket): string
  {
    match b
    case AudioBucket => "audio"
  }

  /** Where an audio row's file lives: a bucket and an object key. */
  datatype FileObject = FileObject(bucket: Bucket, objectKey: string)

  datatype UserRow = UserRow(
    id: Id,
    name: string,
    email: string,
    password: string,
    createdAt: Timestamp,
    updatedAt: Timestamp)

  datatype AudioRow = AudioRow(
    id: Id,
    name: string,
    fileObject: FileObject,
    description: Option<string>,
    artist: Option<string>,
    releaseDate: Option<Timestamp>,
    uploadedBy: Id,
    createdAt: Timestamp,
    updatedAt: Timestamp)

  datatype GenreRow = GenreRow(
    id: Id,
    name: string,
    userId: Id,
    createdAt: Timestamp,
    updatedAt: Timestamp)

  /** A row of the join table between audios and genres. */
  datatype AudioGenreRow = AudioGenreRow(id: Id, audioId: Id, genreId: Id)

  datatype Db = Db(
    users: seq<UserRow>,
    audios: seq<AudioRow>,
    genres: seq<GenreRow>,
    audioGenres: seq<AudioGenreRow>)

  /** The signed-in user as the session carries it, and as the user and
      auth services return it: never the password. */
  datatype UserSession = UserSession(id: Id, email: string, name: string)

  // ---------------------------------------------------------------------------
  // columns

  /** The system columns every table has, with their types. A query may
      name them like any other column. */
  const SystemColumns: map<string, string> :=
    map["tableoid" := "oid", "xmin" := "xid", "cmin" := "cid",
        "xmax" := "xid", "cmax" := "cid", "ctid" := "tid"]

  /** A table as the names of a query resolve against it: its name, and its
      own columns as the migrations name them (snake case) with their
      PostgreSQL types. */
  datatype TableSchema = TableSchema(name: string, fields: map<string, string>)
  {
    /** Every column a bare name can denote: the table's own and the system
        columns. */
    function Columns(): map<string, string> { SystemColumns + fields }
  }

  /** `audios`: audio.table.ts, with `fileObject` a `json` column. */
  const AudioSchema: TableSchema :=
    TableSchema("audios", map[
      "id" := "uuid", "name" := "text", "file_object" := "json",
      "description" := "text", "artist" := "text",
      "release_date" := "timestamp with time zone", "uploaded_by" := "uuid",
      "created_at" := "timestamp with time zone", "updated_at" := "timestamp with time zone"])

  /** `genres`: genre.table.ts. */
  const GenreSchema: TableSchema :=
    TableSchema("genres", map[
      "id" := "uuid", "name" := "text", "user_id" := "uuid",
      "created_at" := "timestamp with time zone", "updated_at" := "timestamp with time zone"])

  /** The column types of the listed tables that have no default ordering:
      `json`, and the transaction and command ids of the system columns. */
  const UnorderedTypes: set<string> := {"json", "xid", "cid"}

  /** Every field of the table's own row type has an ordering, so the whole
      row, compared field by field, has one too. */
  predicate RowOrderable(t: TableSchema)
  {
    forall c :: c in t.fields ==> t.fields[c] !in UnorderedTypes
  }

  /** The table's name and every column name are at most 15 characters. */
  predicate ShortNames(t: TableSchema)
  {
    |t.name| <= 15 && forall c :: c in t.Columns() ==> |c| <= 15
  }

  /** No column, and neither table, has an empty name. */
  lemma SchemaNamesNonEmpty()
    ensures "" !in AudioSchema.Columns() && AudioSchema.name != ""
    ensures "" !in GenreSchema.Columns() && GenreSchema.name != ""
  {
  }

  /** Neither table has a column named after a table: its name denotes the
      whole row. */
  lemma TableNamesAreNoColumns()
    ensures AudioSchema.name !in AudioSchema.Columns()
    ensures GenreSchema.name !in GenreSchema.Columns()
  {
  }

  /** The audio table's names are short. */
  lemma AudioNamesShort()
    ensures ShortNames(AudioSchema)
  {
  }

  /** An audio's whole row has no ordering, because its file object is
      `json`; every field of a genre has one. */
  lemma RowOrderings()
    ensures !RowOrderable(AudioSchema)
    ensures RowOrderable(GenreSchema)
  {
    assert "file_object" in AudioSchema.fields;
  }

  /** Both tables keep an `updated_at` timestamp, which has an ordering. */
  lemma UpdatedAtOrderable()
    ensures "updated_at" in AudioSchema.Columns() && AudioSchema.Columns()["updated_at"] !in UnorderedTypes
    ensures "updated_at" in GenreSchema.Columns() && GenreSchema.Columns()["updated_at"] !in UnorderedTypes
  {
  }

  /** The file object of an audio is stored as `json`. */
  lemma FileObjectIsJson()
    ensures "file_object" in AudioSchema.Columns() && AudioSchema.Columns()["file_object"] == "json"
  {
  }

  // ---------------------------------------------------------------------------
  // keys

  // Every id column is a `uuid`. A stored uuid reads back in its canonical
  // lower-case spelling, so the `id`s held in the tables (and the references
  // to them) compare as plain strings; only a uuid that arrives in a request
  // can be spelled otherwise, and `AudioId` is what such a value is matched
  // against.
  function UserId(u: UserRow): Id { u.id }
  function UserEmail(u: UserRow): string { u.email }
  /** The audio primary key is a `uuid` column: it compares values, and two
      spellings of one uuid differ only in the case of their hex digits. */
  function AudioId(a: AudioRow): string { ToLower(a.id) }
  function AudioKey(a: AudioRow): (string, Id) { (a.name, a.uploadedBy) }
  function GenreId(g: GenreRow): Id { g.id }
  function GenreKey(g: GenreRow): (string, Id) { (g.name, g.userId) }
  function LinkId(l: AudioGenreRow): Id { l.id }
  function LinkKey(l: AudioGenreRow): (Id, Id) { (l.audioId, l.genreId) }

  function UserIds(users: seq<UserRow>): set<Id> { set i | 0 <= i < |users| :: users[i].id }
  function AudioIds(audios: seq<AudioRow>): set<Id> { set i | 0 <= i < |audios| :: audios[i].id }
  function GenreIds(genres: seq<GenreRow>): set<Id> { set i | 0 <= i < |genres| :: genres[i].id }

  /** Primary keys and unique indexes: `id` on every table, `email` on users,
      `(name, uploadedBy)` on audios, `(name, userId)` on genres and
      `(audioId, genreId)` on the join table. */
  ghost predicate KeysUnique(db: Db)
  {
    && UniqueBy(db.users, UserId) && UniqueBy(db.users, UserEmail)
    && UniqueBy(db.audios, AudioId) && UniqueBy(db.audios, AudioKey)
    && UniqueBy(db.genres, GenreId) && UniqueBy(db.genres, GenreKey)
    && UniqueBy(db.audioGenres, LinkId) && UniqueBy(db.audioGenres, LinkKey)
  }

  /** Foreign keys: an audio's uploader and a genre's owner are users; a join
      row names an existing audio and an existing genre. */
  ghost predicate ReferencesHold(db: Db)
  {
    && (forall i :: 0 <= i < |db.audios| ==> db.audios[i].uploadedBy in UserIds(db.users))
    && (forall i :: 0 <= i < |db.genres| ==> db.genres[i].userId in UserIds(db.users))
    && (forall i :: 0 <= i < |db.audioGenres| ==>
          db.audioGenres[i].audioId in AudioIds(db.audios) && db.audioGenres[i].genreId in GenreIds(db.genres))
  }

  ghost predicate Valid(db: Db)
  {
    KeysUnique(db) && ReferencesHold(db)
  }

  // ---------------------------------------------------------------------------
  // unique violations

  /** The driver error a unique-index violation raises: SQLSTATE `23505` with
      the offending key in the detail line. */
  function UniqueViolation(constraint: string, column: string, value: string): (e: Fault)
    ensures e.DrizzleQuery? && e.cause.Some? && e.cause.value.code == "23505"
  {
    DrizzleQuery("Failed query",
      Some(PgCause("23505",
        "Key (" + column + ")=(" + value + ") already exists.",
        "duplicate key value violates unique constraint \"" + constraint + "\"")))
  }

  /** Some row other than the one with id `self` already has `email`. */
  predicate EmailTakenByOther(users: seq<UserRow>, email: string, self: Id)
  {
    exists i :: 0 <= i < |users| && users[i].email == email && users[i].id != self
  }

  /** `INSERT INTO users`: rejected when the id or the e-mail is taken,
      otherwise appended. */
  function InsertUser(db: Db, row: UserRow): (r: Result<Db>)
    ensures r.Ok? <==> row.id !in UserIds(db.users) && !EmailTakenByOther(db.users, row.email, row.id)
    ensures r.Ok? ==> (r.value.users == db.users + [row]
      && r.value.audios == db.audios && r.value.genres == db.genres && r.value.audioGenres == db.audioGenres)
    ensures r.Err? ==> r.error.DrizzleQuery? && r.error.cause.Some? && r.error.cause.value.code == "23505"
  {
    if row.id in UserIds(db.users) then Err(UniqueViolation("users_pkey", "id", row.id))
    else if EmailTakenByOther(db.users, row.email, row.id) then Err(UniqueViolation("users_email_unique", "email", row.email))
    else Ok(db.(users := db.users + [row]))
  }

  lemma {:induction false} AppendUnique<T, K>(s: seq<T>, x: T, key: T -> K)
    requires UniqueBy(s, key)
    requires forall i :: 0 <= i < |s| ==> key(s[i]) != key(x)
    ensures UniqueBy(s + [x], key)
  {
    var t := s + [x];
    forall i, j | 0 <= i < j < |t| ensures key(t[i]) != key(t[j]) {
      if j < |s| {
        assert t[i] == s[i] && t[j] == s[j];
      } else {
        assert t[i] == s[i] && t[j] == x;
      }
    }
  }

  /** A successful insert keeps every constraint. */
  lemma {:induction false} InsertUserPreservesValid(db: Db, row: UserRow)
    requires Valid(db)
    requires InsertUser(db, row).Ok?
    ensures Valid(InsertUser(db, row).value)
  {
    var r := InsertUser(db, row).value;
    forall i | 0 <= i < |db.users| ensures db.users[i].id != row.id && db.users[i].email != row.email {
      assert db.users[i].id in UserIds(db.users);
    }
    AppendUnique(db.users, row, UserId);
    AppendUnique(db.users, row, UserEmail);
    assert UserIds(db.users) <= UserIds(r.users) by {
      forall id | id in UserIds(db.users) ensures id in UserIds(r.users) {
        var i :| 0 <= i < |db.users| && db.users[i].id == id;
        assert r.users[i] == db.users[i];
      }
    }
  }

  // ---------------------------------------------------------------------------
  // cascading deletes

  /** Ids of the rows of `audios` that satisfy `p`. */
  function AudioIdsWhere(audios: seq<AudioRow>, p: AudioRow -> bool): set<Id>
  {
    set i | 0 <= i < |audios| && p(audios[i]) :: audios[i].id
  }

  function GenreIdsWhere(genres: seq<GenreRow>, p: GenreRow -> bool): set<Id>
  {
    set i | 0 <= i < |genres| && p(genres[i]) :: genres[i].id
  }

  /** `DELETE FROM audios WHERE p`: the matching audios go, and the join rows
      that reference them go with them. */
  function DeleteAudiosWhere(db: Db, p: AudioRow -> bool): (r: Db)
    ensures r.users == db.users && r.genres == db.genres
    ensures forall i :: 0 <= i < |r.audios| ==> r.audios[i] in db.audios && !p(r.audios[i])
    ensures forall i :: 0 <= i < |db.audios| && !p(db.audios[i]) ==> db.audios[i] in r.audios
    ensures forall k :: 0 <= k < |r.audioGenres| ==>
      r.audioGenres[k] in db.audioGenres && r.audioGenres[k].audioId !in AudioIdsWhere(db.audios, p)
    ensures forall k :: 0 <= k < |db.audioGenres| && db.audioGenres[k].audioId !in AudioIdsWhere(db.audios, p) ==>
      db.audioGenres[k] in r.audioGenres
  {
    var removed := AudioIdsWhere(db.audios, p);
    db.(audios := Filter(db.audios, a => !p(a)),
        audioGenres := Filter(db.audioGenres, (l: AudioGenreRow) => l.audioId !in removed))
  }

  /** `DELETE FROM genres WHERE p`, cascading to the join rows. */
  function DeleteGenresWhere(db: Db, p: GenreRow -> bool): (r: Db)
    ensures r.users == db.users && r.audios == db.audios
    ensures forall i :: 0 <= i < |r.genres| ==> r.genres[i] in db.genres && !p(r.genres[i])
    ensures forall i :: 0 <= i < |db.genres| && !p(db.genres[i]) ==> db.genres[i] in r.genres
    ensures forall k :: 0 <= k < |r.audioGenres| ==>
      r.audioGenres[k] in db.audioGenres && r.audioGenres[k].genreId !in GenreIdsWhere(db.genres, p)
    ensures forall k :: 0 <= k < |db.audioGenres| && db.audioGenres[k].genreId !in GenreIdsWhere(db.genres, p) ==>
      db.audioGenres[k] in r.audioGenres
  {
    var removed := GenreIdsWhere(db.genres, p);
    db.(genres := Filter(db.genres, g => !p(g)),
        audioGenres := Filter(db.audioGenres, (l: AudioGenreRow) => l.genreId !in removed))
  }

  function UploadedBy(uid: Id): AudioRow -> bool { (a: AudioRow) => a.uploadedBy == uid }
  function OwnedGenre(uid: Id): GenreRow -> bool { (g: GenreRow) => g.userId == uid }

  /** `DELETE FROM users WHERE id = uid`: the user's audios and genres go too,
      and through them every join row that referenced them. */
  function DeleteUser(db: Db, uid: Id): (r: Db)
    ensures forall i :: 0 <= i < |r.users| ==> r.users[i] in db.users && r.users[i].id != uid
    ensures forall i :: 0 <= i < |db.users| && db.users[i].id != uid ==> db.users[i] in r.users
    ensures forall i :: 0 <= i < |r.audios| ==> r.audios[i] in db.audios && r.audios[i].uploadedBy != uid
    ensures forall i :: 0 <= i < |db.audios| && db.audios[i].uploadedBy != uid ==> db.audios[i] in r.audios
    ensures forall i :: 0 <= i < |r.genres| ==> r.genres[i] in db.genres && r.genres[i].userId != uid
    ensures forall i :: 0 <= i < |db.genres| && db.genres[i].userId != uid ==> db.genres[i] in r.genres
    ensures forall k :: 0 <= k < |r.audioGenres| ==>
      && r.audioGenres[k] in db.audioGenres
      && r.audioGenres[k].audioId !in AudioIdsWhere(db.audios, UploadedBy(uid))
      && r.audioGenres[k].genreId !in GenreIdsWhere(db.genres, OwnedGenre(uid))
    ensures forall k :: 0 <= k < |db.audioGenres| ==>
      (db.audioGenres[k] in r.audioGenres <==>
        && db.audioGenres[k].audioId !in AudioIdsWhere(db.audios, UploadedBy(uid))
        && db.audioGenres[k].genreId !in GenreIdsWhere(db.genres, OwnedGenre(uid)))
  {
    var withoutAudios := DeleteAudiosWhere(db, UploadedBy(uid));
    var withoutGenres := DeleteGenresWhere(withoutAudios, OwnedGenre(uid));
    withoutGenres.(users := Filter(db.users, (u: UserRow) => u.id != uid))
  }

  /** Every id of a row kept by a filter is still an id of the table. */
  lemma AudioIdsKept(audios: seq<AudioRow>, kept: seq<AudioRow>, p: AudioRow -> bool, id: Id)
    requires forall i :: 0 <= i < |audios| && !p(audios[i]) ==> audios[i] in kept
    requires id in AudioIds(audios) && id !in AudioIdsWhere(audios, p)
    ensures id in AudioIds(kept)
  {
    var i :| 0 <= i < |audios| && audios[i].id == id;
    var j :| 0 <= j < |kept| && kept[j] == audios[i];
  }

  lemma GenreIdsKept(genres: seq<GenreRow>, kept: seq<GenreRow>, p: GenreRow -> bool, id: Id)
    requires forall i :: 0 <= i < |genres| && !p(genres[i]) ==> genres[i] in kept
    requires id in GenreIds(genres) && id !in GenreIdsWhere(genres, p)
    ensures id in GenreIds(kept)
  {
    var i :| 0 <= i < |genres| && genres[i].id == id;
    var j :| 0 <= j < |kept| && kept[j] == genres[i];
  }

  lemma IdsOfSubset(audios: seq<AudioRow>, kept: seq<AudioRow>, genres: seq<GenreRow>, keptG: seq<GenreRow>)
    requires forall i :: 0 <= i < |kept| ==> kept[i] in audios
    requires forall i :: 0 <= i < |keptG| ==> keptG[i] in genres
    ensures AudioIds(kept) <= AudioIds(audios) && GenreIds(keptG) <= GenreIds(genres)
  {
    forall id | id in AudioIds(kept) ensures id in AudioIds(audios) {
      var i :| 0 <= i < |kept| && kept[i].id == id;
      var j :| 0 <= j < |audios| && audios[j] == kept[i];
    }
    forall id | id in GenreIds(keptG) ensures id in GenreIds(genres) {
      var i :| 0 <= i < |keptG| && keptG[i].id == id;
      var j :| 0 <= j < |genres| && genres[j] == keptG[i];
    }
  }

  /** Deleting audios keeps every constraint: the cascade leaves no join row
      pointing at a deleted audio. */
  lemma {:induction false} DeleteAudiosPreservesValid(db: Db, p: AudioRow -> bool)
    requires Valid(db)
    ensures Valid(DeleteAudiosWhere(db, p))
  {
    var r := DeleteAudiosWhere(db, p);
    var removed := AudioIdsWhere(db.audios, p);
    FilterUnique(db.audios, a => !p(a), AudioId);
    FilterUnique(db.audios, a => !p(a), AudioKey);
    FilterUnique(db.audioGenres, (l: AudioGenreRow) => l.audioId !in removed, LinkId);
    FilterUnique(db.audioGenres, (l: AudioGenreRow) => l.audioId !in removed, LinkKey);
    forall k | 0 <= k < |r.audioGenres|
      ensures r.audioGenres[k].audioId in AudioIds(r.audios) && r.audioGenres[k].genreId in GenreIds(r.genres)
    {
      var l := r.audioGenres[k];
      var m :| 0 <= m < |db.audioGenres| && db.audioGenres[m] == l;
      AudioIdsKept(db.audios, r.audios, p, l.audioId);
    }
  }

  /** Deleting genres keeps every constraint. */
  lemma {:induction false} DeleteGenresPreservesValid(db: Db, p: GenreRow -> bool)
    requires Valid(db)
    ensures Valid(DeleteGenresWhere(db, p))
  {
    var r := DeleteGenresWhere(db, p);
    var removed := GenreIdsWhere(db.genres, p);
    FilterUnique(db.genres, g => !p(g), GenreId);
    FilterUnique(db.genres, g => !p(g), GenreKey);
    FilterUnique(db.audioGenres, (l: AudioGenreRow) => l.genreId !in removed, LinkId);
    FilterUnique(db.audioGenres, (l: AudioGenreRow) => l.genreId !in removed, LinkKey);
    forall i | 0 <= i < |r.genres| ensures r.genres[i].userId in UserIds(r.users) {
      var j :| 0 <= j < |db.genres| && db.genres[j] == r.genres[i];
    }
    forall k | 0 <= k < |r.audioGenres|
      ensures r.audioGenres[k].audioId in AudioIds(r.audios) && r.audioGenres[k].genreId in GenreIds(r.genres)
    {
      var l := r.audioGenres[k];
      var m :| 0 <= m < |db.audioGenres| && db.audioGenres[m] == l;
      GenreIdsKept(db.genres, r.genres, p, l.genreId);
    }
  }

  /** The user ids left once `uid`'s rows are filtered out. */
  lemma UserIdsKept(users: seq<UserRow>, uid: Id, id: Id)
    requires id in UserIds(users) && id != uid
    ensures id in UserIds(Filter(users, (u: UserRow) => u.id != uid))
  {
    var i :| 0 <= i < |users| && users[i].id == id;
    var kept := Filter(users, (u: UserRow) => u.id != uid);
    var j :| 0 <= j < |kept| && kept[j] == users[i];
  }

  /** Swapping in another users table keeps the constraints when that table
      is unique and still holds every owner. */
  lemma ReplaceUsersValid(d: Db, users: seq<UserRow>)
    requires Valid(d)
    requires UniqueBy(users, UserId) && UniqueBy(users, UserEmail)
    requires forall i :: 0 <= i < |d.audios| ==> d.audios[i].uploadedBy in UserIds(users)
    requires forall i :: 0 <= i < |d.genres| ==> d.genres[i].userId in UserIds(users)
    ensures Valid(d.(users := users))
  {
  }

  /** Deleting a user keeps every constraint: nothing the user owned is left
      pointing at the missing row. */
  lemma {:induction false} DeleteUserPreservesValid(db: Db, uid: Id)
    requires Valid(db)
    ensures Valid(DeleteUser(db, uid))
  {
    var withoutAudios := DeleteAudiosWhere(db, UploadedBy(uid));
    DeleteAudiosPreservesValid(db, UploadedBy(uid));
    var withoutGenres := DeleteGenresWhere(withoutAudios, OwnedGenre(uid));
    DeleteGenresPreservesValid(withoutAudios, OwnedGenre(uid));
    var users := Filter(db.users, (u: UserRow) => u.id != uid);
    FilterUnique(db.users, (u: UserRow) => u.id != uid, UserId);
    FilterUnique(db.users, (u: UserRow) => u.id != uid, UserEmail);
    forall i | 0 <= i < |withoutGenres.audios| ensures withoutGenres.audios[i].uploadedBy in UserIds(users) {
      UserIdsKept(db.users, uid, withoutGenres.audios[i].uploadedBy);
    }
    forall i | 0 <= i < |withoutGenres.genres| ensures withoutGenres.genres[i].userId in UserIds(users) {
      UserIdsKept(db.users, uid, withoutGenres.genres[i].userId);
    }
    ReplaceUsersValid(withoutGenres, users);
    assert DeleteUser(db, uid) == withoutGenres.(users := users);
  }
}
