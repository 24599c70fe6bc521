/** The auth service: registration stores a new user under a fresh id with a
    hashed password; login looks the user up by e-mail, ignoring case, and
    checks the password against the stored hash. Hashing, comparing, id
    generation and the clock are parameters. */
module AuthService {
  import opened Errors
  import opened Strings
  import opened Seqs
  import opened Tables
  import opened UserService

  datatype SignUp = SignUp(name: string, email: string, password: string)

  datatype Credentials = Credentials(email: string, password: string)

  const NoUserFound: string := "No user found."
  const InvalidCredentials: string := "Invalid credentials."

  /** The row registration inserts: the fresh id, the submitted name and
      e-mail, the hash in place of the password, and `now` twice. */
  function NewUserRow(data: SignUp, hashed: string, freshId: Id, now: Timestamp): UserRow
  {
    UserRow(freshId, data.name, data.email, hashed, now, now)
  }

  /** `registration`: insert the new row and return its id, name and e-mail.
      `hash` stands for the bcrypt call, `freshId` for `randomUUID()` and
      `now` for the clock. */
  function Registration(db: Db, data: SignUp, hash: string -> string, freshId: Id, now: Timestamp): (r: Result<Written>)
    ensures r.Ok? <==> freshId !in UserIds(db.users) && !EmailTakenByOther(db.users, data.email, freshId)
    ensures r.Ok? ==> r.value.db.users == db.users + [NewUserRow(data, hash(data.password), freshId, now)]
    ensures r.Ok? ==> r.value.session == UserSession(freshId, data.email, data.name)
    ensures r.Err? ==> r.error.DrizzleQuery? && r.error.cause.Some? && r.error.cause.value.code == "23505"
  {
    match InsertUser(db, NewUserRow(data, hash(data.password), freshId, now))
    case Err(e) => Err(e)
    case Ok(after) => Ok(Written(after, UserSession(freshId, data.email, data.name)))
  }

  /** The password column of the inserted row holds the hash: the plaintext
      is stored only when the hash function returns its input. */
  lemma {:induction false} RegistrationStoresHash(db: Db, data: SignUp, hash: string -> string, freshId: Id, now: Timestamp)
    requires Registration(db, data, hash, freshId, now).Ok?
    ensures var users := Registration(db, data, hash, freshId, now).value.db.users;
      && users[|users| - 1].password == hash(data.password)
      && users[..|users| - 1] == db.users
  {
  }

  /** The login lookup `lower(email) = input.toLowerCase()`. */
  function EmailMatches(email: string): UserRow -> bool
  {
    (u: UserRow) => ToLower(u.email) == ToLower(email)
  }

  /** The order in which the database returns the rows of a SELECT without
      ORDER BY: some arrangement of those rows, chosen by the engine. */
  type RowOrder = seq<UserRow> -> seq<UserRow>

  ghost predicate IsRowOrder(scan: RowOrder)
  {
    forall rows: seq<UserRow> :: multiset(scan(rows)) == multiset(rows)
  }

  /** `login`: the first of the rows whose e-mail equals the input up to
      case, in the order the database returns them; no such row is
      `NotFound`, a failed comparison `Unauthorized`. `compare` stands for
      the bcrypt comparison. */
  function Login(db: Db, data: Credentials, compare: (string, string) -> bool, scan: RowOrder): (r: Result<UserSession>)
    requires IsRowOrder(scan)
    ensures var matches := Filter(db.users, EmailMatches(data.email));
      && (r == Err(NewError(NotFound, Some(NoUserFound), None)) <==> |matches| == 0)
      && (|matches| > 0 ==>
            var u := scan(matches)[0];
            && u in db.users && ToLower(u.email) == ToLower(data.email)
            && (r.Ok? <==> compare(data.password, u.password))
            && (r.Err? ==> r == Err(NewError(Unauthorized, Some(InvalidCredentials), None)))
            && (r.Ok? ==> r.value == UserSession(u.id, u.email, u.name)))
    ensures r.Ok? ==> ToLower(r.value.email) == ToLower(data.email)
  {
    var rows := scan(Filter(db.users, EmailMatches(data.email)));
    assert |rows| == |multiset(rows)| == |Filter(db.users, EmailMatches(data.email))|;
    if |rows| == 0 then Err(NewError(NotFound, Some(NoUserFound), None))
    else
      PermutedMember(Filter(db.users, EmailMatches(data.email)), rows, 0);
      var user := rows[0];
      if !compare(data.password, user.password) then Err(NewError(Unauthorized, Some(InvalidCredentials), None))
      else Ok(UserSession(user.id, user.email, user.name))
  }

  /** When exactly one row matches the e-mail up to case, login checks that
      row, whatever order the database returns rows in. */
  lemma {:induction false} SingleMatchDecides(
    db: Db, data: Credentials, compare: (string, string) -> bool, scan: RowOrder, k: nat)
    requires IsRowOrder(scan)
    requires k < |db.users| && ToLower(db.users[k].email) == ToLower(data.email)
    requires forall j :: 0 <= j < |db.users| && j != k ==> ToLower(db.users[j].email) != ToLower(data.email)
    ensures var u := db.users[k];
      Login(db, data, compare, scan)
        == if compare(data.password, u.password) then Ok(UserSession(u.id, u.email, u.name))
           else Err(NewError(Unauthorized, Some(InvalidCredentials), None))
  {
    var p := EmailMatches(data.email);
    var before, after := db.users[..k], db.users[k + 1..];
    assert db.users == before + [db.users[k]] + after;
    forall j | 0 <= j < |before| ensures !p(before[j]) {
      assert before[j] == db.users[j];
    }
    forall j | 0 <= j < |after| ensures !p(after[j]) {
      assert after[j] == db.users[k + 1 + j];
    }
    FilterNone(before, p);
    FilterNone(after, p);
    FilterAppend(before + [db.users[k]], after, p);
    FilterAppend(before, [db.users[k]], p);
    assert Filter(db.users, p) == [db.users[k]];
    PermutedSingleton(db.users[k], scan([db.users[k]]));
  }

  /** Logging in right after registering, with the same password, signs in
      the new user, provided no other row has the same e-mail up to case and
      the comparison accepts a password against its own hash. */
  lemma {:induction false} LoginAfterRegistration(
    db: Db, data: SignUp, hash: string -> string, freshId: Id, now: Timestamp,
    compare: (string, string) -> bool, scan: RowOrder)
    requires IsRowOrder(scan)
    requires Registration(db, data, hash, freshId, now).Ok?
    requires forall i :: 0 <= i < |db.users| ==> ToLower(db.users[i].email) != ToLower(data.email)
    requires compare(data.password, hash(data.password))
    ensures Login(Registration(db, data, hash, freshId, now).value.db, Credentials(data.email, data.password), compare, scan)
         == Ok(Registration(db, data, hash, freshId, now).value.session)
  {
    var users := Registration(db, data, hash, freshId, now).value.db.users;
    forall j | 0 <= j < |users| && j != |db.users|
      ensures ToLower(users[j].email) != ToLower(data.email)
    {
      assert users[j] == db.users[j];
    }
    SingleMatchDecides(Registration(db, data, hash, freshId, now).value.db,
      Credentials(data.email, data.password), compare, scan, |db.users|);
  }
}
