/** The user service: reading and updating the signed-in user's own row. */
module UserService {
  import opened Errors
  import opened Seqs
  import opened Tables

  /** The fields a user may change: both are required. */
  datatype UserData = UserData(name: string, email: string)

  /** A store after a successful write, with what the write returned. */
  datatype Written = Written(db: Db, session: UserSession)

  const UserNotFound: string := "User not found."

  function HasId(id: Id): UserRow -> bool
  {
    (u: UserRow) => u.id == id
  }

  /** `getUserData`: the first row whose id is the session's, or `NotFound`. */
  function GetUserData(db: Db, user: UserSession): (r: Result<UserRow>)
    ensures r.Ok? <==> user.id in UserIds(db.users)
    ensures r.Ok? ==> r.value == db.users[IndexWhere(db.users, HasId(user.id))] && r.value.id == user.id
    ensures r.Err? ==> r.error == NewError(NotFound, Some(UserNotFound), None)
  {
    var rows := Filter(db.users, HasId(user.id));
    FilterHead(db.users, HasId(user.id));
    if |rows| == 0 then
      Err(NewError(NotFound, Some(UserNotFound), None))
    else
      Ok(rows[0])
  }

  /** A row after the update: the supplied fields and a new `updatedAt`;
      the id, the password and `createdAt` are untouched. */
  function Updated(u: UserRow, data: UserData, now: Timestamp): UserRow
  {
    u.(name := data.name, email := data.email, updatedAt := now)
  }

  /** `putUserData`: update the session user's row and return its id, name
      and e-mail. No such row gives `NotFound` and changes nothing; an e-mail
      another row already has violates the unique index. */
  function PutUserData(db: Db, data: UserData, user: UserSession, now: Timestamp): (r: Result<Written>)
    ensures user.id !in UserIds(db.users) ==> r == Err(NewError(NotFound, Some(UserNotFound), None))
    ensures r.Ok? <==> user.id in UserIds(db.users) && !EmailTakenByOther(db.users, data.email, user.id)
    ensures r.Err? && user.id in UserIds(db.users) ==>
      r.error.DrizzleQuery? && r.error.cause.Some? && r.error.cause.value.code == "23505"
    ensures r.Ok? ==> r.value.session == UserSession(user.id, data.email, data.name)
    ensures r.Ok? ==>
      && r.value.db.audios == db.audios && r.value.db.genres == db.genres
      && r.value.db.audioGenres == db.audioGenres
      && |r.value.db.users| == |db.users|
      && forall i :: 0 <= i < |db.users| ==>
           && (db.users[i].id == user.id ==> r.value.db.users[i] == Updated(db.users[i], data, now))
           && (db.users[i].id != user.id ==> r.value.db.users[i] == db.users[i])
  {
    if user.id !in UserIds(db.users) then Err(NewError(NotFound, Some(UserNotFound), None))
    else if EmailTakenByOther(db.users, data.email, user.id) then
      Err(UniqueViolation("users_email_unique", "email", data.email))
    else
      var users := seq(|db.users|, i requires 0 <= i < |db.users| =>
        if db.users[i].id == user.id then Updated(db.users[i], data, now) else db.users[i]);
      Ok(Written(db.(users := users), UserSession(user.id, data.email, data.name)))
  }

  /** A successful update keeps every constraint. */
  lemma {:induction false} PutUserDataPreservesValid(db: Db, data: UserData, user: UserSession, now: Timestamp)
    requires Valid(db)
    requires PutUserData(db, data, user, now).Ok?
    ensures Valid(PutUserData(db, data, user, now).value.db)
  {
    var r := PutUserData(db, data, user, now).value.db;
    forall i, j | 0 <= i < j < |r.users| ensures r.users[i].id != r.users[j].id && r.users[i].email != r.users[j].email {
      assert db.users[i].id != db.users[j].id;
    }
    assert UserIds(r.users) == UserIds(db.users) by {
      forall id ensures id in UserIds(r.users) <==> id in UserIds(db.users) {
        if id in UserIds(db.users) {
          var i :| 0 <= i < |db.users| && db.users[i].id == id;
          assert r.users[i].id == id;
        }
        if id in UserIds(r.users) {
          var i :| 0 <= i < |r.users| && r.users[i].id == id;
          assert db.users[i].id == id;
        }
      }
    }
  }

  /** Reading after a successful update returns the updated row. */
  lemma {:induction false} GetAfterPut(db: Db, data: UserData, user: UserSession, now: Timestamp)
    requires PutUserData(db, data, user, now).Ok?
    ensures var after := PutUserData(db, data, user, now).value.db;
      && GetUserData(after, user).Ok?
      && GetUserData(after, user).value.name == data.name
      && GetUserData(after, user).value.email == data.email
      && GetUserData(after, user).value.updatedAt == now
  {
    var after := PutUserData(db, data, user, now).value.db;
    var i := IndexWhere(db.users, HasId(user.id));
    assert i < |db.users| by {
      var k :| 0 <= k < |db.users| && db.users[k].id == user.id;
    }
    assert after.users[i].id == user.id;
    assert user.id in UserIds(after.users);
    var j := IndexWhere(after.users, HasId(user.id));
    assert db.users[j].id == user.id;
  }
}
