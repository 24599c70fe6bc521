/** The file service: issuing a presigned upload URL for a key under the
    user's own prefix, refusing a key that is already taken. */
module FileService {
  import opened Errors
  import opened Strings
  import opened Tables
  import opened Storage
  import StringValidator

  const DuplicateFileName: string := "An item with the same name already exists. Please rename filename."

  /** The key a user's upload goes to: `userId/fileName`, the file name taken
      as it is. */
  function ObjectKey(userId: string, fileName: string): (key: string)
    ensures |key| == |userId| + 1 + |fileName|
    ensures key[..|userId|] == userId && key[|userId|] == '/' && key[|userId| + 1..] == fileName
  {
    userId + "/" + fileName
  }

  /** For user ids without `/`, distinct (user, file name) pairs get distinct
      keys: no user can address another user's key. */
  lemma {:induction false} ObjectKeyInjective(u1: string, f1: string, u2: string, f2: string)
    requires '/' !in u1 && '/' !in u2
    requires ObjectKey(u1, f1) == ObjectKey(u2, f2)
    ensures u1 == u2 && f1 == f2
  {
    var key := ObjectKey(u1, f1);
    IndexOfUnique(key, '/', |u1|);
    IndexOfUnique(key, '/', |u2|);
  }

  /** User ids are UUIDs, which never contain `/`, so two sessions' keys
      coincide only for the same user and the same file name. */
  lemma UuidUserKeysInjective(u1: string, f1: string, u2: string, f2: string)
    requires StringValidator.IsUuid(u1) && StringValidator.IsUuid(u2)
    requires ObjectKey(u1, f1) == ObjectKey(u2, f2)
    ensures u1 == u2 && f1 == f2
  {
    StringValidator.UuidShape(u1);
    StringValidator.UuidShape(u2);
    ObjectKeyInjective(u1, f1, u2, f2);
  }

  /** `checkIfObjectExists`: the probe's `statObject` call. Only a successful
      stat counts as present; any failure, whatever its cause, reads as
      absent. */
  function CheckIfObjectExists(store: Store, bucket: Bucket, objectKey: string, stat: Outcome): (present: bool)
    ensures present ==> (bucket, objectKey) in store
    ensures stat.Fails? ==> !present
    ensures stat.Succeeds? ==> (present <==> (bucket, objectKey) in store)
  {
    stat.Succeeds? && (bucket, objectKey) in store
  }

  datatype Presigned = Presigned(objectKey: string, presignedUrl: string)

  /** The outcome of `postPresignedUrl` and the calls it made on the store. */
  datatype Issued = Issued(result: Result<Presigned>, calls: seq<StorageCall>)

  /** `postPresignedUrl`: probe `userId/fileName`; if it is taken, refuse
      with `Duplicated`; otherwise ask for a PUT URL for the same bucket and
      key, valid for `expiry` seconds. `presign` stands for the client's URL
      signing and `presignOutcome` for whether that call fails, in which case
      its error propagates unchanged. */
  function PostPresignedUrl(
    store: Store,
    bucket: Bucket,
    fileName: string,
    user: UserSession,
    stat: Outcome,
    presign: StorageCall -> string,
    presignOutcome: Outcome,
    expiry: nat
  ): (r: Issued)
    ensures var key := ObjectKey(user.id, fileName);
      && |r.calls| >= 1 && r.calls[0] == Stat(bucket, key)
      && (CheckIfObjectExists(store, bucket, key, stat) ==>
            r.result == Err(NewError(Duplicated, Some(DuplicateFileName), None)) && r.calls == [Stat(bucket, key)])
      && (!CheckIfObjectExists(store, bucket, key, stat) ==>
            r.calls == [Stat(bucket, key), PresignPut(bucket, key, expiry)])
      && (r.result.Ok? <==> !CheckIfObjectExists(store, bucket, key, stat) && presignOutcome.Succeeds?)
      && (r.result.Ok? ==> r.result.value == Presigned(key, presign(PresignPut(bucket, key, expiry))))
    ensures forall i :: 0 <= i < |r.calls| ==> r.calls[i].Stat? || r.calls[i].PresignPut?
  {
    var key := ObjectKey(user.id, fileName);
    if CheckIfObjectExists(store, bucket, key, stat) then
      Issued(Err(NewError(Duplicated, Some(DuplicateFileName), None)), [Stat(bucket, key)])
    else
      var call := PresignPut(bucket, key, expiry);
      var result := match presignOutcome
        case Fails(e) => Err(Other(None, e))
        case Succeeds => Ok(Presigned(key, presign(call)));
      Issued(result, [Stat(bucket, key), call])
  }

  /** The key returned is the key that was probed and presigned, and it lies
      under the user's own prefix. */
  lemma {:induction false} IssuedKeyIsProbedKey(
    store: Store, bucket: Bucket, fileName: string, user: UserSession,
    stat: Outcome, presign: StorageCall -> string, presignOutcome: Outcome, expiry: nat)
    requires PostPresignedUrl(store, bucket, fileName, user, stat, presign, presignOutcome, expiry).result.Ok?
    ensures var r := PostPresignedUrl(store, bucket, fileName, user, stat, presign, presignOutcome, expiry);
      && r.calls[0] == Stat(bucket, r.result.value.objectKey)
      && r.calls[1].key == r.result.value.objectKey
      && r.result.value.objectKey[..|user.id| + 1] == user.id + "/"
  {
    var key := ObjectKey(user.id, fileName);
    assert key[..|user.id| + 1] == key[..|user.id|] + [key[|user.id|]];
  }
}
