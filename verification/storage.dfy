/** The object store and the storage service over it. The store is a map
    from (bucket, key) to stored objects; every client call has an outcome
    supplied by the caller, since whether the network or the server fails is
    outside the model. Each failure is rethrown as a plain error whose
    message names the operation. */
module Storage {
  import opened Errors
  import opened Strings
  import opened Tables

  type byte = bv8

  datatype StoredObject = StoredObject(
    content: seq<byte>,
    metaData: map<string, string>,
    lastModified: Timestamp,
    etag: string)

  type Store = map<(Bucket, string), StoredObject>

  /** Whether a call reached the store, or failed with the given error text
      (the error as a template literal renders it). */
  datatype Outcome = Succeeds | Fails(error: string)

  /** The calls the server makes on the store. */
  datatype StorageCall =
    | Stat(bucket: Bucket, key: string)
    | Put(bucket: Bucket, key: string)
    | Get(bucket: Bucket, key: string)
    | Remove(bucket: Bucket, key: string)
    | PresignGet(bucket: Bucket, key: string, expiry: nat)
    | PresignPut(bucket: Bucket, key: string, expiry: nat)

  const UploadFailed: string := "Failed to upload file: "
  const DownloadFailed: string := "Failed to download file: "
  const DeleteFailed: string := "Failed to delete file: "
  const MetadataFailed: string := "Failed to get file metadata: "
  const PresignFailed: string := "Failed to generate presigned URL: "

  /** Seven days, in seconds. */
  const DefaultExpiry: nat := 7 * 24 * 60 * 60

  /** A failure rethrown as `new Error(prefix + error)`. */
  function Rethrown(prefix: string, error: string): (e: Fault)
    ensures e.Other? && e.statusCode.None? && e.message == prefix + error
  {
    Other(None, prefix + error)
  }

  // ---------------------------------------------------------------------------
  // object names

  /** `originalName.split(".").pop() || ""`: the text after the last `.`, or
      the whole name when it has none. */
  function FileExtension(originalName: string): (ext: string)
    ensures '.' !in ext
    ensures |ext| <= |originalName| && ext == originalName[|originalName| - |ext|..]
    ensures |ext| < |originalName| ==> originalName[|originalName| - |ext| - 1] == '.'
    ensures '.' !in originalName ==> ext == originalName
  {
    var pieces := Split(originalName, '.');
    LastPieceIsSuffix(originalName, '.');
    if '.' !in originalName then
      SplitNoSeparator(originalName, '.');
      pieces[|pieces| - 1]
    else
      pieces[|pieces| - 1]
  }

  /** The key an upload is stored under: `userId/uuid.ext`. */
  function ObjectName(userId: string, uuid: string, originalName: string): (key: string)
    ensures key == userId + "/" + uuid + "." + FileExtension(originalName)
  {
    userId + "/" + uuid + "." + FileExtension(originalName)
  }

  /** The extension is whatever follows the last `.`: `a.b.c` gives `c`, and
      a trailing `.` (`x.`) gives the empty extension. */
  lemma {:induction false} ExtensionAfterLastDot(stem: string, ext: string)
    requires '.' !in ext
    ensures FileExtension(stem + "." + ext) == ext
  {
    var s := stem + "." + ext;
    var e := FileExtension(s);
    assert s[|s| - |ext| - 1] == '.';
    assert e == s[|s| - |ext|..] == ext;
  }

  // ---------------------------------------------------------------------------
  // the storage service

  datatype UploadResult = UploadResult(objectName: string, size: nat, etag: string)

  datatype Uploaded = Uploaded(store: Store, result: UploadResult)

  /** The metadata an upload attaches to the object. */
  function UploadMetadata(originalName: string, contentType: string, uploadedAt: Timestamp, userId: string): map<string, string>
  {
    map["Content-Type" := contentType,
        "original-name" := originalName,
        "content-type" := contentType,
        "uploaded-at" := uploadedAt,
        "user-id" := userId]
  }

  /** `uploadFile`: store the buffer under `userId/uuid.ext` in the audio
      bucket with its metadata. `uuid` stands for `randomUUID()`, `now` for
      the clock and `etag` for what the store answers. */
  function UploadFile(
    store: Store,
    fileBuffer: seq<byte>,
    originalName: string,
    contentType: string,
    userId: string,
    uuid: string,
    now: Timestamp,
    etag: string,
    put: Outcome
  ): (r: Result<Uploaded>)
    ensures put.Fails? ==> r == Err(Rethrown(UploadFailed, put.error))
    ensures put.Succeeds? ==> r.Ok?
    ensures r.Ok? ==>
      var key := ObjectName(userId, uuid, originalName);
      && r.value.result == UploadResult(key, |fileBuffer|, etag)
      && (AudioBucket, key) in r.value.store
      && r.value.store[(AudioBucket, key)].content == fileBuffer
      && (forall k :: k in store && k != (AudioBucket, key) ==> k in r.value.store && r.value.store[k] == store[k])
      && (forall k :: k in r.value.store ==> k in store || k == (AudioBucket, key))
  {
    var key := ObjectName(userId, uuid, originalName);
    match put
    case Fails(e) => Err(Rethrown(UploadFailed, e))
    case Succeeds =>
      var obj := StoredObject(fileBuffer, UploadMetadata(originalName, contentType, now, userId), now, etag);
      Ok(Uploaded(store[(AudioBucket, key) := obj], UploadResult(key, |fileBuffer|, etag)))
  }

  /** `downloadFile`: the object's content. `missing` is the client's error
      for a key the store does not hold, as a template literal renders it
      (the error's name, a colon, then its message). */
  function DownloadFile(store: Store, objectName: string, get: Outcome, missing: string): (r: Result<seq<byte>>)
    ensures r.Ok? <==> get.Succeeds? && (AudioBucket, objectName) in store
    ensures r.Ok? ==> r.value == store[(AudioBucket, objectName)].content
    ensures get.Fails? ==> r == Err(Rethrown(DownloadFailed, get.error))
    ensures get.Succeeds? && r.Err? ==> r == Err(Rethrown(DownloadFailed, missing))
  {
    match get
    case Fails(e) => Err(Rethrown(DownloadFailed, e))
    case Succeeds =>
      if (AudioBucket, objectName) in store then Ok(store[(AudioBucket, objectName)].content)
      else Err(Rethrown(DownloadFailed, missing))
  }

  /** `deleteFile`: the object is gone afterwards; removing a missing object
      is not an error. */
  function DeleteFile(store: Store, objectName: string, rm: Outcome): (r: Result<Store>)
    ensures rm.Fails? ==> r == Err(Rethrown(DeleteFailed, rm.error))
    ensures rm.Succeeds? ==> r.Ok?
    ensures r.Ok? ==> (AudioBucket, objectName) !in r.value
    ensures r.Ok? ==> forall k :: k != (AudioBucket, objectName) ==> (k in r.value <==> k in store) && (k in store ==> r.value[k] == store[k])
  {
    match rm
    case Fails(e) => Err(Rethrown(DeleteFailed, e))
    case Succeeds => Ok(store - {(AudioBucket, objectName)})
  }

  datatype FileMetadata = FileMetadata(
    originalName: string,
    contentType: string,
    size: nat,
    uploadedAt: Timestamp,
    userId: string)

  /** `meta?.[key] || fallback`: a missing or empty entry gives the fallback. */
  function MetaOr(meta: map<string, string>, key: string, fallback: string): (v: string)
    ensures key in meta && meta[key] != "" ==> v == meta[key]
    ensures !(key in meta && meta[key] != "") ==> v == fallback
  {
    if key in meta && meta[key] != "" then meta[key] else fallback
  }

  /** `getFileMetadata`: what the store knows of an object, each missing
      entry replaced by its default; the upload time falls back to the
      object's last modification. `missing` is the rendered not-found error,
      as for `DownloadFile`. */
  function GetFileMetadata(store: Store, objectName: string, stat: Outcome, missing: string): (r: Result<FileMetadata>)
    ensures r.Ok? <==> stat.Succeeds? && (AudioBucket, objectName) in store
    ensures stat.Fails? ==> r == Err(Rethrown(MetadataFailed, stat.error))
    ensures stat.Succeeds? && r.Err? ==> r == Err(Rethrown(MetadataFailed, missing))
    ensures r.Ok? ==>
      var obj := store[(AudioBucket, objectName)];
      && r.value.size == |obj.content|
      && r.value.originalName == MetaOr(obj.metaData, "original-name", "unknown")
      && r.value.contentType == MetaOr(obj.metaData, "content-type", "application/octet-stream")
      && r.value.uploadedAt == MetaOr(obj.metaData, "uploaded-at", obj.lastModified)
      && r.value.userId == MetaOr(obj.metaData, "user-id", "unknown")
  {
    match stat
    case Fails(e) => Err(Rethrown(MetadataFailed, e))
    case Succeeds =>
      if (AudioBucket, objectName) !in store then Err(Rethrown(MetadataFailed, missing))
      else
        var obj := store[(AudioBucket, objectName)];
        Ok(FileMetadata(
          MetaOr(obj.metaData, "original-name", "unknown"),
          MetaOr(obj.metaData, "content-type", "application/octet-stream"),
          |obj.content|,
          MetaOr(obj.metaData, "uploaded-at", obj.lastModified),
          MetaOr(obj.metaData, "user-id", "unknown")))
  }

  /** Reading the metadata of a file just uploaded gives back what the upload
      recorded (the name and type defaulted only when they were empty). */
  lemma {:induction false} UploadThenMetadata(
    store: Store, fileBuffer: seq<byte>, originalName: string, contentType: string,
    userId: string, uuid: string, now: Timestamp, etag: string, missing: string)
    requires now != "" && userId != ""
    ensures var up := UploadFile(store, fileBuffer, originalName, contentType, userId, uuid, now, etag, Succeeds);
      && up.Ok?
      && GetFileMetadata(up.value.store, up.value.result.objectName, Succeeds, missing)
         == Ok(FileMetadata(
              if originalName == "" then "unknown" else originalName,
              if contentType == "" then "application/octet-stream" else contentType,
              |fileBuffer|, now, userId))
  {
  }

  /** Downloading a file just uploaded gives back its bytes. */
  lemma {:induction false} UploadThenDownload(
    store: Store, fileBuffer: seq<byte>, originalName: string, contentType: string,
    userId: string, uuid: string, now: Timestamp, etag: string, missing: string)
    ensures var up := UploadFile(store, fileBuffer, originalName, contentType, userId, uuid, now, etag, Succeeds);
      && up.Ok?
      && DownloadFile(up.value.store, up.value.result.objectName, Succeeds, missing) == Ok(fileBuffer)
  {
  }

  /** `generatePresignedUrl`: a GET URL for the object, valid for `expiry`
      seconds, seven days when no expiry is given. `presign` stands for the
      client's URL signing. */
  function GeneratePresignedUrl(
    objectName: string,
    expiry: Option<nat>,
    presign: StorageCall -> string,
    outcome: Outcome
  ): (r: Result<string>)
    ensures outcome.Fails? ==> r == Err(Rethrown(PresignFailed, outcome.error))
    ensures outcome.Succeeds? ==> r.Ok?
    ensures r.Ok? && expiry.None? ==> r.value == presign(PresignGet(AudioBucket, objectName, 604800))
    ensures r.Ok? && expiry.Some? ==> r.value == presign(PresignGet(AudioBucket, objectName, expiry.value))
  {
    match outcome
    case Fails(e) => Err(Rethrown(PresignFailed, e))
    case Succeeds => Ok(presign(PresignGet(AudioBucket, objectName, expiry.GetOr(DefaultExpiry))))
  }
}
