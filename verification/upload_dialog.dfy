/** The upload dialog: the name proposed for a dropped file, and the three
    requests an upload makes with the progress reported between them. */
module UploadDialog {
  import opened Errors

  // ---------------------------------------------------------------------------
  // extension stripping: `name.replace(/\.[^/.]+$/, "")`

  /** A character the extension may hold: anything but `/` and `.`. */
  predicate IsExtensionChar(c: char) { c != '/' && c != '.' }

  /** `[^/.]+`: a non-empty run of extension characters. */
  predicate IsExtension(e: string)
  {
    |e| > 0 && forall k :: 0 <= k < |e| ==> IsExtensionChar(e[k])
  }

  /** The position of the last `.`, if any. */
  function LastDot(s: string): (i: Option<nat>)
    ensures i.Some? ==> (i.value < |s| && s[i.value] == '.'
      && forall k :: i.value < k < |s| ==> s[k] != '.')
    ensures i.None? ==> forall k :: 0 <= k < |s| ==> s[k] != '.'
    decreases |s|
  {
    if |s| == 0 then None
    else if s[|s| - 1] == '.' then Some(|s| - 1)
    else LastDot(s[..|s| - 1])
  }

  /** The pattern can only match at the last `.` (it allows no `.` after its
      first character and must reach the end), so the first match is there
      or nowhere. */
  function StripExtension(name: string): (stem: string)
    ensures |stem| <= |name| && stem == name[..|stem|]
    ensures stem != name ==> name[|stem|] == '.' && IsExtension(name[|stem| + 1..])
  {
    match LastDot(name)
    case None => name
    case Some(i) => if IsExtension(name[i + 1..]) then name[..i] else name
  }

  /** A name that ends in `.` and an extension loses exactly those. */
  lemma StripsExtension(stem: string, ext: string)
    requires IsExtension(ext)
    ensures StripExtension(stem + "." + ext) == stem
  {
    var s := stem + "." + ext;
    var i := |stem|;
    assert s[i] == '.';
    forall k | i < k < |s| ensures s[k] != '.' {
      assert s[k] == ext[k - i - 1];
    }
    assert LastDot(s) == Some(i);
    assert s[i + 1..] == ext;
  }

  /** Stripping changes a name exactly when it ends in `.` and an extension;
      `x.`, `noext` and `a.b/c` are kept whole. */
  lemma StripChangesExactly(name: string)
    ensures StripExtension(name) != name <==>
      exists stem, ext :: IsExtension(ext) && name == stem + "." + ext
  {
    var stem := StripExtension(name);
    if stem != name {
      var ext := name[|stem| + 1..];
      assert name == stem + "." + ext;
    }
    if exists stem', ext :: IsExtension(ext) && name == stem' + "." + ext {
      var stem', ext :| IsExtension(ext) && name == stem' + "." + ext;
      StripsExtension(stem', ext);
    }
  }

  /** Stripping removes one extension only: stripping twice removes two. */
  lemma StripOnlyOnce(stem: string, ext1: string, ext2: string)
    requires IsExtension(ext1) && IsExtension(ext2)
    ensures StripExtension(stem + "." + ext1 + "." + ext2) == stem + "." + ext1
    ensures StripExtension(StripExtension(stem + "." + ext1 + "." + ext2)) == stem
  {
    StripsExtension(stem + "." + ext1, ext2);
    StripsExtension(stem, ext1);
  }

  /** A name that is only a dot and an extension, like `.hidden`, strips to
      the empty string. */
  lemma HiddenNameStripsToEmpty(ext: string)
    requires IsExtension(ext)
    ensures StripExtension("." + ext) == ""
  {
    StripsExtension("", ext);
    assert "" + "." + ext == "." + ext;
  }

  // ---------------------------------------------------------------------------
  // dropping files

  /** The parts of a browser `File` the dialog uses. */
  datatype LocalFile = LocalFile(name: string, size: nat, mimeType: string)

  /** The dialog's state after a drop: the proposed name and the chosen
      file. */
  datatype Dropped = Dropped(formName: string, file: LocalFile)

  /** `onDrop`: only the first accepted file is taken; no file leaves the
      dialog as it was. */
  function OnDrop(accepted: seq<LocalFile>): (d: Option<Dropped>)
    ensures d.None? <==> |accepted| == 0
    ensures d.Some? ==> (d.value.file == accepted[0]
      && StripExtension(accepted[0].name) == d.value.formName)
  {
    if |accepted| == 0 then None
    else Some(Dropped(StripExtension(accepted[0].name), accepted[0]))
  }

  /** Later files in one drop change nothing. */
  lemma OnlyFirstFileCounts(f: LocalFile, more1: seq<LocalFile>, more2: seq<LocalFile>)
    ensures OnDrop([f] + more1) == OnDrop([f] + more2)
  {
  }

  // ---------------------------------------------------------------------------
  // uploading

  /** The form's fields. */
  datatype UploadForm = UploadForm(name: string, artist: Option<string>, description: Option<string>)

  /** What the server says about the object it reserved. */
  datatype ReservedObject = ReservedObject(bucket: string, objectKey: string)

  /** The answer to the presigned-URL request. */
  datatype UrlGrant = UrlGrant(presignedUrl: string, fileObject: ReservedObject)

  /** The audio record posted at the end. */
  datatype NewFileObject = NewFileObject(bucket: string, objectKey: string, fileSize: nat)
  datatype NewAudio = NewAudio(name: string, fileObject: NewFileObject, description: Option<string>, artist: Option<string>)

  /** How a request ends: with a value, or by throwing with a message. */
  datatype Answer<T> = Answered(value: T) | Threw(message: string)

  /** The status of the PUT to the presigned URL. */
  datatype PutStatus = PutStatus(ok: bool, statusText: string)

  /** What an upload does, in order. */
  datatype Step =
    | Progress(percent: nat)
    | RequestUrl(bucket: string, fileName: string, fileSize: nat)
    | PutObject(url: string, body: LocalFile, contentType: string)
    | PostAudio(audio: NewAudio)

  const AudioBucketName: string := "audio"

  /** `uploadAudio`: the steps taken and how it ends. The three server
      answers are parameters. */
  function UploadAudio<R>(
    file: LocalFile, form: UploadForm,
    grant: Answer<UrlGrant>, put: Answer<PutStatus>, post: Answer<R>
  ): (run: (seq<Step>, Answer<R>))
    ensures |run.0| >= 2 && run.0[0] == Progress(10)
      && run.0[1] == RequestUrl(AudioBucketName, form.name, file.size)
    ensures run.1.Answered? <==> grant.Answered? && put.Answered? && put.value.ok && post.Answered?
    ensures (grant.Answered? && put.Answered? && !put.value.ok) ==>
      run.1 == Threw("Upload failed: " + put.value.statusText)
      && forall k :: 0 <= k < |run.0| ==> !run.0[k].PostAudio? && run.0[k] != Progress(70)
    ensures forall k :: 0 <= k < |run.0| && run.0[k].PostAudio? ==>
      && grant.Answered? && put.Answered? && put.value.ok
      && run.0[k].audio == NewAudio(form.name,
           NewFileObject(grant.value.fileObject.bucket, grant.value.fileObject.objectKey, file.size),
           form.description, form.artist)
  {
    var begin := [Progress(10), RequestUrl(AudioBucketName, form.name, file.size)];
    match grant
    case Threw(m) => (begin, Threw(m))
    case Answered(g) =>
      var sent := begin + [Progress(20), PutObject(g.presignedUrl, file, file.mimeType)];
      match put
      case Threw(m) => (sent, Threw(m))
      case Answered(status) =>
        if !status.ok then (sent, Threw("Upload failed: " + status.statusText))
        else
          var audio := NewAudio(form.name,
            NewFileObject(g.fileObject.bucket, g.fileObject.objectKey, file.size),
            form.description, form.artist);
          var posted := sent + [Progress(70), PostAudio(audio)];
          match post
          case Threw(m) => (posted, Threw(m))
          case Answered(r) => (posted + [Progress(100)], Answered(r))
  }

  /** The progress values in a run, in order. */
  function Percents(steps: seq<Step>): seq<nat>
  {
    if |steps| == 0 then []
    else (if steps[0].Progress? then [steps[0].percent] else []) + Percents(steps[1..])
  }

  lemma {:induction false} PercentsAppend(a: seq<Step>, b: seq<Step>)
    ensures Percents(a + b) == Percents(a) + Percents(b)
    decreases |a|
  {
    if |a| > 0 {
      PercentsAppend(a[1..], b);
      assert (a + b)[1..] == a[1..] + b;
    } else {
      assert a + b == b;
    }
  }

  lemma PercentsPair(a: Step, b: Step)
    requires a.Progress? && !b.Progress?
    ensures Percents([a, b]) == [a.percent]
  {
    assert [a, b][1..] == [b];
    assert [b][1..] == [];
    assert Percents([b]) == [] + Percents([]);
    assert Percents([a, b]) == [a.percent] + Percents([b]);
  }

  /** The progress an upload reports: a prefix of 10, 20, 70, 100, complete
      exactly when the upload succeeds, and missing 70 and 100 when the PUT
      is refused. */
  lemma UploadPercents<R>(
    file: LocalFile, form: UploadForm,
    grant: Answer<UrlGrant>, put: Answer<PutStatus>, post: Answer<R>)
    ensures var (steps, outcome) := UploadAudio(file, form, grant, put, post);
      && (outcome.Answered? ==> Percents(steps) == [10, 20, 70, 100])
      && (outcome.Threw? ==> exists n :: 1 <= n <= 3 && Percents(steps) == [10, 20, 70, 100][..n])
      && (put.Answered? && !put.value.ok ==> 70 !in Percents(steps))
  {
    var (steps, outcome) := UploadAudio(file, form, grant, put, post);
    var s1 := [Progress(10), RequestUrl(AudioBucketName, form.name, file.size)];
    PercentsPair(s1[0], s1[1]);
    if grant.Answered? {
      var s2 := [Progress(20), PutObject(grant.value.presignedUrl, file, file.mimeType)];
      PercentsPair(s2[0], s2[1]);
      PercentsAppend(s1, s2);
      if put.Answered? && put.value.ok {
        var s3 := [Progress(70), steps[5]];
        PercentsPair(s3[0], s3[1]);
        PercentsAppend(s1 + s2, s3);
        if post.Answered? {
          assert Percents([Progress(100)]) == [100];
          PercentsAppend(s1 + s2 + s3, [Progress(100)]);
          assert Percents(steps) == [10, 20, 70, 100][..4];
        } else {
          assert Percents(steps) == [10, 20, 70, 100][..3];
        }
      } else {
        assert Percents(steps) == [10, 20, 70, 100][..2];
      }
    } else {
      assert Percents(steps) == [10, 20, 70, 100][..1];
    }
  }

  /** The upload mutation: the run, then the progress bar reset to 0, by
      the success callback (through the dialog reset) or by the error
      callback. */
  function UploadMutation<R>(
    file: LocalFile, form: UploadForm,
    grant: Answer<UrlGrant>, put: Answer<PutStatus>, post: Answer<R>
  ): (run: (seq<Step>, Answer<R>))
    ensures run.1 == UploadAudio(file, form, grant, put, post).1
    ensures run.1.Answered? ==> Percents(run.0) == [10, 20, 70, 100, 0]
    ensures run.1.Threw? ==>
      exists n :: 1 <= n <= 3 && Percents(run.0) == [10, 20, 70, 100][..n] + [0]
    ensures |Percents(run.0)| >= 2 && Percents(run.0)[|Percents(run.0)| - 1] == 0
  {
    var (steps, outcome) := UploadAudio(file, form, grant, put, post);
    UploadPercents(file, form, grant, put, post);
    PercentsAppend(steps, [Progress(0)]);
    assert Percents([Progress(0)]) == [0];
    (steps + [Progress(0)], outcome)
  }
}
