/** Request bodies: captured chunk by chunk with a bounded preview, spilled to a file when they
    outgrow memory, forwarded, saved as an artifact when the preview is not all, and replayed. */
module BodyCapture {
  import opened Effects
  import opened Framing

  const SPILL_THRESHOLD := 1 * 1024 * 1024

  type Bytes = seq<Byte>

  /** What the preview of a body keeps; no limit above zero keeps nothing. */
  function Preview(limit: int, body: Bytes): Bytes {
    if limit <= 0 then [] else if limit < |body| then body[..limit] else body
  }

  /** It is a prefix, as long as the limit and the body allow. */
  lemma PreviewIsPrefix(limit: int, body: Bytes)
    ensures Preview(limit, body) <= body
    ensures |Preview(limit, body)| == if limit < 0 then 0 else if limit < |body| then limit else |body|
  {
  }

  /** Which of the file operations of one write fail. */
  datatype Files = Files(createFails: bool, firstWriteFails: bool, writeFails: bool)

  /** One read of the request body. */
  datatype ReadEnd = Continues | Eof | Broken
  datatype ReadChunk = ReadChunk(data: Bytes, end: ReadEnd, files: Files)

  /** The body that some reads deliver, and whether they end without an error. */
  function Delivered(body: seq<ReadChunk>): Bytes {
    if body == [] then []
    else if body[0].end == Continues then body[0].data + Delivered(body[1..])
    else body[0].data
  }

  predicate Complete(body: seq<ReadChunk>) {
    body == [] || body[0].end == Eof || (body[0].end == Continues && Complete(body[1..]))
  }

  /** All reads of a body that is read to its end deliver all their data, the last one included. */
  lemma {:induction false} AllIsDelivered(body: seq<ReadChunk>)
    requires body != [] && body[|body| - 1].end == Eof
    requires forall i :: 0 <= i < |body| - 1 ==> body[i].end == Continues
    ensures Complete(body)
    ensures Delivered(body) == Concat(seq(|body|, i requires 0 <= i < |body| => body[i].data))
    decreases |body|
  {
    var datas := seq(|body|, i requires 0 <= i < |body| => body[i].data);
    assert datas[1..] == seq(|body| - 1, i requires 0 <= i < |body| - 1 => body[1..][i].data);
    if |body| > 1 {
      AllIsDelivered(body[1..]);
    } else {
      assert Concat(datas[1..]) == [];
    }
  }

  /** Whether a chunk that follows length bytes ends up in the file. */
  predicate Spilled(before: bool, length: nat, chunk: Bytes) {
    before || length + |chunk| > SPILL_THRESHOLD
  }

  /** Whether the file operations needed for that chunk work. */
  predicate Works(before: bool, length: nat, chunk: Bytes, files: Files) {
    if before then !files.writeFails
    else if length + |chunk| <= SPILL_THRESHOLD then true
    else !files.createFails && !files.firstWriteFails && !files.writeFails
  }

  /** Whether a body that follows length bytes can be captured. */
  predicate Capturable(spilled: bool, length: nat, body: seq<ReadChunk>, closeFails: bool)
    decreases |body|
  {
    if body == [] then !spilled || !closeFails
    else
      var chunk := body[0].data;
      var after := if chunk == [] then spilled else Spilled(spilled, length, chunk);
      && (chunk == [] || Works(spilled, length, chunk, body[0].files))
      && match body[0].end {
        case Continues => Capturable(after, length + |chunk|, body[1..], closeFails)
        case Eof => !after || !closeFails
        case Broken => false
      }
  }

  class RequestBodyCapture {
    const maxPreviewSize: int
    var preview: Bytes
    var buffer: Bytes
    var tempFile: Option<Bytes> // contents of the file while it is being written
    var tempPath: Option<Bytes> // contents once it is closed
    var bodyLen: nat

    /** Everything written so far is in memory or in the file, never in both. */
    ghost predicate Holds(body: Bytes)
      reads this
    {
      && bodyLen == |body| && preview == Preview(maxPreviewSize, body)
      && |buffer| <= SPILL_THRESHOLD
      && (if tempFile.Some? then tempFile.value == body && buffer == [] && tempPath == None
          else if tempPath.Some? then tempPath.value == body && buffer == []
          else buffer == body)
    }

    constructor (maxPreviewSize: int)
      ensures Holds([]) && tempFile == None && tempPath == None && this.maxPreviewSize == maxPreviewSize
    {
      this.maxPreviewSize := maxPreviewSize;
      preview, buffer, tempFile, tempPath, bodyLen := [], [], None, None, 0;
    }

    method Capture(chunk: Bytes, ghost body: Bytes)
      requires preview == Preview(maxPreviewSize, body)
      modifies this`preview
      ensures preview == Preview(maxPreviewSize, body + chunk)
    {
      if maxPreviewSize == 0 {
        return;
      }
      var remaining := maxPreviewSize - |preview|;
      if remaining <= 0 {
        PreviewFull(maxPreviewSize, body, chunk);
        return;
      }
      if remaining > |chunk| {
        remaining := |chunk|;
      }
      PreviewGrows(maxPreviewSize, body, chunk);
      preview := preview + chunk[..remaining];
    }

    method WriteChunk(chunk: Bytes, files: Files, ghost body: Bytes) returns (ok: bool)
      requires Holds(body) && tempPath == None
      modifies this
      ensures ok <==> Works(old(tempFile.Some?), |body|, chunk, files)
      ensures ok ==> Holds(body + chunk) && tempPath == None
      ensures ok ==> (tempFile.Some? <==> Spilled(old(tempFile.Some?), |body|, chunk))
    {
      bodyLen := bodyLen + |chunk|;
      Capture(chunk, body);
      if tempFile.Some? {
        if files.writeFails {
          return false;
        }
        tempFile := Some(tempFile.value + chunk);
        return true;
      }
      if |buffer| + |chunk| <= SPILL_THRESHOLD {
        buffer := buffer + chunk;
        return true;
      }
      if files.createFails || files.firstWriteFails {
        return false;
      }
      var contents := buffer;
      buffer := [];
      if files.writeFails {
        return false;
      }
      tempFile := Some(contents + chunk);
      return true;
    }

    method CloseTempFile(fails: bool) returns (ok: bool)
      requires tempPath == None
      modifies this`tempFile, this`tempPath
      ensures ok <==> old(tempFile.None?) || !fails
      ensures ok ==> tempFile == None && tempPath == old(tempFile)
    {
      if tempFile.None? {
        return true;
      }
      var contents := tempFile;
      tempFile := None;
      if fails {
        return false;
      }
      tempPath := contents;
      return true;
    }

    predicate NeedsArtifact()
      reads this
    {
      bodyLen > |preview|
    }

    /** What has been captured. */
    function Contents(): Bytes
      reads this
    {
      if tempPath.Some? then tempPath.value else buffer
    }

    /** Opens the captured body for reading; only a file may fail to open. */
    method Reader(openFails: bool) returns (source: Option<Bytes>)
      ensures source == if tempPath.Some? && openFails then None else Some(Contents())
    {
      if tempPath.Some? {
        if openFails {
          return None;
        }
        return tempPath;
      }
      return Some(buffer);
    }
  }

  lemma PreviewFull(limit: int, body: Bytes, chunk: Bytes)
    requires limit <= |Preview(limit, body)|
    ensures Preview(limit, body + chunk) == Preview(limit, body)
  {
    if limit > 0 { assert (body + chunk)[..limit] == body[..limit]; }
  }

  lemma PreviewGrows(limit: int, body: Bytes, chunk: Bytes)
    requires limit > |Preview(limit, body)|
    ensures var n := limit - |Preview(limit, body)|;
      Preview(limit, body + chunk) == Preview(limit, body) + chunk[..if n > |chunk| then |chunk| else n]
  {
    var n := limit - |body|;
    assert Preview(limit, body) == body;
    if n < |chunk| { assert (body + chunk)[..limit] == body + chunk[..n]; }
  }

  /** Reads the whole body. The capture exists exactly when the body ends without error and the
      file operations that turn out to be needed work; then it holds exactly the body. */
  method CaptureRequestBodySnapshot(body: seq<ReadChunk>, maxPreviewSize: int, closeFails: bool)
    returns (snapshot: RequestBodyCapture?)
    ensures snapshot != null <==> Capturable(false, 0, body, closeFails)
    ensures snapshot != null ==>
      && fresh(snapshot) && snapshot.maxPreviewSize == maxPreviewSize
      && snapshot.Holds(Delivered(body)) && snapshot.tempFile == None && snapshot.Contents() == Delivered(body)
      && (snapshot.tempPath.Some? <==> OnDisk(Delivered(body)))
  {
    snapshot := new RequestBodyCapture(maxPreviewSize);
    ghost var done: Bytes := [];
    var i := 0;
    while i < |body|
      invariant 0 <= i <= |body| && fresh(snapshot)
      invariant snapshot.maxPreviewSize == maxPreviewSize && snapshot.tempPath == None && snapshot.Holds(done)
      invariant snapshot.tempFile.Some? ==> |done| > SPILL_THRESHOLD
      invariant Delivered(body) == done + Delivered(body[i..])
      invariant Capturable(false, 0, body, closeFails)
        == Capturable(snapshot.tempFile.Some?, |done|, body[i..], closeFails)
    {
      var read := body[i];
      DeliveredStep(body, i, done);
      if |read.data| > 0 {
        var ok := snapshot.WriteChunk(read.data, read.files, done);
        if !ok {
          return null;
        }
      }
      done := done + read.data;
      i := i + 1;
      if read.end == Eof {
        break;
      }
      if read.end == Broken {
        return null;
      }
    }
    assert body[|body|..] == [] && done + [] == done;
    var ok := snapshot.CloseTempFile(closeFails);
    if !ok {
      return null;
    }
  }

  lemma DeliveredStep(body: seq<ReadChunk>, i: nat, done: Bytes)
    requires i < |body| && Delivered(body) == done + Delivered(body[i..])
    ensures body[i..][1..] == body[i + 1..]
    ensures Delivered(body) == done + body[i].data + if body[i].end == Continues then Delivered(body[i + 1..]) else []
  {
    assert body[i..][1..] == body[i + 1..];
    if body[i].end == Continues {
      ConcatAssociates(done, body[i].data, Delivered(body[i + 1..]));
    }
  }

  lemma {:induction false} SmallIsCapturable(body: seq<ReadChunk>, length: nat, closeFails: bool)
    requires Complete(body) && length + |Delivered(body)| <= SPILL_THRESHOLD
    ensures Capturable(false, length, body, closeFails)
    decreases |body|
  {
    if body != [] && body[0].end == Continues {
      SmallIsCapturable(body[1..], length + |body[0].data|, closeFails);
    }
  }

  // ----- which bodies are captured -----

  /** How many bytes the first n reads bring. */
  function Total(body: seq<ReadChunk>, n: nat): nat
    requires n <= |body|
  {
    if n == 0 then 0 else |body[0].data| + Total(body[1..], n - 1)
  }

  /** Behind length bytes: the file operations work that a read ends up with once there are more
      than 1 MiB; it has the file made, and filled with the bytes so far, if it is the first. */
  predicate FileWorks(body: seq<ReadChunk>, length: nat, i: nat)
    requires i < |body|
  {
    body[i].data != [] && length + Total(body, i + 1) > 0x10_0000 ==>
      && !body[i].files.writeFails
      && (length + Total(body, i) <= 0x10_0000 ==> !body[i].files.createFails && !body[i].files.firstWriteFails)
  }

  ghost predicate AllWork(body: seq<ReadChunk>, length: nat) {
    forall i :: 0 <= i < |body| ==> FileWorks(body, length, i)
  }

  ghost predicate ReadToEnd(body: seq<ReadChunk>) {
    body != [] && body[|body| - 1].end == Eof && forall i :: 0 <= i < |body| - 1 ==> body[i].end == Continues
  }

  /** A body that is read to its end is captured exactly when these work for every read, and the
      file can be closed if there is one. */
  lemma CapturableIff(body: seq<ReadChunk>, closeFails: bool)
    requires ReadToEnd(body)
    ensures Capturable(false, 0, body, closeFails) <==>
      && AllWork(body, 0)
      && (|Delivered(body)| > 0x10_0000 ==> !closeFails)
    ensures Total(body, |body|) == |Delivered(body)|
  {
    CapturableFrom(body, 0, closeFails);
  }

  lemma {:induction false} CapturableFrom(body: seq<ReadChunk>, length: nat, closeFails: bool)
    requires ReadToEnd(body)
    ensures Capturable(length > 0x10_0000, length, body, closeFails) <==>
      && AllWork(body, length)
      && (length + |Delivered(body)| > 0x10_0000 ==> !closeFails)
    ensures Total(body, |body|) == |Delivered(body)|
    decreases |body|
  {
    var later := length + |body[0].data|;
    FirstOrLater(body, length);
    if |body| > 1 { CapturableFrom(body[1..], later, closeFails); }
  }

  lemma FirstOrLater(body: seq<ReadChunk>, length: nat)
    requires body != []
    ensures Total(body, 1) == |body[0].data|
    ensures AllWork(body, length) <==> FileWorks(body, length, 0) && AllWork(body[1..], length + |body[0].data|)
  {
    var rest, later := body[1..], length + |body[0].data|;
    forall i | 0 < i < |body| ensures FileWorks(body, length, i) <==> FileWorks(rest, later, i - 1) {}
    if AllWork(body, length) {
      forall i | 0 <= i < |rest| ensures FileWorks(rest, later, i) { assert FileWorks(body, length, i + 1); }
    }
  }

  // ----- recording and replay -----

  /** The recorded request: the preview, the artifact saved for it if any, and the true length. */
  datatype Request = Request(body: Bytes, artifact: Option<Bytes>, bodyLen: nat)

  /** What a request carries: its body and the length it declares. */
  datatype Sent = Sent(body: Bytes, contentLength: nat)

  /** A request that was not answered with an error before it was forwarded. */
  datatype Handled = Handled(forwarded: Bytes, request: Request)

  /** The file operations after the capture: opening the body to forward it, opening it again
      for the artifact, saving the artifact, and opening that for the replay. */
  datatype Failures = Failures(restore: bool, source: bool, save: bool, open: bool)

  predicate NeedsArtifact(maxPreviewSize: int, body: Bytes) {
    |body| > |Preview(maxPreviewSize, body)|
  }

  predicate OnDisk(body: Bytes) {
    |body| > SPILL_THRESHOLD
  }

  predicate Saved(maxPreviewSize: int, body: Bytes, fails: Failures) {
    NeedsArtifact(maxPreviewSize, body) && !(OnDisk(body) && fails.source) && !fails.save
  }

  /** The part of ServeHTTP that forwards and records the body. */
  method ForwardAndRecord(snapshot: RequestBodyCapture, ghost body: Bytes, fails: Failures)
    returns (handled: Option<Handled>)
    requires snapshot.Holds(body) && snapshot.tempFile == None && (snapshot.tempPath.Some? <==> OnDisk(body))
    ensures handled.Some? <==> !(OnDisk(body) && fails.restore)
    ensures handled.Some? ==>
      var limit, request := snapshot.maxPreviewSize, handled.value.request;
      && handled.value.forwarded == body && request.body == Preview(limit, body) && request.bodyLen == |body|
      && request.artifact == if Saved(limit, body, fails) then Some(body) else None
  {
    var restoreBody := snapshot.Reader(fails.restore);
    if restoreBody == None {
      return None;
    }
    var artifact := None;
    if snapshot.NeedsArtifact() {
      var artifactSource := snapshot.Reader(fails.source);
      if artifactSource.Some? && !fails.save {
        artifact := artifactSource;
      }
    }
    return Some(Handled(restoreBody.value, Request(snapshot.preview, artifact, snapshot.bodyLen)));
  }

  function BuildReplayRequest(request: Request, openFails: bool): Option<Sent> {
    match request.artifact
    case Some(content) => if openFails then None else Some(Sent(content, request.bodyLen))
    case None => Some(Sent(request.body, |request.body|))
  }

  /** From the client's bytes to the replayed request, for every body, chunking and limit. */
  method RoundTrip(body: seq<ReadChunk>, maxPreviewSize: int, closeFails: bool, fails: Failures)
    returns (handled: Option<Handled>, replayed: Option<Sent>)
    ensures handled.Some? <==>
      Capturable(false, 0, body, closeFails) && !(OnDisk(Delivered(body)) && fails.restore)
    ensures Complete(body) && |Delivered(body)| <= 0x10_0000 ==> handled.Some?
    ensures handled.Some? ==>
      var original, preview := Delivered(body), Preview(maxPreviewSize, Delivered(body));
      var needed, saved := NeedsArtifact(maxPreviewSize, original), Saved(maxPreviewSize, original, fails);
      && handled.value.forwarded == original
      && handled.value.request.body == preview && handled.value.request.bodyLen == |original|
      // as it was exactly when the preview is all of it, or the artifact was saved and opens
      && (replayed == Some(Sent(original, |original|)) <==> !needed || (saved && !fails.open))
      && (needed && !saved ==> replayed == Some(Sent(preview, |preview|)))
      && (replayed == None <==> saved && fails.open)
  {
    if Complete(body) && !OnDisk(Delivered(body)) { SmallIsCapturable(body, 0, closeFails); }
    var snapshot := CaptureRequestBodySnapshot(body, maxPreviewSize, closeFails);
    if snapshot == null {
      return None, None;
    }
    handled := ForwardAndRecord(snapshot, Delivered(body), fails);
    if handled == None {
      return None, None;
    }
    return handled, BuildReplayRequest(handled.value.request, fails.open);
  }
}
