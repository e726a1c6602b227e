/**
 * The request handlers' bookkeeping: how an upload form or a WebSocket message
 * becomes a task key (or is refused), how each entry point registers the task,
 * and how a download by digest is served and recorded for eviction.
 */
module Server {
  import opened Wrappers
  import opened Text
  import opened Fingerprint
  import opened Storage
  import opened Registry

  /** Why a request is refused, in the terms of the reply it gets. */
  datatype Rejection =
    | MissingFile        // upload: 400 "Missing file"
    | FileTooLarge       // upload: 413 "File too large"
    | UnsupportedFormat  // upload: 400; WebSocket: "unsupported_format"
    | InvalidJson        // WebSocket: "invalid_json"
    | DecodeError        // WebSocket: "decode_error"
    | SizeExceeded       // WebSocket: "size_exceeded"

  /** The uploaded `picture` part of a multipart form. */
  datatype Upload = Upload(filename: string, content: Bytes)

  /** The fields of an upload form; a field the client did not send is empty. */
  datatype UploadForm = UploadForm(picture: Option<Upload>, format: string, quality: string)

  /** A decoded WebSocket upload request. */
  datatype SocketRequest = SocketRequest(filename: string, format: string, data: string, quality: int)

  /** fiber's `FormValue(key, default)`: the default stands in for an empty field. */
  function FormValue(field: string, default: string): (v: string)
    ensures field != "" ==> v == field
    ensures field == "" ==> v == default
  {
    if field == "" then default else field
  }

  /**
   * The checks of the upload handler, in its order: a picture must be present,
   * no larger than the limit, and asked for in a supported format. An accepted
   * upload's key holds the content digest, the normalised format and the
   * effective quality of the (defaulted) quality field.
   */
  function AdmitUpload(form: UploadForm, maxBytes: int, digest: Bytes -> string): (r: Result<ProcessKey, Rejection>)
    ensures r == Err(MissingFile) <==> form.picture.None?
    ensures r == Err(FileTooLarge) <==> form.picture.Some? && |form.picture.value.content| > maxBytes
    ensures r == Err(UnsupportedFormat) <==>
              form.picture.Some? && |form.picture.value.content| <= maxBytes
              && !IsSupportedFormat(NormalizeFormat(FormValue(form.format, "webp")))
    ensures r.Ok? <==>
              form.picture.Some? && |form.picture.value.content| <= maxBytes
              && IsSupportedFormat(NormalizeFormat(FormValue(form.format, "webp")))
    ensures r.Ok? ==>
              && WellFormedKey(r.value)
              && r.value.md5 == digest(form.picture.value.content)
              && r.value.format == NormalizeFormat(FormValue(form.format, "webp"))
              && r.value.quality == EffectiveQuality(r.value.format, Atoi(FormValue(form.quality, "80")))
  {
    if form.picture.None? then Err(MissingFile)
    else if |form.picture.value.content| > maxBytes then Err(FileTooLarge)
    else
      var format := NormalizeFormat(FormValue(form.format, "webp"));
      if !IsSupportedFormat(format) then Err(UnsupportedFormat)
      else
        KeyForWellFormed(digest(form.picture.value.content), format, Atoi(FormValue(form.quality, "80")), 0);
        Ok(KeyFor(digest(form.picture.value.content), format, Atoi(FormValue(form.quality, "80"))))
  }

  /**
   * The checks of the WebSocket handler, in its order: the message must be valid
   * JSON (`request` is its decoding, if any), its format supported, its data
   * valid base64 (`decodeBase64`) and the decoded content no larger than the
   * limit. The key's quality is the effective one for the request's quality.
   */
  function AdmitSocketMessage(
    request: Option<SocketRequest>, decodeBase64: string -> Option<Bytes>,
    maxBytes: int, digest: Bytes -> string
  ): (r: Result<ProcessKey, Rejection>)
    ensures r == Err(InvalidJson) <==> request.None?
    ensures r == Err(UnsupportedFormat) <==>
              request.Some? && !IsSupportedFormat(NormalizeFormat(request.value.format))
    ensures r == Err(DecodeError) <==>
              request.Some? && IsSupportedFormat(NormalizeFormat(request.value.format))
              && decodeBase64(request.value.data).None?
    ensures r == Err(SizeExceeded) <==>
              request.Some? && IsSupportedFormat(NormalizeFormat(request.value.format))
              && decodeBase64(request.value.data).Some?
              && |decodeBase64(request.value.data).value| > maxBytes
    ensures r.Ok? <==>
              request.Some? && IsSupportedFormat(NormalizeFormat(request.value.format))
              && decodeBase64(request.value.data).Some?
              && |decodeBase64(request.value.data).value| <= maxBytes
    ensures r.Ok? ==>
              && WellFormedKey(r.value)
              && r.value.md5 == digest(decodeBase64(request.value.data).value)
              && r.value.format == NormalizeFormat(request.value.format)
              && r.value.quality == EffectiveQuality(r.value.format, request.value.quality)
  {
    if request.None? then Err(InvalidJson)
    else
      var format := NormalizeFormat(request.value.format);
      if !IsSupportedFormat(format) then Err(UnsupportedFormat)
      else
        var data := decodeBase64(request.value.data);
        if data.None? then Err(DecodeError)
        else if |data.value| > maxBytes then Err(SizeExceeded)
        else
          KeyForWellFormed(digest(data.value), format, request.value.quality, 0);
          Ok(KeyFor(digest(data.value), format, request.value.quality))
  }

  /** An empty format field means webp on both entry points. */
  lemma BlankFormatMeansWebp(format: string)
    ensures NormalizeFormat(FormValue(format, "webp")) == NormalizeFormat(format)
  {
    if format == "" {
      assert TrimLeft("") == "" && TrimRight("") == "";
      assert NormalizeFormat("") == "webp";
      assert TrimLeft("webp") == "webp" && TrimRight("webp") == "webp";
    }
  }

  /** The form's quality text and the message's quality number select the same effective quality. */
  lemma QualityFieldAgrees(format: string, qualityField: string, quality: int)
    requires INT64_MIN <= quality <= INT64_MAX
    requires qualityField == IntToDecimal(quality) || (qualityField == "" && quality == 0)
    ensures EffectiveQuality(format, Atoi(FormValue(qualityField, "80"))) == EffectiveQuality(format, quality)
  {
    if qualityField == "" {
      DefaultQualityField();
    } else {
      AtoiRoundTrip(quality);
    }
  }

  /**
   * Both entry points give the same content, format text and quality the same
   * task key: an omitted format is webp on both, and an omitted jpg quality is
   * 80 on both (an empty form field and a JSON quality of 0 alike).
   */
  lemma EntryPointsAgreeOnKey(
    content: Bytes, filename: string, format: string, qualityField: string, quality: int,
    data: string, decodeBase64: string -> Option<Bytes>, maxBytes: int, digest: Bytes -> string
  )
    requires INT64_MIN <= quality <= INT64_MAX
    requires qualityField == IntToDecimal(quality) || (qualityField == "" && quality == 0)
    requires decodeBase64(data) == Some(content)
    requires |content| <= maxBytes && IsSupportedFormat(NormalizeFormat(format))
    ensures AdmitUpload(UploadForm(Some(Upload(filename, content)), format, qualityField), maxBytes, digest)
         == AdmitSocketMessage(Some(SocketRequest(filename, format, data, quality)), decodeBase64, maxBytes, digest)
  {
    BlankFormatMeansWebp(format);
    QualityFieldAgrees(NormalizeFormat(format), qualityField, quality);
  }

  /**
   * A quality field that is not a number (no digits after the optional sign,
   * or anything else after them) gives a jpg task quality 80; so does an
   * omitted one.
   */
  lemma UnparsableQualityDefaults(quality: string)
    requires !(SplitSign(quality).1 != [] && AllDigits(SplitSign(quality).1))
    ensures EffectiveQuality("jpg", Atoi(FormValue(quality, "80"))) == DEFAULT_JPG_QUALITY
  {
    if quality == "" {
      DefaultQualityField();
    } else {
      var rest := SplitSign(quality).1;
      if rest != [] {
        assert LeadingDigits(rest) != rest;
      }
    }
  }

  lemma DefaultQualityField()
    ensures Atoi("80") == 80
  {
    assert SplitSign("80") == (false, "80");
    LeadingDigitsOfDigits("80");
    assert "80"[..1] == "8";
    assert DigitsValue("80") == 80;
  }

  /** What the upload handler answers. */
  datatype UploadReply = Refused(reason: Rejection) | AlreadyDone(key: ProcessKey) | Accepted(key: ProcessKey)

  /**
   * The upload handler from its admission verdict (`AdmitUpload` of the form)
   * up to the launch of the task: a refused request changes nothing; a key that
   * has completed before is answered "already processed"; any other key is
   * registered (again) under the picture's file name, whether or not it is
   * queued or running.
   */
  method HandleUpload(r: TaskRegistry, admitted: Result<ProcessKey, Rejection>, filename: string)
    returns (reply: UploadReply)
    requires r.Valid()
    modifies r
    ensures r.Valid()
    ensures admitted.Err? ==> reply == Refused(admitted.error)
    ensures admitted.Ok? && admitted.value in old(r.processed) ==> reply == AlreadyDone(admitted.value)
    ensures admitted.Ok? && admitted.value !in old(r.processed) ==> reply == Accepted(admitted.value)
    ensures !reply.Accepted? ==>
              r.queue == old(r.queue) && r.statusMap == old(r.statusMap) && r.processed == old(r.processed)
    ensures reply.Accepted? ==>
              && r.queue == old(r.queue)[reply.key := filename]
              && r.statusMap == old(r.statusMap)[reply.key := Queued]
              && r.processed == old(r.processed)
  {
    if admitted.Err? {
      return Refused(admitted.error);
    }
    var key := admitted.value;
    var registration := r.RegisterUpload(key, filename);
    if registration == AlreadyProcessed {
      reply := AlreadyDone(key);
    } else {
      reply := Accepted(key);
    }
  }

  /** What the WebSocket handler answers to one message before the task runs. */
  datatype SocketReply = Rejected(reason: Rejection) | DoneWithFile(key: ProcessKey, file: Bytes) | QueuedReply(key: ProcessKey)

  /**
   * The WebSocket path's registration: a key that has completed before and whose
   * artifact can still be read is answered with that artifact; otherwise, even
   * for a completed key whose artifact is gone, the task is registered again.
   */
  method RegisterSocketTask(r: TaskRegistry, store: OutputStore, key: ProcessKey, filename: string)
    returns (reply: SocketReply)
    requires r.Valid()
    modifies r
    ensures r.Valid()
    ensures key in old(r.processed) && OutputPathForKey(key) in store.files ==>
              && reply == DoneWithFile(key, store.files[OutputPathForKey(key)])
              && r.queue == old(r.queue) && r.statusMap == old(r.statusMap) && r.processed == old(r.processed)
    ensures !(key in old(r.processed) && OutputPathForKey(key) in store.files) ==>
              && reply == QueuedReply(key)
              && r.queue == old(r.queue)[key := filename]
              && r.statusMap == old(r.statusMap)[key := Queued]
              && r.processed == old(r.processed)
  {
    var already := key in r.processed;
    if already {
      var path := OutputPathForKey(key);
      if path in store.files {
        return DoneWithFile(key, store.files[path]);
      }
    }
    r.Enqueue(key, filename);
    reply := QueuedReply(key);
  }

  /**
   * One WebSocket message, from its admission verdict (`AdmitSocketMessage` of
   * the message) to the reply sent before the task runs: a refused message
   * changes nothing, an admitted one is registered by `RegisterSocketTask` under
   * the request's file name.
   */
  method HandleSocketMessage(
    r: TaskRegistry, store: OutputStore, admitted: Result<ProcessKey, Rejection>, filename: string
  ) returns (reply: SocketReply)
    requires r.Valid()
    modifies r
    ensures r.Valid()
    ensures admitted.Err? ==> reply == Rejected(admitted.error)
    ensures admitted.Ok? ==> !reply.Rejected? && reply.key == admitted.value
    ensures reply.Rejected? || reply.DoneWithFile? ==>
              r.queue == old(r.queue) && r.statusMap == old(r.statusMap) && r.processed == old(r.processed)
    ensures admitted.Ok? && admitted.value in old(r.processed) && OutputPathForKey(admitted.value) in store.files ==>
              reply == DoneWithFile(admitted.value, store.files[OutputPathForKey(admitted.value)])
    ensures reply.DoneWithFile? ==>
              && reply.key in old(r.processed) && OutputPathForKey(reply.key) in store.files
              && reply.file == store.files[OutputPathForKey(reply.key)]
    ensures reply.QueuedReply? ==>
              && r.queue == old(r.queue)[reply.key := filename]
              && r.statusMap == old(r.statusMap)[reply.key := Queued]
              && r.processed == old(r.processed)
  {
    if admitted.Err? {
      return Rejected(admitted.error);
    }
    reply := RegisterSocketTask(r, store, admitted.value, filename);
  }

  /**
   * The download handler: the first existing artifact for the digest, recorded
   * in the eviction ledger when found; nothing is recorded on a miss.
   */
  method HandleDownload(store: OutputStore, ledger: EvictionLedger, md5: string) returns (served: Option<string>)
    requires ledger.Valid()
    modifies ledger
    ensures ledger.Valid()
    ensures served == FirstExisting(Candidates(md5), store.files.Keys)
    ensures served.None? ==> ledger.toDelete == old(ledger.toDelete) && ledger.count == old(ledger.count)
    ensures served.Some? ==>
              ledger.toDelete == old(ledger.toDelete) + [served.value] && ledger.count == old(ledger.count) + 1
  {
    served := ResolveDownload(md5, store.files.Keys);
    if served.Some? {
      ledger.RecordServed(served.value);
    }
  }

  /**
   * Two uploads of the same request made before the first completes are both
   * registered, and so both run: the upload path deduplicates completed tasks only.
   */
  method UploadsBeforeCompletionBothRegister(key: ProcessKey, first: string, second: string)
    returns (one: Registration, two: Registration)
    ensures one == Registered && two == Registered
  {
    var r := new TaskRegistry();
    one := r.RegisterUpload(key, first);
    two := r.RegisterUpload(key, second);
  }

  /** A fresh server that registers one upload and completes its task. */
  method CompleteTask(key: ProcessKey, input: Bytes, encode: (Codec, Bytes) -> Option<Bytes>, filename: string)
    returns (outcome: TaskOutcome, r: TaskRegistry, store: OutputStore)
    requires encode(CodecFor(key), input).Some?
    ensures fresh(r) && fresh(store)
    ensures outcome == Completed
    ensures r.Valid() && r.processed == {key} && r.queue == map[]
    ensures store.files == map[OutputPathForKey(key) := encode(CodecFor(key), input).value]
  {
    r := new TaskRegistry();
    store := new OutputStore();
    var registration := r.RegisterUpload(key, filename);
    outcome := ProcessTask(r, store, key, input, true, encode, true);
  }

  /**
   * An upload that completes is written to its output path, is then the one
   * artifact a download by its digest serves, and is answered "already
   * processed" when submitted again.
   */
  method CompletedUploadIsServedAndNotRerun(
    key: ProcessKey, input: Bytes, encode: (Codec, Bytes) -> Option<Bytes>, filename: string
  ) returns (outcome: TaskOutcome, served: Option<string>, again: Registration)
    requires WellFormedKey(key) && encode(CodecFor(key), input).Some?
    ensures outcome == Completed
    ensures served == Some(OutputPathForKey(key))
    ensures again == AlreadyProcessed
  {
    var r, store;
    outcome, r, store := CompleteTask(key, input, encode, filename);
    var ledger := new EvictionLedger();
    DownloadServesSoleArtifact(key);
    served := HandleDownload(store, ledger, key.md5);
    again := r.RegisterUpload(key, filename);
  }

  /**
   * A task that fails stays listed by `/queue` under its digest, with status
   * "failed", and the same upload is registered again rather than refused.
   */
  method FailedTaskStaysQueuedAndIsRetried(
    key: ProcessKey, input: Bytes, encode: (Codec, Bytes) -> Option<Bytes>, filename: string
  )
    returns (outcome: TaskOutcome, listed: Option<seq<(ProcessKey, string)>>, retry: Registration)
    ensures outcome == MkdirFailed
    ensures listed.Some? && Lists(listed.value, map[key := filename], key.md5)
    ensures retry == Registered
  {
    var r := new TaskRegistry();
    var store := new OutputStore();
    var registration := r.RegisterUpload(key, filename);
    outcome := ProcessTask(r, store, key, input, false, encode, true);
    assert r.statusMap[key] == Failed && r.queue == map[key := filename];
    ghost var queued := r.queue;
    listed := r.QueueByDigest(key.md5);
    assert Lists(listed.value, queued, key.md5);
    retry := r.RegisterUpload(key, filename);
  }

  /** `times` downloads by the digest of `key`, whose artifact is the only file, one after another. */
  method RepeatDownloads(store: OutputStore, ledger: EvictionLedger, key: ProcessKey, times: nat)
    requires ledger.Valid() && WellFormedKey(key) && store.files.Keys == {OutputPathForKey(key)}
    modifies ledger
    ensures ledger.Valid() && ledger.count == old(ledger.count) + times
    ensures |ledger.toDelete| == |old(ledger.toDelete)| + times
    ensures ledger.toDelete[..|old(ledger.toDelete)|] == old(ledger.toDelete)
    ensures forall j :: |old(ledger.toDelete)| <= j < |ledger.toDelete| ==> ledger.toDelete[j] == OutputPathForKey(key)
  {
    var path := OutputPathForKey(key);
    DownloadServesSoleArtifact(key);
    for i := 0 to times
      invariant ledger.Valid() && ledger.count == old(ledger.count) + i
      invariant |ledger.toDelete| == |old(ledger.toDelete)| + i
      invariant ledger.toDelete[..|old(ledger.toDelete)|] == old(ledger.toDelete)
      invariant forall j :: |old(ledger.toDelete)| <= j < |ledger.toDelete| ==> ledger.toDelete[j] == path
    {
      var served := HandleDownload(store, ledger, key.md5);
    }
  }

  /**
   * A task that completes, whose artifact is then downloaded fifty times and
   * removed by the next sweep.
   */
  method CompleteThenEvict(key: ProcessKey, input: Bytes, encode: (Codec, Bytes) -> Option<Bytes>, filename: string)
    returns (outcome: TaskOutcome, r: TaskRegistry, store: OutputStore, ledger: EvictionLedger)
    requires WellFormedKey(key) && encode(CodecFor(key), input).Some?
    ensures fresh(r) && fresh(store) && fresh(ledger)
    ensures outcome == Completed
    ensures r.Valid() && key in r.processed
    ensures ledger.Valid() && store.files == map[]
  {
    outcome, r, store := CompleteTask(key, input, encode, filename);
    ledger := new EvictionLedger();
    var path := OutputPathForKey(key);
    RepeatDownloads(store, ledger, key, SWEEP_THRESHOLD);
    assert path in Removable(ledger.toDelete, {}) by {
      assert ledger.toDelete[0] == path;
    }
    ledger.Sweep(store, {});
  }

  /**
   * Once the sweep has deleted a completed artifact, a download by its digest
   * finds nothing and an upload of the same request is still answered "already
   * processed"; only a WebSocket request for the key is queued again instead
   * of being answered with the file.
   */
  method SweptArtifactIsRequeued(
    key: ProcessKey, input: Bytes, encode: (Codec, Bytes) -> Option<Bytes>, filename: string
  ) returns (outcome: TaskOutcome, served: Option<string>, upload: Registration, reply: SocketReply)
    requires WellFormedKey(key) && encode(CodecFor(key), input).Some?
    ensures outcome == Completed
    ensures served == None
    ensures upload == AlreadyProcessed
    ensures reply == QueuedReply(key)
  {
    var r, store, ledger;
    outcome, r, store, ledger := CompleteThenEvict(key, input, encode, filename);
    served := HandleDownload(store, ledger, key.md5);
    upload := r.RegisterUpload(key, filename);
    reply := RegisterSocketTask(r, store, key, filename);
  }
}
