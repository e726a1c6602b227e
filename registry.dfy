/**
 * The task registry: which conversions are queued (with the uploaded file
 * name), the status of every task ever registered, and which have completed.
 * One lock guards the three tables in the server; here every operation is one
 * atomic step on a `TaskRegistry` object.
 */
module Registry {
  import opened Wrappers
  import opened Fingerprint
  import opened Storage

  datatype Status = Queued | Processing | Done | Failed

  /** The status word the server reports for a task. */
  function StatusText(s: Status): (t: string)
    ensures s == Queued ==> t == "queued"
    ensures s == Processing ==> t == "processing"
    ensures s == Done ==> t == "done"
    ensures s == Failed ==> t == "failed"
  {
    match s
    case Queued => "queued"
    case Processing => "processing"
    case Done => "done"
    case Failed => "failed"
  }

  /** Each status has its own word. */
  lemma StatusTextInjective(a: Status, b: Status)
    requires StatusText(a) == StatusText(b)
    ensures a == b
  {
  }

  /** The answer of the upload path's duplicate check. */
  datatype Registration = AlreadyProcessed | Registered

  class TaskRegistry {
    /** Tasks registered and not yet completed, with the client's file name. */
    var queue: map<ProcessKey, string>
    /** The last status written for every task ever registered. */
    var statusMap: map<ProcessKey, Status>
    /** Tasks that have completed at least once. */
    var processed: set<ProcessKey>
    /** Every status write, in order. */
    ghost var history: seq<(ProcessKey, Status)>

    /**
     * What every operation keeps: queued and completed tasks have a status, a
     * queued status means the task is in the queue, a task in the queue is not
     * done, and a done task is recorded as processed. No result below depends
     * on it; that every operation preserves it is itself a property proved
     * about the tables.
     */
    ghost predicate Valid()
      reads this
    {
      && queue.Keys <= statusMap.Keys
      && processed <= statusMap.Keys
      && (forall k :: k in statusMap && statusMap[k] == Queued ==> k in queue)
      && (forall k :: k in queue ==> statusMap[k] != Done)
      && (forall k :: k in statusMap && statusMap[k] == Done ==> k in processed)
    }

    constructor()
      ensures Valid()
      ensures queue == map[] && statusMap == map[] && processed == {} && history == []
    {
      queue := map[];
      statusMap := map[];
      processed := {};
      history := [];
    }

    /** Registration of a task: the file name is queued and the status becomes "queued". */
    method Enqueue(key: ProcessKey, filename: string)
      requires Valid()
      modifies this
      ensures Valid()
      ensures queue == old(queue)[key := filename]
      ensures statusMap == old(statusMap)[key := Queued]
      ensures processed == old(processed)
      ensures history == old(history) + [(key, Queued)]
    {
      queue := queue[key := filename];
      statusMap := statusMap[key := Queued];
      history := history + [(key, Queued)];
    }

    /**
     * The upload path's registration: a task that has completed before is
     * reported as such and nothing changes; any other task, including one that
     * is queued, running or failed, is registered again.
     */
    method RegisterUpload(key: ProcessKey, filename: string) returns (outcome: Registration)
      requires Valid()
      modifies this
      ensures Valid()
      ensures outcome == AlreadyProcessed <==> key in old(processed)
      ensures outcome == AlreadyProcessed ==>
                queue == old(queue) && statusMap == old(statusMap)
                && processed == old(processed) && history == old(history)
      ensures outcome == Registered ==>
                queue == old(queue)[key := filename] && statusMap == old(statusMap)[key := Queued]
                && processed == old(processed) && history == old(history) + [(key, Queued)]
    {
      if key in processed {
        return AlreadyProcessed;
      }
      Enqueue(key, filename);
      outcome := Registered;
    }

    /** A worker picks the task up: its status becomes "processing". */
    method BeginProcessing(key: ProcessKey)
      requires Valid()
      modifies this
      ensures Valid()
      ensures queue == old(queue) && processed == old(processed)
      ensures statusMap == old(statusMap)[key := Processing]
      ensures history == old(history) + [(key, Processing)]
    {
      statusMap := statusMap[key := Processing];
      history := history + [(key, Processing)];
    }

    /** A failed task: only its status changes; it stays in the queue. */
    method MarkFailed(key: ProcessKey)
      requires Valid()
      modifies this
      ensures Valid()
      ensures queue == old(queue) && processed == old(processed)
      ensures statusMap == old(statusMap)[key := Failed]
      ensures history == old(history) + [(key, Failed)]
    {
      statusMap := statusMap[key := Failed];
      history := history + [(key, Failed)];
    }

    /** A completed task leaves the queue, is marked done and is recorded as processed. */
    method MarkDone(key: ProcessKey)
      requires Valid()
      modifies this
      ensures Valid()
      ensures queue == old(queue) - {key}
      ensures statusMap == old(statusMap)[key := Done]
      ensures processed == old(processed) + {key}
      ensures history == old(history) + [(key, Done)]
    {
      queue := queue - {key};
      statusMap := statusMap[key := Done];
      processed := processed + {key};
      history := history + [(key, Done)];
    }

    /**
     * The `/queue/<md5>` lookup: every queued task whose digest is exactly `md5`,
     * with its file name, or none (a 404) when there is no such task.
     */
    method QueueByDigest(md5: string) returns (items: Option<seq<(ProcessKey, string)>>)
      ensures items.None? <==> forall k :: k in queue ==> k.md5 != md5
      ensures items.Some? ==> Lists(items.value, queue, md5) && items.value != []
    {
      var entries := EntriesWithDigest(queue, md5);
      if entries == [] {
        items := None;
      } else {
        assert entries[0].0 in queue && entries[0].0.md5 == md5;
        items := Some(entries);
      }
    }

    /**
     * The `/status/<md5>` lookup: the status of every task ever registered whose
     * digest is exactly `md5`, or none (a 404) when there is no such task.
     */
    method StatusByDigest(md5: string) returns (items: Option<seq<(ProcessKey, Status)>>)
      ensures items.None? <==> forall k :: k in statusMap ==> k.md5 != md5
      ensures items.Some? ==> Lists(items.value, statusMap, md5) && items.value != []
    {
      var entries := EntriesWithDigest(statusMap, md5);
      if entries == [] {
        items := None;
      } else {
        assert entries[0].0 in statusMap && entries[0].0.md5 == md5;
        items := Some(entries);
      }
    }
  }

  /**
   * `entries` lists, once each and with its value, exactly the keys of `m`
   * whose digest equals `md5`.
   */
  ghost predicate Lists<V>(entries: seq<(ProcessKey, V)>, m: map<ProcessKey, V>, md5: string) {
    && (forall i :: 0 <= i < |entries| ==>
          entries[i].0 in m && m[entries[i].0] == entries[i].1 && entries[i].0.md5 == md5)
    && (forall k :: k in m && k.md5 == md5 ==> exists i :: 0 <= i < |entries| && entries[i].0 == k)
    && (forall i, j :: 0 <= i < j < |entries| ==> entries[i].0 != entries[j].0)
  }

  /** The filter loop shared by the two lookups, visiting the keys in no particular order. */
  method EntriesWithDigest<V>(m: map<ProcessKey, V>, md5: string) returns (entries: seq<(ProcessKey, V)>)
    ensures Lists(entries, m, md5)
  {
    entries := [];
    var rest := m.Keys;
    while rest != {}
      invariant rest <= m.Keys
      invariant forall i :: 0 <= i < |entries| ==>
                  entries[i].0 in m && entries[i].0 !in rest
                  && m[entries[i].0] == entries[i].1 && entries[i].0.md5 == md5
      invariant forall k :: k in m && k !in rest && k.md5 == md5 ==>
                  exists i :: 0 <= i < |entries| && entries[i].0 == k
      invariant forall i, j :: 0 <= i < j < |entries| ==> entries[i].0 != entries[j].0
      decreases |rest|
    {
      var k :| k in rest;
      if k.md5 == md5 {
        ghost var before := entries;
        entries := entries + [(k, m[k])];
        assert forall i :: 0 <= i < |before| ==> entries[i] == before[i];
        assert entries[|entries| - 1].0 == k;
      }
      rest := rest - {k};
    }
  }

  /** A listing by digest holds every matching key together with its value. */
  lemma ListsEntry<V>(entries: seq<(ProcessKey, V)>, m: map<ProcessKey, V>, md5: string, k: ProcessKey)
    requires Lists(entries, m, md5) && k in m && k.md5 == md5
    ensures exists i :: 0 <= i < |entries| && entries[i] == (k, m[k])
  {
    var i :| 0 <= i < |entries| && entries[i].0 == k;
    assert entries[i] == (k, m[k]);
  }

  /** A listing by digest holds entries of that exact digest only: no prefix of it matches. */
  lemma ListsOnlyExactDigest<V>(entries: seq<(ProcessKey, V)>, m: map<ProcessKey, V>, md5: string, k: ProcessKey)
    requires Lists(entries, m, md5) && k.md5 != md5
    ensures forall i :: 0 <= i < |entries| ==> entries[i].0 != k
  {
  }

  /** The converter a task runs with. */
  datatype Codec = Pngquant | BimgJpeg(quality: int) | BimgWebp

  /**
   * The converter for a key's format: pngquant for png, bimg's JPEG encoder at
   * the key's quality for jpg, bimg's WebP encoder for webp and for anything else.
   */
  function CodecFor(key: ProcessKey): (c: Codec)
    ensures key.format == "png" <==> c == Pngquant
    ensures key.format == "jpg" <==> c == BimgJpeg(key.quality)
    ensures key.format != "png" && key.format != "jpg" <==> c == BimgWebp
  {
    match key.format
    case "png" => Pngquant
    case "jpg" => BimgJpeg(key.quality)
    case _ => BimgWebp
  }

  /** A well-formed jpg key always runs the JPEG encoder at a quality in 1..100. */
  lemma CodecQualityInRange(key: ProcessKey)
    requires WellFormedKey(key)
    ensures CodecFor(key).BimgJpeg? ==> 1 <= CodecFor(key).quality <= 100
  {
  }

  /** How a task ends; the first three are the error messages of the WebSocket path. */
  datatype TaskOutcome = MkdirFailed | ProcessingFailed | SaveFailed | Completed

  /** The terminal status of a task that ended with `o`. */
  function TerminalStatus(o: TaskOutcome): (s: Status)
    ensures s == Done <==> o == Completed
    ensures s != Done ==> s == Failed
  {
    if o == Completed then Done else Failed
  }

  /**
   * How a task with these step results ends: the steps run in the order
   * mkdir, conversion, write, and the first that fails decides the outcome.
   */
  function ConversionOutcome(
    key: ProcessKey, input: Bytes, mkdirOk: bool, encode: (Codec, Bytes) -> Option<Bytes>, writeOk: bool
  ): (o: TaskOutcome)
    ensures o == MkdirFailed <==> !mkdirOk
    ensures o == ProcessingFailed <==> mkdirOk && encode(CodecFor(key), input).None?
    ensures o == SaveFailed <==> mkdirOk && encode(CodecFor(key), input).Some? && !writeOk
    ensures o == Completed <==> mkdirOk && encode(CodecFor(key), input).Some? && writeOk
  {
    if !mkdirOk then MkdirFailed
    else if encode(CodecFor(key), input).None? then ProcessingFailed
    else if !writeOk then SaveFailed
    else Completed
  }

  /**
   * One conversion task. The status becomes "processing"; then the output
   * directory is created (`mkdirOk`), the input is converted (`encode`, which
   * may fail) and the result written to the key's output path (`writeOk`). The
   * first failure marks the task failed and leaves everything else alone; only
   * a successful write completes the task.
   */
  method ProcessTask(
    r: TaskRegistry, store: OutputStore, key: ProcessKey, input: Bytes,
    mkdirOk: bool, encode: (Codec, Bytes) -> Option<Bytes>, writeOk: bool
  ) returns (outcome: TaskOutcome)
    requires r.Valid()
    modifies r, store
    ensures r.Valid()
    ensures r.history == old(r.history) + [(key, Processing), (key, TerminalStatus(outcome))]
    ensures outcome == ConversionOutcome(key, input, mkdirOk, encode, writeOk)
    ensures outcome == Completed ==>
              && r.queue == old(r.queue) - {key}
              && r.statusMap == old(r.statusMap)[key := Done]
              && r.processed == old(r.processed) + {key}
              && store.files == old(store.files)[OutputPathForKey(key) := encode(CodecFor(key), input).value]
    ensures outcome != Completed ==>
              && r.queue == old(r.queue)
              && r.statusMap == old(r.statusMap)[key := Failed]
              && r.processed == old(r.processed)
              && store.files == old(store.files)
  {
    r.BeginProcessing(key);
    if !mkdirOk {
      r.MarkFailed(key);
      return MkdirFailed;
    }
    var converted := encode(CodecFor(key), input);
    if converted.None? {
      r.MarkFailed(key);
      return ProcessingFailed;
    }
    var outPath := OutputPathForKey(key);
    if !writeOk {
      r.MarkFailed(key);
      return SaveFailed;
    }
    store.Write(outPath, converted.value);
    r.MarkDone(key);
    outcome := Completed;
  }
}
