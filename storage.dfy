/**
 * The output directory and what happens to the artifacts in it: the store of
 * written files, the lookup of an artifact by content digest alone, and the
 * eviction ledger that deletes served artifacts in batches.
 */
module Storage {
  import opened Wrappers
  import opened Text
  import opened Fingerprint

  type Bytes = seq<bv8>

  /** The files of the output directory, by path. */
  class OutputStore {
    var files: map<string, Bytes>

    constructor()
      ensures files == map[]
    {
      files := map[];
    }

    /** A complete write of `data` to `path`. */
    method Write(path: string, data: Bytes)
      modifies this
      ensures files == old(files)[path := data]
    {
      files := files[path := data];
    }
  }

  /**
   * The keys whose artifacts a download by digest looks for, in the order it
   * looks: webp, png, then jpg at qualities 1 to 100.
   */
  function CandidateKeys(md5: string): (ks: seq<ProcessKey>)
    ensures |ks| == 102
    ensures forall i :: 0 <= i < |ks| ==> ks[i].md5 == md5 && WellFormedKey(ks[i])
  {
    [ProcessKey(md5, "webp", 0), ProcessKey(md5, "png", 0)]
      + seq(100, q requires 0 <= q < 100 => ProcessKey(md5, "jpg", q + 1))
  }

  /** Where a well-formed key stands among the candidates of its digest. */
  function CandidateIndex(k: ProcessKey): (i: nat)
    requires WellFormedKey(k)
    ensures i < 102 && CandidateKeys(k.md5)[i] == k
  {
    if k.format == "webp" then 0 else if k.format == "png" then 1 else k.quality + 1
  }

  /** The artifact paths probed by a download, in order. */
  function Candidates(md5: string): (ps: seq<string>)
    ensures |ps| == 102
  {
    seq(102, i requires 0 <= i < 102 => OutputPathForKey(CandidateKeys(md5)[i]))
  }

  /**
   * The candidates of a digest are exactly the artifact paths of the
   * well-formed keys with that digest.
   */
  lemma CandidatesAreDigestArtifacts(md5: string)
    ensures forall k :: WellFormedKey(k) && k.md5 == md5 ==> OutputPathForKey(k) in Candidates(md5)
    ensures forall p :: p in Candidates(md5) ==>
              exists k :: WellFormedKey(k) && k.md5 == md5 && p == OutputPathForKey(k)
  {
    forall k | WellFormedKey(k) && k.md5 == md5
      ensures OutputPathForKey(k) in Candidates(md5)
    {
      assert Candidates(md5)[CandidateIndex(k)] == OutputPathForKey(k);
    }
    forall p | p in Candidates(md5)
      ensures exists k :: WellFormedKey(k) && k.md5 == md5 && p == OutputPathForKey(k)
    {
      var i :| 0 <= i < 102 && Candidates(md5)[i] == p;
      var k := CandidateKeys(md5)[i];
      assert WellFormedKey(k) && k.md5 == md5 && p == OutputPathForKey(k);
    }
  }

  /** The probe's own spelling of each candidate path. */
  lemma CandidatePath(md5: string, i: nat)
    requires i < 102
    ensures i == 0 ==> Candidates(md5)[i] == ArtifactPath(md5, "webp")
    ensures i == 1 ==> Candidates(md5)[i] == ArtifactPath(md5, "png")
    ensures i >= 2 ==> Candidates(md5)[i] == ArtifactPath(md5, "jpg_" + IntToDecimal(i - 1))
  {
    if i >= 2 {
      assert CandidateKeys(md5)[i] == ProcessKey(md5, "jpg", i - 1);
    }
  }

  /** The first of `paths` that exists, if any. */
  function FirstExisting(paths: seq<string>, existing: set<string>): (r: Option<string>)
    ensures r.None? <==> forall j :: 0 <= j < |paths| ==> paths[j] !in existing
    ensures r.Some? ==> r.value in existing && r.value in paths
  {
    if paths == [] then None
    else if paths[0] in existing then Some(paths[0])
    else FirstExisting(paths[1..], existing)
  }

  /** An existing path preceded only by missing ones is the one found. */
  lemma {:induction false} FirstExistingIsFirst(paths: seq<string>, existing: set<string>, i: nat)
    requires i < |paths| && paths[i] in existing
    requires forall j :: 0 <= j < i ==> paths[j] !in existing
    ensures FirstExisting(paths, existing) == Some(paths[i])
  {
    if i > 0 {
      FirstExistingIsFirst(paths[1..], existing, i - 1);
    }
  }

  /**
   * The jpg part of the probe: jpg_1 .. jpg_100 in turn, once webp and png are
   * known to be missing. `cs` is the candidate list of the digest, of which
   * this loop walks the jpg entries; the empty path stands for "none found".
   */
  method ProbeJpg(md5: string, existing: set<string>, ghost cs: seq<string>) returns (outputPath: string)
    requires |cs| == 102 && cs[0] !in existing && cs[1] !in existing
    requires forall q :: 1 <= q <= 100 ==> cs[q + 1] == ArtifactPath(md5, "jpg_" + IntToDecimal(q))
    ensures outputPath == "" ==> FirstExisting(cs, existing) == None
    ensures outputPath != "" ==> FirstExisting(cs, existing) == Some(outputPath)
  {
    outputPath := "";
    for q := 1 to 101
      invariant outputPath == ""
      invariant forall j :: 0 <= j < q + 1 ==> cs[j] !in existing
    {
      var path := ArtifactPath(md5, "jpg_" + IntToDecimal(q));
      if path in existing {
        FirstExistingIsFirst(cs, existing, q + 1);
        outputPath := path;
        return;
      }
    }
  }

  /**
   * The download probe: the first existing artifact path among webp, png and
   * jpg_1 .. jpg_100 for the digest, or none.
   */
  method ResolveDownload(md5: string, existing: set<string>) returns (found: Option<string>)
    ensures found == FirstExisting(Candidates(md5), existing)
  {
    ghost var cs := Candidates(md5);
    var formats := ["webp", "png", "jpg"];
    var outputPath := "";
    for i := 0 to |formats|
      invariant outputPath == ""
      invariant forall j :: 0 <= j < i && j < 2 ==> cs[j] !in existing
      invariant i == 3 ==> FirstExisting(cs, existing) == None
    {
      var f := formats[i];
      if f == "jpg" {
        forall q | 1 <= q <= 100
          ensures cs[q + 1] == ArtifactPath(md5, "jpg_" + IntToDecimal(q))
        {
          CandidatePath(md5, q + 1);
        }
        outputPath := ProbeJpg(md5, existing, cs);
        if outputPath != "" {
          break;
        }
      } else {
        var path := ArtifactPath(md5, f);
        CandidatePath(md5, i);
        if path in existing {
          FirstExistingIsFirst(cs, existing, i);
          outputPath := path;
          break;
        }
      }
    }
    if outputPath == "" {
      found := None;
    } else {
      found := Some(outputPath);
    }
  }

  /** A download by digest finds something whenever an artifact of some well-formed key with that digest exists. */
  lemma DownloadFindsWrittenArtifact(k: ProcessKey, existing: set<string>)
    requires WellFormedKey(k) && OutputPathForKey(k) in existing
    ensures FirstExisting(Candidates(k.md5), existing).Some?
  {
    var i := CandidateIndex(k);
    assert Candidates(k.md5)[i] in existing;
  }

  /** When a key's artifact is the only one for its digest, a download by digest serves exactly it. */
  lemma DownloadServesOnlyArtifact(k: ProcessKey, existing: set<string>)
    requires WellFormedKey(k) && OutputPathForKey(k) in existing
    requires forall p :: p in Candidates(k.md5) && p != OutputPathForKey(k) ==> p !in existing
    ensures FirstExisting(Candidates(k.md5), existing) == Some(OutputPathForKey(k))
  {
    DownloadFindsWrittenArtifact(k, existing);
  }

  /** When a key's artifact is the only file, a download by its digest serves it. */
  lemma DownloadServesSoleArtifact(k: ProcessKey)
    requires WellFormedKey(k)
    ensures FirstExisting(Candidates(k.md5), {OutputPathForKey(k)}) == Some(OutputPathForKey(k))
  {
    DownloadServesOnlyArtifact(k, {OutputPathForKey(k)});
  }

  /** Every path a download can serve is the artifact path of a well-formed key with that digest. */
  lemma DownloadServesKeyArtifact(md5: string, existing: set<string>)
    requires FirstExisting(Candidates(md5), existing).Some?
    ensures exists k :: k in CandidateKeys(md5) && WellFormedKey(k) && k.md5 == md5
              && OutputPathForKey(k) == FirstExisting(Candidates(md5), existing).value
  {
    var p := FirstExisting(Candidates(md5), existing).value;
    var i :| 0 <= i < 102 && Candidates(md5)[i] == p;
    var k := CandidateKeys(md5)[i];
    assert k in CandidateKeys(md5);
  }

  const SWEEP_THRESHOLD: int := 50

  /** The paths of `served` that the sweep manages to delete. */
  function Removable(served: seq<string>, undeletable: set<string>): set<string> {
    set p | p in served && p !in undeletable
  }

  /**
   * The list of served artifact paths waiting for deletion and the number of
   * downloads recorded since the last sweep.
   */
  class EvictionLedger {
    var toDelete: seq<string>
    var count: int

    ghost predicate Valid()
      reads this
    {
      count == |toDelete|
    }

    constructor()
      ensures Valid() && toDelete == [] && count == 0
    {
      toDelete := [];
      count := 0;
    }

    /** A successful download: its path is queued for deletion and counted. */
    method RecordServed(path: string)
      requires Valid()
      modifies this
      ensures Valid()
      ensures toDelete == old(toDelete) + [path] && count == old(count) + 1
    {
      toDelete := toDelete + [path];
      count := count + 1;
    }

    /**
     * One tick of the background sweep. Once 50 downloads have been recorded it
     * removes every listed path (a removal the file system refuses is skipped)
     * and empties the ledger; below 50 it does nothing.
     */
    method Sweep(store: OutputStore, undeletable: set<string>)
      requires Valid()
      modifies this, store
      ensures Valid() && count < SWEEP_THRESHOLD
      ensures old(count) >= SWEEP_THRESHOLD ==>
                toDelete == [] && count == 0
                && store.files == old(store.files) - Removable(old(toDelete), undeletable)
      ensures old(count) < SWEEP_THRESHOLD ==>
                toDelete == old(toDelete) && count == old(count) && store.files == old(store.files)
    {
      if count >= SWEEP_THRESHOLD {
        for i := 0 to |toDelete|
          modifies store
          invariant store.files == old(store.files) - Removable(toDelete[..i], undeletable)
        {
          var path := toDelete[i];
          assert toDelete[..i + 1] == toDelete[..i] + [path];
          if path !in undeletable {
            store.files := store.files - {path};
          }
        }
        assert toDelete[..|toDelete|] == toDelete;
        toDelete := [];
        count := 0;
      }
    }
  }
}
