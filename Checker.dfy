/**
 * The query orchestrator `PlagiarismChecker`: one fingerprint repository per
 * registered content analyzer, loaded at construction in registration order,
 * and `check`, which runs every analyzer over a paragraph and collects the
 * entries its repository holds for the paragraph's fingerprints.
 */
module Checker {
  import opened Wrappers
  import opened Fingerprinting

  /** The file a repository is loaded from. */
  datatype IndexFile = IndexFile(path: string)

  /** A content analyzer paired with the index file built with it. */
  datatype FingerprintRepositoryInfo = FingerprintRepositoryInfo(contentAnalyzerType: ContentAnalyzerType, indexFile: IndexFile)

  /** One slot of a `check` result: an analyzer and the entries matched through it. */
  datatype AnalyzerMatches = AnalyzerMatches(contentAnalyzerType: ContentAnalyzerType, paragraphEntries: seq<ParagraphEntry>)

  /** The exceptions the checker lets escape. */
  datatype Error = NullPointerException(argument: string) | IOException(message: string)

  /**
   * The process-wide collaborators a query runs through: the analyzer each
   * `ContentAnalyzerType` stands for, and the fingerprint of one checkpoint.
   */
  datatype Pipeline = Pipeline(analyze: (ContentAnalyzerType, string) -> seq<Checkpoint>, fingerprintOf: Checkpoint -> Fingerprint)

  /** `FingerprintRepositoryImpl.load`: a repository, or the message of the `IOException` it throws. */
  type Loader = IndexFile -> Result<FingerprintRepository, string>

  /** The checkpoints the analyzer of `info` extracts from `paragraph`. */
  function CheckpointsOf(pipeline: Pipeline, info: FingerprintRepositoryInfo, paragraph: string): (checkpoints: seq<Checkpoint>)
  {
    pipeline.analyze(info.contentAnalyzerType, paragraph)
  }

  /** What slot `i` of a `check` result holds, for the info record and repository of that slot. */
  function SlotMatches(pipeline: Pipeline, info: FingerprintRepositoryInfo, repo: FingerprintRepository, paragraph: string): (matches: AnalyzerMatches)
  {
    AnalyzerMatches(info.contentAnalyzerType,
                    LookupAll(repo, Fingerprints(pipeline.fingerprintOf, CheckpointsOf(pipeline, info, paragraph))))
  }

  /** A Java `int`. */
  type Int32 = x: int | -0x8000_0000 <= x < 0x8000_0000

  /** Java `int` arithmetic: the value congruent to `x` modulo 2^32 that fits an `int`. */
  function WrapInt32(x: int): (r: Int32)
    ensures (r - x) % 0x1_0000_0000 == 0
  {
    var m := x % 0x1_0000_0000;
    if m < 0x8000_0000 then m else m - 0x1_0000_0000
  }

  /** The first `|repos|` info records were loaded, in order, into `repos`. */
  ghost predicate LoadedPrefix(load: Loader, infos: seq<FingerprintRepositoryInfo>, repos: seq<FingerprintRepository>)
  {
    |repos| <= |infos| &&
    forall k :: 0 <= k < |repos| ==> load(infos[k].indexFile) == Success(repos[k])
  }

  class PlagiarismChecker {
    var fingerprintRepositories: seq<FingerprintRepository>
    const fingerprintRepositoryInfoList: seq<FingerprintRepositoryInfo>

    /** A fully constructed checker has one repository per info record. */
    ghost predicate Valid()
      reads this
    {
      |fingerprintRepositories| == |fingerprintRepositoryInfoList|
    }

    /**
     * The part of the Java constructor before `loadIndexes`: it keeps its own
     * copy of the info list and starts with no repositories.
     */
    constructor (fingerprintRepositoryInfoList: array<FingerprintRepositoryInfo>)
      ensures this.fingerprintRepositoryInfoList == fingerprintRepositoryInfoList[..]
      ensures fingerprintRepositories == []
    {
      this.fingerprintRepositoryInfoList := fingerprintRepositoryInfoList[..];
      fingerprintRepositories := [];
    }

    /**
     * Loads one repository per info record, in list order, appending each.
     * The first load that fails stops the loop; its message is returned and
     * the repositories loaded before it stay in place.
     */
    method LoadIndexes(load: Loader) returns (failure: Option<string>)
      requires fingerprintRepositories == []
      modifies this
      ensures LoadedPrefix(load, fingerprintRepositoryInfoList, fingerprintRepositories)
      ensures failure.None? <==> Valid()
      ensures failure.Some? ==> load(fingerprintRepositoryInfoList[|fingerprintRepositories|].indexFile) == Failure(failure.value)
    {
      var i := 0;
      while i < |fingerprintRepositoryInfoList|
        invariant i == |fingerprintRepositories|
        invariant LoadedPrefix(load, fingerprintRepositoryInfoList, fingerprintRepositories)
      {
        var loaded := load(fingerprintRepositoryInfoList[i].indexFile);
        if loaded.Failure? {
          return Some(loaded.error);
        }
        fingerprintRepositories := fingerprintRepositories + [loaded.value];
        i := i + 1;
      }
      return None;
    }

    /**
     * The Java constructor as a whole: a null list is refused, and a load
     * failure aborts construction with the `IOException` of the first index
     * file that does not load.
     */
    static method Create(infos: array?<FingerprintRepositoryInfo>, load: Loader) returns (r: Result<PlagiarismChecker, Error>)
      ensures infos == null ==> r == Failure(NullPointerException("fingerprintRepositoryInfoList"))
      ensures infos != null ==> (r.Success? <==> forall k :: 0 <= k < infos.Length ==> load(infos[k].indexFile).Success?)
      ensures r.Success? ==> infos != null && fresh(r.value) && r.value.Valid() && r.value.fingerprintRepositoryInfoList == infos[..]
      ensures r.Success? ==> infos != null && forall k :: 0 <= k < infos.Length ==>
                load(infos[k].indexFile) == Success(r.value.fingerprintRepositories[k])
      ensures infos != null && r.Failure? ==>
                exists j :: 0 <= j < infos.Length &&
                  (forall k :: 0 <= k < j ==> load(infos[k].indexFile).Success?) &&
                  r.error.IOException? && load(infos[j].indexFile) == Failure(r.error.message)
    {
      if infos == null {
        return Failure(NullPointerException("fingerprintRepositoryInfoList"));
      }
      var checker := new PlagiarismChecker(infos);
      var failure := checker.LoadIndexes(load);
      if failure.Some? {
        r := Failure(IOException(failure.value));
        var j := |checker.fingerprintRepositories|;
        assert load(infos[j].indexFile).Failure?;
      } else {
        r := Success(checker);
      }
    }

    /**
     * `check(paragraph)`: a null paragraph is refused before any work; otherwise
     * slot `i` of the result holds the analyzer of info record `i` and the
     * entries repository `i` holds for the paragraph's fingerprints.
     */
    method Check(pipeline: Pipeline, paragraph: Option<string>) returns (r: Result<seq<Option<AnalyzerMatches>>, Error>)
      requires Valid()
      ensures paragraph.None? ==> r == Failure(NullPointerException("paragraph"))
      ensures paragraph.Some? ==>
                r.Success? && |r.value| == |fingerprintRepositoryInfoList| &&
                forall i :: 0 <= i < |r.value| ==>
                  r.value[i] == Some(SlotMatches(pipeline, fingerprintRepositoryInfoList[i], fingerprintRepositories[i], paragraph.value))
    {
      if paragraph.None? {
        return Failure(NullPointerException("paragraph"));
      }
      var results := new Option<AnalyzerMatches>[|fingerprintRepositories|](_ => None);
      for i := 0 to |fingerprintRepositoryInfoList|
        invariant forall k :: 0 <= k < i ==>
                    results[k] == Some(SlotMatches(pipeline, fingerprintRepositoryInfoList[k], fingerprintRepositories[k], paragraph.value))
      {
        var matches := CheckRepository(pipeline, i, paragraph.value);
        results[i] := Some(matches);
      }
      return Success(results[..]);
    }

    /** The work of one parallel task of `check`: analyze, fingerprint, look up in repository `i`. */
    method CheckRepository(pipeline: Pipeline, i: nat, paragraph: string) returns (matches: AnalyzerMatches)
      requires Valid() && i < |fingerprintRepositoryInfoList|
      ensures matches == SlotMatches(pipeline, fingerprintRepositoryInfoList[i], fingerprintRepositories[i], paragraph)
    {
      var contentAnalyzerType := fingerprintRepositoryInfoList[i].contentAnalyzerType;
      var checkPointsList := pipeline.analyze(contentAnalyzerType, paragraph);
      var fingerprintBuffer := new Fingerprint[|checkPointsList|];
      BuildFingerprints(pipeline.fingerprintOf, checkPointsList, fingerprintBuffer);
      var repo := fingerprintRepositories[i];
      var paragraphEntries := [];
      for j := 0 to fingerprintBuffer.Length
        invariant paragraphEntries == LookupAll(repo, fingerprintBuffer[..j])
      {
        assert fingerprintBuffer[..j + 1][..j] == fingerprintBuffer[..j];
        paragraphEntries := paragraphEntries + repo.Lookup(fingerprintBuffer[j]);
      }
      assert fingerprintBuffer[..fingerprintBuffer.Length] == fingerprintBuffer[..];
      matches := AnalyzerMatches(contentAnalyzerType, paragraphEntries);
    }

    /** `equals`: only the info list is compared; a checker never equals null. */
    function Equals(obj: PlagiarismChecker?): (b: bool)
      reads this, obj
      ensures obj == null ==> !b
      ensures obj == this ==> b
    {
      obj != null && fingerprintRepositoryInfoList == obj.fingerprintRepositoryInfoList
    }

    /**
     * `hashCode`: Guava's `Objects.hashCode` of the single field, that is
     * `31 * 1 + list.hashCode()` in `int` arithmetic. `listHash` stands for
     * the info list's own `hashCode`.
     */
    function HashCode(listHash: seq<FingerprintRepositoryInfo> -> Int32): (h: Int32)
      reads this
      ensures (h - 31 - listHash(fingerprintRepositoryInfoList)) % 0x1_0000_0000 == 0
    {
      WrapInt32(31 * 1 + listHash(fingerprintRepositoryInfoList))
    }
  }
}
