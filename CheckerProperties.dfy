/**
 * What `check` and construction promise, stated over the model of module
 * Checker: where a match can come from, when a slot is empty, that a query
 * can be repeated, and that equality follows the info list only.
 */
module CheckerProperties {
  import opened Wrappers
  import opened Fingerprinting
  import opened Checker

  /**
   * An entry appears in a slot exactly when the slot's repository holds it for
   * the fingerprint of some checkpoint of the paragraph: texts match only
   * through equal fingerprints, collisions included.
   */
  lemma SlotMatchesFromFingerprints(pipeline: Pipeline, info: FingerprintRepositoryInfo, repo: FingerprintRepository,
                                    paragraph: string, e: ParagraphEntry)
    ensures var checkpoints := CheckpointsOf(pipeline, info, paragraph);
            e in SlotMatches(pipeline, info, repo, paragraph).paragraphEntries <==>
            exists j :: 0 <= j < |checkpoints| && e in repo.Lookup(pipeline.fingerprintOf(checkpoints[j]))
  {
    var checkpoints := CheckpointsOf(pipeline, info, paragraph);
    var fps := Fingerprints(pipeline.fingerprintOf, checkpoints);
    LookupAllMember(repo, fps, e);
    if exists j :: 0 <= j < |checkpoints| && e in repo.Lookup(pipeline.fingerprintOf(checkpoints[j])) {
      var j :| 0 <= j < |checkpoints| && e in repo.Lookup(pipeline.fingerprintOf(checkpoints[j]));
      assert e in repo.Lookup(fps[j]);
    }
  }

  /**
   * A slot is empty exactly when no checkpoint's fingerprint has entries in
   * the slot's repository; an analyzer that yields no checkpoints (the empty
   * paragraph) therefore gives an empty slot.
   */
  lemma SlotEmptyIff(pipeline: Pipeline, info: FingerprintRepositoryInfo, repo: FingerprintRepository, paragraph: string)
    ensures var checkpoints := CheckpointsOf(pipeline, info, paragraph);
            SlotMatches(pipeline, info, repo, paragraph).paragraphEntries == [] <==>
            forall j :: 0 <= j < |checkpoints| ==> repo.Lookup(pipeline.fingerprintOf(checkpoints[j])) == []
  {
    var checkpoints := CheckpointsOf(pipeline, info, paragraph);
    var fps := Fingerprints(pipeline.fingerprintOf, checkpoints);
    LookupAllEmpty(repo, fps);
  }

  /** Fingerprints that are not keys of the repository contribute nothing. */
  lemma UnindexedFingerprintsNoMatches(pipeline: Pipeline, info: FingerprintRepositoryInfo, repo: FingerprintRepository, paragraph: string)
    requires forall j :: 0 <= j < |CheckpointsOf(pipeline, info, paragraph)| ==>
               pipeline.fingerprintOf(CheckpointsOf(pipeline, info, paragraph)[j]) !in repo.index
    ensures SlotMatches(pipeline, info, repo, paragraph).paragraphEntries == []
  {
    SlotEmptyIff(pipeline, info, repo, paragraph);
  }

  /** Two `check` calls with the same paragraph give the same result. */
  method CheckTwice(checker: PlagiarismChecker, pipeline: Pipeline, paragraph: Option<string>)
    returns (first: Result<seq<Option<AnalyzerMatches>>, Error>, second: Result<seq<Option<AnalyzerMatches>>, Error>)
    requires checker.Valid()
    ensures first == second
  {
    first := checker.Check(pipeline, paragraph);
    second := checker.Check(pipeline, paragraph);
    if paragraph.Some? {
      assert first.value == second.value;
    }
  }

  /**
   * Two checkers built from two distinct lists with the same records are
   * distinct objects that are equal both ways and hash alike, whatever
   * repositories their loaders produced; when the loaders agree on the index
   * files, both are built or neither is.
   */
  method SameInfoListEqualCheckers(infos1: array<FingerprintRepositoryInfo>, infos2: array<FingerprintRepositoryInfo>,
                                   load1: Loader, load2: Loader, hashOf: seq<FingerprintRepositoryInfo> -> Int32)
    returns (a: Result<PlagiarismChecker, Error>, b: Result<PlagiarismChecker, Error>)
    requires infos1[..] == infos2[..]
    ensures (forall k :: 0 <= k < infos1.Length ==> load1(infos1[k].indexFile) == load2(infos1[k].indexFile)) ==>
              (a.Success? <==> b.Success?)
    ensures a.Success? && b.Success? ==>
              a.value != b.value && a.value.Equals(b.value) && b.value.Equals(a.value) &&
              a.value.HashCode(hashOf) == b.value.HashCode(hashOf)
  {
    a := PlagiarismChecker.Create(infos1, load1);
    b := PlagiarismChecker.Create(infos2, load2);
  }

  /** `equals` is an equivalence relation on checkers: reflexive, symmetric and transitive. */
  lemma EqualsIsEquivalence(a: PlagiarismChecker, b: PlagiarismChecker, c: PlagiarismChecker)
    ensures a.Equals(a)
    ensures a.Equals(b) ==> b.Equals(a)
    ensures a.Equals(b) && b.Equals(c) ==> a.Equals(c)
  {
  }

  /** Equal checkers have equal hash codes. */
  lemma EqualsAgreesWithHashCode(a: PlagiarismChecker, b: PlagiarismChecker, hashOf: seq<FingerprintRepositoryInfo> -> Int32)
    requires a.Equals(b)
    ensures a.HashCode(hashOf) == b.HashCode(hashOf)
  {
  }

  /** Changing the caller's list after construction does not change the checker's info list. */
  method CallerListIsCopied(callerList: array<FingerprintRepositoryInfo>, load: Loader, replacement: FingerprintRepositoryInfo)
    returns (r: Result<PlagiarismChecker, Error>)
    requires callerList.Length > 0
    modifies callerList
    ensures r.Success? ==> r.value.fingerprintRepositoryInfoList == old(callerList[..])
  {
    r := PlagiarismChecker.Create(callerList, load);
    callerList[0] := replacement;
  }
}
