/**
 * The collaborators of the checker, at their boundary: content-analyzer
 * identifiers, checkpoints, fingerprints, the fingerprint builder and the
 * read path of a fingerprint repository. The analyzers and the per-checkpoint
 * digest are not modelled; they reach the checker as function parameters.
 */
module Fingerprinting {

  /** A fingerprint is a Java `long`. */
  newtype Fingerprint = x: int | -0x8000_0000_0000_0000 <= x < 0x8000_0000_0000_0000

  /** A checkpoint is one `Iterable<CharSequence>` produced by an analyzer. */
  type Checkpoint = seq<string>

  /** One constant of the closed `ContentAnalyzerType` enumeration, known by its name. */
  datatype ContentAnalyzerType = ContentAnalyzerType(name: string)

  /** Where a checkpoint came from; the class is not part of this model, only its equality is used. */
  type ParagraphEntry(==)

  /** A loaded, read-only index from fingerprints to the entries that produced them. */
  datatype FingerprintRepository = FingerprintRepository(index: map<Fingerprint, seq<ParagraphEntry>>)
  {
    /** `getFingerprintEntries`: an absent fingerprint yields no entries, never an error. */
    function Lookup(f: Fingerprint): (entries: seq<ParagraphEntry>)
    {
      if f in index then index[f] else []
    }
  }

  /**
   * What the fingerprint builder writes into its buffer: one fingerprint per
   * checkpoint, in checkpoint order, each depending only on its own checkpoint.
   */
  function Fingerprints(fingerprintOf: Checkpoint -> Fingerprint, checkpoints: seq<Checkpoint>): (fps: seq<Fingerprint>)
    ensures |fps| == |checkpoints|
    ensures forall k :: 0 <= k < |checkpoints| ==> fps[k] == fingerprintOf(checkpoints[k])
  {
    if checkpoints == [] then []
    else Fingerprints(fingerprintOf, checkpoints[..|checkpoints| - 1]) + [fingerprintOf(checkpoints[|checkpoints| - 1])]
  }

  /** `FINGERPRINT_BUILDER.buildFingerprints`: fills a buffer sized to the checkpoint list. */
  method BuildFingerprints(fingerprintOf: Checkpoint -> Fingerprint, checkpoints: seq<Checkpoint>, buffer: array<Fingerprint>)
    requires buffer.Length == |checkpoints|
    modifies buffer
    ensures buffer[..] == Fingerprints(fingerprintOf, checkpoints)
  {
    for k := 0 to buffer.Length
      invariant forall m :: 0 <= m < k ==> buffer[m] == fingerprintOf(checkpoints[m])
    {
      buffer[k] := fingerprintOf(checkpoints[k]);
    }
  }

  /**
   * The entries found for a list of fingerprints: the lookups of the
   * fingerprints, in order, concatenated, duplicates kept.
   */
  function LookupAll(repo: FingerprintRepository, fps: seq<Fingerprint>): (entries: seq<ParagraphEntry>)
  {
    if fps == [] then []
    else LookupAll(repo, fps[..|fps| - 1]) + repo.Lookup(fps[|fps| - 1])
  }

  /** Looking up two lists of fingerprints one after the other concatenates their results. */
  lemma {:induction false} LookupAllAppend(repo: FingerprintRepository, a: seq<Fingerprint>, b: seq<Fingerprint>)
    ensures LookupAll(repo, a + b) == LookupAll(repo, a) + LookupAll(repo, b)
  {
    if b == [] {
      assert a + b == a;
    } else {
      var front := b[..|b| - 1];
      LookupAllAppend(repo, a, front);
      assert (a + b)[..|a + b| - 1] == a + front;
    }
  }

  /** An entry is found exactly when the lookup of some fingerprint of the list returns it. */
  lemma {:induction false} LookupAllMember(repo: FingerprintRepository, fps: seq<Fingerprint>, e: ParagraphEntry)
    ensures e in LookupAll(repo, fps) <==> exists j :: 0 <= j < |fps| && e in repo.Lookup(fps[j])
  {
    if fps != [] {
      var front := fps[..|fps| - 1];
      LookupAllMember(repo, front, e);
      if e in LookupAll(repo, fps) {
        if e in LookupAll(repo, front) {
          var j :| 0 <= j < |front| && e in repo.Lookup(front[j]);
          assert fps[j] == front[j];
        } else {
          assert e in repo.Lookup(fps[|fps| - 1]);
        }
      } else {
        forall j | 0 <= j < |fps|
          ensures e !in repo.Lookup(fps[j])
        {
          if j < |front| {
            assert front[j] == fps[j];
          }
        }
      }
    }
  }

  /** Nothing is found exactly when every fingerprint of the list is absent or maps to no entry. */
  lemma {:induction false} LookupAllEmpty(repo: FingerprintRepository, fps: seq<Fingerprint>)
    ensures LookupAll(repo, fps) == [] <==> forall j :: 0 <= j < |fps| ==> repo.Lookup(fps[j]) == []
  {
    if fps != [] {
      var front := fps[..|fps| - 1];
      LookupAllEmpty(repo, front);
      assert forall j :: 0 <= j < |front| ==> front[j] == fps[j];
    }
  }

  /** The same fingerprint twice contributes its entries twice. */
  lemma DuplicatesKept(repo: FingerprintRepository, fps: seq<Fingerprint>, f: Fingerprint)
    ensures LookupAll(repo, fps + [f, f]) == LookupAll(repo, fps) + repo.Lookup(f) + repo.Lookup(f)
  {
    LookupAllAppend(repo, fps, [f, f]);
    assert [f, f][..1] == [f];
    assert LookupAll(repo, [f]) == repo.Lookup(f) by {
      assert [f][..0] == [];
    }
  }

  /** A fingerprint absent from the repository contributes nothing, wherever it stands in the list. */
  lemma AbsentContributesNothing(repo: FingerprintRepository, a: seq<Fingerprint>, f: Fingerprint, b: seq<Fingerprint>)
    requires f !in repo.index
    ensures LookupAll(repo, a + [f] + b) == LookupAll(repo, a + b)
  {
    LookupAllAppend(repo, a + [f], b);
    LookupAllAppend(repo, a, [f]);
    LookupAllAppend(repo, a, b);
    assert [f][..0] == [];
  }
}
