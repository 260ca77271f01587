# PlagiarismChecker query orchestrator, modelled in Dafny

This project models `PlagiarismChecker`, the orchestrator of the Zeen plagiarism checker.
It is built from an ordered list of `FingerprintRepositoryInfo` records, each pairing a
`ContentAnalyzerType` with an index file. It loads one fingerprint repository per record,
in list order, and answers `check(paragraph)`. For every registered analyzer, `check` extracts
the paragraph's checkpoints, builds one `long` fingerprint per checkpoint, and looks each
fingerprint up in that analyzer's repository. The result has one slot per record, in
registration order.

Files:
- `Wrappers.dfy`: `Option` (Java `null`) and `Result` (a thrown exception).
- `Fingerprinting.dfy`: the collaborators at their boundary.
  - Fingerprints are Java `long` values (a 64-bit newtype).
  - A checkpoint is a `seq<string>`, because an analyzer yields `Iterable<CharSequence>` per checkpoint.
  - A repository is a map from fingerprint to entries. An absent key yields no entries.
  - `Fingerprints` specifies what the fingerprint builder writes into its buffer, and `LookupAll` specifies the ordered concatenation of lookups.
- `Checker.dfy`: the class `PlagiarismChecker`, with its two fields.
  - The info list is a `const`, since the Java field is final and the list is never changed.
  - The repository list is a `var` that `LoadIndexes` appends to.
  - `Create` is the Java constructor as a whole, including its exceptions.
  - `Check` fills a pre-sized array of slots. Each slot is filled by `CheckRepository`, the body of one parallel task.
  - Both are proved equal to the functional specification `SlotMatches`.
- `CheckerProperties.dfy`: properties of the model.
  - Where matches come from, and when a slot is empty.
  - Repeated queries give the same result.
  - Equality and hashing depend on the info list only.
  - Later changes to the caller's list do not reach the checker.

The collaborators are parameters. These are the analyzer per `ContentAnalyzerType`, the
per-checkpoint fingerprint (both in `Pipeline`), and the repository loader (`Loader`).
`Check` has no `modifies` clause, so a query cannot change either field.

Behaviour of the code that the model keeps:
- A null paragraph or a null info list raises `NullPointerException` (Guava's `checkNotNull`).
- When one index fails to load, the Java constructor propagates the `IOException`. It does not roll back the repositories already loaded, and `LoadIndexes` keeps them in place in the model too.
- Each checkpoint is an `Iterable<CharSequence>`, so the model's checkpoint is a sequence of strings.
- The caller's info list is a mutable Java `List`; the model passes it as an array, and the constructor copies its contents.

## Model

| member | source | states |
|---|---|---|
| Fingerprinting.Fingerprints | PlagiarismChecker/src/impl/java/com/zeen/plagiarismchecker/application/impl/PlagiarismChecker.java:105-110 | the fingerprint buffer has exactly one fingerprint per checkpoint, and position k holds the fingerprint of checkpoint k |
| Fingerprinting.BuildFingerprints | PlagiarismChecker/src/impl/java/com/zeen/plagiarismchecker/application/impl/PlagiarismChecker.java:105-110 | filling the buffer (sized to the checkpoint list) leaves it equal to `Fingerprints` of the checkpoints |
| Fingerprinting.LookupAllAppend | PlagiarismChecker/src/impl/java/com/zeen/plagiarismchecker/application/impl/PlagiarismChecker.java:111-124 | the entries found for two fingerprint lists in sequence are the concatenation of the entries found for each, in order |
| Fingerprinting.LookupAllMember | PlagiarismChecker/src/impl/java/com/zeen/plagiarismchecker/application/impl/PlagiarismChecker.java:111-124 | an entry is collected if and only if the repository's lookup of some fingerprint in the list returns it |
| Fingerprinting.LookupAllEmpty | PlagiarismChecker/src/impl/java/com/zeen/plagiarismchecker/application/impl/PlagiarismChecker.java:111-124 | nothing is collected if and only if every fingerprint is absent from the repository or maps to no entries |
| Fingerprinting.AbsentContributesNothing | PlagiarismChecker/src/impl/java/com/zeen/plagiarismchecker/application/impl/PlagiarismChecker.java:113-124 | a fingerprint absent from the repository contributes nothing, wherever it stands among present ones |
| Fingerprinting.DuplicatesKept | PlagiarismChecker/src/impl/java/com/zeen/plagiarismchecker/application/impl/PlagiarismChecker.java:113-124 | a fingerprint that occurs twice contributes its entries twice; duplicates are not removed |
| Checker.PlagiarismChecker.constructor | PlagiarismChecker/src/impl/java/com/zeen/plagiarismchecker/application/impl/PlagiarismChecker.java:63-72 | the checker keeps its own copy of the caller's info list (its contents at construction) and starts with no repositories |
| Checker.PlagiarismChecker.LoadIndexes | PlagiarismChecker/src/impl/java/com/zeen/plagiarismchecker/application/impl/PlagiarismChecker.java:76-82 | repositories are loaded and appended in info-list order; it succeeds exactly when every record is loaded (one repository per record); otherwise the record right after the loaded prefix is the one whose load failed, and its message is returned |
| Checker.PlagiarismChecker.Create | PlagiarismChecker/src/impl/java/com/zeen/plagiarismchecker/application/impl/PlagiarismChecker.java:63-82 | a null list raises NullPointerException; the checker's info list is the contents of the caller's list; construction succeeds if and only if every index file loads; repository k is the one loaded from record k's index file; on failure, the IOException is that of the first index file that fails |
| Checker.PlagiarismChecker.Check | PlagiarismChecker/src/impl/java/com/zeen/plagiarismchecker/application/impl/PlagiarismChecker.java:84-131 | a null paragraph raises NullPointerException before any slot is created; otherwise the result has one slot per info record, none of them null, and slot i holds analyzer type i with repository i's matches for the paragraph |
| Checker.PlagiarismChecker.CheckRepository | PlagiarismChecker/src/impl/java/com/zeen/plagiarismchecker/application/impl/PlagiarismChecker.java:98-128 | one task: analyze with analyzer i, fingerprint every checkpoint, and concatenate repository i's lookups in fingerprint order, paired with analyzer type i |
| Checker.PlagiarismChecker.Equals | PlagiarismChecker/src/impl/java/com/zeen/plagiarismchecker/application/impl/PlagiarismChecker.java:50-61 | a checker never equals null, and always equals itself |
| Checker.PlagiarismChecker.HashCode | PlagiarismChecker/src/impl/java/com/zeen/plagiarismchecker/application/impl/PlagiarismChecker.java:45-48 | the hash is `31 + h` in 32-bit `int` arithmetic, where `h` is the hash of the info list alone (Guava's `Objects.hashCode` of one field); the list's own hash is a parameter |
| CheckerProperties.SlotMatchesFromFingerprints | PlagiarismChecker/src/impl/java/com/zeen/plagiarismchecker/application/impl/PlagiarismChecker.java:99-124 | an entry is in a slot if and only if the slot's repository holds it for the fingerprint of some checkpoint of the paragraph (texts match only through equal fingerprints) |
| CheckerProperties.SlotEmptyIff | PlagiarismChecker/src/impl/java/com/zeen/plagiarismchecker/application/impl/PlagiarismChecker.java:99-124 | a slot is empty if and only if no checkpoint's fingerprint has entries in its repository; in particular, no checkpoints means an empty slot |
| CheckerProperties.UnindexedFingerprintsNoMatches | PlagiarismChecker/src/impl/java/com/zeen/plagiarismchecker/application/impl/PlagiarismChecker.java:113-124 | when every fingerprint of the paragraph is absent from the slot's repository, the slot is empty |
| CheckerProperties.CheckTwice | PlagiarismChecker/src/impl/java/com/zeen/plagiarismchecker/application/impl/PlagiarismChecker.java:84-131 | two `check` calls with the same paragraph on the same checker return identical results |
| CheckerProperties.SameInfoListEqualCheckers | PlagiarismChecker/src/test/java/com/zeen/plagiarismchecker/application/impl/service/RESTServerTest.java:62-64 | two checkers built from two distinct lists with the same records, by loaders that may produce different repositories, are distinct objects that are equal both ways and have equal hash codes, so equality and hash depend on the info list only; when the loaders agree on the index files, both are built or neither is |
| CheckerProperties.EqualsIsEquivalence | PlagiarismChecker/src/impl/java/com/zeen/plagiarismchecker/application/impl/PlagiarismChecker.java:50-61 | `equals` is reflexive, symmetric and transitive over all checkers |
| CheckerProperties.EqualsAgreesWithHashCode | PlagiarismChecker/src/impl/java/com/zeen/plagiarismchecker/application/impl/PlagiarismChecker.java:45-61 | equal checkers have equal hash codes, since both depend on the info list only |
| CheckerProperties.CallerListIsCopied | PlagiarismChecker/src/impl/java/com/zeen/plagiarismchecker/application/impl/PlagiarismChecker.java:69-70 | replacing the record at a position of the caller's array after construction leaves the checker's info list as the array was before; the copy is made by `Create` |

## Left out

- `getPlagiarismCheckerWithArgs` (PlagiarismChecker/src/impl/java/com/zeen/plagiarismchecker/application/impl/PlagiarismChecker.java:133-181): command-line parsing and filesystem checks, which are I/O glue.
- `main` (PlagiarismChecker/src/impl/java/com/zeen/plagiarismchecker/application/impl/PlagiarismChecker.java:183-195): a standard-input read loop that prints results, which is I/O.
- The parallel stream (PlagiarismChecker/src/impl/java/com/zeen/plagiarismchecker/application/impl/PlagiarismChecker.java:94-97) is a sequential loop in the model. Each task writes only its own slot and reads only its own repository, so the order of the tasks does not change the result. This holds because the model treats the shared collaborators as pure functions: the static fingerprint builder that every task calls (PlagiarismChecker/src/impl/java/com/zeen/plagiarismchecker/application/impl/PlagiarismChecker.java:107), and the analyzer that two records with the same `ContentAnalyzerType` share (PlagiarismChecker/src/impl/java/com/zeen/plagiarismchecker/application/impl/PlagiarismChecker.java:101-102).
- `toString` (PlagiarismChecker/src/impl/java/com/zeen/plagiarismchecker/application/impl/PlagiarismChecker.java:37-43) is a Guava formatting helper.
- `HashCode` takes the info list's own `hashCode` as a parameter (`listHash`). `List.hashCode` and the `hashCode` of `FingerprintRepositoryInfo` are not part of this model.
- Checker.PlagiarismChecker.Equals: the `getClass()` comparison (PlagiarismChecker/src/impl/java/com/zeen/plagiarismchecker/application/impl/PlagiarismChecker.java:55-57) is not modelled. Java's `equals(Object)` returns false for an argument of any other class, such as a string, and for instances of a subclass, since the class is not `final`. The model types the argument as `PlagiarismChecker?`, so it never sees such inputs.
- Checker.PlagiarismChecker.Equals compares info records as values (analyzer name and index-file path). Java's `Objects.equal` on the lists (PlagiarismChecker/src/impl/java/com/zeen/plagiarismchecker/application/impl/PlagiarismChecker.java:59-60) calls `FingerprintRepositoryInfo.equals` and `File.equals`; those classes are not part of this model, and the model assumes they compare these same two components.
- A `null` record inside the info list is not modelled. Java throws `NullPointerException` for it at PlagiarismChecker/src/impl/java/com/zeen/plagiarismchecker/application/impl/PlagiarismChecker.java:79, but a sequence of datatype values cannot hold one.
- `ParagraphEntry` is an opaque type with equality; its class is not part of this model.
- The content analyzers, the per-checkpoint digest, `FingerprintRepositoryImpl.load`, `getFingerprintEntries` and `newFingerprint` are not modelled. Their sources are not part of this model, so they are parameters:
  - the analyzer and the digest are functions;
  - the repository is a map;
  - `newFingerprint` is the identity on the `long` key;
  - a failing load is an error message.
- Checker.PlagiarismChecker.Check requires `Valid()` (as many repositories as info records). Java sizes the result by the repository list and iterates over the info list, and these lengths differ only during construction, so the index error Java would throw then is not modelled.
- Exceptions thrown inside an analyzer or a lookup are not modelled. The collaborators are total functions.
- The index builder (write path) is not part of this model. So the property "a checkpoint present in an indexed document is found again" cannot be stated here.
- The caller's `List` is modelled as an array that `Create` copies with `[..]`. Replacing the record at a position, as `List.set` does, is modelled, and the checker does not see it. Adding or removing records is not modelled. `Lists.newArrayList` makes a shallow copy, so the Java checker shares the record objects with the caller; the model's records are immutable values, so that sharing is not captured.
- A `Loader` is a function of the index file alone: the model assumes an index file does not change between two loads of it.
