/**
 Publishing a release payload together with its metadata
 (scripts/package-release.py): two renames that cannot happen at once, and the
 rollback between them.  Every operation of the publication may work, fail
 without effect, or be interrupted just before or just behind its effect.
 */
module Release {
  import opened Options
  import Ordering

  const MAX_BINARY: nat := 128 * 1024 * 1024
  const TARGET_COUNT: nat := 5

  type Bytes = seq<bv8>

  datatype Target = WindowsX64 | MacX64 | MacArm64 | LinuxX64 | LinuxArm64 | Unsupported(name: string)

  predicate Supported(t: Target) {
    !t.Unsupported?
  }

  function TargetName(t: Target): string {
    match t
    case WindowsX64 => "x86_64-pc-windows-msvc"
    case MacX64 => "x86_64-apple-darwin"
    case MacArm64 => "aarch64-apple-darwin"
    case LinuxX64 => "x86_64-unknown-linux-musl"
    case LinuxArm64 => "aarch64-unknown-linux-musl"
    case Unsupported(name) => name
  }

  function FileName(t: Target): string {
    "codex-usage-monit-" + TargetName(t) + if t.WindowsX64? then ".exe" else ".tar.gz"
  }

  datatype Identity = Identity(schema: int, product: string, version: string, buildId: string, protocol: int)

  datatype Artifact = Artifact(target: Target, file: string, size: int, sha256: string, binarySize: int,
                               binarySha256: string)

  datatype Manifest = Manifest(identity: Identity, artifacts: seq<Artifact>)

  datatype MetadataFile = Missing | NotOrdinary | Malformed | Parsed(manifest: Manifest)

  datatype PayloadFile = Absent | Irregular | File(bytes: Bytes)

  /** The files of the output directory that matter; payloads are found by target, whose file name is fixed. */
  datatype Directory = Directory(payloads: map<Target, PayloadFile>, bundle: MetadataFile,
                                 metadata: map<Target, MetadataFile>)

  /** The two forms of metadata: `release-manifest.json` and one `release-metadata-<target>.json` per target. */
  datatype Form = Bundle | PerTarget(target: Target)

  function PayloadOf(dir: Directory, t: Target): PayloadFile {
    if t in dir.payloads then dir.payloads[t] else Absent
  }

  function FileOf(dir: Directory, form: Form): MetadataFile {
    match form
    case Bundle => dir.bundle
    case PerTarget(t) => if t in dir.metadata then dir.metadata[t] else Missing
  }

  function WithPayload(dir: Directory, t: Target, payload: PayloadFile): Directory {
    dir.(payloads := dir.payloads[t := payload])
  }

  function WithFile(dir: Directory, form: Form, file: MetadataFile): Directory {
    match form
    case Bundle => dir.(bundle := file)
    case PerTarget(t) => dir.(metadata := dir.metadata[t := file])
  }

  /** Hashing, reading the single member of an archive, and the identity rules. */
  datatype Environment = Environment(hash: Bytes -> string, unpack: Bytes -> Option<Bytes>,
                                     validIdentity: Identity -> bool)

  function BinaryOf(env: Environment, t: Target, payload: Bytes): Option<Bytes> {
    if t.WindowsX64? then Some(payload) else env.unpack(payload)
  }

  // ----- When an artifact describes the payload

  predicate SizeAllowed(n: int) {
    0 < n <= MAX_BINARY
  }

  /** `validate_artifact` against one payload file. */
  predicate DescribesPayload(env: Environment, payload: PayloadFile, a: Artifact) {
    && Supported(a.target) && a.file == FileName(a.target)
    && SizeAllowed(a.size) && SizeAllowed(a.binarySize)
    && payload.File? && |payload.bytes| == a.size && env.hash(payload.bytes) == a.sha256
    && var binary := BinaryOf(env, a.target, payload.bytes);
       binary.Some? && |binary.value| == a.binarySize && env.hash(binary.value) == a.binarySha256
  }

  predicate Describes(env: Environment, dir: Directory, a: Artifact) {
    DescribesPayload(env, PayloadOf(dir, a.target), a)
  }

  /** Every manifest describes the payloads present. */
  ghost predicate Consistent(env: Environment, dir: Directory) {
    forall form :: FileOf(dir, form).Parsed? ==> AllDescribed(env, dir, FileOf(dir, form).manifest.artifacts)
  }

  ghost predicate AllDescribed(env: Environment, dir: Directory, artifacts: seq<Artifact>) {
    forall a :: a in artifacts ==> Describes(env, dir, a)
  }

  /** Target metadata lists only its own target, as the packager writes it. */
  ghost predicate OwnTargetsOnly(dir: Directory) {
    forall t, a :: a in ArtifactsOf(dir, PerTarget(t)) ==> a.target == t
  }

  // ----- The checks before anything is written

  /** One run of the packager. */
  datatype Build = Build(identity: Identity, target: Target, binary: Bytes, claimedHash: string,
                         metadataOnly: bool, archive: Bytes, inPlace: bool)

  function OwnForm(build: Build): Form {
    if build.metadataOnly then PerTarget(build.target) else Bundle
  }

  function OtherForm(build: Build): Form {
    if build.metadataOnly then Bundle else PerTarget(build.target)
  }

  predicate BuildAccepted(env: Environment, build: Build) {
    && SizeAllowed(|build.binary|) && build.claimedHash == env.hash(build.binary)
    && env.validIdentity(build.identity) && Supported(build.target)
  }

  ghost predicate DistinctTargets(artifacts: seq<Artifact>) {
    forall i, j :: 0 <= i < j < |artifacts| ==> artifacts[i].target != artifacts[j].target
  }

  ghost predicate ArtifactsAccepted(env: Environment, dir: Directory, form: Form, artifacts: seq<Artifact>) {
    && (forall a :: a in artifacts ==> Describes(env, dir, a))
    && DistinctTargets(artifacts)
    && (form.PerTarget? ==> forall a :: a in artifacts ==> a.target == form.target)
  }

  /** An existing metadata file that the packager builds upon. */
  ghost predicate FormAccepted(env: Environment, dir: Directory, identity: Identity, form: Form) {
    match FileOf(dir, form)
    case Missing => true
    case NotOrdinary => false
    case Malformed => false
    case Parsed(m) =>
      && env.validIdentity(m.identity) && m.identity == identity
      && 1 <= |m.artifacts| <= TARGET_COUNT && (form.PerTarget? ==> |m.artifacts| == 1)
      && ArtifactsAccepted(env, dir, form, m.artifacts)
  }

  function ArtifactsOf(dir: Directory, form: Form): seq<Artifact> {
    if FileOf(dir, form).Parsed? then FileOf(dir, form).manifest.artifacts else []
  }

  predicate Refers(dir: Directory, form: Form, t: Target) {
    exists i :: 0 <= i < |ArtifactsOf(dir, form)| && ArtifactsOf(dir, form)[i].target == t
  }

  predicate SameBinary(env: Environment, build: Build, a: Artifact) {
    a.binarySize == |build.binary| && a.binarySha256 == env.hash(build.binary)
  }

  /** Some existing metadata already describes this very binary. */
  ghost predicate Reusable(env: Environment, dir: Directory, build: Build) {
    ReusableIn(env, dir, build, Bundle) || ReusableIn(env, dir, build, PerTarget(build.target))
  }

  ghost predicate ReusableIn(env: Environment, dir: Directory, build: Build, form: Form) {
    exists a :: a in ArtifactsOf(dir, form) && a.target == build.target && SameBinary(env, build, a)
  }

  ghost function Staged(env: Environment, dir: Directory, build: Build): Bytes {
    if Reusable(env, dir, build) && PayloadOf(dir, build.target).File? then PayloadOf(dir, build.target).bytes
    else if build.target.WindowsX64? then build.binary
    else build.archive
  }

  function NewArtifact(env: Environment, build: Build, staged: Bytes): Artifact {
    Artifact(build.target, FileName(build.target), |staged|, env.hash(staged), |build.binary|, env.hash(build.binary))
  }

  /** The payload already lies where it will be published. */
  ghost predicate InPosition(env: Environment, dir: Directory, build: Build) {
    Reusable(env, dir, build) || (build.target.WindowsX64? && build.inPlace)
  }

  /** Everything that `package` demands before it publishes. */
  ghost predicate Accepted(env: Environment, dir: Directory, build: Build) {
    && BuildAccepted(env, build)
    && FormAccepted(env, dir, build.identity, Bundle)
    && FormAccepted(env, dir, build.identity, PerTarget(build.target))
    && !PayloadOf(dir, build.target).Irregular?
    && (Reusable(env, dir, build) || !Refers(dir, OtherForm(build), build.target))
    && DescribesPayload(env, File(Staged(env, dir, build)), NewArtifact(env, build, Staged(env, dir, build)))
  }

  /** A binary packaged from its final place is the payload that is there. */
  ghost predicate InPlaceIsTrue(dir: Directory, build: Build) {
    build.target.WindowsX64? && build.inPlace ==> PayloadOf(dir, build.target) == File(build.binary)
  }

  // ----- The new manifest

  predicate TargetLe(a: Artifact, b: Artifact) {
    Ordering.StringLe(TargetName(a.target), TargetName(b.target))
  }

  function Others(artifacts: seq<Artifact>, t: Target): seq<Artifact> {
    if artifacts == [] then []
    else
      var last := artifacts[|artifacts| - 1];
      Others(artifacts[..|artifacts| - 1], t) + if last.target != t then [last] else []
  }

  lemma {:induction false} OthersMembers(artifacts: seq<Artifact>, t: Target)
    ensures forall a :: a in Others(artifacts, t) <==> a in artifacts && a.target != t
  {
    if artifacts != [] {
      OthersMembers(artifacts[..|artifacts| - 1], t);
      assert artifacts == artifacts[..|artifacts| - 1] + [artifacts[|artifacts| - 1]];
    }
  }

  /** The artifacts of the own form for other targets, and the new one, by target name. */
  function NewManifest(env: Environment, dir: Directory, build: Build, staged: Bytes): Manifest {
    var all := [NewArtifact(env, build, staged)] + Others(ArtifactsOf(dir, OwnForm(build)), build.target);
    Manifest(build.identity, Ordering.Sort(TargetLe, all))
  }

  lemma NewManifestMembers(env: Environment, dir: Directory, build: Build, staged: Bytes)
    ensures forall a :: a in NewManifest(env, dir, build, staged).artifacts <==>
              || a == NewArtifact(env, build, staged)
              || (a in ArtifactsOf(dir, OwnForm(build)) && a.target != build.target)
  {
    hide Ordering.Sort, Ordering.StringLe, Others;
    var rest := Others(ArtifactsOf(dir, OwnForm(build)), build.target);
    var all := [NewArtifact(env, build, staged)] + rest;
    OthersMembers(ArtifactsOf(dir, OwnForm(build)), build.target);
    TargetLeIsTotalPreorder();
    Ordering.SortFacts(TargetLe, all);
    Ordering.DistinctPermutation(all, Ordering.Sort(TargetLe, all));
  }

  lemma TargetLeIsTotalPreorder()
    ensures Ordering.TotalPreorder(TargetLe)
  {
    hide Ordering.StringLe, TargetName;
    Ordering.StringLeIsTotalPreorder();
  }

  // ----- Publication

  datatype Step = Works | Fails | InterruptedBefore | InterruptedBehind

  /** What happens at the two renames and at the rollback. */
  datatype Faults = Faults(payload: Step, metadata: Step, rollback: Step)

  predicate TakesEffect(step: Step) {
    step.Works? || step.InterruptedBehind?
  }

  predicate ManifestPublished(faults: Faults, inPosition: bool) {
    (inPosition || faults.payload.Works?) && TakesEffect(faults.metadata)
  }

  predicate RaisedInside(faults: Faults, inPosition: bool) {
    (!inPosition && !faults.payload.Works?) || !faults.metadata.Works?
  }

  /** The rollback is attempted once the flag behind the first rename is set. */
  predicate RollsBack(faults: Faults, inPosition: bool) {
    RaisedInside(faults, inPosition) && !inPosition && faults.payload.Works?
  }

  predicate PayloadPublished(faults: Faults, inPosition: bool) {
    !inPosition && TakesEffect(faults.payload) && !(RollsBack(faults, inPosition) && TakesEffect(faults.rollback))
  }

  /** The directory when `package` is left. */
  ghost function AfterPublication(env: Environment, dir: Directory, build: Build, faults: Faults): Directory {
    var staged, inPosition := Staged(env, dir, build), InPosition(env, dir, build);
    var dir1 := if PayloadPublished(faults, inPosition) then WithPayload(dir, build.target, File(staged)) else dir;
    if ManifestPublished(faults, inPosition) then
      WithFile(dir1, OwnForm(build), Parsed(NewManifest(env, dir, build, staged)))
    else
      dir1
  }

  // ----- Files and forms after one change

  /** A payload change matters only to artifacts of its target. */
  lemma DescribesAfterPayload(env: Environment, dir: Directory, t: Target, payload: PayloadFile, a: Artifact)
    ensures a.target != t ==> (Describes(env, WithPayload(dir, t, payload), a) <==> Describes(env, dir, a))
    ensures a.target == t ==> (Describes(env, WithPayload(dir, t, payload), a) <==> DescribesPayload(env, payload, a))
  {
    hide DescribesPayload;
  }

  /** What the checks say about the payload to be published. */
  lemma StagedFits(env: Environment, dir: Directory, build: Build)
    requires Accepted(env, dir, build) && InPlaceIsTrue(dir, build)
    ensures var staged := Staged(env, dir, build);
            && DescribesPayload(env, File(staged), NewArtifact(env, build, staged))
            && (InPosition(env, dir, build) ==> PayloadOf(dir, build.target) == File(staged))
            && (!InPosition(env, dir, build) ==> !Refers(dir, OtherForm(build), build.target))
  {
    if Reusable(env, dir, build) {
      var form := if ReusableIn(env, dir, build, Bundle) then Bundle else PerTarget(build.target);
      var a :| a in ArtifactsOf(dir, form) && a.target == build.target && SameBinary(env, build, a);
      assert Describes(env, dir, a);
    }
  }

  /** Once replaced by a different binary, the payload is no longer what an old reference describes. */
  lemma OldReferenceIsSpoiled(env: Environment, dir: Directory, build: Build, a: Artifact)
    requires Accepted(env, dir, build) && !InPosition(env, dir, build)
    requires a in ArtifactsOf(dir, OwnForm(build)) && a.target == build.target
    ensures !DescribesPayload(env, File(Staged(env, dir, build)), a)
  {
    hide FormAccepted, FileName, TargetName;
    assert !ReusableIn(env, dir, build, OwnForm(build));
    assert !SameBinary(env, build, a);
  }

  // ----- Consistency of what is left behind

  /** The other metadata files describe `payload` wherever they refer to the target. */
  ghost predicate OthersFit(env: Environment, dir: Directory, build: Build, payload: PayloadFile) {
    forall form, a :: form != OwnForm(build) && a in ArtifactsOf(dir, form) && a.target == build.target ==>
      DescribesPayload(env, payload, a)
  }

  /**
   The metadata of other targets, which the packager never reads, describes the new payload wherever
   it refers to it.
   */
  ghost predicate ForeignReferencesFit(env: Environment, dir: Directory, build: Build, staged: Bytes) {
    forall t, a :: t != build.target && a in ArtifactsOf(dir, PerTarget(t)) && a.target == build.target ==>
      DescribesPayload(env, File(staged), a)
  }

  lemma ForeignIsOthers(env: Environment, dir: Directory, build: Build, staged: Bytes)
    requires !Refers(dir, OtherForm(build), build.target)
    ensures OthersFit(env, dir, build, File(staged)) <==> ForeignReferencesFit(env, dir, build, staged)
  {
    hide DescribesPayload, ArtifactsOf;
    forall a | a in ArtifactsOf(dir, OtherForm(build)) ensures a.target != build.target {
      var i :| 0 <= i < |ArtifactsOf(dir, OtherForm(build))| && ArtifactsOf(dir, OtherForm(build))[i] == a;
    }
    if ForeignReferencesFit(env, dir, build, staged) {
      forall form, a | form != OwnForm(build) && a in ArtifactsOf(dir, form) && a.target == build.target
        ensures DescribesPayload(env, File(staged), a)
      {
        assert form.PerTarget? && form.target != build.target;
      }
    }
    if OthersFit(env, dir, build, File(staged)) {
      forall t, a | t != build.target && a in ArtifactsOf(dir, PerTarget(t)) && a.target == build.target
        ensures DescribesPayload(env, File(staged), a)
      {
        assert PerTarget(t) != OwnForm(build);
      }
    }
  }

  lemma OwnTargetsFit(env: Environment, dir: Directory, build: Build, staged: Bytes)
    requires OwnTargetsOnly(dir)
    ensures ForeignReferencesFit(env, dir, build, staged)
  {
    hide DescribesPayload, ArtifactsOf;
  }

  /** A list that was described stays so exactly if its artifacts of the target describe the new payload. */
  lemma DescribedAfterPayload(env: Environment, dir: Directory, t: Target, payload: PayloadFile,
                              artifacts: seq<Artifact>)
    requires AllDescribed(env, dir, artifacts)
    ensures AllDescribed(env, WithPayload(dir, t, payload), artifacts) <==>
              forall a :: a in artifacts && a.target == t ==> DescribesPayload(env, payload, a)
  {
    hide Describes, DescribesPayload;
    forall a | a in artifacts
      ensures Describes(env, WithPayload(dir, t, payload), a) <==> (a.target == t ==> DescribesPayload(env, payload, a))
    {
      DescribesAfterPayload(env, dir, t, payload, a);
    }
  }

  /** The published manifest fits a directory whose payload the new artifact describes. */
  lemma NewManifestFits(env: Environment, dir: Directory, build: Build, payload: PayloadFile, staged: Bytes)
    requires AllDescribed(env, dir, ArtifactsOf(dir, OwnForm(build)))
    ensures AllDescribed(env, WithPayload(dir, build.target, payload),
                         NewManifest(env, dir, build, staged).artifacts) <==>
              DescribesPayload(env, payload, NewArtifact(env, build, staged))
  {
    hide DescribesPayload, NewManifest, Describes, ArtifactsOf;
    var dir1 := WithPayload(dir, build.target, payload);
    var m := NewManifest(env, dir, build, staged);
    NewManifestMembers(env, dir, build, staged);
    assert NewArtifact(env, build, staged) in m.artifacts;
    DescribesAfterPayload(env, dir, build.target, payload, NewArtifact(env, build, staged));
    forall a | a in m.artifacts && a != NewArtifact(env, build, staged) ensures Describes(env, dir1, a) {
      DescribesAfterPayload(env, dir, build.target, payload, a);
    }
  }

  ghost predicate SamePayloads(a: Directory, b: Directory) {
    forall t :: PayloadOf(a, t) == PayloadOf(b, t)
  }

  lemma DescribedIsAboutPayloads(env: Environment, a: Directory, b: Directory, artifacts: seq<Artifact>)
    requires SamePayloads(a, b)
    ensures AllDescribed(env, a, artifacts) <==> AllDescribed(env, b, artifacts)
  {
    hide DescribesPayload;
    assert forall x :: Describes(env, a, x) <==> Describes(env, b, x);
  }

  /** Consistency as a statement about the own form and the others. */
  lemma ConsistentByForms(env: Environment, dir: Directory, build: Build)
    ensures Consistent(env, dir) <==>
              && AllDescribed(env, dir, ArtifactsOf(dir, OwnForm(build)))
              && forall form :: form != OwnForm(build) ==> AllDescribed(env, dir, ArtifactsOf(dir, form))
  {
    hide Describes, FileOf;
    if Consistent(env, dir) {
      forall form ensures AllDescribed(env, dir, ArtifactsOf(dir, form)) {
      }
    }
    if AllDescribed(env, dir, ArtifactsOf(dir, OwnForm(build)))
       && forall form :: form != OwnForm(build) ==> AllDescribed(env, dir, ArtifactsOf(dir, form))
    {
      forall form | FileOf(dir, form).Parsed? ensures AllDescribed(env, dir, FileOf(dir, form).manifest.artifacts) {
        assert AllDescribed(env, dir, ArtifactsOf(dir, form));
      }
    }
  }

  function ListedIn(file: MetadataFile): seq<Artifact> {
    if file.Parsed? then file.manifest.artifacts else []
  }

  /** A directory with a new payload and a new file of the own form. */
  lemma MixedConsistency(env: Environment, dir: Directory, build: Build, payload: PayloadFile, file: MetadataFile,
                         after: Directory)
    requires Consistent(env, dir)
    requires SamePayloads(after, WithPayload(dir, build.target, payload))
    requires forall form :: FileOf(after, form) == if form == OwnForm(build) then file else FileOf(dir, form)
    ensures Consistent(env, after) <==>
              && AllDescribed(env, WithPayload(dir, build.target, payload), ListedIn(file))
              && OthersFit(env, dir, build, payload)
  {
    hide AllDescribed, DescribesPayload, SamePayloads, Consistent;
    var dir1 := WithPayload(dir, build.target, payload);
    ConsistentByForms(env, dir, build);
    ConsistentByForms(env, after, build);
    assert ArtifactsOf(after, OwnForm(build)) == ListedIn(file);
    DescribedIsAboutPayloads(env, after, dir1, ListedIn(file));
    forall form | form != OwnForm(build)
      ensures AllDescribed(env, after, ArtifactsOf(after, form)) <==>
                forall a :: a in ArtifactsOf(dir, form) && a.target == build.target ==>
                  DescribesPayload(env, payload, a)
    {
      assert ArtifactsOf(after, form) == ArtifactsOf(dir, form);
      DescribedIsAboutPayloads(env, after, dir1, ArtifactsOf(dir, form));
      DescribedAfterPayload(env, dir, build.target, payload, ArtifactsOf(dir, form));
    }
    hide ArtifactsOf, FileOf;
  }

  lemma SamePayloadIsNoChange(dir: Directory, t: Target)
    ensures SamePayloads(dir, WithPayload(dir, t, PayloadOf(dir, t)))
  {
  }

  lemma OldPayloadFits(env: Environment, dir: Directory, build: Build)
    requires Consistent(env, dir)
    ensures OthersFit(env, dir, build, PayloadOf(dir, build.target))
    ensures AllDescribed(env, WithPayload(dir, build.target, PayloadOf(dir, build.target)),
                         ArtifactsOf(dir, OwnForm(build)))
  {
    hide DescribesPayload, SamePayloads, Consistent, ArtifactsOf;
    ConsistentByForms(env, dir, build);
    SamePayloadIsNoChange(dir, build.target);
    DescribedIsAboutPayloads(env, dir, WithPayload(dir, build.target, PayloadOf(dir, build.target)),
                             ArtifactsOf(dir, OwnForm(build)));
  }

  /** An old manifest over a new payload holds up exactly if it did not refer to the target. */
  lemma OldManifestOverNewPayload(env: Environment, dir: Directory, build: Build)
    requires Accepted(env, dir, build) && Consistent(env, dir) && !InPosition(env, dir, build)
    ensures AllDescribed(env, WithPayload(dir, build.target, File(Staged(env, dir, build))),
                         ArtifactsOf(dir, OwnForm(build)))
       <==> !Refers(dir, OwnForm(build), build.target)
  {
    hide Accepted, InPosition, Describes, Staged, DescribesPayload, Consistent, ArtifactsOf;
    var payload, artifacts := File(Staged(env, dir, build)), ArtifactsOf(dir, OwnForm(build));
    ConsistentByForms(env, dir, build);
    DescribedAfterPayload(env, dir, build.target, payload, artifacts);
    if i :| 0 <= i < |artifacts| && artifacts[i].target == build.target {
      OldReferenceIsSpoiled(env, dir, build, artifacts[i]);
      assert artifacts[i] in artifacts;
    }
  }

  /**
   Exactly when every manifest describes its payloads after `package` was left: both
   files were published or neither; or only the payload, and no old manifest refers to
   it; or only the manifest, and it describes the payload that was there before.  A
   replaced payload must also be what other targets' metadata says about it, if anything.
   */
  lemma ConsistentAfterPublication(env: Environment, dir: Directory, build: Build, faults: Faults)
    requires Accepted(env, dir, build) && Consistent(env, dir) && InPlaceIsTrue(dir, build)
    ensures var staged, inPosition := Staged(env, dir, build), InPosition(env, dir, build);
            var manifestNew := ManifestPublished(faults, inPosition);
            Consistent(env, AfterPublication(env, dir, build, faults)) <==>
              if PayloadPublished(faults, inPosition) then
                && (manifestNew || !Refers(dir, OwnForm(build), build.target))
                && ForeignReferencesFit(env, dir, build, staged)
              else
                manifestNew ==> DescribesPayload(env, PayloadOf(dir, build.target), NewArtifact(env, build, staged))
  {
    hide Accepted, Staged, InPosition, Consistent, AllDescribed, DescribesPayload, NewManifest, PayloadPublished,
         ManifestPublished, Refers, OthersFit, ForeignReferencesFit, ArtifactsOf;
    var staged, inPosition := Staged(env, dir, build), InPosition(env, dir, build);
    var newPayload, newManifest := PayloadPublished(faults, inPosition), ManifestPublished(faults, inPosition);
    var payload := if newPayload then File(staged) else PayloadOf(dir, build.target);
    var file := if newManifest then Parsed(NewManifest(env, dir, build, staged)) else FileOf(dir, OwnForm(build));
    var after := AfterPublication(env, dir, build, faults);
    StagedFits(env, dir, build);
    PublishedMeansMoved(faults, inPosition);
    AfterIsMixed(env, dir, build, faults);
    MixedConsistency(env, dir, build, payload, file, after);
    ConsistentByForms(env, dir, build);
    OldPayloadFits(env, dir, build);
    if newPayload {
      ForeignIsOthers(env, dir, build, staged);
      OldManifestOverNewPayload(env, dir, build);
    }
    if newManifest {
      NewManifestFits(env, dir, build, payload, staged);
    } else {
      assert ListedIn(file) == ArtifactsOf(dir, OwnForm(build)) by { ListedIsArtifacts(dir, OwnForm(build)); }
    }
  }

  lemma ListedIsArtifacts(dir: Directory, form: Form)
    ensures ListedIn(FileOf(dir, form)) == ArtifactsOf(dir, form)
  {
  }

  lemma PublishedMeansMoved(faults: Faults, inPosition: bool)
    ensures PayloadPublished(faults, inPosition) ==> !inPosition
  {
  }

  lemma AfterIsMixed(env: Environment, dir: Directory, build: Build, faults: Faults)
    ensures var staged, inPosition := Staged(env, dir, build), InPosition(env, dir, build);
            var payload := if PayloadPublished(faults, inPosition) then File(staged) else PayloadOf(dir, build.target);
            var file := if ManifestPublished(faults, inPosition) then Parsed(NewManifest(env, dir, build, staged))
                        else FileOf(dir, OwnForm(build));
            var after := AfterPublication(env, dir, build, faults);
            && SamePayloads(after, WithPayload(dir, build.target, payload))
            && forall form :: FileOf(after, form) == if form == OwnForm(build) then file else FileOf(dir, form)
  {
    hide Staged, InPosition, PayloadPublished, ManifestPublished, NewManifest;
  }

  /** Nothing was interrupted behind a rename, and the rollback was not interrupted before it took effect. */
  predicate NoBadInterrupt(faults: Faults) {
    !faults.payload.InterruptedBehind? && !faults.metadata.InterruptedBehind? && !faults.rollback.InterruptedBefore?
  }

  /** The only way to lose the old payload without an interrupt: the rollback itself failed. */
  predicate RecoveryFailed(faults: Faults, inPosition: bool) {
    RollsBack(faults, inPosition) && faults.rollback.Fails?
  }

  /**
   However the publication ends, short of a failed recovery, every manifest still describes
   its payloads, exactly unless another target's metadata refers to a replaced payload.
   */
  lemma PublicationIsSafe(env: Environment, dir: Directory, build: Build, faults: Faults)
    requires Accepted(env, dir, build) && Consistent(env, dir) && InPlaceIsTrue(dir, build)
    requires NoBadInterrupt(faults) && !RecoveryFailed(faults, InPosition(env, dir, build))
    ensures Consistent(env, AfterPublication(env, dir, build, faults)) <==>
              (PayloadPublished(faults, InPosition(env, dir, build)) ==>
                 ForeignReferencesFit(env, dir, build, Staged(env, dir, build)))
    ensures RaisedInside(faults, InPosition(env, dir, build)) ==> AfterPublication(env, dir, build, faults) == dir
  {
    hide Accepted, Staged, InPosition, Consistent, DescribesPayload, NewManifest, Refers, ForeignReferencesFit;
    ConsistentAfterPublication(env, dir, build, faults);
    StagedFits(env, dir, build);
  }

  /** The packager keeps target metadata to its own target, so its own directories have no foreign references. */
  lemma OwnTargetsAreKept(env: Environment, dir: Directory, build: Build, faults: Faults)
    requires Accepted(env, dir, build) && OwnTargetsOnly(dir)
    ensures OwnTargetsOnly(AfterPublication(env, dir, build, faults))
  {
    hide Staged, InPosition, DescribesPayload, PayloadPublished, ManifestPublished, NewManifest, Accepted;
    var after := AfterPublication(env, dir, build, faults);
    NewManifestMembers(env, dir, build, Staged(env, dir, build));
    AfterIsMixed(env, dir, build, faults);
    forall t, a | a in ArtifactsOf(after, PerTarget(t)) ensures a.target == t {
      if PerTarget(t) != OwnForm(build) {
        assert ArtifactsOf(after, PerTarget(t)) == ArtifactsOf(dir, PerTarget(t));
      }
    }
  }

  /** A payload that the other form refers to is never replaced. */
  lemma SharedPayloadIsKept(env: Environment, dir: Directory, build: Build, faults: Faults)
    requires Accepted(env, dir, build) && Refers(dir, OtherForm(build), build.target)
    ensures AfterPublication(env, dir, build, faults).payloads == dir.payloads
  {
    hide NewManifest, Staged, FormAccepted, Refers, DescribesPayload;
    assert InPosition(env, dir, build);
  }

  /**
   An interrupt between the first rename and the flag that records it leaves the old manifest over
   the new payload.
   */
  lemma InterruptBehindFirstRename(env: Environment, dir: Directory, build: Build, faults: Faults)
    requires Accepted(env, dir, build) && Consistent(env, dir) && InPlaceIsTrue(dir, build)
    requires !InPosition(env, dir, build)
    requires faults.payload.InterruptedBehind?
    ensures Consistent(env, AfterPublication(env, dir, build, faults)) <==>
              && !Refers(dir, OwnForm(build), build.target)
              && ForeignReferencesFit(env, dir, build, Staged(env, dir, build))
  {
    hide Accepted, Consistent, InPosition, AfterPublication, Refers, DescribesPayload, NewArtifact, Staged,
         ForeignReferencesFit;
    ConsistentAfterPublication(env, dir, build, faults);
  }

  /** An interrupt behind the second rename rolls the payload back under the new manifest. */
  lemma InterruptBehindSecondRename(env: Environment, dir: Directory, build: Build, faults: Faults)
    requires Accepted(env, dir, build) && Consistent(env, dir) && InPlaceIsTrue(dir, build)
    requires !InPosition(env, dir, build)
    requires faults.payload.Works? && faults.metadata.InterruptedBehind? && faults.rollback.Works?
    ensures Consistent(env, AfterPublication(env, dir, build, faults)) <==>
              DescribesPayload(env, PayloadOf(dir, build.target), NewArtifact(env, build, Staged(env, dir, build)))
    ensures Refers(dir, OwnForm(build), build.target) ==> !Consistent(env, AfterPublication(env, dir, build, faults))
  {
    hide Consistent, AfterPublication, NewManifest;
    ConsistentAfterPublication(env, dir, build, faults);
    if Refers(dir, OwnForm(build), build.target) {
      var artifacts := ArtifactsOf(dir, OwnForm(build));
      var i :| 0 <= i < |artifacts| && artifacts[i].target == build.target;
      assert artifacts[i] in artifacts && Describes(env, dir, artifacts[i]);
      assert !ReusableIn(env, dir, build, OwnForm(build));
      assert !SameBinary(env, build, artifacts[i]);
    }
  }

  // ----- A published bundle can be built upon

  lemma {:induction false} OthersDistinct(artifacts: seq<Artifact>, t: Target)
    requires DistinctTargets(artifacts)
    ensures DistinctTargets(Others(artifacts, t))
    ensures |Others(artifacts, t)| <= |artifacts|
  {
    if artifacts != [] {
      var init := artifacts[..|artifacts| - 1];
      OthersDistinct(init, t);
      OthersMembers(init, t);
      var last := artifacts[|artifacts| - 1];
      forall a | a in init ensures a.target != last.target {
        var i :| 0 <= i < |init| && init[i] == a;
        assert artifacts[i].target != artifacts[|artifacts| - 1].target;
      }
    }
  }

  lemma DistinctTargetsOfPermutation(a: seq<Artifact>, b: seq<Artifact>)
    requires DistinctTargets(a) && multiset(a) == multiset(b)
    ensures DistinctTargets(b)
  {
    Ordering.DistinctPermutation(a, b);
    forall i, j | 0 <= i < j < |b| ensures b[i].target != b[j].target {
      assert b[i] in a && b[j] in a && b[i] != b[j];
      var k, l :| 0 <= k < |a| && 0 <= l < |a| && a[k] == b[i] && a[l] == b[j];
      assert k < l || l < k;
    }
  }

  function AllTargets(): set<Target> {
    {WindowsX64, MacX64, MacArm64, LinuxX64, LinuxArm64}
  }

  function TargetsOf(artifacts: seq<Artifact>): set<Target> {
    set i | 0 <= i < |artifacts| :: artifacts[i].target
  }

  lemma {:induction false} TargetCount(artifacts: seq<Artifact>)
    requires DistinctTargets(artifacts)
    ensures |TargetsOf(artifacts)| == |artifacts|
  {
    if artifacts != [] {
      var init, last := artifacts[..|artifacts| - 1], artifacts[|artifacts| - 1];
      TargetCount(init);
      assert TargetsOf(artifacts) == TargetsOf(init) + {last.target};
      assert last.target !in TargetsOf(init);
    }
  }

  lemma FewTargets(artifacts: seq<Artifact>)
    requires DistinctTargets(artifacts) && forall a :: a in artifacts ==> Supported(a.target)
    ensures |artifacts| <= TARGET_COUNT
  {
    TargetCount(artifacts);
    Ordering.SubsetSize(TargetsOf(artifacts), AllTargets());
    assert |AllTargets()| == 5;
  }

  lemma NewManifestIsWellFormed(env: Environment, dir: Directory, build: Build, staged: Bytes)
    requires DistinctTargets(ArtifactsOf(dir, OwnForm(build)))
    requires Supported(build.target) && forall a :: a in ArtifactsOf(dir, OwnForm(build)) ==> Supported(a.target)
    ensures var artifacts := NewManifest(env, dir, build, staged).artifacts;
            DistinctTargets(artifacts) && 1 <= |artifacts| <= TARGET_COUNT
    ensures NewManifest(env, dir, build, staged).identity == build.identity
  {
    hide Ordering.Sort, Others, Ordering.StringLe, FileName, TargetName;
    var listed := ArtifactsOf(dir, OwnForm(build));
    var rest := Others(listed, build.target);
    var all := [NewArtifact(env, build, staged)] + rest;
    OthersDistinct(listed, build.target);
    OthersMembers(listed, build.target);
    assert DistinctTargets(all) by {
      assert forall i :: 0 <= i < |rest| ==> rest[i] in rest;
    }
    TargetLeIsTotalPreorder();
    Ordering.SortFacts(TargetLe, all);
    var sorted := Ordering.Sort(TargetLe, all);
    DistinctTargetsOfPermutation(all, sorted);
    Ordering.DistinctPermutation(all, sorted);
    NewManifestMembers(env, dir, build, staged);
    FewTargets(sorted);
  }

  /** After a publication both forms pass the checks of the next run for the same identity. */
  lemma PublishedBundleIsAccepted(env: Environment, dir: Directory, build: Build)
    requires Accepted(env, dir, build) && InPlaceIsTrue(dir, build)
    ensures var after := AfterPublication(env, dir, build, Faults(Works, Works, Works));
            && FormAccepted(env, after, build.identity, OwnForm(build))
            && FormAccepted(env, after, build.identity, OtherForm(build))
  {
    hide DescribesPayload, NewManifest, Staged, InPosition, Refers, Describes, ArtifactsOf;
    var after := AfterPublication(env, dir, build, Faults(Works, Works, Works));
    var staged := Staged(env, dir, build);
    AcceptedFormIsWellFormed(env, dir, build.identity, OwnForm(build));
    NewManifestIsWellFormed(env, dir, build, staged);
    var m := NewManifest(env, dir, build, staged);
    assert FileOf(after, OwnForm(build)) == Parsed(m);
    PublishedFormsAreDescribed(env, dir, build);
    if build.metadataOnly {
      NewManifestMembers(env, dir, build, staged);
      AcceptedTargets(env, dir, build.identity, OwnForm(build));
      OneTarget(m.artifacts, build.target);
    }
    ListedIsArtifacts(dir, OtherForm(build));
    assert FileOf(after, OtherForm(build)) == FileOf(dir, OtherForm(build));
  }

  lemma AcceptedTargets(env: Environment, dir: Directory, identity: Identity, form: Form)
    requires FormAccepted(env, dir, identity, form)
    ensures AllDescribed(env, dir, ArtifactsOf(dir, form))
    ensures form.PerTarget? ==> forall a :: a in ArtifactsOf(dir, form) ==> a.target == form.target
  {
    hide Describes;
  }

  lemma PublishedFormsAreDescribed(env: Environment, dir: Directory, build: Build)
    requires Accepted(env, dir, build) && InPlaceIsTrue(dir, build)
    ensures var after := AfterPublication(env, dir, build, Faults(Works, Works, Works));
            && AllDescribed(env, after, NewManifest(env, dir, build, Staged(env, dir, build)).artifacts)
            && AllDescribed(env, after, ArtifactsOf(dir, OtherForm(build)))
  {
    hide DescribesPayload, NewManifest, Staged, InPosition, Describes, ArtifactsOf, AllDescribed, FormAccepted;
    var faults, staged := Faults(Works, Works, Works), Staged(env, dir, build);
    var after := AfterPublication(env, dir, build, faults);
    StagedFits(env, dir, build);
    AcceptedTargets(env, dir, build.identity, OwnForm(build));
    AcceptedTargets(env, dir, build.identity, OtherForm(build));
    var dir1 := WithPayload(dir, build.target, File(staged));
    assert SamePayloads(after, dir1) by {
      AfterIsMixed(env, dir, build, faults);
      SamePayloadIsNoChange(dir, build.target);
    }
    NewManifestFits(env, dir, build, File(staged), staged);
    var m, others := NewManifest(env, dir, build, staged), ArtifactsOf(dir, OtherForm(build));
    DescribedIsAboutPayloads(env, after, dir1, m.artifacts);
    DescribedIsAboutPayloads(env, after, dir1, others);
    if InPosition(env, dir, build) {
      SamePayloadIsNoChange(dir, build.target);
      DescribedIsAboutPayloads(env, dir, dir1, others);
    } else {
      DescribedAfterPayload(env, dir, build.target, File(staged), others);
      forall a | a in others ensures a.target != build.target {
        var i :| 0 <= i < |others| && others[i] == a;
      }
    }
  }

  lemma AcceptedFormIsWellFormed(env: Environment, dir: Directory, identity: Identity, form: Form)
    requires FormAccepted(env, dir, identity, form)
    ensures DistinctTargets(ArtifactsOf(dir, form)) && forall a :: a in ArtifactsOf(dir, form) ==> Supported(a.target)
  {
  }

  lemma OneTarget(artifacts: seq<Artifact>, t: Target)
    requires DistinctTargets(artifacts) && forall a :: a in artifacts ==> a.target == t
    ensures |artifacts| <= 1
  {
    TargetCount(artifacts);
    Ordering.SubsetSize(TargetsOf(artifacts), {t});
  }

  // ----- A run that is not rolled back

  /** A directory with one Windows payload, and a build that replaces it. */
  ghost function ExampleEnvironment(): Environment {
    Environment((b: Bytes) => if b == [1] then "old" else "new", b => None, i => true)
  }

  ghost function ExampleDirectory(identity: Identity): Directory {
    var a := Artifact(WindowsX64, FileName(WindowsX64), 1, "old", 1, "old");
    Directory(map[WindowsX64 := File([1])], Parsed(Manifest(identity, [a])), map[])
  }

  ghost function ExampleBuild(identity: Identity): Build {
    Build(identity, WindowsX64, [2], "new", false, [], false)
  }

  /** A concrete directory that an interrupt behind the first rename leaves inconsistent. */
  lemma InterruptMayBreakTheBundle(identity: Identity)
    ensures var env, dir, build := ExampleEnvironment(), ExampleDirectory(identity), ExampleBuild(identity);
            && Accepted(env, dir, build) && Consistent(env, dir) && InPlaceIsTrue(dir, build)
            && !Consistent(env, AfterPublication(env, dir, build, Faults(InterruptedBehind, Works, Works)))
  {
    var env, dir, build := ExampleEnvironment(), ExampleDirectory(identity), ExampleBuild(identity);
    var a := Artifact(WindowsX64, FileName(WindowsX64), 1, "old", 1, "old");
    assert ArtifactsOf(dir, Bundle) == [a];
    assert ArtifactsOf(dir, Bundle)[0].target == WindowsX64;
    assert Describes(env, dir, a);
    assert !Reusable(env, dir, build);
    assert Staged(env, dir, build) == [2];
    InterruptBehindFirstRename(env, dir, build, Faults(InterruptedBehind, Works, Works));
  }

  /** The same directory with metadata of another target that also lists the Windows payload. */
  ghost function ExampleWithForeignReference(identity: Identity): Directory {
    var dir := ExampleDirectory(identity);
    dir.(bundle := Missing, metadata := map[MacX64 := dir.bundle])
  }

  /** Such a reference is not looked at, and a publication without any failure breaks it. */
  lemma ForeignReferenceMayBreak(identity: Identity)
    ensures var env, dir, build := ExampleEnvironment(), ExampleWithForeignReference(identity), ExampleBuild(identity);
            && Accepted(env, dir, build) && Consistent(env, dir) && InPlaceIsTrue(dir, build)
            && !Consistent(env, AfterPublication(env, dir, build, Faults(Works, Works, Works)))
  {
    var env, dir, build := ExampleEnvironment(), ExampleWithForeignReference(identity), ExampleBuild(identity);
    var a := Artifact(WindowsX64, FileName(WindowsX64), 1, "old", 1, "old");
    assert ArtifactsOf(dir, PerTarget(MacX64)) == [a] && a in [a];
    assert Describes(env, dir, a);
    assert ArtifactsOf(dir, Bundle) == [] && ArtifactsOf(dir, PerTarget(WindowsX64)) == [];
    assert !Reusable(env, dir, build);
    assert Staged(env, dir, build) == [2];
    assert !DescribesPayload(env, File([2]), a);
    assert !ForeignReferencesFit(env, dir, build, [2]);
    PublicationIsSafe(env, dir, build, Faults(Works, Works, Works));
  }

  // ----- The packager

  datatype Packaged = Published(manifest: Manifest) | Rejected | Raised | RecoveryFailure

  /** One artifact of an existing file, behind those already seen. */
  method CheckArtifacts(env: Environment, dir: Directory, form: Form, artifacts: seq<Artifact>) returns (ok: bool)
    ensures ok <==> ArtifactsAccepted(env, dir, form, artifacts)
  {
    hide Describes;
    var seen: set<Target> := {};
    for i := 0 to |artifacts|
      invariant forall j :: 0 <= j < i ==> Describes(env, dir, artifacts[j]) && artifacts[j].target in seen
      invariant forall t :: t in seen ==> exists j :: 0 <= j < i && artifacts[j].target == t
      invariant DistinctTargets(artifacts[..i])
      invariant form.PerTarget? ==> forall j :: 0 <= j < i ==> artifacts[j].target == form.target
    {
      var a := artifacts[i];
      if !Describes(env, dir, a) || (form.PerTarget? && a.target != form.target) {
        assert a in artifacts;
        return false;
      }
      if a.target in seen {
        return false;
      }
      seen := seen + {a.target};
    }
    assert artifacts[..|artifacts|] == artifacts;
    ok := true;
  }

  method CheckForm(env: Environment, dir: Directory, identity: Identity, form: Form) returns (ok: bool)
    ensures ok <==> FormAccepted(env, dir, identity, form)
  {
    hide ArtifactsAccepted;
    var file := FileOf(dir, form);
    if !file.Parsed? {
      return file.Missing?;
    }
    var m := file.manifest;
    if !env.validIdentity(m.identity) || m.identity != identity || !(1 <= |m.artifacts| <= TARGET_COUNT) {
      return false;
    }
    if form.PerTarget? && |m.artifacts| != 1 {
      return false;
    }
    ok := CheckArtifacts(env, dir, form, m.artifacts);
  }

  /** Whether a file's reference to the target is to this very binary. */
  method FindReusable(env: Environment, dir: Directory, build: Build, form: Form) returns (found: bool)
    ensures found <==> ReusableIn(env, dir, build, form)
  {
    var artifacts := ArtifactsOf(dir, form);
    for i := 0 to |artifacts|
      invariant forall j :: 0 <= j < i ==>
                !(artifacts[j].target == build.target && SameBinary(env, build, artifacts[j]))
    {
      if artifacts[i].target == build.target && SameBinary(env, build, artifacts[i]) {
        return true;
      }
    }
    found := false;
  }

  class OutputDirectory {
    var payloads: map<Target, PayloadFile>
    var bundle: MetadataFile
    var metadata: map<Target, MetadataFile>

    function View(): Directory
      reads this
    {
      Directory(payloads, bundle, metadata)
    }

    method Replace(form: Form, file: MetadataFile)
      modifies this
      ensures View() == WithFile(old(View()), form, file)
    {
      match form
      case Bundle => bundle := file;
      case PerTarget(t) => metadata := metadata[t := file];
    }

    /**
     Validates what is there, stages, and publishes with rollback.  A rejected or
     unprepared build leaves everything as it was.
     */
    method Package(env: Environment, build: Build, preparationFails: bool, faults: Faults) returns (r: Packaged)
      requires InPlaceIsTrue(View(), build)
      modifies this
      ensures r.Rejected? ==> !Accepted(env, old(View()), build)
      ensures !Accepted(env, old(View()), build) || preparationFails ==>
                (r.Rejected? || r.Raised?) && View() == old(View())
      ensures Accepted(env, old(View()), build) && !preparationFails ==>
                View() == AfterPublication(env, old(View()), build, faults)
      ensures r.Published? <==>
                && Accepted(env, old(View()), build) && !preparationFails
                && !RaisedInside(faults, InPosition(env, old(View()), build))
      ensures r.RecoveryFailure? <==>
                && Accepted(env, old(View()), build) && !preparationFails
                && RecoveryFailed(faults, InPosition(env, old(View()), build))
      ensures r.Published? ==> FileOf(View(), OwnForm(build)) == Parsed(r.manifest)
      ensures OwnTargetsOnly(old(View())) ==> OwnTargetsOnly(View())
      ensures Consistent(env, old(View())) && OwnTargetsOnly(old(View())) ==>
                NoBadInterrupt(faults) && !r.RecoveryFailure? ==> Consistent(env, View())
    {
      hide Consistent, FormAccepted, DescribesPayload, Refers, NewManifest, NewArtifact, BuildAccepted, OwnTargetsOnly,
           ForeignReferencesFit;
      var dir := View();
      if !BuildAccepted(env, build) {
        return Rejected;
      }
      var bundleOk := CheckForm(env, dir, build.identity, Bundle);
      var metadataOk := CheckForm(env, dir, build.identity, PerTarget(build.target));
      if !bundleOk || !metadataOk || PayloadOf(dir, build.target).Irregular? {
        return Rejected;
      }
      var inBundle := FindReusable(env, dir, build, Bundle);
      var inMetadata := FindReusable(env, dir, build, PerTarget(build.target));
      var reusable := inBundle || inMetadata;
      if !reusable && Refers(dir, OtherForm(build), build.target) {
        return Rejected;
      }
      if preparationFails {
        return Raised;
      }
      var staged := if reusable && PayloadOf(dir, build.target).File? then PayloadOf(dir, build.target).bytes
                    else if build.target.WindowsX64? then build.binary
                    else build.archive;
      if !DescribesPayload(env, File(staged), NewArtifact(env, build, staged)) {
        return Rejected;
      }
      var inPosition := reusable || (build.target.WindowsX64? && build.inPlace);
      if OwnTargetsOnly(dir) {
        OwnTargetsAreKept(env, dir, build, faults);
        OwnTargetsFit(env, dir, build, Staged(env, dir, build));
      }
      if Consistent(env, dir) && NoBadInterrupt(faults) && !RecoveryFailed(faults, inPosition) {
        PublicationIsSafe(env, dir, build, faults);
      }
      r := Publish(build, staged, NewManifest(env, dir, build, staged), inPosition, faults);
    }

    /** The two renames and the rollback, one effect after the other. */
    method Publish(build: Build, staged: Bytes, manifest: Manifest, inPosition: bool, faults: Faults)
      returns (r: Packaged)
      modifies this
      ensures View() ==
                var dir1 := if PayloadPublished(faults, inPosition)
                            then WithPayload(old(View()), build.target, File(staged)) else old(View());
                if ManifestPublished(faults, inPosition) then WithFile(dir1, OwnForm(build), Parsed(manifest)) else dir1
      ensures r.Published? <==> !RaisedInside(faults, inPosition)
      ensures r.Published? ==> r.manifest == manifest
      ensures r.RecoveryFailure? <==> RecoveryFailed(faults, inPosition)
      ensures !r.Rejected?
    {
      var backup := payloads;
      var published := false;
      var raised := false;
      if !inPosition {
        if TakesEffect(faults.payload) {
          payloads := payloads[build.target := File(staged)];
        }
        raised := !faults.payload.Works?;
        published := !raised;
      }
      if !raised {
        if TakesEffect(faults.metadata) {
          Replace(OwnForm(build), Parsed(manifest));
        }
        raised := !faults.metadata.Works?;
      }
      if !raised {
        return Published(manifest);
      }
      if published {
        if TakesEffect(faults.rollback) {
          if build.target in backup {
            payloads := payloads[build.target := backup[build.target]];
          } else {
            payloads := payloads - {build.target};
          }
        }
        if faults.rollback.Fails? {
          return RecoveryFailure;
        }
      }
      return Raised;
    }
  }
}
