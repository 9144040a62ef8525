/**
 What a publication leaves in the output directory (scripts/package-release.py), field by
 field, and which existing releases the packager refuses to build upon.
 */
module ReleaseContents {
  import opened Options
  import opened Release
  import Ordering

  /** The bytes that are published: those already there for the same binary, else the binary or its archive. */
  ghost predicate IsPublishedPayload(env: Environment, dir: Directory, build: Build, bytes: Bytes) {
    if Reusable(env, dir, build) then PayloadOf(dir, build.target) == File(bytes)
    else if build.target == WindowsX64 then bytes == build.binary
    else bytes == build.archive
  }

  /** The artifact tells size and hash of the payload and of the binary inside. */
  predicate TellsOf(env: Environment, a: Artifact, build: Build, bytes: Bytes) {
    && a.target == build.target && a.file == FileName(build.target)
    && a.size == |bytes| && a.sha256 == env.hash(bytes)
    && a.binarySize == |build.binary| && a.binarySha256 == env.hash(build.binary)
  }

  /** By target name. */
  ghost predicate InOrder(artifacts: seq<Artifact>) {
    forall i, j :: 0 <= i < j < |artifacts| ==>
                     Ordering.Lexicographic(TargetName(artifacts[i].target), TargetName(artifacts[j].target))
  }

  lemma ManifestInOrder(env: Environment, dir: Directory, build: Build, staged: Bytes)
    ensures InOrder(NewManifest(env, dir, build, staged).artifacts)
  {
    hide Ordering.Sort, Ordering.StringLe, TargetName, Others, Ordering.Lexicographic, NewArtifact;
    var all := [NewArtifact(env, build, staged)] + Others(ArtifactsOf(dir, OwnForm(build)), build.target);
    var artifacts := NewManifest(env, dir, build, staged).artifacts;
    TargetLeIsTotalPreorder();
    Ordering.SortFacts(TargetLe, all);
    forall i, j | 0 <= i < j < |artifacts|
      ensures Ordering.Lexicographic(TargetName(artifacts[i].target), TargetName(artifacts[j].target))
    {
      assert TargetLe(artifacts[i], artifacts[j]);
      Ordering.StringLeIsLexicographic(TargetName(artifacts[i].target), TargetName(artifacts[j].target));
    }
  }

  lemma StagedIsPublished(env: Environment, dir: Directory, build: Build)
    requires Accepted(env, dir, build) && InPlaceIsTrue(dir, build)
    ensures
      var staged := Staged(env, dir, build);
      && IsPublishedPayload(env, dir, build, staged)
      && PayloadOf(AfterPublication(env, dir, build, Faults(Works, Works, Works)), build.target) == File(staged)
  {
    hide DescribesPayload, NewManifest, FormAccepted, Reusable, Refers;
    StagedFits(env, dir, build);
    AfterIsMixed(env, dir, build, Faults(Works, Works, Works));
  }

  /** The bundle, or the metadata of the target alone. */
  function FormOf(build: Build): Form {
    if build.metadataOnly then PerTarget(build.target) else Bundle
  }

  ghost predicate Publishes(env: Environment, dir: Directory, build: Build, bytes: Bytes, m: Manifest) {
    && m.identity == build.identity
    && (exists a :: a in m.artifacts && TellsOf(env, a, build, bytes))
    && (forall a :: a in m.artifacts ==> a.target != build.target || TellsOf(env, a, build, bytes))
    && (forall a: Artifact :: a.target != build.target ==>
                                (a in m.artifacts <==> a in ArtifactsOf(dir, FormOf(build))))
    && InOrder(m.artifacts)
  }

  lemma NewManifestPublishes(env: Environment, dir: Directory, build: Build, staged: Bytes)
    ensures Publishes(env, dir, build, staged, NewManifest(env, dir, build, staged))
  {
    hide InOrder, FileName, ArtifactsOf;
    var m := NewManifest(env, dir, build, staged);
    NewManifestMembers(env, dir, build, staged);
    ManifestInOrder(env, dir, build, staged);
    assert m.identity == build.identity;
    hide NewManifest;
    var a := NewArtifact(env, build, staged);
    assert a in m.artifacts && TellsOf(env, a, build, staged);
  }

  /**
   An undisturbed publication: the payload of the build is in place, the own metadata tells
   its sizes and hashes beside the other targets' artifacts, and nothing else has changed.
   */
  lemma PublishedContents(env: Environment, dir: Directory, build: Build)
    requires Accepted(env, dir, build) && InPlaceIsTrue(dir, build)
    ensures
      var after := AfterPublication(env, dir, build, Faults(Works, Works, Works));
      && (exists bytes :: && PayloadOf(after, build.target) == File(bytes)
                          && IsPublishedPayload(env, dir, build, bytes)
                          && FileOf(after, FormOf(build)).Parsed?
                          && Publishes(env, dir, build, bytes, FileOf(after, FormOf(build)).manifest))
      && (forall t :: t != build.target ==> PayloadOf(after, t) == PayloadOf(dir, t))
      && (forall form :: form != FormOf(build) ==> FileOf(after, form) == FileOf(dir, form))
  {
    hide Accepted, InPlaceIsTrue, Staged, InPosition, NewManifest, IsPublishedPayload, Publishes;
    var after, staged := AfterPublication(env, dir, build, Faults(Works, Works, Works)), Staged(env, dir, build);
    StagedIsPublished(env, dir, build);
    AfterIsMixed(env, dir, build, Faults(Works, Works, Works));
    NewManifestPublishes(env, dir, build, staged);
    assert Publishes(env, dir, build, staged, FileOf(after, OwnForm(build)).manifest);
  }

  // ----- What is refused

  /** The file that the artifact names is there with the size and hash it tells, and so is the binary inside. */
  ghost predicate IsTrue(env: Environment, dir: Directory, a: Artifact) {
    && a.target in dir.payloads && dir.payloads[a.target].File?
    && var bytes := dir.payloads[a.target].bytes;
    && a.file == FileName(a.target) && !a.target.Unsupported?
    && a.size == |bytes| && 0 < |bytes| <= 134217728 && a.sha256 == env.hash(bytes)
    && var binary := if a.target == WindowsX64 then Some(bytes) else env.unpack(bytes);
    && binary.Some? && a.binarySize == |binary.value| && 0 < |binary.value| <= 134217728
    && a.binarySha256 == env.hash(binary.value)
  }

  lemma DescribesIsTrue(env: Environment, dir: Directory, a: Artifact)
    ensures Describes(env, dir, a) <==> IsTrue(env, dir, a)
  {
    hide FileName;
  }

  /** Metadata of the bundle or of the target that is not true of its payloads, or of another release. */
  ghost predicate Spoiled(env: Environment, dir: Directory, build: Build, form: Form) {
    || FileOf(dir, form).NotOrdinary? || FileOf(dir, form).Malformed?
    || (FileOf(dir, form).Parsed? && FileOf(dir, form).manifest.identity != build.identity)
    || (exists a :: a in ArtifactsOf(dir, form) && !IsTrue(env, dir, a))
  }

  /** The packager refuses a directory with spoiled metadata, and leaves it as it is. */
  lemma SpoiledReleaseIsRefused(env: Environment, dir: Directory, build: Build)
    requires Spoiled(env, dir, build, Bundle) || Spoiled(env, dir, build, PerTarget(build.target))
    ensures !Accepted(env, dir, build)
  {
    hide Describes, IsTrue, Staged, Refers, Reusable, BuildAccepted;
    var form := if Spoiled(env, dir, build, Bundle) then Bundle else PerTarget(build.target);
    if a :| a in ArtifactsOf(dir, form) && !IsTrue(env, dir, a) {
      DescribesIsTrue(env, dir, a);
    }
  }

  /** A binary that is not what it was said to be, that is too large or empty, or of an unknown kind. */
  ghost predicate WrongBuild(env: Environment, build: Build) {
    || build.binary == [] || |build.binary| > 134217728
    || env.hash(build.binary) != build.claimedHash
    || !env.validIdentity(build.identity) || build.target.Unsupported?
  }

  /** The other form of metadata tells of this target, and nothing tells of this very binary. */
  ghost predicate TakenByOther(env: Environment, dir: Directory, build: Build) {
    && (exists a :: a in ArtifactsOf(dir, if build.metadataOnly then Bundle else PerTarget(build.target))
                    && a.target == build.target)
    && (forall form, a :: (form == Bundle || form == PerTarget(build.target)) && a in ArtifactsOf(dir, form)
                          && a.target == build.target ==>
                            a.binarySize != |build.binary| || a.binarySha256 != env.hash(build.binary))
  }

  /** Such builds are refused, and so is one whose payload would replace something that is no file. */
  lemma WrongBuildIsRefused(env: Environment, dir: Directory, build: Build)
    requires WrongBuild(env, build) || TakenByOther(env, dir, build) || PayloadOf(dir, build.target).Irregular?
    ensures !Accepted(env, dir, build)
  {
    hide FormAccepted, Staged, DescribesPayload, ArtifactsOf;
    if TakenByOther(env, dir, build) {
      var artifacts := ArtifactsOf(dir, OtherForm(build));
      var a :| a in artifacts && a.target == build.target;
      var i :| 0 <= i < |artifacts| && artifacts[i] == a;
      assert Refers(dir, OtherForm(build), build.target);
      assert !ReusableIn(env, dir, build, Bundle) && !ReusableIn(env, dir, build, PerTarget(build.target));
    }
  }
}
