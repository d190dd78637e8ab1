/**
 * The checkpoint builder (patcher/versions_parser.go): turns the resolved versions into
 * one changeset each, checked out from the first version's ref.
 */
module VersionsParser {
  import opened Wrappers
  import opened Errors
  import opened PatchSet

  /** What one resolved version asks the apply engine to do. */
  datatype Changeset = Changeset(
    patches: seq<string>,
    bumps: map<string, string>,
    submodulePatches: map<string, seq<string>>,
    submoduleAdditions: map<string, SubmoduleAddition>,
    submoduleRemovals: seq<string>)

  datatype Checkpoint = Checkpoint(
    changes: seq<Changeset>,
    checkoutRef: string,
    finalBranch: string,
    resultingVersion: string)

  /** The changeset a version contributes: its patches and submodule changes, field by field. */
  function ChangesetOf(v: Version): Changeset {
    Changeset(v.patches, v.submoduleBumps, v.submodulePatches, v.submoduleAdditions, v.submoduleRemovals)
  }

  /**
   * GetCheckpoint. The resolver is a collaborator: its answer for the version is the
   * parameter resolved.
   */
  method GetCheckpoint(version: string, resolved: Result<seq<Version>, Error>) returns (r: Result<Checkpoint, Error>)
    ensures resolved.Failure? ==> r == Failure(resolved.error)
    ensures resolved.Success? && |resolved.value| == 0 ==> r == Failure(MissingStartingVersion(version))
    ensures resolved.Success? && |resolved.value| > 0 ==> r.Success?
    ensures r.Success? ==>
      var vs := resolved.value;
      && |r.value.changes| == |vs|
      && (forall i :: 0 <= i < |vs| ==>
           && r.value.changes[i].patches == vs[i].patches
           && r.value.changes[i].bumps == vs[i].submoduleBumps
           && r.value.changes[i].submodulePatches == vs[i].submodulePatches
           && r.value.changes[i].submoduleAdditions == vs[i].submoduleAdditions
           && r.value.changes[i].submoduleRemovals == vs[i].submoduleRemovals)
      && r.value.checkoutRef == vs[0].ref
      && r.value.finalBranch == version
      && r.value.resultingVersion == vs[0].ref + "-" + version
  {
    if resolved.Failure? {
      return Failure(resolved.error);
    }
    var versionsToApply := resolved.value;
    if |versionsToApply| == 0 {
      return Failure(MissingStartingVersion(version));
    }
    var changes: seq<Changeset> := [];
    for i := 0 to |versionsToApply|
      invariant |changes| == i
      invariant forall j :: 0 <= j < i ==> changes[j] == ChangesetOf(versionsToApply[j])
    {
      var v := versionsToApply[i];
      changes := changes + [Changeset(v.patches, v.submoduleBumps, v.submodulePatches, v.submoduleAdditions, v.submoduleRemovals)];
    }
    var first := versionsToApply[0].ref;
    r := Success(Checkpoint(changes, first, version, first + "-" + version));
  }
}
