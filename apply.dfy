/**
 * The apply engine (patcher/apply.go): a fail-fast sequence of calls against the
 * `repository` interface. The repository is modelled as an object that records every
 * call it receives and answers the n-th call with a scripted outcome.
 */
module Apply {
  import opened Wrappers
  import opened Errors
  import opened Ordering
  import opened PatchSet
  import opened VersionsParser
  import opened FailFast

  /** One call on the repository interface, with its arguments. */
  datatype Call =
    | ConfigureCommitter
    | Checkout(ref: string)
    | CheckoutBranch(name: string)
    | ApplyPatch(patch: string)
    | AddSubmodule(path: string, url: string, addRef: string, branch: string)
    | RemoveSubmodule(path: string)
    | BumpSubmodule(path: string, sha: string)
    | PatchSubmodule(path: string, patchFile: string)

  /** A repository that records its calls; the n-th call returns script[n] (success past the end). */
  class Repository {
    const script: seq<Option<Error>>
    var calls: seq<Call>

    constructor(script: seq<Option<Error>>)
      ensures this.script == script && calls == []
    {
      this.script := script;
      calls := [];
    }

    /** A failing ConfigureCommitter ends the checkpoint before anything else is issued. */
    lemma CommitterFailureStops(log: seq<Call>, cp: Checkpoint, changes: seq<Call>)
      requires Outcome(script, |log|).Some?
      ensures Run(script, log, Prelude(cp) + changes) == (log + [Call.ConfigureCommitter], Outcome(script, |log|))
    {
      assert (Prelude(cp) + changes)[..1] == [Call.ConfigureCommitter];
      RunFirstError(script, log, Prelude(cp) + changes, 0);
    }

    /** A failing Checkout ends the checkpoint before the branch is created. */
    lemma CheckoutFailureStops(log: seq<Call>, cp: Checkpoint, changes: seq<Call>)
      requires Outcome(script, |log|).None? && Outcome(script, |log| + 1).Some?
      ensures Run(script, log, Prelude(cp) + changes) ==
        (log + [Call.ConfigureCommitter, Call.Checkout(cp.checkoutRef)], Outcome(script, |log| + 1))
    {
      assert (Prelude(cp) + changes)[..2] == [Call.ConfigureCommitter, Call.Checkout(cp.checkoutRef)];
      RunFirstError(script, log, Prelude(cp) + changes, 1);
    }

    method ConfigureCommitter() returns (err: Option<Error>)
      modifies this
      ensures calls == old(calls) + [Call.ConfigureCommitter] && err == Outcome(script, |old(calls)|)
    {
      err := Outcome(script, |calls|);
      calls := calls + [Call.ConfigureCommitter];
    }

    method Checkout(ref: string) returns (err: Option<Error>)
      modifies this
      ensures calls == old(calls) + [Call.Checkout(ref)] && err == Outcome(script, |old(calls)|)
    {
      err := Outcome(script, |calls|);
      calls := calls + [Call.Checkout(ref)];
    }

    method CheckoutBranch(name: string) returns (err: Option<Error>)
      modifies this
      ensures calls == old(calls) + [Call.CheckoutBranch(name)] && err == Outcome(script, |old(calls)|)
    {
      err := Outcome(script, |calls|);
      calls := calls + [Call.CheckoutBranch(name)];
    }

    method ApplyPatch(patch: string) returns (err: Option<Error>)
      modifies this
      ensures calls == old(calls) + [Call.ApplyPatch(patch)] && err == Outcome(script, |old(calls)|)
    {
      err := Outcome(script, |calls|);
      calls := calls + [Call.ApplyPatch(patch)];
    }

    method AddSubmodule(path: string, url: string, ref: string, branch: string) returns (err: Option<Error>)
      modifies this
      ensures calls == old(calls) + [Call.AddSubmodule(path, url, ref, branch)] && err == Outcome(script, |old(calls)|)
    {
      err := Outcome(script, |calls|);
      calls := calls + [Call.AddSubmodule(path, url, ref, branch)];
    }

    method RemoveSubmodule(path: string) returns (err: Option<Error>)
      modifies this
      ensures calls == old(calls) + [Call.RemoveSubmodule(path)] && err == Outcome(script, |old(calls)|)
    {
      err := Outcome(script, |calls|);
      calls := calls + [Call.RemoveSubmodule(path)];
    }

    method BumpSubmodule(path: string, sha: string) returns (err: Option<Error>)
      modifies this
      ensures calls == old(calls) + [Call.BumpSubmodule(path, sha)] && err == Outcome(script, |old(calls)|)
    {
      err := Outcome(script, |calls|);
      calls := calls + [Call.BumpSubmodule(path, sha)];
    }

    method PatchSubmodule(path: string, patch: string) returns (err: Option<Error>)
      modifies this
      ensures calls == old(calls) + [Call.PatchSubmodule(path, patch)] && err == Outcome(script, |old(calls)|)
    {
      err := Outcome(script, |calls|);
      calls := calls + [Call.PatchSubmodule(path, patch)];
    }
  }

  // ---------------------------------------------------------------------------
  // The plan: the calls a checkpoint asks for, in order

  function PatchCalls(patches: seq<string>): (calls: seq<Call>)
    ensures |calls| == |patches| && forall i :: 0 <= i < |patches| ==> calls[i] == ApplyPatch(patches[i])
  {
    seq(|patches|, i requires 0 <= i < |patches| => ApplyPatch(patches[i]))
  }

  function AdditionCalls(order: seq<string>, additions: map<string, SubmoduleAddition>): (calls: seq<Call>)
    requires forall p :: p in order ==> p in additions
    ensures |calls| == |order|
    ensures forall i :: 0 <= i < |order| ==>
      var a := additions[order[i]];
      calls[i] == AddSubmodule(order[i], a.url, a.ref, a.branch)
  {
    seq(|order|, i requires 0 <= i < |order| =>
      AddSubmodule(order[i], additions[order[i]].url, additions[order[i]].ref, additions[order[i]].branch))
  }

  function RemovalCalls(paths: seq<string>): (calls: seq<Call>)
    ensures |calls| == |paths| && forall i :: 0 <= i < |paths| ==> calls[i] == RemoveSubmodule(paths[i])
  {
    seq(|paths|, i requires 0 <= i < |paths| => RemoveSubmodule(paths[i]))
  }

  function BumpCalls(paths: seq<string>, bumps: map<string, string>): (calls: seq<Call>)
    requires forall p :: p in paths ==> p in bumps
    ensures |calls| == |paths| && forall i :: 0 <= i < |paths| ==> calls[i] == BumpSubmodule(paths[i], bumps[paths[i]])
  {
    seq(|paths|, i requires 0 <= i < |paths| => BumpSubmodule(paths[i], bumps[paths[i]]))
  }

  function PathPatchCalls(path: string, patches: seq<string>): (calls: seq<Call>)
    ensures |calls| == |patches| && forall i :: 0 <= i < |patches| ==> calls[i] == PatchSubmodule(path, patches[i])
  {
    seq(|patches|, i requires 0 <= i < |patches| => PatchSubmodule(path, patches[i]))
  }

  /** For each path in order, its patches in listed order. */
  function SubmodulePatchCalls(paths: seq<string>, patches: map<string, seq<string>>): (calls: seq<Call>)
    requires forall p :: p in paths ==> p in patches
    ensures forall i :: 0 <= i < |calls| ==> calls[i].PatchSubmodule? && calls[i].path in paths
    decreases |paths|
  {
    if |paths| == 0 then []
    else PathPatchCalls(paths[0], patches[paths[0]]) + SubmodulePatchCalls(paths[1..], patches)
  }

  lemma AdditionCallsTail(paths: seq<string>, i: nat, additions: map<string, SubmoduleAddition>)
    requires i < |paths| && forall p :: p in paths ==> p in additions
    ensures
      var a := additions[paths[i]];
      AdditionCalls(paths[i..], additions) ==
        [AddSubmodule(paths[i], a.url, a.ref, a.branch)] + AdditionCalls(paths[i + 1..], additions)
  {
  }

  lemma BumpCallsTail(paths: seq<string>, i: nat, bumps: map<string, string>)
    requires i < |paths| && forall p :: p in paths ==> p in bumps
    ensures BumpCalls(paths[i..], bumps) == [BumpSubmodule(paths[i], bumps[paths[i]])] + BumpCalls(paths[i + 1..], bumps)
  {
  }

  lemma SubmodulePatchCallsTail(paths: seq<string>, i: nat, patches: map<string, seq<string>>)
    requires i < |paths| && forall p :: p in paths ==> p in patches
    ensures SubmodulePatchCalls(paths[i..], patches) ==
      PathPatchCalls(paths[i], patches[paths[i]]) + SubmodulePatchCalls(paths[i + 1..], patches)
  {
    assert paths[i..][0] == paths[i] && paths[i..][1..] == paths[i + 1..];
  }

  lemma PathPatchCallsTail(path: string, patches: seq<string>, j: nat)
    requires j < |patches|
    ensures PathPatchCalls(path, patches[j..]) == [PatchSubmodule(path, patches[j])] + PathPatchCalls(path, patches[j + 1..])
  {
  }

  /**
   * The calls for one changeset: patches, then additions (in the order the map was
   * ranged over), removals in listed order, bumps by ascending path, and submodule
   * patches by ascending path.
   */
  ghost function ChangesetPlan(c: Changeset, order: seq<string>): seq<Call>
    requires Enumerates(order, c.submoduleAdditions.Keys)
  {
    PatchCalls(c.patches) +
    (AdditionCalls(order, c.submoduleAdditions) +
    (RemovalCalls(c.submoduleRemovals) +
    (BumpCalls(SortedSeq(c.bumps.Keys), c.bumps) +
     SubmodulePatchCalls(SortedSeq(c.submodulePatches.Keys), c.submodulePatches))))
  }

  /** orders[i] is an order over the additions of changes[i]. */
  ghost predicate AdditionOrders(changes: seq<Changeset>, orders: seq<seq<string>>) {
    |orders| == |changes| &&
    forall i :: 0 <= i < |changes| ==> Enumerates(orders[i], changes[i].submoduleAdditions.Keys)
  }

  ghost function ChangesetsPlan(changes: seq<Changeset>, orders: seq<seq<string>>): seq<Call>
    requires AdditionOrders(changes, orders)
    decreases |changes|
  {
    if |changes| == 0 then []
    else ChangesetPlan(changes[0], orders[0]) + ChangesetsPlan(changes[1..], orders[1..])
  }

  function Prelude(cp: Checkpoint): seq<Call> {
    [ConfigureCommitter, Checkout(cp.checkoutRef), CheckoutBranch(cp.finalBranch)]
  }

  ghost function PlanFor(cp: Checkpoint, orders: seq<seq<string>>): seq<Call>
    requires AdditionOrders(cp.changes, orders)
  {
    Prelude(cp) + ChangesetsPlan(cp.changes, orders)
  }

  /** Ascending addition orders, for changesets that are never reached. */
  ghost function DefaultOrders(changes: seq<Changeset>): (orders: seq<seq<string>>)
    ensures AdditionOrders(changes, orders)
  {
    seq(|changes|, i requires 0 <= i < |changes| => SortedSeq(changes[i].submoduleAdditions.Keys))
  }

  lemma PlanExtend(changes: seq<Changeset>, i: nat, done: seq<seq<string>>, order: seq<string>)
    requires i < |changes| && AdditionOrders(changes[..i], done)
    requires Enumerates(order, changes[i].submoduleAdditions.Keys)
    ensures AdditionOrders(changes[..i + 1], done + [order])
    ensures ChangesetsPlan(changes[..i + 1], done + [order]) ==
      ChangesetsPlan(changes[..i], done) + ChangesetPlan(changes[i], order)
  {
    assert changes[..i + 1] == changes[..i] + [changes[i]];
    assert ChangesetsPlan([changes[i]], [order]) == ChangesetPlan(changes[i], order) by {
      assert [changes[i]][1..] == [] && [order][1..] == [];
    }
    ChangesetsPlanAppend(changes[..i], [changes[i]], done, [order]);
  }

  lemma PlanCompletes(changes: seq<Changeset>, i: nat, done: seq<seq<string>>)
    requires i < |changes| && AdditionOrders(changes[..i + 1], done)
    ensures AdditionOrders(changes, done + DefaultOrders(changes[i + 1..]))
    ensures ChangesetsPlan(changes, done + DefaultOrders(changes[i + 1..])) ==
      ChangesetsPlan(changes[..i + 1], done) + ChangesetsPlan(changes[i + 1..], DefaultOrders(changes[i + 1..]))
  {
    assert changes == changes[..i + 1] + changes[i + 1..];
    ChangesetsPlanAppend(changes[..i + 1], changes[i + 1..], done, DefaultOrders(changes[i + 1..]));
  }

  lemma {:induction false} ChangesetsPlanAppend(a: seq<Changeset>, b: seq<Changeset>, oa: seq<seq<string>>, ob: seq<seq<string>>)
    requires AdditionOrders(a, oa) && AdditionOrders(b, ob)
    ensures AdditionOrders(a + b, oa + ob)
    ensures ChangesetsPlan(a + b, oa + ob) == ChangesetsPlan(a, oa) + ChangesetsPlan(b, ob)
    decreases |a|
  {
    if |a| > 0 {
      assert (a + b)[1..] == a[1..] + b && (oa + ob)[1..] == oa[1..] + ob;
      ChangesetsPlanAppend(a[1..], b, oa[1..], ob);
    } else {
      assert a + b == b && oa + ob == ob;
    }
  }

  // ---------------------------------------------------------------------------
  // The shape of a plan

  /** Which step of Checkpoint issues a call. */
  function Phase(c: Call): nat {
    match c
    case ConfigureCommitter => 0
    case Checkout(_) => 0
    case CheckoutBranch(_) => 0
    case ApplyPatch(_) => 1
    case AddSubmodule(_, _, _, _) => 2
    case RemoveSubmodule(_) => 3
    case BumpSubmodule(_, _) => 4
    case PatchSubmodule(_, _) => 5
  }

  /** The calls of one phase, in the order they were issued. */
  function OfPhase(calls: seq<Call>, k: nat): (r: seq<Call>)
    ensures |r| <= |calls|
    ensures forall i :: 0 <= i < |r| ==> Phase(r[i]) == k
  {
    if |calls| == 0 then []
    else (if Phase(calls[0]) == k then [calls[0]] else []) + OfPhase(calls[1..], k)
  }

  lemma {:induction false} OfPhaseAppend(a: seq<Call>, b: seq<Call>, k: nat)
    ensures OfPhase(a + b, k) == OfPhase(a, k) + OfPhase(b, k)
    decreases |a|
  {
    if |a| > 0 {
      assert (a + b)[0] == a[0] && (a + b)[1..] == a[1..] + b;
      OfPhaseAppend(a[1..], b, k);
    } else {
      assert a + b == b;
    }
  }

  lemma {:induction false} OfPhaseUniform(calls: seq<Call>, k: nat, j: nat)
    requires Uniform(calls, k)
    ensures OfPhase(calls, j) == if j == k then calls else []
    decreases |calls|
  {
    if |calls| > 0 {
      OfPhaseUniform(calls[1..], k, j);
      assert calls == [calls[0]] + calls[1..];
    }
  }

  /** Phases never go back: a prefix of the calls belongs to an earlier or the same step. */
  predicate PhasesAscend(calls: seq<Call>) {
    forall i, j :: 0 <= i < j < |calls| ==> Phase(calls[i]) <= Phase(calls[j])
  }

  lemma PhasesAscendAppend(a: seq<Call>, b: seq<Call>, k: nat)
    requires PhasesAscend(a) && PhasesAscend(b)
    requires forall i :: 0 <= i < |a| ==> Phase(a[i]) <= k
    requires forall i :: 0 <= i < |b| ==> k <= Phase(b[i])
    ensures PhasesAscend(a + b)
  {
    forall i, j | 0 <= i < j < |a + b| ensures Phase((a + b)[i]) <= Phase((a + b)[j]) {
      if j < |a| {
        assert (a + b)[i] == a[i] && (a + b)[j] == a[j];
      } else if i >= |a| {
        assert (a + b)[i] == b[i - |a|] && (a + b)[j] == b[j - |a|];
      } else {
        assert (a + b)[i] == a[i] && (a + b)[j] == b[j - |a|];
      }
    }
  }

  /** Every call belongs to phase k. */
  predicate Uniform(calls: seq<Call>, k: nat) {
    forall i :: 0 <= i < |calls| ==> Phase(calls[i]) == k
  }

  lemma UniformAscends(calls: seq<Call>, k: nat)
    requires Uniform(calls, k)
    ensures PhasesAscend(calls)
  {
  }

  /** The five parts of a changeset's plan, each of its own phase. */
  lemma ChangesetPartsUniform(c: Changeset, order: seq<string>)
    requires Enumerates(order, c.submoduleAdditions.Keys)
    ensures Uniform(PatchCalls(c.patches), 1)
    ensures Uniform(AdditionCalls(order, c.submoduleAdditions), 2)
    ensures Uniform(RemovalCalls(c.submoduleRemovals), 3)
    ensures Uniform(BumpCalls(SortedSeq(c.bumps.Keys), c.bumps), 4)
    ensures Uniform(SubmodulePatchCalls(SortedSeq(c.submodulePatches.Keys), c.submodulePatches), 5)
  {
  }

  lemma FivePartsAscend(p1: seq<Call>, p2: seq<Call>, p3: seq<Call>, p4: seq<Call>, p5: seq<Call>)
    requires Uniform(p1, 1) && Uniform(p2, 2) && Uniform(p3, 3) && Uniform(p4, 4) && Uniform(p5, 5)
    ensures PhasesAscend(p1 + (p2 + (p3 + (p4 + p5))))
  {
    UniformAscends(p1, 1);
    UniformAscends(p2, 2);
    UniformAscends(p3, 3);
    UniformAscends(p4, 4);
    UniformAscends(p5, 5);
    PhasesAscendAppend(p4, p5, 4);
    PhasesAscendAppend(p3, p4 + p5, 3);
    PhasesAscendAppend(p2, p3 + (p4 + p5), 2);
    PhasesAscendAppend(p1, p2 + (p3 + (p4 + p5)), 1);
  }

  lemma FivePartsPhases(p1: seq<Call>, p2: seq<Call>, p3: seq<Call>, p4: seq<Call>, p5: seq<Call>, k: nat)
    requires Uniform(p1, 1) && Uniform(p2, 2) && Uniform(p3, 3) && Uniform(p4, 4) && Uniform(p5, 5)
    ensures OfPhase(p1 + (p2 + (p3 + (p4 + p5))), k) ==
      if k == 1 then p1 else if k == 2 then p2 else if k == 3 then p3 else if k == 4 then p4
      else if k == 5 then p5 else []
  {
    OfPhaseAppend(p1, p2 + (p3 + (p4 + p5)), k);
    OfPhaseAppend(p2, p3 + (p4 + p5), k);
    OfPhaseAppend(p3, p4 + p5, k);
    OfPhaseAppend(p4, p5, k);
    OfPhaseUniform(p1, 1, k);
    OfPhaseUniform(p2, 2, k);
    OfPhaseUniform(p3, 3, k);
    OfPhaseUniform(p4, 4, k);
    OfPhaseUniform(p5, 5, k);
  }

  /**
   * Within one changeset the steps run in a fixed order: patches, additions, removals,
   * bumps, submodule patches.
   */
  lemma ChangesetPhasesAscend(c: Changeset, order: seq<string>)
    requires Enumerates(order, c.submoduleAdditions.Keys)
    ensures PhasesAscend(ChangesetPlan(c, order))
  {
    ChangesetPartsUniform(c, order);
    FivePartsAscend(PatchCalls(c.patches), AdditionCalls(order, c.submoduleAdditions),
      RemovalCalls(c.submoduleRemovals), BumpCalls(SortedSeq(c.bumps.Keys), c.bumps),
      SubmodulePatchCalls(SortedSeq(c.submodulePatches.Keys), c.submodulePatches));
  }

  /**
   * Each step of a changeset issues exactly its field: the patches in listed order,
   * one addition per key, the removals in listed order, the bumps by ascending path,
   * and the submodule patches by ascending path.
   */
  lemma ChangesetPhases(c: Changeset, order: seq<string>, k: nat)
    requires Enumerates(order, c.submoduleAdditions.Keys)
    ensures OfPhase(ChangesetPlan(c, order), k) ==
      if k == 1 then PatchCalls(c.patches)
      else if k == 2 then AdditionCalls(order, c.submoduleAdditions)
      else if k == 3 then RemovalCalls(c.submoduleRemovals)
      else if k == 4 then BumpCalls(SortedSeq(c.bumps.Keys), c.bumps)
      else if k == 5 then SubmodulePatchCalls(SortedSeq(c.submodulePatches.Keys), c.submodulePatches)
      else []
  {
    ChangesetPartsUniform(c, order);
    FivePartsPhases(PatchCalls(c.patches), AdditionCalls(order, c.submoduleAdditions),
      RemovalCalls(c.submoduleRemovals), BumpCalls(SortedSeq(c.bumps.Keys), c.bumps),
      SubmodulePatchCalls(SortedSeq(c.submodulePatches.Keys), c.submodulePatches), k);
  }

  /** Every patch of every changeset, changeset by changeset. */
  function AllPatches(changes: seq<Changeset>): (patches: seq<string>)
    ensures forall p :: p in patches <==> exists i :: 0 <= i < |changes| && p in changes[i].patches
    decreases |changes|
  {
    if |changes| == 0 then []
    else
      var rest := AllPatches(changes[1..]);
      assert forall i :: 0 < i < |changes| ==> changes[i] == changes[1..][i - 1];
      changes[0].patches + rest
  }

  lemma PatchCallsAppend(a: seq<string>, b: seq<string>)
    ensures PatchCalls(a + b) == PatchCalls(a) + PatchCalls(b)
  {
  }

  /** Over a whole checkpoint, the patches applied to the repository are all patches, in order. */
  lemma {:induction false} ChangesetsPatches(changes: seq<Changeset>, orders: seq<seq<string>>)
    requires AdditionOrders(changes, orders)
    ensures OfPhase(ChangesetsPlan(changes, orders), 1) == PatchCalls(AllPatches(changes))
    decreases |changes|
  {
    if |changes| > 0 {
      ChangesetsPatches(changes[1..], orders[1..]);
      ChangesetPhases(changes[0], orders[0], 1);
      OfPhaseAppend(ChangesetPlan(changes[0], orders[0]), ChangesetsPlan(changes[1..], orders[1..]), 1);
      PatchCallsAppend(changes[0].patches, AllPatches(changes[1..]));
    }
  }

  lemma CheckpointPatches(cp: Checkpoint, orders: seq<seq<string>>)
    requires AdditionOrders(cp.changes, orders)
    ensures OfPhase(PlanFor(cp, orders), 1) == PatchCalls(AllPatches(cp.changes))
    ensures OfPhase(PlanFor(cp, orders), 0) == Prelude(cp)
  {
    OfPhaseAppend(Prelude(cp), ChangesetsPlan(cp.changes, orders), 1);
    OfPhaseAppend(Prelude(cp), ChangesetsPlan(cp.changes, orders), 0);
    OfPhaseUniform(Prelude(cp), 0, 1);
    OfPhaseUniform(Prelude(cp), 0, 0);
    ChangesetsPatches(cp.changes, orders);
    ChangesetsPhaseZero(cp.changes, orders);
  }

  lemma {:induction false} ChangesetsPhaseZero(changes: seq<Changeset>, orders: seq<seq<string>>)
    requires AdditionOrders(changes, orders)
    ensures OfPhase(ChangesetsPlan(changes, orders), 0) == []
    decreases |changes|
  {
    if |changes| > 0 {
      ChangesetsPhaseZero(changes[1..], orders[1..]);
      ChangesetPhases(changes[0], orders[0], 0);
      OfPhaseAppend(ChangesetPlan(changes[0], orders[0]), ChangesetsPlan(changes[1..], orders[1..]), 0);
    }
  }

  /** Two bumps go by ascending path whatever order the map holds them in. */
  lemma BumpOrderOfTwo(a: string, b: string, shaA: string, shaB: string)
    requires a != b && Below(a, b)
    ensures BumpCalls(SortedSeq(map[b := shaB, a := shaA].Keys), map[b := shaB, a := shaA]) ==
      [BumpSubmodule(a, shaA), BumpSubmodule(b, shaB)]
  {
    var bumps := map[b := shaB, a := shaA];
    var sorted := [a, b];
    assert bumps.Keys == {a, b};
    assert Enumerates(sorted, bumps.Keys);
    AscendingEnumerationUnique(sorted, SortedSeq(bumps.Keys), bumps.Keys);
  }

  lemma SrcABelowSrcB()
    ensures Below("src/a", "src/b")
  {
    assert "src/a"[1..] == "rc/a" && "src/b"[1..] == "rc/b";
    assert "rc/a"[1..] == "c/a" && "rc/b"[1..] == "c/b";
    assert "c/a"[1..] == "/a" && "c/b"[1..] == "/b";
    assert "/a"[1..] == "a" && "/b"[1..] == "b";
  }

  /** Bumps declared as src/b then src/a are issued for src/a first. */
  lemma BumpOrderExample()
    ensures BumpCalls(SortedSeq(map["src/b" := "sha-b", "src/a" := "sha-a"].Keys),
                      map["src/b" := "sha-b", "src/a" := "sha-a"]) ==
      [BumpSubmodule("src/a", "sha-a"), BumpSubmodule("src/b", "sha-b")]
  {
    SrcABelowSrcB();
    BumpOrderOfTwo("src/a", "src/b", "sha-a", "sha-b");
  }

  // ---------------------------------------------------------------------------
  // Sorted keys and map ranging

  /** Ranging over a map's keys: each key once, in an unspecified order. */
  method CollectKeys<V>(m: map<string, V>) returns (keys: seq<string>)
    ensures Enumerates(keys, m.Keys)
  {
    keys := [];
    var remaining := m.Keys;
    while remaining != {}
      invariant remaining <= m.Keys
      invariant Distinct(keys)
      invariant forall x :: x in keys <==> x in m.Keys - remaining
      decreases remaining
    {
      var path :| path in remaining;
      assert path !in keys;
      keys := keys + [path];
      remaining := remaining - {path};
    }
  }

  /** sortSubmodules and sortSubmodulePatches: the map's keys, each once, ascending. */
  method SortedKeys<V>(m: map<string, V>) returns (sortedPaths: seq<string>)
    ensures Sorted(sortedPaths) && Enumerates(sortedPaths, m.Keys)
    ensures sortedPaths == SortedSeq(m.Keys)
  {
    var keys := CollectKeys(m);
    sortedPaths := SortStrings(keys);
    SortedEnumeration(keys, m.Keys);
  }

  // ---------------------------------------------------------------------------
  // Checkpoint

  class Apply {
    const repo: Repository

    constructor(repo: Repository)
      ensures this.repo == repo
    {
      this.repo := repo;
    }

    /** The loop over a changeset's patches (patcher/apply.go:43-48). */
    method ApplyPatches(patches: seq<string>) returns (err: Option<Error>)
      modifies repo
      ensures (repo.calls, err) == Run(repo.script, old(repo.calls), PatchCalls(patches))
    {
      ghost var start := repo.calls;
      for i := 0 to |patches|
        invariant Run(repo.script, start, PatchCalls(patches)) == Run(repo.script, repo.calls, PatchCalls(patches[i..]))
      {
        assert PatchCalls(patches[i..]) == [ApplyPatch(patches[i])] + PatchCalls(patches[i + 1..]);
        RunStep(repo.script, repo.calls, ApplyPatch(patches[i]), PatchCalls(patches[i + 1..]));
        err := repo.ApplyPatch(patches[i]);
        if err.Some? {
          return;
        }
      }
      assert patches[|patches|..] == [];
      err := None;
    }

    /** The loop over a changeset's additions (patcher/apply.go:50-55), in map order. */
    method AddSubmodules(additions: map<string, SubmoduleAddition>) returns (err: Option<Error>, ghost order: seq<string>)
      modifies repo
      ensures Enumerates(order, additions.Keys)
      ensures (repo.calls, err) == Run(repo.script, old(repo.calls), AdditionCalls(order, additions))
    {
      ghost var start := repo.calls;
      var paths := CollectKeys(additions);
      order := paths;
      for i := 0 to |paths|
        invariant Run(repo.script, start, AdditionCalls(paths, additions)) ==
          Run(repo.script, repo.calls, AdditionCalls(paths[i..], additions))
      {
        var path := paths[i];
        var addition := additions[path];
        var call := AddSubmodule(path, addition.url, addition.ref, addition.branch);
        AdditionCallsTail(paths, i, additions);
        RunStep(repo.script, repo.calls, call, AdditionCalls(paths[i + 1..], additions));
        err := repo.AddSubmodule(path, addition.url, addition.ref, addition.branch);
        if err.Some? {
          return;
        }
      }
      assert paths[|paths|..] == [];
      err := None;
    }

    /** The loop over a changeset's removals (patcher/apply.go:57-62). */
    method RemoveSubmodules(paths: seq<string>) returns (err: Option<Error>)
      modifies repo
      ensures (repo.calls, err) == Run(repo.script, old(repo.calls), RemovalCalls(paths))
    {
      ghost var start := repo.calls;
      for i := 0 to |paths|
        invariant Run(repo.script, start, RemovalCalls(paths)) == Run(repo.script, repo.calls, RemovalCalls(paths[i..]))
      {
        assert RemovalCalls(paths[i..]) == [RemoveSubmodule(paths[i])] + RemovalCalls(paths[i + 1..]);
        RunStep(repo.script, repo.calls, RemoveSubmodule(paths[i]), RemovalCalls(paths[i + 1..]));
        err := repo.RemoveSubmodule(paths[i]);
        if err.Some? {
          return;
        }
      }
      assert paths[|paths|..] == [];
      err := None;
    }

    /** The bumps, by ascending path (patcher/apply.go:64-72). */
    method BumpSubmodules(bumps: map<string, string>) returns (err: Option<Error>)
      modifies repo
      ensures (repo.calls, err) == Run(repo.script, old(repo.calls), BumpCalls(SortedSeq(bumps.Keys), bumps))
    {
      ghost var start := repo.calls;
      var paths := SortedKeys(bumps);
      for i := 0 to |paths|
        invariant Run(repo.script, start, BumpCalls(paths, bumps)) == Run(repo.script, repo.calls, BumpCalls(paths[i..], bumps))
      {
        var sha := bumps[paths[i]];
        BumpCallsTail(paths, i, bumps);
        RunStep(repo.script, repo.calls, BumpSubmodule(paths[i], sha), BumpCalls(paths[i + 1..], bumps));
        err := repo.BumpSubmodule(paths[i], sha);
        if err.Some? {
          return;
        }
      }
      assert paths[|paths|..] == [];
      err := None;
    }

    /** One submodule's patches, in listed order (patcher/apply.go:77-82). */
    method PatchOneSubmodule(submodulePath: string, patches: seq<string>) returns (err: Option<Error>)
      modifies repo
      ensures (repo.calls, err) == Run(repo.script, old(repo.calls), PathPatchCalls(submodulePath, patches))
    {
      ghost var start := repo.calls;
      for j := 0 to |patches|
        invariant Run(repo.script, start, PathPatchCalls(submodulePath, patches)) ==
          Run(repo.script, repo.calls, PathPatchCalls(submodulePath, patches[j..]))
      {
        var call := PatchSubmodule(submodulePath, patches[j]);
        PathPatchCallsTail(submodulePath, patches, j);
        RunStep(repo.script, repo.calls, call, PathPatchCalls(submodulePath, patches[j + 1..]));
        err := repo.PatchSubmodule(submodulePath, patches[j]);
        if err.Some? {
          return;
        }
      }
      assert patches[|patches|..] == [];
      err := None;
    }

    /** The submodule patches, by ascending path and then in listed order (patcher/apply.go:74-83). */
    method PatchSubmodules(submodulePatches: map<string, seq<string>>) returns (err: Option<Error>)
      modifies repo
      ensures (repo.calls, err) ==
        Run(repo.script, old(repo.calls), SubmodulePatchCalls(SortedSeq(submodulePatches.Keys), submodulePatches))
    {
      ghost var start := repo.calls;
      var submodulePaths := SortedKeys(submodulePatches);
      ghost var whole := SubmodulePatchCalls(submodulePaths, submodulePatches);
      for i := 0 to |submodulePaths|
        invariant Run(repo.script, start, whole) == Run(repo.script, repo.calls, SubmodulePatchCalls(submodulePaths[i..], submodulePatches))
      {
        var submodulePath := submodulePaths[i];
        SubmodulePatchCallsTail(submodulePaths, i, submodulePatches);
        ghost var before := repo.calls;
        RunAppend(repo.script, before, PathPatchCalls(submodulePath, submodulePatches[submodulePath]),
          SubmodulePatchCalls(submodulePaths[i + 1..], submodulePatches));
        err := PatchOneSubmodule(submodulePath, submodulePatches[submodulePath]);
        if err.Some? {
          return;
        }
      }
      assert submodulePaths[|submodulePaths|..] == [];
      err := None;
    }

    /** One iteration of the loop over the changesets (patcher/apply.go:43-83). */
    method ApplyChangeset(c: Changeset) returns (err: Option<Error>, ghost order: seq<string>)
      modifies repo
      ensures Enumerates(order, c.submoduleAdditions.Keys)
      ensures (repo.calls, err) == Run(repo.script, old(repo.calls), ChangesetPlan(c, order))
    {
      ghost var start := repo.calls;
      ghost var p4 := BumpCalls(SortedSeq(c.bumps.Keys), c.bumps);
      ghost var p5 := SubmodulePatchCalls(SortedSeq(c.submodulePatches.Keys), c.submodulePatches);
      ghost var p3 := RemovalCalls(c.submoduleRemovals);
      ghost var p1 := PatchCalls(c.patches);
      order := SortedSeq(c.submoduleAdditions.Keys);

      err := ApplyPatches(c.patches);
      RunAppend(repo.script, start, p1, AdditionCalls(order, c.submoduleAdditions) + (p3 + (p4 + p5)));
      if err.Some? {
        return;
      }
      ghost var s1 := repo.calls;
      err, order := AddSubmodules(c.submoduleAdditions);
      ghost var p2 := AdditionCalls(order, c.submoduleAdditions);
      RunAppend(repo.script, start, p1, p2 + (p3 + (p4 + p5)));
      RunAppend(repo.script, s1, p2, p3 + (p4 + p5));
      if err.Some? {
        return;
      }
      ghost var s2 := repo.calls;
      err := RemoveSubmodules(c.submoduleRemovals);
      RunAppend(repo.script, s2, p3, p4 + p5);
      if err.Some? {
        return;
      }
      ghost var s3 := repo.calls;
      err := BumpSubmodules(c.bumps);
      RunAppend(repo.script, s3, p4, p5);
      if err.Some? {
        return;
      }
      err := PatchSubmodules(c.submodulePatches);
    }

    /** The loop over the changesets (patcher/apply.go:42-84). */
    method ApplyChangesets(changes: seq<Changeset>) returns (err: Option<Error>, ghost orders: seq<seq<string>>)
      modifies repo
      ensures AdditionOrders(changes, orders)
      ensures (repo.calls, err) == Run(repo.script, old(repo.calls), ChangesetsPlan(changes, orders))
    {
      ghost var start := repo.calls;
      ghost var done: seq<seq<string>> := [];
      for i := 0 to |changes|
        invariant AdditionOrders(changes[..i], done)
        invariant Run(repo.script, start, ChangesetsPlan(changes[..i], done)) == (repo.calls, None)
      {
        ghost var order;
        ghost var prefix := ChangesetsPlan(changes[..i], done);
        err, order := ApplyChangeset(changes[i]);
        PlanExtend(changes, i, done, order);
        RunAppend(repo.script, start, prefix, ChangesetPlan(changes[i], order));
        if err.Some? {
          orders := done + [order] + DefaultOrders(changes[i + 1..]);
          PlanCompletes(changes, i, done + [order]);
          RunAppend(repo.script, start, ChangesetsPlan(changes[..i + 1], done + [order]),
            ChangesetsPlan(changes[i + 1..], DefaultOrders(changes[i + 1..])));
          return;
        }
        done := done + [order];
      }
      assert changes[..|changes|] == changes;
      orders := done;
      err := None;
    }

    /** Apply.Checkpoint. */
    method Checkpoint(cp: Checkpoint) returns (err: Option<Error>, ghost orders: seq<seq<string>>)
      modifies repo
      ensures AdditionOrders(cp.changes, orders)
      ensures (repo.calls, err) == Run(repo.script, old(repo.calls), PlanFor(cp, orders))
    {
      ghost var start := repo.calls;
      orders := DefaultOrders(cp.changes);
      RunAppend(repo.script, start, Prelude(cp), ChangesetsPlan(cp.changes, orders));
      RunTriple(repo.script, start, ConfigureCommitter, Checkout(cp.checkoutRef), CheckoutBranch(cp.finalBranch));
      err := repo.ConfigureCommitter();
      if err.Some? {
        return;
      }
      ghost var s1 := repo.calls;
      RunPair(repo.script, s1, Checkout(cp.checkoutRef), CheckoutBranch(cp.finalBranch));
      err := repo.Checkout(cp.checkoutRef);
      if err.Some? {
        return;
      }
      ghost var s2 := repo.calls;
      RunSingle(repo.script, s2, CheckoutBranch(cp.finalBranch));
      err := repo.CheckoutBranch(cp.finalBranch);
      if err.Some? {
        return;
      }
      assert Run(repo.script, start, Prelude(cp)) == (repo.calls, None);
      err, orders := ApplyChangesets(cp.changes);
      RunAppend(repo.script, start, Prelude(cp), ChangesetsPlan(cp.changes, orders));
    }
  }
}
