/** Runs without spec edits: how counts converge, when Running is first written, and one undisturbed reconciliation. */
module ProtocolProgress {
  import opened Wrappers
  import opened Scale
  import opened AutomationConfig
  import opened Builder
  import opened Protocol
  import opened WrittenConfig
  import opened ProtocolInvariant
  import SemVer

  predicate EditFree(trace: seq<Action>) { forall i :: 0 <= i < |trace| ==> !trace[i].EditSpec? }

  /** How many reconciliations reached their counting status write. */
  function Completed(trace: seq<Action>): (n: nat) {
    if trace == [] then 0 else Completed(trace[..|trace| - 1]) + (if trace[|trace| - 1].PutStatus? then 1 else 0)
  }

  /** One step without edits: the count moves with the counting status write and only with it. */
  lemma CountStep(k: Resource, v: World, a: Action)
    requires Inv(v) && Enabled(k, v, a) && !a.EditSpec? && (v.local.Busy? ==> v.local.snap.spec == v.spec)
    ensures var r := Apply(k, v, a);
            && r.spec == v.spec && (r.local.Busy? ==> r.local.snap.spec == r.spec)
            && r.members == if a.PutStatus? then ReplicasThisReconciliation(v.members, v.spec.members) else v.members
  {
    hide Reflects, Desired, EnsureSecret;
  }

  lemma StatusStep(k: Resource, v: World)
    requires Inv(v) && Enabled(k, v, PutStatus) && (v.local.Busy? ==> v.local.snap.spec == v.spec)
    ensures var r := Apply(k, v, PutStatus);
            && v.spec.members >= 1 && r.members == ReplicasThisReconciliation(v.members, v.spec.members)
            && (r.phase == Running <==> !IsStillScaling(v.members, v.spec.members))
  {
    hide Reflects;
  }

  lemma StartCount(w: World)
    requires Inv(w)
    ensures w.members >= 0
  {}

  /** The k-th completed reconciliation brings the count to k steps towards the target, whatever fails in between. */
  lemma {:induction false} CountAfter(k: Resource, w: World, trace: seq<Action>)
    requires Inv(w) && w.local.Idle? && Legal(k, w, trace) && EditFree(trace)
    ensures var r := Replay(k, w, trace);
            && r.spec == w.spec && (r.local.Busy? ==> r.local.snap.spec == w.spec)
            && r.members == Toward(w.members, w.spec.members, Completed(trace))
  {
    if trace != [] {
      var before, a := trace[..|trace| - 1], trace[|trace| - 1];
      assert EditFree(before) && !a.EditSpec?;
      CountAfter(k, w, before);
      InvKept(k, w, before);
      assert Replay(k, w, trace) == Apply(k, Replay(k, w, before), a);
      assert Completed(trace) == Completed(before) + (if a.PutStatus? then 1 else 0);
      hide Inv, Apply, Enabled, Legal, Replay, Completed, EditFree;
      CountStep(k, Replay(k, w, before), a);
    }
  }

  /**
   Running is first written by completed reconciliation number Needed: the distance to the target, or one when there is
   nothing to scale or nothing is deployed yet. From then on every completed reconciliation writes it.
   */
  lemma RunningWhen(k: Resource, w: World, trace: seq<Action>)
    requires Inv(w) && w.local.Idle? && Legal(k, w, trace) && EditFree(trace)
    requires Enabled(k, Replay(k, w, trace), PutStatus)
    ensures var r := Apply(k, Replay(k, w, trace), PutStatus);
            && (r.phase == Running <==> Completed(trace) + 1 >= Needed(w.members, w.spec.members))
            && (r.phase == Running <==> r.members == w.spec.members)
            && (w.members >= 1 && Completed(trace) + 1 <= Distance(w.members, w.spec.members) ==>
                  Distance(r.members, w.spec.members) == Distance(w.members, w.spec.members) - (Completed(trace) + 1))
  {
    hide Legal, Replay, Completed, EditFree, Inv, Apply, Enabled;
    CountAfter(k, w, trace);
    InvKept(k, w, trace);
    StatusStep(k, Replay(k, w, trace));
    StartCount(w);
    var j := Completed(trace);
    ScalingEnds(w.members, w.spec.members, j + 1);
    if w.members >= 1 { TowardDistance(w.members, w.spec.members, j + 1); }
  }

  // ---- One undisturbed reconciliation ----

  lemma Extend(k: Resource, w: World, trace: seq<Action>, a: Action) returns (longer: seq<Action>)
    requires Legal(k, w, trace) && Enabled(k, Replay(k, w, trace), a) && EditFree(trace) && !a.EditSpec?
    ensures Legal(k, w, longer) && Replay(k, w, longer) == Apply(k, Replay(k, w, trace), a) && EditFree(longer)
    ensures Completed(longer) == Completed(trace) + (if a.PutStatus? then 1 else 0)
  {
    longer := trace + [a];
    OneMore(k, w, trace, a);
    assert longer[..|trace|] == trace;
  }

  /** Same resource, same counts, same reconciliation: only what one deployment function touches has changed. */
  predicate SameProgress(v: World, r: World) {
    && v.spec == r.spec && v.members == r.members && v.saved == r.saved
    && v.local.Busy? && r.local.Busy? && r.local.snap == v.local.snap && r.local.inOrder == v.local.inOrder
  }

  /** Building goes on working for the snapshot of the reconciliation under way. */
  ghost predicate StillLasts(k: Resource, v: World, r: World, spec: Spec) {
    SemVer.Lawful(k.lib) && FcvLasts(k, v.stored, spec) ==> FcvLasts(k, r.stored, spec)
  }

  /** Pods 0 to n - 1, all of them reporting the version. */
  function PodsAt(n: nat, version: int): (pods: map<nat, Option<int>>)
    ensures forall i :: 0 <= i < n ==> i in pods && pods[i] == Some(version)
  {
    if n == 0 then map[] else PodsAt(n - 1, version)[n - 1 := Some(version)]
  }

  /** Publish the config. */
  lemma Publish(k: Resource, w: World, trace: seq<Action>, auth: Auth, certificate: string)
    returns (longer: seq<Action>)
    requires Inv(w) && Legal(k, w, trace) && EditFree(trace)
    requires var v := Replay(k, w, trace); At(v, AcWrite) && Builds(k, v.stored, v.local.snap)
    ensures Legal(k, w, longer) && EditFree(longer) && Completed(longer) == Completed(trace)
    ensures var v, r := Replay(k, w, trace), Replay(k, w, longer);
            SameProgress(v, r) && r.local.pc.AcWait? && StsReplicas(v.local.snap) >= 1
            && StillLasts(k, v, r, v.local.snap.spec)
  {
    var v := Replay(k, w, trace);
    InvKept(k, w, trace);
    BuildsIff(k, v, v.local.snap, auth, certificate);
    assert AcMembers(v.local.snap) >= 1;
    if SemVer.Lawful(k.lib) && FcvLasts(k, v.stored, v.local.snap.spec) {
      PutAcLasts(k, v, v.local.snap, auth, certificate);
    }
    hide Legal, Replay, Completed, Inv, Desired, EnsureSecret, FcvLasts, Builds;
    longer := Extend(k, w, trace, PutAc(auth, certificate));
  }

  /** Agents that reach the published config let the config's gate pass. */
  lemma DeployConfig(k: Resource, w: World, trace: seq<Action>, auth: Auth, certificate: string)
    returns (longer: seq<Action>)
    requires Inv(w) && Legal(k, w, trace) && EditFree(trace)
    requires var v := Replay(k, w, trace); At(v, AcWrite) && Builds(k, v.stored, v.local.snap)
    ensures Legal(k, w, longer) && EditFree(longer) && Completed(longer) == Completed(trace)
    ensures var v, r := Replay(k, w, trace), Replay(k, w, longer);
            && SameProgress(v, r) && r.local.pc == (if v.local.inOrder then StsWrite else ResetStrategy)
            && StillLasts(k, v, r, v.local.snap.spec)
  {
    hide Legal, Replay, Completed, Inv, FcvLasts, Builds;
    var v := Replay(k, w, trace);
    longer := Publish(k, w, trace, auth, certificate);
    var published := Replay(k, w, longer);
    longer := Extend(k, w, longer, PodsMove(PodsAt(StsReplicas(v.local.snap), published.local.pc.version)));
    longer := Extend(k, w, longer, PassAc);
  }

  /** A StatefulSet controller that makes every replica ready lets the StatefulSet's gate pass. */
  lemma DeployStatefulSet(k: Resource, w: World, trace: seq<Action>) returns (longer: seq<Action>)
    requires Legal(k, w, trace) && EditFree(trace) && At(Replay(k, w, trace), StsWrite)
    ensures Legal(k, w, longer) && EditFree(longer) && Completed(longer) == Completed(trace)
    ensures var v, r := Replay(k, w, trace), Replay(k, w, longer);
            && SameProgress(v, r) && r.stored == v.stored
            && r.local.pc == if v.local.inOrder then ResetStrategy else AcWrite
  {
    var n := StsReplicas(Replay(k, w, trace).local.snap);
    longer := Extend(k, w, trace, PutSts);
    longer := Extend(k, w, longer, StsMoves(n, n, true));
    longer := Extend(k, w, longer, PassSts);
  }

  /** Both deployment functions, in whichever order was chosen. */
  lemma Deploy(k: Resource, w: World, trace: seq<Action>, auth: Auth, certificate: string) returns (longer: seq<Action>)
    requires Inv(w) && Legal(k, w, trace) && EditFree(trace)
    requires var v := Replay(k, w, trace); At(v, ChooseOrder) && Builds(k, v.stored, v.local.snap)
    ensures Legal(k, w, longer) && EditFree(longer) && Completed(longer) == Completed(trace)
    ensures var v, r := Replay(k, w, trace), Replay(k, w, longer);
            && r.spec == v.spec && r.saved == v.saved && At(r, ResetStrategy) && r.local.snap == v.local.snap
            && StillLasts(k, v, r, v.local.snap.spec)
  {
    longer := Extend(k, w, trace, Choose);
    hide Inv, Legal, Replay, Apply, Enabled, Completed, FcvLasts, Builds;
    if Replay(k, w, longer).local.inOrder {
      longer := DeployConfig(k, w, longer, auth, certificate);
      longer := DeployStatefulSet(k, w, longer);
    } else {
      longer := DeployStatefulSet(k, w, longer);
      longer := DeployConfig(k, w, longer, auth, certificate);
    }
  }

  /** The end of a pass, once both gates have let it through. */
  lemma Finish(k: Resource, w: World, trace: seq<Action>) returns (longer: seq<Action>)
    requires Inv(w) && Legal(k, w, trace) && EditFree(trace) && At(Replay(k, w, trace), ResetStrategy)
    ensures Legal(k, w, longer) && EditFree(longer) && Completed(longer) == Completed(trace) + 1
    ensures var v, r := Replay(k, w, trace), Replay(k, w, longer);
            var s := v.local.snap;
            && r.local.Idle? && r.spec == v.spec && r.stored == v.stored
            && r.members == ReplicasThisReconciliation(s.members, s.spec.members) == AcCount(r) == StsCount(r)
            && (r.phase == Running <==> r.members == s.spec.members)
            && r.saved == if r.phase == Running then Some(s.spec) else v.saved
  {
    InvKept(k, w, trace);
    hide Legal, Replay, Completed;
    longer := Extend(k, w, trace, Reset);
    longer := Extend(k, w, longer, PutStatus);
    if Replay(k, w, longer).local.Busy? { longer := Extend(k, w, longer, Save); }
  }

  /** One undisturbed reconciliation. */
  lemma OnePass(k: Resource, w: World, trace: seq<Action>, auth: Auth, certificate: string)
    returns (longer: seq<Action>)
    requires Inv(w) && Legal(k, w, trace) && EditFree(trace)
    requires var v := Replay(k, w, trace);
             v.local.Idle? && Validates(v.spec, v.saved) && Builds(k, v.stored, SnapshotOf(v))
    ensures Legal(k, w, longer) && EditFree(longer) && Completed(longer) == Completed(trace) + 1
    ensures var v, r := Replay(k, w, trace), Replay(k, w, longer);
            && r.local.Idle? && r.spec == v.spec && Validates(r.spec, r.saved)
            && r.members == ReplicasThisReconciliation(v.members, v.spec.members) == AcCount(r) == StsCount(r)
            && (r.phase == Running <==> r.members == v.spec.members)
            && (r.phase == Running ==> r.saved == Some(v.spec))
            && StillLasts(k, v, r, v.spec)
  {
    hide Inv, Legal, Replay, Completed, FcvLasts, Builds;
    longer := Extend(k, w, trace, Begin);
    longer := Deploy(k, w, longer, auth, certificate);
    longer := Finish(k, w, longer);
  }
}
