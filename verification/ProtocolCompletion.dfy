/** Exactly when a deployment can be brought to Running without another edit. */
module ProtocolCompletion {
  import opened Wrappers
  import opened Scale
  import opened AutomationConfig
  import opened Builder
  import opened Protocol
  import opened WrittenConfig
  import opened ProtocolInvariant
  import opened ProtocolProgress
  import SemVer

  /** There are horizons for the first step and for the target. */
  predicate HorizonsAllow(w: World) {
    HasHorizons(w.spec, ReplicasThisReconciliation(w.members, w.spec.members)) && HasHorizons(w.spec, w.spec.members)
  }

  /**
   The compatibility version lets the config be built as often as needed: the spec sets it, or nothing is stored, or the
   stored one and the server version parse and, when more than one build is needed, what the first build stores parses
   too.
   */
  predicate FcvAllows(k: Resource, w: World)
    requires !w.stored.Keyless?
  {
    var previous := Read(w.stored).value;
    w.spec.fcv != "" || |previous.processes| == 0 || (
      var before, current := k.lib.make(previous.processes[0].fcv + ".0"), k.lib.make(w.spec.version);
      && before.Some? && current.Some?
      && (|| Needed(w.members, w.spec.members) == 1 || SemVer.Less(before.value, current.value)
          || !SemVer.Less(current.value, SemVer.MIN_FCV_VERSION)))
  }

  /** Some run without edits completes as many reconciliations as the target needs. */
  ghost predicate CanComplete(k: Resource, w: World) {
    exists trace :: Legal(k, w, trace) && EditFree(trace) && Completed(trace) >= Needed(w.members, w.spec.members)
  }

  // ---- A completing run ----

  /** Where n undisturbed reconciliations lead. */
  predicate Arrived(w: World, r: World, n: nat) {
    && r.local.Idle? && r.spec == w.spec && Validates(r.spec, r.saved)
    && r.members == Toward(w.members, w.spec.members, n)
    && (n >= 1 ==>
          && r.members == AcCount(r) == StsCount(r)
          && (r.phase == Running <==> r.members == w.spec.members) && (r.phase == Running ==> r.saved == Some(w.spec)))
  }

  lemma {:induction false} Passes(k: Resource, w: World, n: nat, auth: Auth, certificate: string)
    returns (trace: seq<Action>)
    requires SemVer.Lawful(k.lib) && Inv(w) && w.local.Idle? && Validates(w.spec, w.saved)
    requires FcvLasts(k, w.stored, w.spec) && HorizonsAllow(w)
    ensures Legal(k, w, trace) && EditFree(trace) && Completed(trace) == n
    ensures var r := Replay(k, w, trace); Arrived(w, r, n) && FcvLasts(k, r.stored, r.spec)
  {
    trace := [];
    if n > 0 {
      trace := Passes(k, w, n - 1, auth, certificate);
      var v := Replay(k, w, trace);
      InvKept(k, w, trace);
      NeverAbove(w.members, w.spec.members, n);
      LastingBuilds(k, v.stored, SnapshotOf(v));
      hide Inv, Legal, Replay, Completed, FcvLasts, Builds, Validates;
      trace := OnePass(k, w, trace, auth, certificate);
    }
  }

  /** Running can be reached, with everything at the target and the spec saved, in exactly Needed reconciliations. */
  lemma Converges(k: Resource, w: World, auth: Auth, certificate: string) returns (trace: seq<Action>)
    requires SemVer.Lawful(k.lib) && Inv(w) && w.local.Idle? && Validates(w.spec, w.saved)
    requires FcvAllows(k, w) && HorizonsAllow(w)
    ensures Legal(k, w, trace) && EditFree(trace) && Completed(trace) == Needed(w.members, w.spec.members)
    ensures var r := Replay(k, w, trace);
            && r.local.Idle? && r.phase == Running && r.saved == Some(w.spec)
            && r.members == AcCount(r) == StsCount(r) == w.spec.members
  {
    var n := Needed(w.members, w.spec.members);
    TargetReached(w.members, w.spec.members, n);
    if n == 1 {
      hide Inv;
      FirstBuilds(k, w);
      assert Legal(k, w, []) && Replay(k, w, []) == w;
      trace := OnePass(k, w, [], auth, certificate);
      assert Toward(w.members, w.spec.members, 1) ==
             ReplicasThisReconciliation(Toward(w.members, w.spec.members, 0), w.spec.members);
    } else {
      trace := Passes(k, w, n, auth, certificate);
    }
  }

  lemma FirstBuilds(k: Resource, w: World)
    requires Inv(w) && Validates(w.spec, w.saved) && FcvAllows(k, w) && HorizonsAllow(w)
    ensures Builds(k, w.stored, SnapshotOf(w))
  {}

  // ---- Obstacles ----

  lemma BlockedStep(k: Resource, v: World, a: Action)
    requires Inv(v) && Enabled(k, v, a) && !a.EditSpec? && !Builds(k, v.stored, SnapshotOf(v))
    requires v.local.Busy? ==> v.local.snap.spec == v.spec && !AcWritten(v.local)
    ensures var r := Apply(k, v, a);
            && !a.PutStatus? && r.stored == v.stored && r.members == v.members && r.replicas == v.replicas
            && r.spec == v.spec
            && (r.local.Busy? ==> !AcWritten(r.local))
  {
    if a.PutAc? { BuildsIff(k, v, v.local.snap, a.auth, a.certificate); }
    hide Reflects, Desired, EnsureSecret;
  }

  /** Until the user edits the spec, a config that cannot be built stops every reconciliation. */
  lemma {:induction false} UnbuildableBlocks(k: Resource, w: World, trace: seq<Action>)
    requires Inv(w) && Legal(k, w, trace) && EditFree(trace) && !Builds(k, w.stored, SnapshotOf(w))
    requires w.local.Busy? ==> w.local.snap.spec == w.spec && !AcWritten(w.local)
    ensures Completed(trace) == 0
    ensures var r := Replay(k, w, trace);
            && r.stored == w.stored && r.members == w.members && r.replicas == w.replicas && r.spec == w.spec
            && (r.local.Busy? ==> r.local.snap.spec == w.spec && !AcWritten(r.local))
  {
    if trace != [] {
      var before, a := trace[..|trace| - 1], trace[|trace| - 1];
      assert EditFree(before) && !a.EditSpec?;
      UnbuildableBlocks(k, w, before);
      InvKept(k, w, before);
      var v := Replay(k, w, before);
      assert Builds(k, v.stored, SnapshotOf(v)) == Builds(k, w.stored, SnapshotOf(w));
      hide Inv, Legal, Apply, Enabled, Builds;
      CountStep(k, v, a);
      BlockedStep(k, v, a);
    }
  }

  /**
   Horizons are listed for the desired members but looked up by the members of this step. When scaling down by two or
   more with one horizon per desired member, no reconciliation ever completes and the config never changes.
   */
  lemma HorizonsBlockScaleDown(k: Resource, w: World, trace: seq<Action>)
    requires Inv(w) && w.local.Idle? && Legal(k, w, trace) && EditFree(trace)
    requires w.spec.horizons.Some? && |w.spec.horizons.value| < ReplicasThisReconciliation(w.members, w.spec.members)
    ensures Completed(trace) == 0
    ensures var r := Replay(k, w, trace); r.stored == w.stored && r.members == w.members
  {
    UnbuildableBlocks(k, w, trace);
  }

  lemma HorizonStep(k: Resource, v: World, a: Action)
    requires Inv(v) && Enabled(k, v, a)
    requires v.local.Busy? && AcWritten(v.local) ==> HasHorizons(v.local.snap.spec, AcMembers(v.local.snap))
    ensures var r := Apply(k, v, a);
            && (r.local.Busy? && AcWritten(r.local) ==> HasHorizons(r.local.snap.spec, AcMembers(r.local.snap)))
            && (a.PutStatus? ==> HasHorizons(v.local.snap.spec, r.members))
            && (!a.PutStatus? ==> r.members == v.members)
  {
    if a.PutAc? { BuildsIff(k, v, v.local.snap, a.auth, a.certificate); }
    hide Reflects, Desired, EnsureSecret;
  }

  /** Every completed reconciliation had a horizon for each member it counts. */
  lemma {:induction false} CountsHaveHorizons(k: Resource, w: World, trace: seq<Action>)
    requires Inv(w) && w.local.Idle? && Legal(k, w, trace) && EditFree(trace)
    ensures var r := Replay(k, w, trace);
            && r.spec == w.spec && (r.local.Busy? ==> r.local.snap.spec == w.spec)
            && (r.local.Busy? && AcWritten(r.local) ==> HasHorizons(w.spec, AcMembers(r.local.snap)))
            && (Completed(trace) >= 1 ==> HasHorizons(w.spec, r.members))
  {
    if trace != [] {
      var before, a := trace[..|trace| - 1], trace[|trace| - 1];
      assert EditFree(before) && !a.EditSpec?;
      CountsHaveHorizons(k, w, before);
      InvKept(k, w, before);
      hide Inv, Legal, Apply, Enabled, HasHorizons;
      CountStep(k, Replay(k, w, before), a);
      HorizonStep(k, Replay(k, w, before), a);
    }
  }

  /** The stored compatibility version is one from which nothing can be built any more. */
  predicate FcvSpent(k: Resource, stored: Stored) {
    stored.Holding? && |stored.config.processes| > 0 && k.lib.make(stored.config.processes[0].fcv + ".0").None?
  }

  /** A server version below 3.4.0 and not above the stored compatibility version. */
  predicate FcvRunsOut(k: Resource, stored: Stored, spec: Spec) {
    && spec.fcv == "" && stored.Holding? && |stored.config.processes| > 0
    && var before, current := k.lib.make(stored.config.processes[0].fcv + ".0"), k.lib.make(spec.version);
       && before.Some? && current.Some?
       && !SemVer.Less(before.value, current.value) && SemVer.Less(current.value, SemVer.MIN_FCV_VERSION)
  }

  lemma PutAcSpendsFcv(k: Resource, v: World, auth: Auth, certificate: string)
    requires SemVer.Lawful(k.lib) && Inv(v) && Enabled(k, v, PutAc(auth, certificate))
    requires FcvRunsOut(k, v.stored, v.local.snap.spec)
    ensures FcvSpent(k, Apply(k, v, PutAc(auth, certificate)).stored)
  {
    var s := v.local.snap;
    PutAcFcv(k, v, s, auth, certificate);
    hide Desired, EnsureSecret, Inv;
    assert "" + ".0" == ".0";
  }

  /** One config can still be built; after it none. */
  predicate LastBuild(k: Resource, w: World, r: World, completed: nat) {
    && (r.stored == w.stored || FcvSpent(k, r.stored))
    && (r.local.Busy? && AcWritten(r.local) ==> FcvSpent(k, r.stored) && completed == 0)
    && completed <= 1 && (completed == 1 ==> FcvSpent(k, r.stored))
  }

  lemma LastBuildStep(k: Resource, w: World, v: World, a: Action, completed: nat)
    requires SemVer.Lawful(k.lib) && Inv(v) && Enabled(k, v, a) && !a.EditSpec?
    requires v.spec == w.spec && (v.local.Busy? ==> v.local.snap.spec == w.spec)
    requires FcvRunsOut(k, w.stored, w.spec) && LastBuild(k, w, v, completed)
    requires completed == 0 ==> IsStillScaling(v.members, w.spec.members)
    ensures LastBuild(k, w, Apply(k, v, a), completed + if a.PutStatus? then 1 else 0)
  {
    if a.PutAc? {
      BuildsIff(k, v, v.local.snap, a.auth, a.certificate);
      assert !FcvSpent(k, v.stored);
      PutAcSpendsFcv(k, v, a.auth, a.certificate);
    }
    hide Reflects, Desired, EnsureSecret, FcvSpent, FcvRunsOut;
  }

  lemma {:induction false} FcvRunsOutAfterOne(k: Resource, w: World, trace: seq<Action>)
    requires SemVer.Lawful(k.lib) && Inv(w) && w.local.Idle? && Legal(k, w, trace) && EditFree(trace)
    requires FcvRunsOut(k, w.stored, w.spec) && IsStillScaling(w.members, w.spec.members)
    ensures LastBuild(k, w, Replay(k, w, trace), Completed(trace))
  {
    if trace != [] {
      var before, a := trace[..|trace| - 1], trace[|trace| - 1];
      assert EditFree(before) && !a.EditSpec?;
      FcvRunsOutAfterOne(k, w, before);
      CountAfter(k, w, before);
      InvKept(k, w, before);
      hide Inv, Legal, Apply, Enabled, LastBuild, FcvRunsOut;
      LastBuildStep(k, w, Replay(k, w, before), a, Completed(before));
    }
  }

  /** The obstacles are the only ones, and each of them is one. */
  lemma CompletesIff(k: Resource, w: World)
    requires SemVer.Lawful(k.lib) && Inv(w) && w.local.Idle? && Validates(w.spec, w.saved)
    ensures CanComplete(k, w) <==> FcvAllows(k, w) && HorizonsAllow(w)
  {
    if FcvAllows(k, w) && HorizonsAllow(w) {
      var trace := Converges(k, w, NO_AUTH, "");
    }
    forall trace | Legal(k, w, trace) && EditFree(trace) && Completed(trace) >= Needed(w.members, w.spec.members)
      ensures FcvAllows(k, w) && HorizonsAllow(w)
    {
      CompletedAllows(k, w, trace);
    }
  }

  lemma CompletedAllows(k: Resource, w: World, trace: seq<Action>)
    requires SemVer.Lawful(k.lib) && Inv(w) && w.local.Idle? && Validates(w.spec, w.saved)
    requires Legal(k, w, trace) && EditFree(trace) && Completed(trace) >= Needed(w.members, w.spec.members)
    ensures FcvAllows(k, w) && HorizonsAllow(w)
  {
    CountAfter(k, w, trace);
    TargetReached(w.members, w.spec.members, Completed(trace));
    CountsHaveHorizons(k, w, trace);
    if !Builds(k, w.stored, SnapshotOf(w)) { UnbuildableBlocks(k, w, trace); }
    if Needed(w.members, w.spec.members) >= 2 && FcvRunsOut(k, w.stored, w.spec) {
      ScalingEnds(w.members, w.spec.members, 1);
      FcvRunsOutAfterOne(k, w, trace);
    }
    hide Legal, Replay;
  }
}
