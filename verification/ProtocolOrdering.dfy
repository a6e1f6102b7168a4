/**
 Ordering of config and StatefulSet: exactly which reconciliations keep every configured member backed by a replica.
 */
module ProtocolOrdering {
  import opened Wrappers
  import opened Scale
  import opened AutomationConfig
  import opened Builder
  import opened Protocol
  import opened WrittenConfig
  import opened ProtocolInvariant

  /** After first deployment no config names a member for which the StatefulSet has no replica. */
  predicate Ordered(w: World) { w.members >= 1 ==> AcCount(w) <= StsCount(w) }

  /** The first write of a reconciliation with this snapshot keeps the order, or cannot happen. */
  predicate FirstWriteSafe(k: Resource, w: World, s: Snapshot, inOrder: bool) {
    if inOrder then AcMembers(s) <= StsCount(w) || !Builds(k, w.stored, s) else AcCount(w) <= StsReplicas(s)
  }

  /** What can be asked before a reconciliation begins. */
  predicate OrderSafe(k: Resource, w: World) {
    FirstWriteSafe(k, w, SnapshotOf(w), ShouldRunInOrder(SnapshotOf(w), w.sts.Some?))
  }

  /** The order, and what a running reconciliation needs in order to keep it. */
  predicate OrderInv(k: Resource, w: World) {
    && Ordered(w)
    && (w.members >= 1 && w.local.Busy? ==>
          var l := w.local;
          && (l.pc.ChooseOrder? ==> FirstWriteSafe(k, w, l.snap, ShouldRunInOrder(l.snap, w.sts.Some?)))
          && ((l.pc.AcWrite? && l.inOrder) || (l.pc.StsWrite? && !l.inOrder) ==>
              FirstWriteSafe(k, w, l.snap, l.inOrder)))
  }

  lemma PutAcKeepsOrder(k: Resource, w: World, auth: Auth, certificate: string)
    requires Inv(w) && OrderInv(k, w) && Enabled(k, w, PutAc(auth, certificate))
    ensures OrderInv(k, Apply(k, w, PutAc(auth, certificate)))
  {
    PutAcKeepsInv(k, w, auth, certificate);
    BuildsIff(k, w, w.local.snap, auth, certificate);
    hide Desired, EnsureSecret, Reflects, Builds;
  }

  lemma PutStsKeepsOrder(k: Resource, w: World)
    requires Inv(w) && OrderInv(k, w) && Enabled(k, w, PutSts)
    ensures OrderInv(k, Apply(k, w, PutSts))
  {
    hide Builds, ShouldRunInOrder, Validates;
  }

  lemma PutStatusKeepsOrder(k: Resource, w: World)
    requires Inv(w) && Enabled(k, w, PutStatus)
    ensures OrderInv(k, Apply(k, w, PutStatus))
  {
    hide Builds, ShouldRunInOrder, Validates;
  }

  lemma StepKeepsOrder(k: Resource, w: World, a: Action)
    requires Inv(w) && OrderInv(k, w) && Enabled(k, w, a) && (a.Begin? && w.members >= 1 ==> OrderSafe(k, w))
    ensures OrderInv(k, Apply(k, w, a))
  {
    hide Desired, EnsureSecret, Reflects, Builds, ShouldRunInOrder, Validates;
    if a.PutAc? { PutAcKeepsOrder(k, w, a.auth, a.certificate); }
    else if a.PutSts? { PutStsKeepsOrder(k, w); }
    else if a.PutStatus? { PutStatusKeepsOrder(k, w); }
  }

  /** After first deployment every reconciliation of the run begins in a state that is safe for it. */
  predicate SafeRun(k: Resource, w: World, trace: seq<Action>)
    requires Legal(k, w, trace)
  {
    trace == [] || (
      var before, a := trace[..|trace| - 1], trace[|trace| - 1];
      var v := Replay(k, w, before);
      SafeRun(k, w, before) && (a.Begin? && v.members >= 1 ==> OrderSafe(k, v)))
  }

  lemma {:induction false} SafeRunKeepsOrder(k: Resource, w: World, trace: seq<Action>)
    requires Inv(w) && OrderInv(k, w) && Legal(k, w, trace) && SafeRun(k, w, trace)
    ensures OrderInv(k, Replay(k, w, trace))
  {
    if trace != [] {
      var before := trace[..|trace| - 1];
      SafeRunKeepsOrder(k, w, before);
      InvKept(k, w, before);
      hide Inv, OrderInv, OrderSafe, Apply, Enabled;
      StepKeepsOrder(k, Replay(k, w, before), trace[|trace| - 1]);
    }
  }

  /** Ordering safety: no config ever names a member for which the StatefulSet has no replica. */
  lemma ConfigNeverOutgrowsStatefulSet(k: Resource, spec: Spec, trace: seq<Action>)
    requires Legal(k, Init(spec), trace) && SafeRun(k, Init(spec), trace)
    ensures var w := Replay(k, Init(spec), trace); w.members >= 1 ==> AcCount(w) <= StsCount(w)
  {
    SafeRunKeepsOrder(k, Init(spec), trace);
  }

  // ---- The condition is exact ----

  lemma BeginAndChoose(k: Resource, w: World)
    requires Enabled(k, w, Begin)
    ensures Legal(k, w, [Begin, Choose]) && Replay(k, w, [Begin, Choose]) == Apply(k, Apply(k, w, Begin), Choose)
  {
    OneMore(k, w, [], Begin);
    assert [] + [Begin] == [Begin] && [Begin] + [Choose] == [Begin, Choose];
    OneMore(k, w, [Begin], Choose);
  }

  function FirstWrite(w: World, auth: Auth, certificate: string): (a: Action) {
    if ShouldRunInOrder(SnapshotOf(w), w.sts.Some?) then PutAc(auth, certificate) else PutSts
  }

  /** The first write of a reconciliation, and the two counts after it. */
  lemma AfterFirstWrite(k: Resource, w: World, auth: Auth, certificate: string)
    requires Inv(w) && Enabled(k, w, Begin)
    requires ShouldRunInOrder(SnapshotOf(w), w.sts.Some?) ==> Builds(k, w.stored, SnapshotOf(w))
    ensures var trace := [Begin, Choose, FirstWrite(w, auth, certificate)];
            && Legal(k, w, trace)
            && var r := Replay(k, w, trace);
               && r.members == w.members
               && AcCount(r) == (if FirstWrite(w, auth, certificate).PutAc? then AcMembers(SnapshotOf(w))
                                 else AcCount(w))
               && StsCount(r) == (if FirstWrite(w, auth, certificate).PutSts? then StsReplicas(SnapshotOf(w))
                                  else StsCount(w))
  {
    var write := FirstWrite(w, auth, certificate);
    BeginAndChoose(k, w);
    InvKept(k, w, [Begin, Choose]);
    var v := Replay(k, w, [Begin, Choose]);
    assert v.stored == w.stored && v.sts == w.sts && v.members == w.members && v.local.snap == SnapshotOf(w);
    assert At(v, if write.PutAc? then AcWrite else StsWrite);
    hide Legal, Replay, Inv, ShouldRunInOrder, Builds;
    assert [Begin, Choose] + [write] == [Begin, Choose, write];
    if write.PutAc? {
      BuildsIff(k, v, v.local.snap, auth, certificate);
      OneMore(k, w, [Begin, Choose], write);
      PutAcKeepsInv(k, v, auth, certificate);
    } else {
      OneMore(k, w, [Begin, Choose], write);
    }
  }

  /** A reconciliation that begins in an unsafe state breaks the order with its first write. */
  lemma UnsafeBreaksOrdering(k: Resource, w: World, auth: Auth, certificate: string)
    requires Inv(w) && Enabled(k, w, Begin) && w.members >= 1 && !OrderSafe(k, w)
    ensures var trace := [Begin, Choose, FirstWrite(w, auth, certificate)];
            Legal(k, w, trace) && !Ordered(Replay(k, w, trace))
  {
    AfterFirstWrite(k, w, auth, certificate);
  }

  /** One reconciliation, to whatever end: it begins first, and no other begins. */
  predicate OneReconciliation(trace: seq<Action>) {
    && (trace != [] ==> trace[0].Begin?)
    && forall i :: 1 <= i < |trace| ==> !trace[i].Begin?
  }

  /** Whatever happens during it, a reconciliation that begins now keeps the order at every step. */
  ghost predicate KeepsOrder(k: Resource, w: World) {
    forall trace :: Legal(k, w, trace) && OneReconciliation(trace) ==> Ordered(Replay(k, w, trace))
  }

  lemma {:induction false} SafeReconciliation(k: Resource, w: World, trace: seq<Action>)
    requires Legal(k, w, trace) && OneReconciliation(trace) && OrderSafe(k, w)
    ensures SafeRun(k, w, trace)
  {
    if trace != [] {
      var before := trace[..|trace| - 1];
      assert OneReconciliation(before);
      SafeReconciliation(k, w, before);
      if |trace| == 1 { assert before == []; }
    }
  }

  /**
   From every ordered idle state: a reconciliation keeps the order at all its steps exactly when it is safe to begin.
   */
  lemma ReconciliationKeepsOrderIff(k: Resource, w: World)
    requires Inv(w) && w.local.Idle? && w.members >= 1 && Ordered(w) && Validates(w.spec, w.saved)
    ensures KeepsOrder(k, w) <==> OrderSafe(k, w)
  {
    if OrderSafe(k, w) {
      forall trace | Legal(k, w, trace) && OneReconciliation(trace) ensures Ordered(Replay(k, w, trace)) {
        SafeReconciliation(k, w, trace);
        SafeRunKeepsOrder(k, w, trace);
      }
    } else {
      var trace := [Begin, Choose, FirstWrite(w, NO_AUTH, "")];
      UnsafeBreaksOrdering(k, w, NO_AUTH, "");
      assert OneReconciliation(trace);
    }
  }

  // ---- Users who wait ----

  /** No step is in flight: nobody reconciles and all counts agree. */
  predicate Settled(w: World) { w.local.Idle? && AcCount(w) == w.members && StsCount(w) == w.members }

  /** Members are edited only while no step is in flight, and nothing scales down with TLS on. */
  predicate Careful(w: World, a: Action) {
    && (a.EditSpec? && w.members >= 1 && a.spec.members != w.spec.members ==> Settled(w))
    && (a.Begin? && w.spec.tls ==> w.members <= w.spec.members)
  }

  predicate CarefulRun(k: Resource, w: World, trace: seq<Action>)
    requires Legal(k, w, trace)
  {
    trace == [] || (
      var before := trace[..|trace| - 1];
      CarefulRun(k, w, before) && Careful(Replay(k, w, before), trace[|trace| - 1]))
  }

  /** The step under way: config and StatefulSet are each before or after it, and the right one goes first. */
  predicate InStep(w: World) {
    var c := w.members;
    var n := ReplicasThisReconciliation(c, w.spec.members);
    c >= 1 ==>
      && (AcCount(w) == c || AcCount(w) == n) && (StsCount(w) == c || StsCount(w) == n)
      && (n > c && AcCount(w) == n ==> StsCount(w) == n)
      && (n < c && StsCount(w) == n ==> AcCount(w) == n)
      && (w.local.Busy? && !w.local.pc.SaveSpec? ==>
            && w.local.snap.spec.members == w.spec.members
            && (n < c ==> !w.local.snap.spec.tls)
            && (!w.local.pc.ChooseOrder? ==> (n > c ==> !w.local.inOrder) && (n < c ==> w.local.inOrder)))
  }

  lemma PutAcKeepsInStep(k: Resource, w: World, auth: Auth, certificate: string)
    requires Inv(w) && InStep(w) && Enabled(k, w, PutAc(auth, certificate))
    ensures InStep(Apply(k, w, PutAc(auth, certificate)))
  {
    PutAcKeepsInv(k, w, auth, certificate);
    hide Reflects, Desired, EnsureSecret;
  }

  lemma PutStatusKeepsInStep(k: Resource, w: World)
    requires Inv(w) && Enabled(k, w, PutStatus)
    ensures InStep(Apply(k, w, PutStatus))
  {}

  lemma StepKeepsInStep(k: Resource, w: World, a: Action)
    requires Inv(w) && InStep(w) && Enabled(k, w, a) && Careful(w, a)
    ensures InStep(Apply(k, w, a))
  {
    hide Secured, Desired, EnsureSecret, AllReached;
    if a.PutAc? { PutAcKeepsInStep(k, w, a.auth, a.certificate); }
    else if a.PutStatus? { PutStatusKeepsInStep(k, w); }
  }

  /** Such a run is safe: waiting for the step in flight is enough, unless TLS turns the order round. */
  lemma {:induction false} CarefulIsSafe(k: Resource, spec: Spec, trace: seq<Action>)
    requires Legal(k, Init(spec), trace) && CarefulRun(k, Init(spec), trace)
    ensures SafeRun(k, Init(spec), trace) && InStep(Replay(k, Init(spec), trace))
  {
    if trace != [] {
      var before := trace[..|trace| - 1];
      CarefulIsSafe(k, spec, before);
      Reachable(k, spec, before);
      hide Inv, InStep, Apply, Enabled, OrderSafe;
      StepKeepsInStep(k, Replay(k, Init(spec), before), trace[|trace| - 1]);
      var w := Replay(k, Init(spec), before);
      if trace[|trace| - 1].Begin? && w.members >= 1 { CarefulBegins(k, w); }
    }
  }

  lemma CarefulBegins(k: Resource, w: World)
    requires Inv(w) && InStep(w) && Enabled(k, w, Begin) && Careful(w, Begin) && w.members >= 1
    ensures OrderSafe(k, w)
  {}

  // ---- Unsafe beginnings ----

  /** With TLS on every scale-down from a settled state breaks the ordering: the StatefulSet shrinks first. */
  lemma TlsScaleDownBreaksOrdering(k: Resource, w: World)
    requires Inv(w) && Settled(w) && w.spec.tls && Validates(w.spec, w.saved) && w.spec.members < w.members
    ensures !OrderSafe(k, w)
    ensures var trace := [Begin, Choose, PutSts];
            Legal(k, w, trace) && var r := Replay(k, w, trace); r.members >= 1 && AcCount(r) == StsCount(r) + 1
  {
    AfterFirstWrite(k, w, NO_AUTH, "");
  }

  /** Taking back a scale-down after both writes of its step: the config grows first. */
  lemma ReversalBreaksOrdering(k: Resource, w: World, auth: Auth, certificate: string)
    requires Inv(w) && w.local.Idle? && w.members >= 2 && AcCount(w) == StsCount(w) == w.members - 1
    requires w.spec.members == w.members && Validates(w.spec, w.saved) && Builds(k, w.stored, SnapshotOf(w))
    requires !w.spec.tls && !IsChangingVersion(SnapshotOf(w))
    ensures !OrderSafe(k, w)
    ensures var trace := [Begin, Choose, PutAc(auth, certificate)];
            Legal(k, w, trace) && var r := Replay(k, w, trace); r.members >= 1 && AcCount(r) == StsCount(r) + 1
  {
    AfterFirstWrite(k, w, auth, certificate);
  }

  /** Turning a scale-up round keeps the order as long as TLS is off and the version stays. */
  lemma TurningScaleUpRoundIsSafe(k: Resource, w: World)
    requires Inv(w) && w.local.Idle? && w.members >= 1 && Ordered(w) && w.members <= StsCount(w)
    requires w.spec.members <= w.members && !w.spec.tls && !IsChangingVersion(SnapshotOf(w))
             && Validates(w.spec, w.saved)
    ensures OrderSafe(k, w) && KeepsOrder(k, w)
  {
    ReconciliationKeepsOrderIff(k, w);
  }
}
