/**
 What a reconciliation decides, told from the store it begins with: whether it begins, what it writes first, when it
 waits.
 */
module ProtocolDecisions {
  import opened Wrappers
  import opened Builder
  import opened Protocol
  import opened WrittenConfig
  import opened ProtocolInvariant

  // ---- Whether it begins ----

  /** A reconciliation begins exactly for a valid spec that does not switch TLS off after it was saved as enabled. */
  lemma BeginsIff(k: Resource, w: World)
    ensures Enabled(k, w, Begin) <==>
            && w.local.Idle? && w.spec.otherwiseValid && w.spec.arbiters >= 0 && w.spec.members > w.spec.arbiters
            && (w.saved == None || !w.saved.value.tls || w.spec.tls)
  {}

  // ---- What it writes first ----

  /** A version was applied before, and the spec asks for another. */
  predicate NewVersion(w: World) {
    w.saved.Some? && w.saved.value.version != "" && w.saved.value.version != w.spec.version
  }

  /**
   The StatefulSet goes first: it exists and TLS is on, or a deployed replica set grows, or its size stays and its
   version changes.
   */
  predicate StatefulSetFirst(w: World) {
    || (w.sts.Some? && w.spec.tls)
    || (0 < w.members && w.members < w.spec.members)
    || (w.members == w.spec.members && NewVersion(w))
  }

  /** Nothing is written and no other reconciliation begins from step n on. */
  predicate OnlyBegun(trace: seq<Action>, n: nat) {
    forall j :: n <= j < |trace| ==> !trace[j].Begin? && !trace[j].PutAc? && !trace[j].PutSts?
  }

  /** Until its first write: the reconciliation that began in v, on its way to the write that v asks for. */
  predicate OnTheWay(v: World, w: World) {
    w.local.Busy? ==>
      && w.local.snap == SnapshotOf(v) && w.sts.Some? == v.sts.Some?
      && (|| w.local.pc == ChooseOrder
          || w.local.pc == (if StatefulSetFirst(v) then StsWrite else AcWrite))
  }

  lemma OnTheWayStep(k: Resource, v: World, w: World, a: Action)
    requires Inv(v) && OnTheWay(v, w) && Enabled(k, w, a) && !a.Begin? && !a.PutAc? && !a.PutSts?
    ensures OnTheWay(v, Apply(k, w, a))
  {}

  lemma {:induction false} BeforeFirstWrite(k: Resource, spec: Spec, trace: seq<Action>, b: nat)
    requires Legal(k, Init(spec), trace) && b < |trace| && trace[b].Begin? && OnlyBegun(trace, b + 1)
    ensures OnTheWay(StateAt(k, Init(spec), trace, b), Replay(k, Init(spec), trace))
  {
    var w := Init(spec);
    var before, a := trace[..|trace| - 1], trace[|trace| - 1];
    PrefixLegal(k, w, trace, b);
    if b < |trace| - 1 {
      assert before[..b] == trace[..b];
      assert OnlyBegun(before, b + 1);
      BeforeFirstWrite(k, spec, before, b);
      Reachable(k, spec, trace[..b]);
      assert OnlyBegun(trace, b + 1) && !a.Begin? && !a.PutAc? && !a.PutSts?;
      hide Inv, OnTheWay, Enabled, Apply;
      OnTheWayStep(k, StateAt(k, w, trace, b), Replay(k, w, before), a);
    } else {
      assert trace[..b] == before;
    }
  }

  /** In every run, the first write of every reconciliation is the one its beginning asks for. */
  lemma FirstWriteIff(k: Resource, spec: Spec, trace: seq<Action>, b: nat, a: Action)
    requires Legal(k, Init(spec), trace) && b < |trace| && trace[b].Begin? && OnlyBegun(trace, b + 1)
    requires Enabled(k, Replay(k, Init(spec), trace), a) && (a.PutAc? || a.PutSts?)
    ensures a.PutSts? <==> StatefulSetFirst(StateAt(k, Init(spec), trace, b))
  {
    BeforeFirstWrite(k, spec, trace, b);
  }

  // ---- Images before configs ----

  /** A config goes first only when the size changes or the version stays. */
  predicate ConfigFirstInv(w: World) {
    w.local.Busy? && w.local.pc.AcWrite? && w.local.inOrder ==>
      var s := w.local.snap;
      s.members == s.spec.members ==>
        s.saved == None || s.saved.value.version == "" || s.saved.value.version == s.spec.version
  }

  lemma ConfigFirstStep(k: Resource, w: World, a: Action)
    requires Inv(w) && ConfigFirstInv(w) && Enabled(k, w, a)
    ensures ConfigFirstInv(Apply(k, w, a))
  {
    hide Reflects, Desired, EnsureSecret;
  }

  lemma {:induction false} ConfigFirst(k: Resource, spec: Spec, trace: seq<Action>)
    requires Legal(k, Init(spec), trace)
    ensures ConfigFirstInv(Replay(k, Init(spec), trace))
  {
    if trace != [] {
      var before := trace[..|trace| - 1];
      ConfigFirst(k, spec, before);
      Reachable(k, spec, before);
      hide Inv, Enabled, Apply;
      ConfigFirstStep(k, Replay(k, Init(spec), before), trace[|trace| - 1]);
    }
  }

  /**
   When the version changes and the size does not, no config is published before the images are those of the version.
   */
  lemma ImagesBeforeConfig(k: Resource, spec: Spec, trace: seq<Action>, a: Action)
    requires Legal(k, Init(spec), trace) && a.PutAc? && Enabled(k, Replay(k, Init(spec), trace), a)
    requires var s := Replay(k, Init(spec), trace).local.snap;
             && s.members == s.spec.members && s.saved.Some?
             && s.saved.value.version != "" && s.saved.value.version != s.spec.version
    ensures var w := Replay(k, Init(spec), trace);
            w.sts.Some? && w.sts.value.image == w.local.snap.spec.version
  {
    ConfigFirst(k, spec, trace);
    Reachable(k, spec, trace);
  }

  // ---- When it waits ----

  /**
   In every run, a StatefulSet that rolls its pods lets the reconciliation pass exactly when all replicas the operator
   asked for are updated and ready and the controller has seen the spec; one that does not roll lets it pass at once.
   */
  lemma StatefulSetGateIff(k: Resource, spec: Spec, trace: seq<Action>)
    requires Legal(k, Init(spec), trace) && At(Replay(k, Init(spec), trace), StsWait)
    ensures var w := Replay(k, Init(spec), trace);
            && w.sts.Some?
            && (Enabled(k, w, PassSts) <==>
                var sts := w.sts.value;
                sts.strategy == OnDelete || (sts.updated == sts.replicas && sts.ready == sts.replicas && sts.observed))
  {
    Reachable(k, spec, trace);
  }

  /**
   A write that changes the StatefulSet and lets it roll is never taken for ready before the controller has seen it.
   */
  lemma FreshWriteWaits(k: Resource, w: World)
    requires Inv(w) && Enabled(k, w, PutSts) && w.sts.Some?
    ensures var r := Apply(k, w, PutSts);
            var was, now := w.sts.value, r.sts.value;
            && r.sts.Some?
            && (was.replicas != now.replicas || was.image != now.image || was.strategy != now.strategy ==>
                  Enabled(k, r, PassSts) ==> now.strategy == OnDelete)
            && (was.replicas == now.replicas && was.image == now.image && was.strategy == now.strategy ==> was == now)
  {}

  /** What it writes: the step's replicas, the spec's version, and OnDelete exactly while a version changes. */
  lemma StatefulSetWritten(k: Resource, spec: Spec, trace: seq<Action>)
    requires Legal(k, Init(spec), trace) && Enabled(k, Replay(k, Init(spec), trace), PutSts)
    ensures var w := Replay(k, Init(spec), trace);
            var s, sts := w.local.snap, Apply(k, w, PutSts).sts.value;
            && sts.image == s.spec.version
            && (s.members == 0 ==> sts.replicas == s.spec.members)
            && (s.members > 0 ==>
                  sts.replicas == (if s.members < s.spec.members then s.members + 1
                                   else if s.members > s.spec.members then s.members - 1 else s.members))
            && (sts.strategy == OnDelete <==>
                s.saved.Some? && s.saved.value.version != "" && s.saved.value.version != s.spec.version)
  {
    Reachable(k, spec, trace);
  }
}
