/** Upgrade strategy safety and the TLS latch over whole runs. */
module ProtocolUpgrade {
  import opened Wrappers
  import opened Builder
  import opened Protocol
  import opened WrittenConfig
  import opened ProtocolInvariant

  // ---- Upgrade strategy ----

  /**
   Step h is the config gate of a reconciliation with this snapshot. It lets through the stored config, all of whose
   processes run the snapshot's version: every agent has reached it, or no pod exists. Only before the first deployment
   may the StatefulSet itself be missing.
   */
  ghost predicate Accepts(k: Resource, w: World, trace: seq<Action>, h: int, s: Snapshot) {
    && 0 <= h < |trace| && trace[h].PassAc? && Legal(k, w, trace[..h])
    && var v := Replay(k, w, trace[..h]);
       && v.stored.Holding? && v.local.Busy? && v.local.pc == AcWait(v.stored.config.version)
       && v.local.snap == s && (s.saved.Some? ==> v.sts.Some?)
       && (forall i :: 0 <= i < |v.stored.config.processes| ==>
             v.stored.config.processes[i].version == s.spec.version)
       && (v.sts.None? || AllReached(v.pods, StsReplicas(s), v.stored.config.version))
  }

  /** No reconciliation ends or begins between two points of the run. */
  predicate SameReconciliation(trace: seq<Action>, from: int, to: int) {
    forall j :: from <= j < to && 0 <= j < |trace| ==> Continuing(trace[j])
  }

  /** The config gate was passed by the reconciliation that is still running. */
  ghost predicate AcceptedNow(k: Resource, w: World, trace: seq<Action>, s: Snapshot) {
    exists h :: Accepts(k, w, trace, h, s) && SameReconciliation(trace, h, |trace|)
  }

  /**
   The reconciliation with this snapshot let its config through at step h and had passed both gates after step `to`, and
   no deployment has written the StatefulSet since.
   */
  ghost predicate Gated(k: Resource, w: World, trace: seq<Action>, s: Snapshot) {
    exists h, to :: GatedAt(k, w, trace, s, h, to)
  }

  /** So it was for a reconciliation that was changing to this version. */
  ghost predicate Upgraded(k: Resource, w: World, trace: seq<Action>, version: string) {
    exists s: Snapshot :: s.spec.version == version && IsChangingVersion(s) && Gated(k, w, trace, s)
  }

  ghost predicate GatedAt(k: Resource, w: World, trace: seq<Action>, s: Snapshot, h: int, to: int) {
    && Accepts(k, w, trace, h, s) && h <= to < |trace| && (trace[to].PassAc? || trace[to].PassSts?)
    && Legal(k, w, trace[..to + 1]) && At(Replay(k, w, trace[..to + 1]), ResetStrategy)
    && Replay(k, w, trace[..to + 1]).local.snap == s
    && SameReconciliation(trace, h, to)
    && forall j :: to < j < |trace| ==> !trace[j].PutSts?
  }

  /** Once accepted in a run, accepted in every longer run. */
  lemma AcceptsLonger(k: Resource, w: World, trace: seq<Action>, h: int, s: Snapshot)
    requires trace != [] && Accepts(k, w, trace[..|trace| - 1], h, s)
    ensures Accepts(k, w, trace, h, s)
  {
    assert trace[..|trace| - 1][..h] == trace[..h];
  }

  lemma AcceptedNowLonger(k: Resource, w: World, trace: seq<Action>, s: Snapshot)
    requires trace != [] && AcceptedNow(k, w, trace[..|trace| - 1], s)
             && SameReconciliation(trace, |trace| - 1, |trace|)
    ensures AcceptedNow(k, w, trace, s)
  {
    var before := trace[..|trace| - 1];
    var h :| Accepts(k, w, before, h, s) && SameReconciliation(before, h, |before|);
    AcceptsLonger(k, w, trace, h, s);
    assert SameReconciliation(trace, h, |trace|) by {
      forall j | h <= j < |trace| ensures Continuing(trace[j]) {
        if j < |before| { assert before[j] == trace[j]; }
      }
    }
  }

  lemma GatedLonger(k: Resource, w: World, trace: seq<Action>, s: Snapshot)
    requires trace != [] && Gated(k, w, trace[..|trace| - 1], s) && !trace[|trace| - 1].PutSts?
    ensures Gated(k, w, trace, s)
  {
    var before := trace[..|trace| - 1];
    var h, to :| GatedAt(k, w, before, s, h, to);
    AcceptsLonger(k, w, trace, h, s);
    assert before[..to + 1] == trace[..to + 1];
    forall j | to < j < |trace| ensures !trace[j].PutSts? {
      if j < |before| { assert before[j] == trace[j]; }
    }
    assert SameReconciliation(trace, h, to) by {
      forall j | h <= j < to ensures Continuing(trace[j]) {
        assert before[j] == trace[j];
      }
    }
    assert GatedAt(k, w, trace, s, h, to);
  }

  /** The gate's step itself. */
  lemma PassAccepts(k: Resource, w: World, trace: seq<Action>)
    requires Inv(w) && Legal(k, w, trace) && trace != [] && trace[|trace| - 1].PassAc?
    ensures var v := Replay(k, w, trace[..|trace| - 1]);
            && Accepts(k, w, trace, |trace| - 1, v.local.snap)
            && AcceptedNow(k, w, trace, v.local.snap)
            && (!v.local.inOrder ==> Gated(k, w, trace, v.local.snap))
  {
    var before := trace[..|trace| - 1];
    InvKept(k, w, before);
    var v := Replay(k, w, before);
    var s := v.local.snap;
    assert Accepts(k, w, trace, |trace| - 1, s);
    assert SameReconciliation(trace, |trace| - 1, |trace|);
    assert trace[..|trace|] == trace;
    assert !v.local.inOrder ==> GatedAt(k, w, trace, s, |trace| - 1, |trace| - 1);
  }

  lemma ContinuesThrough(before: seq<Action>, trace: seq<Action>, from: int, to: int)
    requires before <= trace && to <= |before| && SameReconciliation(before, from, to)
    ensures SameReconciliation(trace, from, to)
  {
    forall j | from <= j < to && 0 <= j < |trace| ensures Continuing(trace[j]) { assert before[j] == trace[j]; }
  }

  /** The second gate of a reconciliation that began with the config. */
  lemma PassStsGates(k: Resource, w: World, trace: seq<Action>, s: Snapshot)
    requires Legal(k, w, trace) && trace != [] && trace[|trace| - 1].PassSts?
    requires AcceptedNow(k, w, trace[..|trace| - 1], s)
    requires At(Replay(k, w, trace), ResetStrategy) && Replay(k, w, trace).local.snap == s
    ensures Gated(k, w, trace, s)
  {
    hide Legal, Replay, SameReconciliation, Accepts;
    var before := trace[..|trace| - 1];
    var h :| Accepts(k, w, before, h, s) && SameReconciliation(before, h, |before|);
    assert 0 <= h < |before| by { AcceptsWithin(k, w, before, h, s); }
    AcceptsLonger(k, w, trace, h, s);
    ContinuesThrough(before, trace, h, |before|);
    assert trace[..|before| + 1] == trace;
    assert GatedAt(k, w, trace, s, h, |before|);
  }

  lemma AcceptsWithin(k: Resource, w: World, trace: seq<Action>, h: int, s: Snapshot)
    requires Accepts(k, w, trace, h, s)
    ensures 0 <= h < |trace|
  {}

  /** The history every state of a run carries with it. */
  ghost predicate History(k: Resource, w: World, trace: seq<Action>)
    requires Legal(k, w, trace)
  {
    var r := Replay(k, w, trace);
    && (Following(r) ==> AcceptedNow(k, w, trace, r.local.snap))
    && (Deployed(r) ==> Gated(k, w, trace, r.local.snap))
    && (Exposed(r) ==> Upgraded(k, w, trace, r.sts.value.image))
  }

  /** The pods may be replaced at will by ones running a version other than the last applied. */
  predicate Exposed(r: World) {
    && r.sts.Some? && r.sts.value.strategy == RollingUpdate
    && LastVersion(r.saved) != "" && r.sts.value.image != LastVersion(r.saved)
  }

  lemma {:induction false} HistoryKept(k: Resource, spec: Spec, trace: seq<Action>)
    requires Legal(k, Init(spec), trace)
    ensures History(k, Init(spec), trace)
  {
    if trace != [] {
      var w := Init(spec);
      var before, a := trace[..|trace| - 1], trace[|trace| - 1];
      HistoryKept(k, spec, before);
      Reachable(k, spec, before);
      HistoryStep(k, w, trace);
    }
  }

  /** The config went first and was accepted; the StatefulSet is being deployed. */
  predicate Following(r: World) { r.local.Busy? && r.local.inOrder && (r.local.pc.StsWrite? || r.local.pc.StsWait?) }

  /** Both gates are behind. */
  predicate Deployed(r: World) {
    r.local.Busy? && (r.local.pc.ResetStrategy? || r.local.pc.StatusWrite? || r.local.pc.SaveSpec?)
  }

  predicate Continuing(a: Action) { !a.Begin? && !a.GiveUp? && !a.Save? && !a.PutStatus? }

  /** Where the three kinds of state come from. */
  lemma StepOrigins(k: Resource, v: World, a: Action)
    requires Inv(v) && Enabled(k, v, a)
    ensures var r := Apply(k, v, a);
            && (Following(r) ==>
                  v.local.Busy? && r.local.snap == v.local.snap && (a.PassAc? || (Following(v) && Continuing(a))))
            && (Deployed(r) ==> && v.local.Busy? && r.local.snap == v.local.snap && !a.PutSts?
                                && if a.PassAc? then !v.local.inOrder
                                   else if a.PassSts? then Following(v) && r.local.pc.ResetStrategy?
                                   else Deployed(v))
            && (Exposed(r) ==> && !a.PutSts? && v.sts.Some? && v.sts.value.image == r.sts.value.image
                               && (Exposed(v) || (&& Deployed(v) && v.local.snap.spec.version == r.sts.value.image
                                                  && IsChangingVersion(v.local.snap))))
  {
    hide Reflects, Desired, EnsureSecret;
  }

  lemma FollowingStep(k: Resource, w: World, trace: seq<Action>)
    requires Inv(w) && Legal(k, w, trace) && trace != [] && Inv(Replay(k, w, trace[..|trace| - 1]))
    requires History(k, w, trace[..|trace| - 1]) && Following(Replay(k, w, trace))
    ensures AcceptedNow(k, w, trace, Replay(k, w, trace).local.snap)
  {
    var before, a := trace[..|trace| - 1], trace[|trace| - 1];
    var v, r := Replay(k, w, before), Replay(k, w, trace);
    assert r == Apply(k, v, a);
    StepOrigins(k, v, a);
    hide Inv, Legal, Replay, Apply, Enabled, AcceptedNow, Gated, Accepts, SameReconciliation;
    if a.PassAc? {
      PassAccepts(k, w, trace);
    } else {
      Continues(trace);
      AcceptedNowLonger(k, w, trace, r.local.snap);
    }
  }

  lemma DeployedStep(k: Resource, w: World, trace: seq<Action>)
    requires Inv(w) && Legal(k, w, trace) && trace != [] && Inv(Replay(k, w, trace[..|trace| - 1]))
    requires History(k, w, trace[..|trace| - 1]) && Deployed(Replay(k, w, trace))
    ensures Gated(k, w, trace, Replay(k, w, trace).local.snap)
  {
    var before, a := trace[..|trace| - 1], trace[|trace| - 1];
    var v, r := Replay(k, w, before), Replay(k, w, trace);
    assert r == Apply(k, v, a);
    StepOrigins(k, v, a);
    hide Inv, Legal, Replay, Apply, Enabled, AcceptedNow, Gated, Accepts, SameReconciliation;
    if a.PassAc? {
      PassAccepts(k, w, trace);
    } else if a.PassSts? {
      PassStsGates(k, w, trace, r.local.snap);
    } else {
      GatedLonger(k, w, trace, r.local.snap);
    }
  }

  lemma ExposedStep(k: Resource, w: World, trace: seq<Action>)
    requires Inv(w) && Legal(k, w, trace) && trace != [] && Inv(Replay(k, w, trace[..|trace| - 1]))
    requires History(k, w, trace[..|trace| - 1]) && Exposed(Replay(k, w, trace))
    ensures Upgraded(k, w, trace, Replay(k, w, trace).sts.value.image)
  {
    var before, a := trace[..|trace| - 1], trace[|trace| - 1];
    var v, r := Replay(k, w, before), Replay(k, w, trace);
    assert r == Apply(k, v, a);
    StepOrigins(k, v, a);
    hide Inv, Legal, Replay, Apply, Enabled, AcceptedNow, Gated, IsChangingVersion;
    var image := r.sts.value.image;
    var s: Snapshot;
    if Exposed(v) {
      s :| s.spec.version == image && IsChangingVersion(s) && Gated(k, w, before, s);
    } else {
      s := v.local.snap;
    }
    GatedLonger(k, w, trace, s);
  }

  lemma HistoryStep(k: Resource, w: World, trace: seq<Action>)
    requires Inv(w) && Legal(k, w, trace) && trace != [] && Inv(Replay(k, w, trace[..|trace| - 1]))
    requires History(k, w, trace[..|trace| - 1])
    ensures History(k, w, trace)
  {
    var v, r := Replay(k, w, trace[..|trace| - 1]), Replay(k, w, trace);
    assert r == Apply(k, v, trace[|trace| - 1]);
    StepOrigins(k, v, trace[|trace| - 1]);
    hide Inv, Legal, Replay, Apply, Enabled, AcceptedNow, Gated, Upgraded, Exposed, Following, Deployed;
    if Following(r) { FollowingStep(k, w, trace); }
    if Deployed(r) { DeployedStep(k, w, trace); }
    if Exposed(r) { ExposedStep(k, w, trace); }
  }

  lemma Continues(trace: seq<Action>)
    requires trace != [] && Continuing(trace[|trace| - 1])
    ensures SameReconciliation(trace, |trace| - 1, |trace|)
  {}

  /**
   Upgrade safety: when a StatefulSet may roll its pods to a version other than the last applied one, a reconciliation
   that was changing to that version has passed both gates, the first of them with the StatefulSet in place and every
   agent at a config of that version, or no pod there at all.
   */
  lemma RollingOnlyWhenGated(k: Resource, spec: Spec, trace: seq<Action>) returns (s: Snapshot, h: nat, to: nat)
    requires Legal(k, Init(spec), trace) && Exposed(Replay(k, Init(spec), trace))
    ensures s.spec.version == Replay(k, Init(spec), trace).sts.value.image && IsChangingVersion(s)
    ensures GatedAt(k, Init(spec), trace, s, h, to)
    ensures h < |trace| && StateAt(k, Init(spec), trace, h).sts.Some?
  {
    HistoryKept(k, spec, trace);
    var w, image := Init(spec), Replay(k, Init(spec), trace).sts.value.image;
    assert Upgraded(k, w, trace, image);
    s :| s.spec.version == image && IsChangingVersion(s) && Gated(k, w, trace, s);
    var a, b :| GatedAt(k, w, trace, s, a, b);
    h, to := a, b;
  }

  // ---- TLS latch ----

  predicate Latched(w: World) { w.saved.Some? && w.saved.value.tls }

  ghost predicate LatchInv(w: World) {
    Latched(w) ==> w.stored.Holding? && Secured(w.stored.config) && (w.local.Busy? ==> w.local.snap.spec.tls)
  }

  lemma LatchStep(k: Resource, w: World, a: Action)
    requires Inv(w) && LatchInv(w) && Enabled(k, w, a)
    ensures LatchInv(Apply(k, w, a)) && (Latched(w) ==> Latched(Apply(k, w, a)))
  {
    hide Secured, Desired, EnsureSecret;
    if a.PutAc? { PutAcKeepsInv(k, w, a.auth, a.certificate); }
  }

  lemma {:induction false} LatchKept(k: Resource, spec: Spec, trace: seq<Action>)
    requires Legal(k, Init(spec), trace)
    ensures LatchInv(Replay(k, Init(spec), trace))
  {
    if trace != [] {
      var before := trace[..|trace| - 1];
      LatchKept(k, spec, before);
      Reachable(k, spec, before);
      LatchStep(k, Replay(k, Init(spec), before), trace[|trace| - 1]);
    }
  }

  /**
   Once a configuration with TLS was saved as successful, at step n, then ever after: every config stored carries the
   operator's TLS settings in all its processes, every reconciliation under way has TLS on, and none with TLS off
   begins.
   */
  lemma {:induction false} TlsLatch(k: Resource, spec: Spec, trace: seq<Action>, n: nat)
    requires Legal(k, Init(spec), trace) && n <= |trace| && Latched(StateAt(k, Init(spec), trace, n))
    ensures var w := Replay(k, Init(spec), trace);
            && Latched(w) && w.stored.Holding? && Secured(w.stored.config) && (w.local.Busy? ==> w.local.snap.spec.tls)
            && (!w.spec.tls ==> !Enabled(k, w, Begin))
  {
    LatchKept(k, spec, trace);
    if n == |trace| {
      assert trace[..n] == trace;
    } else {
      var before := trace[..|trace| - 1];
      assert before[..n] == trace[..n];
      TlsLatch(k, spec, before, n);
      Reachable(k, spec, before);
      LatchStep(k, Replay(k, Init(spec), before), trace[|trace| - 1]);
    }
  }
}
