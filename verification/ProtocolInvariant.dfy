/** What holds in every reachable state of the reconcile protocol. */
module ProtocolInvariant {
  import opened Wrappers
  import opened AutomationConfig
  import opened Builder
  import opened Protocol
  import opened WrittenConfig
  import ConfigHistory

  /** The member count of the stored config; 0 when none is stored. */
  function AcCount(w: World): (n: nat) { if w.stored.Holding? then |w.stored.config.processes| else 0 }

  function StsCount(w: World): (n: int) { if w.sts.Some? then w.sts.value.replicas else 0 }

  /** The running reconciliation has written the config. */
  predicate AcWritten(l: Local)
    requires l.Busy?
  {
    l.pc.AcWait? || l.pc.ResetStrategy? || l.pc.StatusWrite? || l.pc.SaveSpec?
    || (l.inOrder && (l.pc.StsWrite? || l.pc.StsWait?))
  }

  /** The running reconciliation has written the StatefulSet. */
  predicate StsWritten(l: Local)
    requires l.Busy?
  {
    l.pc.StsWait? || l.pc.ResetStrategy? || l.pc.StatusWrite? || l.pc.SaveSpec?
    || (!l.inOrder && (l.pc.AcWrite? || l.pc.AcWait?))
  }

  ghost predicate BusyInv(w: World)
    requires w.local.Busy?
  {
    var s := w.local.snap;
    && s.members == s.replicas >= 0 && s.saved == w.saved && Validates(s.spec, s.saved)
    && w.members == (if w.local.pc.SaveSpec? then AcMembers(s) else s.members)
    && (w.local.pc.SaveSpec? ==> AcMembers(s) == s.spec.members)
    && (AcWritten(w.local) ==> w.stored.Holding? && Reflects(w.stored.config, s))
    && (w.local.pc.AcWait? ==> w.local.pc.version == w.stored.config.version)
    && (StsWritten(w.local) ==>
          && w.sts.Some? && w.sts.value.replicas == StsReplicas(s) && w.sts.value.image == s.spec.version
          && w.sts.value.strategy ==
             if w.local.pc.StatusWrite? || w.local.pc.SaveSpec? then RollingUpdate else UpdateStrategyType(s))
  }

  ghost predicate Inv(w: World) {
    && w.members == w.replicas >= 0
    && ConfigHistory.WellStored(w.stored) && (w.stored.Holding? ==> AcCount(w) >= 1)
    && (w.sts.Some? ==> StsCount(w) >= 1)
    && (w.members >= 1 ==>
          && w.stored.Holding? && w.sts.Some?
          && -1 <= AcCount(w) - w.members <= 1 && -1 <= StsCount(w) - w.members <= 1)
    && (w.saved.Some? ==> w.members >= 1)
    && (w.local.Busy? ==> BusyInv(w))
  }

  lemma PutAcKeepsInv(k: Resource, w: World, auth: Auth, certificate: string)
    requires Inv(w) && Enabled(k, w, PutAc(auth, certificate))
    ensures var r := Apply(k, w, PutAc(auth, certificate)); Inv(r) && AcCount(r) == AcMembers(w.local.snap)
  {
    hide EnsureSecret, Desired, ConfigHistory.WellStored;
    var s := w.local.snap;
    PutAcWrites(k, w, s, auth, certificate);
    var e := EnsureSecret(w.stored, Desired(k, w, s, auth, certificate).value);
    assert |e.1.config.processes| == AcMembers(s);
  }

  lemma PutStsKeepsInv(k: Resource, w: World)
    requires Inv(w) && Enabled(k, w, PutSts)
    ensures Inv(Apply(k, w, PutSts))
  {
    hide ConfigHistory.WellStored, Reflects;
  }

  /** Users, pods and the StatefulSet controller. */
  lemma EnvironmentKeepsInv(k: Resource, w: World, a: Action)
    requires Inv(w) && Enabled(k, w, a) && IsEnvironment(a)
    ensures Inv(Apply(k, w, a))
  {
    hide Desired, EnsureSecret, ConfigHistory.WellStored, Reflects;
  }

  /** The end of a reconciliation, once both gates are behind it. */
  lemma ConclusionKeepsInv(k: Resource, w: World, a: Action)
    requires Inv(w) && Enabled(k, w, a) && (a.Reset? || a.PutStatus? || a.Save?)
    ensures Inv(Apply(k, w, a))
  {
    hide Desired, EnsureSecret, ConfigHistory.WellStored, Secured;
  }

  /** Steps that write nothing but the phase. */
  lemma MoveKeepsInv(k: Resource, w: World, a: Action)
    requires Inv(w) && Enabled(k, w, a)
    requires a.Begin? || a.Refuse? || a.Choose? || a.PassAc? || a.PassSts? || a.GiveUp?
    ensures Inv(Apply(k, w, a))
  {
    hide Desired, EnsureSecret, ConfigHistory.WellStored, Reflects;
  }

  lemma StepKeepsInv(k: Resource, w: World, a: Action)
    requires Inv(w) && Enabled(k, w, a)
    ensures Inv(Apply(k, w, a))
  {
    hide Inv, Enabled, Apply;
    match a
    case EditSpec(_) => EnvironmentKeepsInv(k, w, a);
    case StsMoves(_, _, _) => EnvironmentKeepsInv(k, w, a);
    case PodsMove(_) => EnvironmentKeepsInv(k, w, a);
    case PutAc(auth, certificate) => PutAcKeepsInv(k, w, auth, certificate);
    case PutSts => PutStsKeepsInv(k, w);
    case Reset => ConclusionKeepsInv(k, w, a);
    case PutStatus => ConclusionKeepsInv(k, w, a);
    case Save => ConclusionKeepsInv(k, w, a);
    case _ => MoveKeepsInv(k, w, a);
  }

  lemma {:induction false} Reachable(k: Resource, spec: Spec, trace: seq<Action>)
    requires Legal(k, Init(spec), trace)
    ensures Inv(Replay(k, Init(spec), trace))
  {
    InvKept(k, Init(spec), trace);
  }

  lemma {:induction false} InvKept(k: Resource, w: World, trace: seq<Action>)
    requires Inv(w) && Legal(k, w, trace)
    ensures Inv(Replay(k, w, trace))
  {
    if trace != [] {
      var before := trace[..|trace| - 1];
      InvKept(k, w, before);
      StepKeepsInv(k, Replay(k, w, before), trace[|trace| - 1]);
    }
  }
}
