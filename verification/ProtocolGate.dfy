/** The goal-state gate within a protocol run: what a passed gate says about the config that the run stored. */
module ProtocolGate {
  import opened Wrappers
  import opened Builder
  import opened Protocol
  import opened ProtocolInvariant
  import opened ProtocolConfigs
  import ConfigHistory
  import GoalState

  /** A probe reports no version that has not been published; this is what GoalState shows of every probe run. */
  predicate HonestStep(w: World, a: Action) {
    a.PodsMove? ==> forall i :: i in a.pods && a.pods[i].Some? ==>
      || (i in w.pods && w.pods[i] == a.pods[i])
      || a.pods[i].value <= ConfigHistory.VersionOf(w.stored)
  }

  predicate Honest(k: Resource, w: World, trace: seq<Action>)
    requires Legal(k, w, trace)
  {
    trace == [] || (
      var before := trace[..|trace| - 1];
      Honest(k, w, before) && HonestStep(Replay(k, w, before), trace[|trace| - 1]))
  }

  /** At step q the pod came to report the version, which had been published by then. */
  ghost predicate ReportedAt(k: Resource, w: World, trace: seq<Action>, pod: nat, version: int, q: nat)
    requires Legal(k, w, trace)
  {
    && q < |trace| && trace[q].PodsMove? && pod in trace[q].pods && trace[q].pods[pod] == Some(version)
    && version <= ConfigHistory.VersionOf(StateAt(k, w, trace, q).stored)
  }

  /** Every annotation in the cluster goes back to such a step. */
  ghost predicate AllReported(k: Resource, w: World, trace: seq<Action>)
    requires Legal(k, w, trace)
  {
    var pods := Replay(k, w, trace).pods;
    forall i :: i in pods && pods[i].Some? ==> exists q :: ReportedAt(k, w, trace, i, pods[i].value, q)
  }

  lemma ReportedLonger(k: Resource, w: World, trace: seq<Action>, pod: nat, version: int, q: nat)
    requires Legal(k, w, trace) && trace != [] && Legal(k, w, trace[..|trace| - 1])
    requires ReportedAt(k, w, trace[..|trace| - 1], pod, version, q)
    ensures ReportedAt(k, w, trace, pod, version, q)
  {
    assert trace[..|trace| - 1][..q] == trace[..q];
  }

  lemma PodsStep(k: Resource, w: World, a: Action)
    requires Enabled(k, w, a)
    ensures Apply(k, w, a).pods == if a.PodsMove? then a.pods else w.pods
  {}

  lemma {:induction false} EveryReportIsHonest(k: Resource, spec: Spec, trace: seq<Action>)
    requires Legal(k, Init(spec), trace) && Honest(k, Init(spec), trace)
    ensures AllReported(k, Init(spec), trace)
  {
    var w := Init(spec);
    if trace != [] {
      var before, a := trace[..|trace| - 1], trace[|trace| - 1];
      EveryReportIsHonest(k, spec, before);
      var v, r := Replay(k, w, before), Replay(k, w, trace);
      assert r == Apply(k, v, a);
      PodsStep(k, v, a);
      assert StateAt(k, w, trace, |before|) == v;
      hide Legal, Replay, Apply, Enabled, StateAt;
      forall i | i in r.pods && r.pods[i].Some? ensures exists q :: ReportedAt(k, w, trace, i, r.pods[i].value, q) {
        if i in v.pods && v.pods[i] == r.pods[i] {
          var q :| ReportedAt(k, w, before, i, v.pods[i].value, q);
          ReportedLonger(k, w, trace, i, v.pods[i].value, q);
        } else {
          assert ReportedAt(k, w, trace, i, r.pods[i].value, |before|);
        }
      }
    }
  }

  /**
   The gate and the protocol together: when a run passes the config gate with the StatefulSet in place and any of its
   pods present, then all of them are, and each came to report the awaited version at a step at which the secret already
   held the very config that the gate lets through.
   */
  lemma GateSeesThisConfig(k: Resource, spec: Spec, trace: seq<Action>, pod: nat) returns (q: nat)
    requires Legal(k, Init(spec), trace) && Honest(k, Init(spec), trace)
    requires var v := Replay(k, Init(spec), trace);
             && Enabled(k, v, PassAc) && v.sts.Some? && pod < StsReplicas(v.local.snap)
             && exists i :: 0 <= i < StsReplicas(v.local.snap) && i in v.pods
    ensures var v := Replay(k, Init(spec), trace);
            && v.stored.Holding? && pod in v.pods && v.pods[pod] == Some(v.stored.config.version)
            && q < |trace| && trace[q].PodsMove? && pod in trace[q].pods
            && trace[q].pods[pod] == Some(v.stored.config.version)
            && StateAt(k, Init(spec), trace, q).stored == v.stored
  {
    var w, v := Init(spec), Replay(k, Init(spec), trace);
    Reachable(k, spec, trace);
    EveryReportIsHonest(k, spec, trace);
    assert v.pods[pod] == Some(v.stored.config.version);
    q :| ReportedAt(k, w, trace, pod, v.stored.config.version, q);
    VersionIdentifiesConfig(k, spec, trace, q);
  }

  /**
   Each probe report of the interleaved model is such an honest step: it names no version above the latest published.
   */
  lemma ProbesAreHonest(es: seq<GoalState.Event>, pod: nat)
    requires GoalState.Legal(es) && pod in GoalState.Exec(es).pods && GoalState.Exec(es).pods[pod].annotation.Some?
    ensures GoalState.Exec(es).pods[pod].annotation.value.value <= GoalState.Latest(GoalState.Exec(es))
  {
    GoalState.RunInv(es);
    var w := GoalState.Exec(es);
    assert GoalState.Genuine(es, w, pod, w.pods[pod].annotation.value);
  }
}
