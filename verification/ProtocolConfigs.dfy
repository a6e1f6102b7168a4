/** The stored configs along a protocol run: their history and their data-bearing members. */
module ProtocolConfigs {
  import opened Wrappers
  import opened Scale
  import opened AutomationConfig
  import opened Builder
  import opened Protocol
  import opened WrittenConfig
  import opened ProtocolInvariant
  import opened ProtocolProgress
  import ConfigHistory
  import SemVer

  // ---- The protocol's configs are a history ----

  /** What the run's config writes were built from, in order. */
  function Published(k: Resource, w: World, trace: seq<Action>): (xs: seq<Inputs>)
    requires Legal(k, w, trace)
  {
    if trace == [] then []
    else
      var before, a := trace[..|trace| - 1], trace[|trace| - 1];
      Published(k, w, before) +
      (if a.PutAc? then [BuildInputs(k, Replay(k, w, before).local.snap, a.auth, a.certificate)] else [])
  }

  lemma StoredStep(k: Resource, v: World, a: Action)
    requires Inv(v) && Enabled(k, v, a)
    ensures Apply(k, v, a).stored ==
            if a.PutAc? then
              ConfigHistory.Advance(k.lib, v.stored, BuildInputs(k, v.local.snap, a.auth, a.certificate))
            else v.stored
  {
    if a.PutAc? { PutAcWrites(k, v, v.local.snap, a.auth, a.certificate); }
  }

  /** Whatever crashes, edits and failures a run contains, the secret holds what its config writes alone produce. */
  lemma {:induction false} StoredIsRun(k: Resource, spec: Spec, trace: seq<Action>)
    requires Legal(k, Init(spec), trace)
    ensures var xs := Published(k, Init(spec), trace);
            ConfigHistory.BenignRun(xs) && Replay(k, Init(spec), trace).stored == ConfigHistory.Run(k.lib, xs)
  {
    if trace != [] {
      var w := Init(spec);
      var before, a := trace[..|trace| - 1], trace[|trace| - 1];
      StoredIsRun(k, spec, before);
      Reachable(k, spec, before);
      var v := Replay(k, w, before);
      StoredStep(k, v, a);
      hide Legal, Inv, Enabled, Apply, ConfigHistory.Advance;
      var xs := Published(k, w, trace);
      if a.PutAc? {
        InputsBenign(k, v.local.snap, a.auth, a.certificate);
        assert xs[..|xs| - 1] == Published(k, w, before);
      } else {
        assert xs == Published(k, w, before);
      }
    }
  }

  lemma {:induction false} PublishedPrefix(k: Resource, w: World, trace: seq<Action>, n: nat) returns (m: nat)
    requires Legal(k, w, trace) && n <= |trace| && Legal(k, w, trace[..n])
    ensures m <= |Published(k, w, trace)| && Published(k, w, trace[..n]) == Published(k, w, trace)[..m]
  {
    if n == |trace| {
      assert trace[..n] == trace;
      m := |Published(k, w, trace)|;
    } else {
      var before := trace[..|trace| - 1];
      assert before[..n] == trace[..n];
      m := PublishedPrefix(k, w, before, n);
    }
  }

  /**
   Over every run the config version never falls, and between two states with the same version the secret is the same.
   */
  lemma VersionIdentifiesConfig(k: Resource, spec: Spec, trace: seq<Action>, n: nat)
    requires Legal(k, Init(spec), trace) && n <= |trace|
    ensures var earlier, later := StateAt(k, Init(spec), trace, n).stored, Replay(k, Init(spec), trace).stored;
            && ConfigHistory.VersionOf(earlier) <= ConfigHistory.VersionOf(later)
            && (ConfigHistory.VersionOf(earlier) == ConfigHistory.VersionOf(later) ==> earlier == later)
  {
    PrefixLegal(k, Init(spec), trace, n);
    StoredIsRun(k, spec, trace);
    StoredIsRun(k, spec, trace[..n]);
    var m := PublishedPrefix(k, Init(spec), trace, n);
    ConfigHistory.VersionIdentifiesContent(k.lib, Published(k, Init(spec), trace), m);
  }

  /**
   Without explicit settings, every process of the stored config has the least line ever published as its compatibility
   version.
   */
  lemma FcvOverRuns(k: Resource, spec: Spec, trace: seq<Action>)
    requires Legal(k, Init(spec), trace) && SemVer.Lawful(k.lib)
    requires var xs := Published(k, Init(spec), trace);
             forall i :: 0 <= i < |xs| ==> ConfigHistory.Ordinary(k.lib, xs[i])
    ensures var w := Replay(k, Init(spec), trace);
            var least := ConfigHistory.LeastLine(k.lib, Published(k, Init(spec), trace));
            && (w.stored.Holding? <==> least.Some?)
            && (w.stored.Holding? ==> ConfigHistory.UniformFcv(w.stored.config, k.lib.format(least.value)))
  {
    StoredIsRun(k, spec, trace);
    ConfigHistory.FcvIsRunningMinimum(k.lib, Published(k, Init(spec), trace));
  }

  // ---- Data-bearing members ----

  predicate DataBearing(c: Config)
    requires |c.replicaSets| == 1
  {
    var ms := c.replicaSets[0].members; exists i :: 0 <= i < |ms| && !ms[i].arbiterOnly
  }

  /**
   A config in flight has a data-bearing member exactly when there are at most eight arbiters and fewer than its
   members.
   */
  lemma InFlightDataBearing(w: World)
    requires Inv(w) && w.local.Busy? && AcWritten(w.local)
    ensures var s := w.local.snap;
            DataBearing(w.stored.config) <==> s.spec.arbiters <= 8 && s.spec.arbiters < AcMembers(s)
  {
    var s, ms := w.local.snap, w.stored.config.replicaSets[0].members;
    if s.spec.arbiters <= 8 && s.spec.arbiters < AcMembers(s) { assert !ms[s.spec.arbiters].arbiterOnly; }
  }

  /** Along the way to a target the counts are no smaller than both the first step and the target, whichever is less. */
  lemma {:induction false} NeverBelow(c: int, d: int, j: nat)
    requires c >= 1 && d >= 1 && j >= 1
    ensures Toward(c, d, j) >= Min(ReplicasThisReconciliation(c, d), d)
  {
    if j > 1 { NeverBelow(c, d, j - 1); }
  }

  /**
   Over a scaling run without edits: every config in flight holds data if there are at most eight arbiters and fewer
   than the first step's members; and if not, the first config written holds none.
   */
  lemma ScalingRunDataBearing(k: Resource, w: World, trace: seq<Action>)
    requires Inv(w) && w.local.Idle? && w.members >= 1 && Legal(k, w, trace) && EditFree(trace)
    requires var l := Replay(k, w, trace).local; l.Busy? && AcWritten(l)
    ensures var r := Replay(k, w, trace);
            var safe := w.spec.arbiters <= 8 && w.spec.arbiters < ReplicasThisReconciliation(w.members, w.spec.members);
            && r.stored.Holding? && |r.stored.config.replicaSets| == 1
            && (safe ==> DataBearing(r.stored.config))
            && (!safe && Completed(trace) == 0 ==> !DataBearing(r.stored.config))
  {
    hide Legal, Replay, Completed, EditFree, DataBearing, ConfigHistory.WellStored;
    CountAfter(k, w, trace);
    InvKept(k, w, trace);
    var r := Replay(k, w, trace);
    InFlightDataBearing(r);
    assert r.stored.Holding? && |r.stored.config.replicaSets| == 1;
    hide Reflects;
    var j := Completed(trace);
    NeverBelow(w.members, w.spec.members, j + 1);
    if r.local.pc.SaveSpec? { assert AcMembers(r.local.snap) == r.spec.members; }
  }
}
