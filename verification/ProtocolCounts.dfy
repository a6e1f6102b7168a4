/** Member counts over whole runs: how close status, config and StatefulSet stay. */
module ProtocolCounts {
  import opened Scale
  import opened Builder
  import opened Protocol
  import opened WrittenConfig
  import opened ProtocolInvariant

  /**
   In every reachable state the two counts agree, and after first deployment config and StatefulSet stay within one of
   them.
   */
  lemma CountsStayClose(k: Resource, spec: Spec, trace: seq<Action>)
    requires Legal(k, Init(spec), trace)
    ensures var w := Replay(k, Init(spec), trace);
            && w.members == w.replicas >= 0
            && (w.members >= 1 ==> AcCount(w) >= 1 && StsCount(w) >= 1
                                   && Distance(AcCount(w), w.members) <= 1 && Distance(StsCount(w), w.members) <= 1)
  {
    Reachable(k, spec, trace);
  }

  lemma StaysPositive(k: Resource, w: World, a: Action)
    requires Inv(w) && Enabled(k, w, a) && w.members >= 1
    ensures Apply(k, w, a).members >= 1
  {
    hide Reflects, Desired, EnsureSecret;
  }

  /** Once deployed, a resource stays deployed. */
  lemma {:induction false} CountStaysPositive(k: Resource, spec: Spec, trace: seq<Action>, n: nat)
    requires Legal(k, Init(spec), trace) && n <= |trace| && StateAt(k, Init(spec), trace, n).members >= 1
    ensures Replay(k, Init(spec), trace).members >= 1
  {
    if n == |trace| {
      assert trace[..n] == trace;
    } else {
      var before := trace[..|trace| - 1];
      assert before[..n] == trace[..n];
      CountStaysPositive(k, spec, before, n);
      Reachable(k, spec, before);
      StaysPositive(k, Replay(k, Init(spec), before), trace[|trace| - 1]);
    }
  }

  /** The counts move only with a status write, by at most one after first deployment; then all four agree. */
  lemma CountsMove(k: Resource, spec: Spec, trace: seq<Action>, a: Action)
    requires Legal(k, Init(spec), trace) && Enabled(k, Replay(k, Init(spec), trace), a)
    ensures var w := Replay(k, Init(spec), trace);
            var r := Apply(k, w, a);
            if !a.PutStatus? then r.members == w.members && r.replicas == w.replicas
            else && r.members == r.replicas == AcCount(r) == StsCount(r) >= 1
                 && (w.members >= 1 ==> Distance(w.members, r.members) <= 1)
                 && r.sts.value.strategy == RollingUpdate && r.sts.value.image == w.local.snap.spec.version
                 && (r.phase == Running <==> r.members == w.local.snap.spec.members)
  {
    Reachable(k, spec, trace);
  }

  /**
   Consecutive published member counts differ by at most two, and by two exactly when the published count and the
   desired one lie on opposite sides of the status count: the user reversed the direction in the middle of a step.
   */
  lemma PublishedCounts(k: Resource, spec: Spec, trace: seq<Action>, a: Action)
    requires Legal(k, Init(spec), trace) && Enabled(k, Replay(k, Init(spec), trace), a)
    requires Replay(k, Init(spec), trace).members >= 1
    ensures var w := Replay(k, Init(spec), trace);
            var r := Apply(k, w, a);
            if !a.PutAc? then AcCount(r) == AcCount(w)
            else
              var d := w.local.snap.spec.members;
              && Distance(AcCount(w), AcCount(r)) <= 2
              && (Distance(AcCount(w), AcCount(r)) == 2 <==> AcCount(w) < w.members < d || d < w.members < AcCount(w))
  {
    Reachable(k, spec, trace);
    var w := Replay(k, Init(spec), trace);
    if a.PutAc? { PutAcKeepsInv(k, w, a.auth, a.certificate); }
  }
}
