/** One call of Reconcile as a program: every path through it is a run of the protocol that ends idle. */
module Reconciler {
  import opened Wrappers
  import opened Scale
  import opened AutomationConfig
  import opened Builder
  import opened Protocol
  import opened ProtocolInvariant
  import GoalState

  /**
   How the reconciler fares with its next call to the API server. A crash has the same effect as a call that fails
   followed by a status write that fails too.
   */
  datatype Fate = Fine | NotYet | Fails

  /**
   What happens in one gap between two calls: moves of users, pods and the StatefulSet controller, then the call's
   fate.
   */
  datatype Gap = Gap(moves: seq<Action>, fate: Fate)

  datatype Verdict = Ready | NotReady | Error

  /** StillScaling: the count has moved towards the target. Requeued: the reconciliation stopped on the way. */
  datatype Ending = Finished | StillScaling | Requeued | Rejected

  predicate AllFine(gaps: seq<Gap>) { forall i :: 0 <= i < |gaps| ==> gaps[i].fate == Fine }

  /** Why a reconciliation stops although no call fails: the config cannot be built, or a gate is closed. */
  predicate Stuck(k: Resource, v: World, auth: Auth, certificate: string) {
    v.local.Busy? && var s := v.local.snap;
    || (v.local.pc.AcWrite? && Desired(k, v, s, auth, certificate).None?)
    || (v.local.pc.AcWait? && v.sts.Some? && !AllReached(v.pods, StsReplicas(s), v.local.pc.version))
    || (v.local.pc.StsWait? && v.sts.Some? && !IsReady(v.sts.value, StsReplicas(s)) && v.sts.value.strategy != OnDelete)
  }

  /** The loop over the pods decides the protocol's gate. */
  method GoalStateReached(pods: map<nat, Option<int>>, members: nat, version: int) returns (reached: bool)
    ensures reached <==> AllReached(pods, members, version)
  {
    var read: nat -> GoalState.PodRead := i => if i in pods then GoalState.Pod(pods[i]) else GoalState.NotFound;
    var verdict := GoalState.AllReachedGoalState(read, members, version);
    reached := verdict == GoalState.Accepted;
    assert (forall i: nat :: i < members ==> GoalState.AtGoal(read(i), version)) <==>
           (forall i | 0 <= i < members :: i in pods && pods[i] == Some(version)) by {
      assert forall i: nat :: GoalState.AtGoal(read(i), version) <==> i in pods && pods[i] == Some(version);
    }
    assert (forall i: nat :: i < members ==> read(i).NotFound?) <==> (forall i | 0 <= i < members :: i !in pods) by {
      assert forall i: nat :: read(i).NotFound? <==> i !in pods;
    }
  }

  class ReplicaSetReconciler {
    const k: Resource
    var world: World
    var gaps: seq<Gap>
    ghost const start: World
    ghost var trace: seq<Action>

    /** The world is what the steps recorded so far make of the one at the start. */
    ghost predicate Valid()
      reads this
    {
      Inv(start) && Legal(k, start, trace) && world == Replay(k, start, trace)
    }

    constructor (k: Resource, spec: Spec, gaps: seq<Gap>)
      ensures Valid() && world == start == Init(spec) && this.k == k && this.gaps == gaps && trace == []
    {
      this.k, this.gaps := k, gaps;
      start, world, trace := Init(spec), Init(spec), [];
    }

    method Do(a: Action)
      requires Valid() && Enabled(k, world, a)
      modifies this`world, this`trace
      ensures Valid() && world == Apply(k, old(world), a) && trace == old(trace) + [a]
    {
      OneMore(k, start, trace, a);
      world := Apply(k, world, a);
      trace := trace + [a];
    }

    /** The rest of the cluster moves; the reconciler, the config, the counts and the saved spec stay as they are. */
    method Wait() returns (fate: Fate)
      requires Valid()
      modifies this
      ensures Valid() && old(trace) <= trace && SameForReconciler(old(world), world)
      ensures forall i :: |old(trace)| <= i < |trace| ==> IsEnvironment(trace[i])
      ensures AllFine(old(gaps)) ==> AllFine(gaps) && fate == Fine
    {
      if gaps == [] { return Fine; }
      var gap := gaps[0];
      gaps := gaps[1..];
      for i := 0 to |gap.moves|
        invariant Valid() && old(trace) <= trace && SameForReconciler(old(world), world)
        invariant gaps == old(gaps)[1..]
        invariant forall j :: |old(trace)| <= j < |trace| ==> IsEnvironment(trace[j])
      {
        if IsEnvironment(gap.moves[i]) && Enabled(k, world, gap.moves[i]) { Do(gap.moves[i]); }
      }
      fate := gap.fate;
    }

    /** A running reconciliation works towards at least one replica. */
    lemma StepSize()
      requires Valid() && world.local.Busy?
      ensures StsReplicas(world.local.snap) >= 1
    {
      InvKept(k, start, trace);
    }

    /** Publish the config, then ask whether every agent has reached it. */
    method DeployAutomationConfig(auth: Auth, certificate: string) returns (r: Verdict)
      requires Valid() && At(world, AcWrite)
      modifies this
      ensures Valid() && old(trace) <= trace && SamePass(old(world), world) && SameSts(old(world).sts, world.sts)
      ensures r == Ready ==> world.local.pc == if world.local.inOrder then StsWrite else ResetStrategy
      ensures r != Ready ==> world.local.pc.AcWrite? || world.local.pc.AcWait?
      ensures AllFine(old(gaps)) ==> AllFine(gaps) && (r != Ready ==> Stuck(k, world, auth, certificate))
    {
      hide Legal, Replay, Inv, Desired, EnsureSecret, WrittenSts, Validates, AllReached;
      var fate := Wait();
      if fate != Fine { return Error; }
      if Desired(k, world, world.local.snap, auth, certificate).None? { return Error; }
      Do(PutAc(auth, certificate));
      fate := Wait();
      if fate != Fine { return Error; }
      if world.sts.Some? {
        StepSize();
        var reached := GoalStateReached(world.pods, StsReplicas(world.local.snap), world.local.pc.version);
        if !reached { return NotReady; }
      }
      Do(PassAc);
      r := Ready;
    }

    /** Write the StatefulSet, then ask whether it is ready. */
    method DeployStatefulSet(ghost auth: Auth, ghost certificate: string) returns (r: Verdict)
      requires Valid() && At(world, StsWrite)
      modifies this
      ensures Valid() && old(trace) <= trace && SamePass(old(world), world) && world.stored == old(world.stored)
      ensures r == Ready ==> world.local.pc == if world.local.inOrder then ResetStrategy else AcWrite
      ensures r != Ready ==> world.local.pc.StsWrite? || world.local.pc.StsWait?
      ensures AllFine(old(gaps)) ==> AllFine(gaps) && (r != Ready ==> Stuck(k, world, auth, certificate))
    {
      var fate := Wait();
      if fate != Fine { return Error; }
      Do(PutSts);
      fate := Wait();
      if fate != Fine { return Error; }
      if !IsReady(world.sts.value, StsReplicas(world.local.snap)) && world.sts.value.strategy != OnDelete {
        return NotReady;
      }
      Do(PassSts);
      r := Ready;
    }

    /**
     RunSequentially over the two deployment functions, forwards or backwards. It stops at the first that is not ready,
     so that the other's object is as it was; when no call fails, it stops only at a closed gate or an unbuildable
     config.
     */
    method RunSequentially(auth: Auth, certificate: string) returns (r: Verdict)
      requires Valid() && world.local.Busy? && world.local.pc == (if world.local.inOrder then AcWrite else StsWrite)
      modifies this
      ensures Valid() && old(trace) <= trace && SamePass(old(world), world)
      ensures r == Ready ==> At(world, ResetStrategy)
      ensures r != Ready ==>
                var pc := world.local.pc; pc.AcWrite? || pc.AcWait? || pc.StsWrite? || pc.StsWait?
      ensures r != Ready && world.local.inOrder && (world.local.pc.AcWrite? || world.local.pc.AcWait?) ==>
                SameSts(old(world).sts, world.sts)
      ensures r != Ready && !world.local.inOrder && (world.local.pc.StsWrite? || world.local.pc.StsWait?) ==>
                world.stored == old(world.stored)
      ensures AllFine(old(gaps)) ==> AllFine(gaps) && (r != Ready ==> Stuck(k, world, auth, certificate))
    {
      var inOrder := world.local.inOrder;
      for n := 0 to 2
        invariant Valid() && old(trace) <= trace && SamePass(old(world), world)
        invariant world.local.pc == if n == 2 then ResetStrategy else if (n == 0) == inOrder then AcWrite else StsWrite
        invariant AllFine(old(gaps)) ==> AllFine(gaps)
        invariant n == 0 ==> world == old(world)
      {
        hide Valid, Stuck;
        var which := if inOrder then n else 1 - n;
        if which == 0 {
          r := DeployAutomationConfig(auth, certificate);
        } else {
          r := DeployStatefulSet(auth, certificate);
        }
        if r != Ready { return; }
      }
      r := Ready;
    }

    /** The reconciliation ends early; a crash or a refused status write leaves the phase as it was. */
    method Stop(phase: Phase)
      requires Valid() && world.local.Busy? && phase != Running
      modifies this
      ensures Valid() && world.local.Idle? && |old(trace)| < |trace| && old(trace) <= trace
              && trace[|old(trace)|].GiveUp?
    {
      var fate := if gaps == [] then Fine else gaps[0].fate;
      Do(GiveUp(if fate == Fine then Some(phase) else None));
      fate := Wait();
    }

    /** Step `stop` of the run gives up in a state that leaves no choice. */
    ghost predicate StoppedAt(stop: nat, auth: Auth, certificate: string)
      reads this
    {
      && stop < |trace| && trace[stop].GiveUp? && Legal(k, start, trace[..stop])
      && Stuck(k, Replay(k, start, trace[..stop]), auth, certificate)
    }

    /**
     Validate, deploy in the chosen order, reset the update strategy, write the status, save the spec. Whatever fails,
     the call extends the run by legal steps and ends idle. Rejected exactly for a spec that does not validate.
     Otherwise, when no call fails and no gate is closed, the count takes its step: Finished at the target, with the
     spec saved, and StillScaling before it.
     */
    method Reconcile(auth: Auth, certificate: string) returns (r: Ending, ghost stop: nat)
      requires Valid() && world.local.Idle?
      modifies this
      ensures Valid() && old(trace) <= trace && world.local.Idle?
      ensures r == Rejected <==> !Validates(old(world.spec), old(world.saved))
      ensures r == Rejected ==> world == old(world).(phase := Failing)
      ensures r == Requeued && AllFine(old(gaps)) ==> |old(trace)| < stop && StoppedAt(stop, auth, certificate)
      ensures r == Finished || r == StillScaling ==> Concluded(old(SnapshotOf(world)), world, r)
    {
      hide Legal, Replay, Inv, Desired, EnsureSecret, WrittenSts, ShouldRunInOrder;
      stop := 0;
      if !Validates(world.spec, world.saved) {
        Do(Refuse);
        return Rejected, stop;
      }
      Do(Begin);
      r := Requeued;
      var fate := Wait();
      if fate != Fine { Stop(if fate == NotYet then Pending else Failing); return; }
      Do(Choose);
      var verdict := RunSequentially(auth, certificate);
      if verdict != Ready {
        stop := |trace|;
        ghost var before := trace;
        Stop(if verdict == Error then Failing else Pending);
        assert trace[..stop] == before;
        return;
      }
      r := Conclude();
    }

    /** When the spec is about to be saved both counts are at its member count. */
    lemma CountsAtSave()
      requires Valid() && At(world, SaveSpec)
      ensures world.members == world.replicas == world.local.snap.spec.members
    {
      InvKept(k, start, trace);
    }

    /** Behind both gates the StatefulSet exists, and the two counts still agree. */
    lemma BehindGates()
      requires Valid() && At(world, ResetStrategy)
      ensures var s := world.local.snap; world.sts.Some? && s.members == s.replicas && s.saved == world.saved
    {
      InvKept(k, start, trace);
    }

    /**
     After both gates: reset the update strategy, write the status and, once the target is reached, save the spec.
     When no call fails the counts take their step, and the ending says whether that was the last one.
     */
    method Conclude() returns (r: Ending)
      requires Valid() && At(world, ResetStrategy)
      modifies this
      ensures Valid() && old(trace) <= trace && world.local.Idle? && r != Rejected
      ensures AllFine(old(gaps)) ==> r != Requeued
      ensures r != Requeued ==> Concluded(old(world.local.snap), world, r)
    {
      hide Legal, Replay, Inv, Desired, EnsureSecret, Validates, WrittenSts, Concluded, ShouldRunInOrder, AllReached;
      BehindGates();
      r := Requeued;
      var fate := Wait();
      if fate != Fine { Stop(Failing); return; }
      Do(Reset);
      r := WriteStatus();
    }

    /** The counting status write and, at the target, the saving of the spec. */
    method WriteStatus() returns (r: Ending)
      requires Valid() && At(world, StatusWrite)
      requires var s := world.local.snap; s.members == s.replicas && s.saved == world.saved
      modifies this
      ensures Valid() && old(trace) <= trace && world.local.Idle? && r != Rejected
      ensures AllFine(old(gaps)) ==> r != Requeued
      ensures r != Requeued ==> Concluded(old(world.local.snap), world, r)
    {
      hide Legal, Replay, Inv, Desired, EnsureSecret, Validates, WrittenSts, ShouldRunInOrder, AllReached;
      r := Requeued;
      var fate := Wait();
      if fate != Fine { Do(GiveUp(None)); return; }
      Do(PutStatus);
      if world.local.Idle? { return StillScaling; }
      fate := Wait();
      if fate != Fine { Do(GiveUp(None)); return; }
      CountsAtSave();
      Do(Save);
      r := Finished;
    }
  }

  /** What a reconciliation that reached its counting status write leaves behind. */
  predicate Concluded(s: Snapshot, w: World, r: Ending) {
    && w.members == w.replicas == ReplicasThisReconciliation(s.members, s.spec.members)
    && r == (if w.members == s.spec.members then Finished else StillScaling)
    && w.phase == (if r == Finished then Running else Pending)
    && w.saved == (if r == Finished then Some(s.spec) else s.saved)
  }

  /** The reconciler's own state and what only it writes. */
  predicate SameForReconciler(v: World, r: World) {
    && r.local == v.local && r.stored == v.stored && r.saved == v.saved && r.phase == v.phase
    && r.members == v.members && r.replicas == v.replicas
    && SameSts(v.sts, r.sts)
  }

  /** The part of the StatefulSet that the operator writes. */
  predicate SameSts(v: Option<Sts>, r: Option<Sts>) {
    && r.Some? == v.Some?
    && (v.Some? ==>
          r.value.replicas == v.value.replicas && r.value.image == v.value.image
          && r.value.strategy == v.value.strategy)
  }

  /** The same reconciliation is still running; counts, phase and saved spec are untouched. */
  predicate SamePass(v: World, r: World) {
    && v.local.Busy? && r.local.Busy? && r.local.snap == v.local.snap && r.local.inOrder == v.local.inOrder
    && r.members == v.members && r.replicas == v.replicas && r.saved == v.saved && r.phase == v.phase
  }
}
