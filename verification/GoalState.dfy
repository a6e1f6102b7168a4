/**
 The goal-state gate: the operator waits until every agent has reached the config version it published.
 The readiness probe of each pod reports through an annotation (pkg/readiness/headless); the operator
 reads the annotations one pod at a time (pkg/agent). Nothing synchronises the two.
 */
module GoalState {
  import opened Wrappers

  // ---- The probe ----

  /** The agent's health file: versions achieved per process plan, and goal state per process. */
  datatype Health = Health(plans: map<string, int>, healthiness: map<string, bool>)

  datatype Origin = Achieved | Fallback

  /** The versions the probe may report: it looks at one plan, any one, before anything else. */
  ghost predicate MayReport(h: Health, target: int, v: int, o: Origin) {
    if h.plans != map[] then o == Achieved && v in h.plans.Values
    else if h.healthiness == map[] then o == Fallback && v == target
    else o == Fallback && ((true in h.healthiness.Values && v == target) || (false in h.healthiness.Values && v == -1))
  }

  method ReadCurrentAgentInfo(h: Health, target: int) returns (v: int)
    ensures MayReport(h, target, v, Achieved) || MayReport(h, target, v, Fallback)
    ensures h.plans != map[] ==> v in h.plans.Values
    ensures h.plans == map[] && h.healthiness == map[] ==> v == target
    ensures h.plans == map[] && h.healthiness != map[] ==>
              (v == target && true in h.healthiness.Values) || (v == -1 && false in h.healthiness.Values)
  {
    if h.plans != map[] {
      assert h.plans.Keys != {};
      var k :| k in h.plans;
      assert h.plans[k] in h.plans.Values;
      return h.plans[k];
    }
    if h.healthiness != map[] {
      assert h.healthiness.Keys != {};
      var k :| k in h.healthiness;
      assert h.healthiness[k] in h.healthiness.Values;
      if h.healthiness[k] { return target; }
      return -1;
    }
    return target;
  }

  // ---- The operator's check on one reading of each pod ----

  datatype PodRead = Pod(annotation: Option<int>) | NotFound | Unreadable

  datatype Verdict = Accepted | Rejected | Error

  predicate AtGoal(p: PodRead, version: int) { p.Pod? && p.annotation == Some(version) }

  /** Accepted exactly when all pods report the version, or none exists; an error only if nothing rejected before it. */
  method AllReachedGoalState(pods: nat -> PodRead, members: nat, version: int) returns (r: Verdict)
    ensures r == Accepted <==>
            (|| (forall i: nat :: i < members ==> AtGoal(pods(i), version))
             || (forall i: nat :: i < members ==> pods(i).NotFound?))
    ensures r == Error <==> exists i: nat :: i < members && pods(i).Unreadable?
                              && forall j: nat :: j < i ==> pods(j).NotFound? || AtGoal(pods(j), version)
  {
    var podsNotFound: seq<nat> := [];
    for i := 0 to members
      invariant forall j: nat :: j < i ==> pods(j).NotFound? || AtGoal(pods(j), version)
      invariant forall j: nat :: j < i && pods(j).NotFound? ==> j in podsNotFound
      invariant forall j :: j in podsNotFound ==> j < i && pods(j).NotFound?
      invariant |podsNotFound| <= i
      invariant |podsNotFound| == i ==> forall j: nat :: j < i ==> pods(j).NotFound?
      invariant (forall j: nat :: j < i ==> pods(j).NotFound?) ==> |podsNotFound| == i
    {
      match pods(i) {
        case Unreadable => return Error;
        case NotFound => podsNotFound := podsNotFound + [i];
        case Pod(annotation) => if annotation != Some(version) { return Rejected; }
      }
    }
    if |podsNotFound| == members { return Accepted; }
    if |podsNotFound| > 0 {
      assert pods(podsNotFound[0]).NotFound?;
      return Rejected;
    }
    r := Accepted;
  }

  // ---- Operator, probes, agents and pods interleaved ----

  /** `at` is the position of the reporting event in the run. */
  datatype Report = Report(value: int, at: nat, origin: Origin)

  /** A pod, with the version its running probe has read from the secret, if any. */
  datatype PodState = PodState(annotation: Option<Report>, target: Option<int>)

  /** A check in progress: pods below `next` have been read. */
  datatype Check = Check(version: int, members: nat, next: nat, missing: seq<nat>, seen: map<nat, Report>)

  /** publishedAt[v - 1] is the position of the event that published version v. */
  datatype World = World(publishedAt: seq<nat>, pods: map<nat, PodState>, check: Option<Check>)

  datatype Event =
    | Publish
    | PodStarts(pod: nat)
    | PodStops(pod: nat)
    | ProbeReads(pod: nat)
    | ProbePatches(pod: nat, health: Health, value: int, origin: Origin)
    | CheckStarts(members: nat)
    | CheckReads
    | CheckStops

  function Init(): World { World([], map[], None) }

  function Latest(w: World): (v: nat) { |w.publishedAt| }

  ghost predicate Enabled(w: World, e: Event) {
    match e
    case Publish => true
    case PodStarts(i) => i !in w.pods
    case PodStops(i) => true
    case ProbeReads(i) => i in w.pods && Latest(w) >= 1
    case ProbePatches(i, h, v, o) =>
      && i in w.pods && w.pods[i].target.Some? && MayReport(h, w.pods[i].target.value, v, o)
      && (forall k :: k in h.plans ==> h.plans[k] <= Latest(w))  // an agent achieves only versions it was given
    case CheckStarts(n) => Latest(w) >= 1
    case CheckReads => w.check.Some? && w.check.value.next < w.check.value.members
    case CheckStops => true
  }

  ghost function ReadPod(w: World, c: Check): (r: Option<Check>) {
    var i := c.next;
    if i !in w.pods then Some(c.(next := i + 1, missing := c.missing + [i]))
    else
      var a := w.pods[i].annotation;
      if a.Some? && a.value.value == c.version then Some(c.(next := i + 1, seen := c.seen[i := a.value])) else None
  }

  ghost function Apply(w: World, e: Event, now: nat): (r: World)
    requires Enabled(w, e)
  {
    match e
    case Publish => w.(publishedAt := w.publishedAt + [now])
    case PodStarts(i) => w.(pods := w.pods[i := PodState(None, None)])
    case PodStops(i) => w.(pods := w.pods - {i})
    case ProbeReads(i) => w.(pods := w.pods[i := w.pods[i].(target := Some(Latest(w)))])
    case ProbePatches(i, h, v, o) => w.(pods := w.pods[i := PodState(Some(Report(v, now, o)), None)])
    case CheckStarts(n) => w.(check := Some(Check(Latest(w), n, 0, [], map[])))
    case CheckReads => w.(check := ReadPod(w, w.check.value))
    case CheckStops => w.(check := None)
  }

  ghost predicate Legal(es: seq<Event>)
    decreases |es|, 0
  {
    es == [] || (Legal(es[..|es| - 1]) && Enabled(Exec(es[..|es| - 1]), es[|es| - 1]))
  }

  ghost function Exec(es: seq<Event>): (w: World)
    requires Legal(es)
    decreases |es|, 1
  {
    if es == [] then Init() else Apply(Exec(es[..|es| - 1]), es[|es| - 1], |es| - 1)
  }

  /** The run published version v at position `at`. */
  ghost predicate PublishedBefore(es: seq<Event>, w: World, v: int, before: nat) {
    && 1 <= v <= Latest(w)
    && w.publishedAt[v - 1] < before && w.publishedAt[v - 1] < |es| && es[w.publishedAt[v - 1]].Publish?
  }

  /** The report is an event of the run, for this pod, later than the publication of the version it names. */
  ghost predicate Genuine(es: seq<Event>, w: World, pod: nat, r: Report) {
    && r.at < |es| && es[r.at].ProbePatches? && es[r.at].pod == pod && es[r.at].value == r.value
    && es[r.at].origin == r.origin
    && (r.value >= 1 ==> PublishedBefore(es, w, r.value, r.at))
  }

  ghost predicate Inv(es: seq<Event>, w: World) {
    && (forall v :: 1 <= v <= Latest(w) ==> PublishedBefore(es, w, v, |es|))
    && (forall i :: i in w.pods && w.pods[i].target.Some? ==> 1 <= w.pods[i].target.value <= Latest(w))
    && (forall i :: i in w.pods && w.pods[i].annotation.Some? ==> Genuine(es, w, i, w.pods[i].annotation.value))
    && (w.check.Some? ==> CheckInv(es, w, w.check.value))
  }

  ghost predicate CheckInv(es: seq<Event>, w: World, c: Check) {
    && 1 <= c.version <= Latest(w) && c.next <= c.members && |c.missing| + |c.seen| == c.next
    && (forall i :: 0 <= i < c.next ==> i in c.seen || i in c.missing)
    && (forall i :: i in c.seen ==> i < c.next && c.seen[i].value == c.version && Genuine(es, w, i, c.seen[i]))
  }

  lemma GenuineLater(es: seq<Event>, w: World, e: Event, w': World, pod: nat, r: Report)
    requires Genuine(es, w, pod, r) && w.publishedAt <= w'.publishedAt
    ensures Genuine(es + [e], w', pod, r)
  {}

  lemma CheckLater(es: seq<Event>, w: World, e: Event, w': World, c: Check)
    requires CheckInv(es, w, c) && w.publishedAt <= w'.publishedAt
    ensures CheckInv(es + [e], w', c)
  {
    forall i | i in c.seen ensures Genuine(es + [e], w', i, c.seen[i]) { GenuineLater(es, w, e, w', i, c.seen[i]); }
  }

  lemma PatchGenuine(es: seq<Event>, w: World, e: Event)
    requires Inv(es, w) && e.ProbePatches? && Enabled(w, e)
    ensures Genuine(es + [e], Apply(w, e, |es|), e.pod, Report(e.value, |es|, e.origin))
  {
    assert e.value <= Latest(w) by {
      if e.health.plans != map[] {
        var k :| k in e.health.plans && e.health.plans[k] == e.value;
      }
    }
    if e.value >= 1 { assert PublishedBefore(es, w, e.value, |es|); }
  }

  lemma InvCheck(es: seq<Event>, w: World, e: Event)
    requires Inv(es, w) && Enabled(w, e)
    ensures var w' := Apply(w, e, |es|); w'.check.Some? ==> CheckInv(es + [e], w', w'.check.value)
  {
    var w' := Apply(w, e, |es|);
    if w.check.Some? { CheckLater(es, w, e, w', w.check.value); }
    if e.CheckReads? && w.check.value.next in w.pods && w.pods[w.check.value.next].annotation.Some? {
      GenuineLater(es, w, e, w', w.check.value.next, w.pods[w.check.value.next].annotation.value);
    }
  }

  lemma InvStep(es: seq<Event>, w: World, e: Event)
    requires Inv(es, w) && Enabled(w, e)
    ensures Inv(es + [e], Apply(w, e, |es|))
  {
    var w' := Apply(w, e, |es|);
    InvCheck(es, w, e);
    var es' := es + [e];
    forall v | 1 <= v <= Latest(w') ensures PublishedBefore(es', w', v, |es'|) {
      if v <= Latest(w) { assert PublishedBefore(es, w, v, |es|); }
    }
    forall i | i in w'.pods && w'.pods[i].annotation.Some?
      ensures Genuine(es + [e], w', i, w'.pods[i].annotation.value)
    {
      if e.ProbePatches? && e.pod == i { PatchGenuine(es, w, e); }
      else { GenuineLater(es, w, e, w', i, w.pods[i].annotation.value); }
    }
  }

  lemma {:induction false} RunInv(es: seq<Event>)
    requires Legal(es)
    ensures Inv(es, Exec(es))
  {
    if es != [] {
      RunInv(es[..|es| - 1]);
      InvStep(es[..|es| - 1], Exec(es[..|es| - 1]), es[|es| - 1]);
      assert es[..|es| - 1] + [es[|es| - 1]] == es;
    }
  }

  /** The check has read every pod it waits for and passes. */
  predicate Passes(c: Check) { c.next == c.members && (|c.missing| == c.members || |c.missing| == 0) }

  /**
   In every interleaving: when the check passes and it saw any pod at all, it saw all of them, and each
   one's probe reported exactly the version waited for, after that version was published.
   */
  lemma GateIsSound(es: seq<Event>, i: nat)
    requires Legal(es) && Exec(es).check.Some? && Passes(Exec(es).check.value)
    requires Exec(es).check.value.seen != map[] && i < Exec(es).check.value.members
    ensures var w := Exec(es);
            var c := w.check.value;
            && i in c.seen && c.seen[i].value == c.version && c.version >= 1
            && Genuine(es, w, i, c.seen[i]) && PublishedBefore(es, w, c.version, c.seen[i].at)
  {
    RunInv(es);
    var c := Exec(es).check.value;
    assert |c.seen| > 0;
    assert i in c.seen;
    assert Genuine(es, Exec(es), i, c.seen[i]);
  }

  /** A stale annotation never matches a newer version. */
  lemma StaleNeverMatches(es: seq<Event>, pod: nat, v: int)
    requires Legal(es) && pod in Exec(es).pods && Exec(es).pods[pod].annotation.Some?
    requires 1 <= v <= Latest(Exec(es)) && Exec(es).pods[pod].annotation.value.at <= Exec(es).publishedAt[v - 1]
    ensures Exec(es).pods[pod].annotation.value.value != v
  {
    RunInv(es);
    assert Genuine(es, Exec(es), pod, Exec(es).pods[pod].annotation.value);
  }
}
