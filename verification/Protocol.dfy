/**
 The reconcile loop of controllers/replica_set_controller.go as a state machine over the cluster store.

 Every write is a step of its own. Between any two steps the operator may crash, give up because something is
 not ready, or lose a write; the user may edit the resource, the StatefulSet controller and the pods may move.
 Reads are current and one reconciliation runs at a time. Status writes are not refused when the user has edited
 the resource meanwhile, so the runs here include those the API server would cut short with a conflict.
 */
module Protocol {
  import opened Wrappers
  import opened Scale
  import SemVer
  import opened AutomationConfig
  import opened Builder

  datatype Spec = Spec(members: int, arbiters: int, version: string, fcv: string, tls: bool, tlsOptional: bool,
                       horizons: Option<seq<Horizons>>, extraConfig: Args, roles: Option<seq<string>>,
                       otherwiseValid: bool)

  datatype Strategy = RollingUpdate | OnDelete
  datatype Phase = NoPhase | Pending | Failing | Running

  /** The StatefulSet's spec as far as the operator decides it, and its status. */
  datatype Sts = Sts(replicas: int, image: string, strategy: Strategy, updated: int, ready: int, observed: bool)

  datatype Snapshot = Snapshot(spec: Spec, members: int, replicas: int, saved: Option<Spec>)

  datatype Pc =
    | ChooseOrder | AcWrite | AcWait(version: int) | StsWrite | StsWait | ResetStrategy | StatusWrite | SaveSpec

  datatype Local = Idle | Busy(snap: Snapshot, inOrder: bool, pc: Pc)

  /**
   The store: spec, status counts and phase, saved spec (the last-successful-configuration annotation, which also
   carries the last applied version), config secret, StatefulSet, pod annotations; and the reconciler's own state.
   */
  datatype World = World(spec: Spec, members: int, replicas: int, phase: Phase, saved: Option<Spec>, stored: Stored,
                         sts: Option<Sts>, pods: map<nat, Option<int>>, local: Local)

  /** What does not change: the resource's name and domain, and the version library. */
  datatype Resource = Resource(name: string, domain: string, lib: SemVer.Library)

  datatype Action =
    | EditSpec(spec: Spec)
    | StsMoves(updated: int, ready: int, observed: bool)
    | PodsMove(pods: map<nat, Option<int>>)
    | Begin
    | Refuse
    | Choose
    | PutAc(auth: Auth, certificate: string)
    | PassAc
    | PutSts
    | PassSts
    | Reset
    | PutStatus
    | Save
    | GiveUp(phase: Option<Phase>)

  predicate IsEnvironment(a: Action) { a.EditSpec? || a.StsMoves? || a.PodsMove? }

  function Init(spec: Spec): World { World(spec, 0, 0, NoPhase, None, Missing, None, map[], Idle) }

  // ---- Decisions ----

  /** validateSpec: fewer arbiters than members, and TLS cannot be switched off once it was saved as enabled. */
  predicate Validates(spec: Spec, saved: Option<Spec>) {
    && !(saved.Some? && saved.value.tls && !spec.tls)
    && spec.otherwiseValid && 0 <= spec.arbiters < spec.members
  }

  function LastVersion(saved: Option<Spec>): (v: string) { if saved.Some? then saved.value.version else "" }

  predicate IsChangingVersion(s: Snapshot) { LastVersion(s.saved) != "" && LastVersion(s.saved) != s.spec.version }

  function UpdateStrategyType(s: Snapshot): (r: Strategy) { if IsChangingVersion(s) then OnDelete else RollingUpdate }

  function AcMembers(s: Snapshot): (n: int) { ReplicasThisReconciliation(s.members, s.spec.members) }

  function StsReplicas(s: Snapshot): (n: int) { ReplicasThisReconciliation(s.replicas, s.spec.members) }

  /** true: config first; false: StatefulSet first. TLS on an existing StatefulSet comes before any scaling rule. */
  predicate ShouldRunInOrder(s: Snapshot, stsExists: bool) {
    if stsExists && s.spec.tls then false
    else if IsScalingUp(s.replicas, s.spec.members) then false
    else if IsScalingDown(s.replicas, s.spec.members) then true
    else !IsChangingVersion(s)
  }

  predicate IsReady(sts: Sts, expected: int) { expected == sts.updated && expected == sts.ready && sts.observed }

  /** The goal-state gate on one consistent reading of the pods. */
  predicate AllReached(pods: map<nat, Option<int>>, members: int, version: int) {
    || (forall i | 0 <= i < members :: i in pods && pods[i] == Some(version))
    || (forall i | 0 <= i < members :: i !in pods)
  }

  // ---- Modifications of the config ----

  const CA_FILE := "/var/lib/tls/ca/ca.crt"

  function MapProcesses(ps: seq<Process>, f: Args -> Args): (r: seq<Process>)
    ensures |r| == |ps|
  {
    seq(|ps|, i requires 0 <= i < |ps| => ps[i].(args := f(ps[i].args)))
  }

  /** The user's additional mongod configuration over the operator's, by dotted path. */
  function MongodConfig(extra: Args): (m: Modification) {
    (c: Config) => c.(processes := MapProcesses(c.processes, (a: Args) => a + extra))
  }

  function TlsArgs(optional: bool, certificate: string): (a: Args) {
    map["net.tls.mode" := if optional then "preferTLS" else "requireTLS", "net.tls.CAFile" := CA_FILE,
        "net.tls.certificateKeyFile" := "/var/lib/tls/server/" + certificate,
        "net.tls.allowConnectionsWithoutCertificates" := "true"]
  }

  function TlsConfig(enabled: bool, optional: bool, certificate: string): (m: Modification) {
    if !enabled then (c: Config) => c
    else (c: Config) => c.(tls := if c.tls.Some? then Some(c.tls.value.(caFilePath := CA_FILE)) else None,
                           processes := MapProcesses(c.processes, (a: Args) => a + TlsArgs(optional, certificate)))
  }

  function CustomRoles(roles: Option<seq<string>>): (m: Modification) {
    if roles.None? then (c: Config) => c else (c: Config) => c.(roles := roles)
  }

  function BuildInputs(k: Resource, s: Snapshot, auth: Auth, certificate: string): (x: Inputs)
    requires AcMembers(s) >= 0
  {
    Inputs(k.name, k.domain, AcMembers(s), s.spec.arbiters, s.spec.version, s.spec.fcv, s.spec.horizons, auth,
           "/var/lib/mongodb-mms-automation",
           [MongodConfig(s.spec.extraConfig), TlsConfig(s.spec.tls, s.spec.tlsOptional, certificate),
            CustomRoles(s.spec.roles)])
  }

  // ---- Steps ----

  /** What a reconciliation that begins now works from. */
  function SnapshotOf(w: World): (s: Snapshot) { Snapshot(w.spec, w.members, w.replicas, w.saved) }

  /** The config this pass wants, if building it succeeds. */
  function Desired(k: Resource, w: World, s: Snapshot, auth: Auth, certificate: string): (r: Option<Config>) {
    if AcMembers(s) < 0 || Read(w.stored).None? then None
    else
      var b := Build(k.lib, Read(w.stored).value, BuildInputs(k, s, auth, certificate));
      if b.Built? then Some(b.config) else None
  }

  predicate At(w: World, pc: Pc) { w.local.Busy? && w.local.pc == pc }

  predicate Enabled(k: Resource, w: World, a: Action) {
    match a
    case EditSpec(_) => true
    case StsMoves(_, _, _) => w.sts.Some?
    case PodsMove(_) => true
    case Begin => w.local.Idle? && Validates(w.spec, w.saved)
    case Refuse => w.local.Idle? && !Validates(w.spec, w.saved)
    case Choose => At(w, ChooseOrder)
    case PutAc(auth, certificate) => At(w, AcWrite) && Desired(k, w, w.local.snap, auth, certificate).Some?
    case PassAc =>
      && w.local.Busy? && w.local.pc.AcWait?
      && (w.sts.None? || AllReached(w.pods, StsReplicas(w.local.snap), w.local.pc.version))
    case PutSts => At(w, StsWrite)
    case PassSts =>
      && At(w, StsWait) && w.sts.Some?
      && (IsReady(w.sts.value, StsReplicas(w.local.snap)) || w.sts.value.strategy == OnDelete)
    case Reset => At(w, ResetStrategy) && (IsChangingVersion(w.local.snap) ==> w.sts.Some?)
    case PutStatus => At(w, StatusWrite)
    case Save => At(w, SaveSpec)
    case GiveUp(phase) => w.local.Busy? && phase != Some(Running)
  }

  /** The StatefulSet after createOrUpdateStatefulSet: an unchanged spec keeps its observed generation. */
  function WrittenSts(w: World, s: Snapshot): (r: Sts) {
    var strategy := UpdateStrategyType(s);
    if w.sts.None? then Sts(StsReplicas(s), s.spec.version, strategy, 0, 0, false)
    else
      var was := w.sts.value;
      var same := was.replicas == StsReplicas(s) && was.image == s.spec.version && was.strategy == strategy;
      Sts(StsReplicas(s), s.spec.version, strategy, was.updated, was.ready, was.observed && same)
  }

  /** Both gates passed: the pass goes on to reset the strategy. */
  function Done(w: World): (r: World)
    requires w.local.Busy?
  { w.(local := w.local.(pc := ResetStrategy)) }

  function Apply(k: Resource, w: World, a: Action): (r: World)
    requires Enabled(k, w, a)
  {
    match a
    case EditSpec(spec) => w.(spec := spec)
    case StsMoves(updated, ready, observed) =>
      w.(sts := Some(w.sts.value.(updated := updated, ready := ready, observed := observed)))
    case PodsMove(pods) => w.(pods := pods)
    case Begin => w.(local := Busy(SnapshotOf(w), false, ChooseOrder))
    case Refuse => w.(phase := Failing)
    case Choose =>
      var inOrder := ShouldRunInOrder(w.local.snap, w.sts.Some?);
      w.(local := w.local.(inOrder := inOrder, pc := if inOrder then AcWrite else StsWrite))
    case PutAc(auth, certificate) =>
      var e := EnsureSecret(w.stored, Desired(k, w, w.local.snap, auth, certificate).value);
      w.(stored := e.1, local := w.local.(pc := AcWait(e.0.version)))
    case PassAc => if w.local.inOrder then w.(local := w.local.(pc := StsWrite)) else Done(w)
    case PutSts => w.(sts := Some(WrittenSts(w, w.local.snap)), local := w.local.(pc := StsWait))
    case PassSts => if w.local.inOrder then Done(w) else w.(local := w.local.(pc := AcWrite))
    case Reset =>
      w.(sts := if IsChangingVersion(w.local.snap) then Some(w.sts.value.(strategy := RollingUpdate)) else w.sts,
         local := w.local.(pc := StatusWrite))
    case PutStatus =>
      var s := w.local.snap;
      var scaling := IsStillScaling(s.replicas, s.spec.members);
      w.(members := AcMembers(s), replicas := StsReplicas(s), phase := if scaling then Pending else Running,
         local := if scaling then Idle else w.local.(pc := SaveSpec))
    case Save => w.(saved := Some(w.local.snap.spec), local := Idle)
    case GiveUp(phase) => w.(phase := if phase.Some? then phase.value else w.phase, local := Idle)
  }

  predicate Legal(k: Resource, w: World, actions: seq<Action>)
    decreases |actions|, 0
  {
    actions == [] || (
      var before := actions[..|actions| - 1];
      Legal(k, w, before) && Enabled(k, Replay(k, w, before), actions[|actions| - 1]))
  }

  function Replay(k: Resource, w: World, actions: seq<Action>): (r: World)
    requires Legal(k, w, actions)
    decreases |actions|, 1
  {
    if actions == [] then w else Apply(k, Replay(k, w, actions[..|actions| - 1]), actions[|actions| - 1])
  }

  lemma OneMore(k: Resource, w: World, actions: seq<Action>, a: Action)
    requires Legal(k, w, actions) && Enabled(k, Replay(k, w, actions), a)
    ensures Legal(k, w, actions + [a]) && Replay(k, w, actions + [a]) == Apply(k, Replay(k, w, actions), a)
  {
    assert (actions + [a])[..|actions|] == actions;
  }

  /** What precedes a step of a legal run is a legal run. */
  lemma {:induction false} PrefixLegal(k: Resource, w: World, actions: seq<Action>, n: nat)
    requires Legal(k, w, actions) && n <= |actions|
    ensures Legal(k, w, actions[..n])
  {
    if n == |actions| {
      assert actions[..n] == actions;
    } else {
      var before := actions[..|actions| - 1];
      PrefixLegal(k, w, before, n);
      assert before[..n] == actions[..n];
    }
  }

  /** The world before step n of a run. */
  function StateAt(k: Resource, w: World, actions: seq<Action>, n: nat): (r: World)
    requires Legal(k, w, actions) && n <= |actions|
  {
    PrefixLegal(k, w, actions, n);
    Replay(k, w, actions[..n])
  }

  /** Runs compose. */
  lemma {:induction false} Then(k: Resource, w: World, first: seq<Action>, second: seq<Action>)
    requires Legal(k, w, first) && Legal(k, Replay(k, w, first), second)
    ensures Legal(k, w, first + second) && Replay(k, w, first + second) == Replay(k, Replay(k, w, first), second)
    decreases |second|
  {
    if second == [] {
      assert first + second == first;
    } else {
      var before := second[..|second| - 1];
      Then(k, w, first, before);
      assert (first + second)[..|first + second| - 1] == first + before;
    }
  }
}
