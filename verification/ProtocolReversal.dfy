/**
 Turning round in the middle of a scaling step, with TLS off: both consequences are reachable from every settled state.
 */
module ProtocolReversal {
  import opened Wrappers
  import opened Scale
  import opened AutomationConfig
  import opened Builder
  import opened Protocol
  import opened ProtocolInvariant
  import opened ProtocolOrdering
  import opened WrittenConfig
  import SemVer
  import opened ProtocolProgress

  /** A settled deployment of at least two members whose spec scales freely and changes nothing else. */
  ghost predicate Scalable(k: Resource, w: World, spec: Spec) {
    && Settled(w) && w.members >= 2 && SemVer.Lawful(k.lib) && FcvLasts(k, w.stored, spec)
    && HasHorizons(spec, w.members + 1)
    && !spec.tls && spec.otherwiseValid && 0 <= spec.arbiters < w.members - 1
    && !(w.saved.Some? && w.saved.value.tls) && (LastVersion(w.saved) == "" || LastVersion(w.saved) == spec.version)
  }

  /** Edit the spec, carry the step through both gates, then crash before the status write. */
  lemma CrashBeforeStatus(k: Resource, w: World, spec: Spec, auth: Auth, certificate: string)
    returns (trace: seq<Action>)
    requires Inv(w) && w.local.Idle? && Validates(spec, w.saved)
    requires SemVer.Lawful(k.lib) && FcvLasts(k, w.stored, spec) && HasHorizons(spec, w.members + 1) && w.members >= 1
    ensures Legal(k, w, trace)
    ensures var r := Replay(k, w, trace);
            && Inv(r) && r.local.Idle? && r.members == w.members && r.saved == w.saved && FcvLasts(k, r.stored, spec)
            && AcCount(r) == StsCount(r) == ReplicasThisReconciliation(w.members, spec.members)
  {
    OneMore(k, w, [], EditSpec(spec));
    var start: seq<Action> := [] + [EditSpec(spec)];
    var v := Replay(k, w, start);
    assert v == Apply(k, w, EditSpec(spec));
    StepKeepsInv(k, w, EditSpec(spec));
    LastingBuilds(k, v.stored, SnapshotOf(v));
    trace := Extend(k, v, [], Begin);
    var begun := Replay(k, v, trace);
    trace := Deploy(k, v, trace, auth, certificate);
    InvKept(k, v, trace);
    var r := Replay(k, v, trace);
    assert AcCount(r) == StsCount(r) == ReplicasThisReconciliation(w.members, spec.members);
    trace := Extend(k, v, trace, GiveUp(None));
    InvKept(k, v, trace);
    Then(k, w, start, trace);
    trace := start + trace;
  }

  /** A scale-down taken back after both writes makes the config name a member without a replica. */
  lemma ReversalReachesBadOrder(k: Resource, w: World, spec: Spec, auth: Auth, certificate: string)
    returns (trace: seq<Action>)
    requires Inv(w) && Scalable(k, w, spec)
    ensures Legal(k, w, trace)
    ensures var r := Replay(k, w, trace); r.members >= 1 && AcCount(r) == StsCount(r) + 1
  {
    hide Inv;
    trace := CrashBeforeStatus(k, w, spec.(members := w.members - 1), auth, certificate);
    var back := EditSpec(spec.(members := w.members));
    OneMore(k, w, trace, back);
    StepKeepsInv(k, Replay(k, w, trace), back);
    trace := trace + [back];
    LastingBuilds(k, Replay(k, w, trace).stored, SnapshotOf(Replay(k, w, trace)));
    ReversalBreaksOrdering(k, Replay(k, w, trace), auth, certificate);
    Then(k, w, trace, [Begin, Choose, PutAc(auth, certificate)]);
    trace := trace + [Begin, Choose, PutAc(auth, certificate)];
  }

  /** A scale-up turned into a scale-down after both writes makes the published count jump by two. */
  lemma ReversalPublishesJump(k: Resource, w: World, spec: Spec, auth: Auth, certificate: string)
    returns (trace: seq<Action>)
    requires Inv(w) && Scalable(k, w, spec)
    ensures var put := PutAc(auth, certificate);
            && Legal(k, w, trace) && Enabled(k, Replay(k, w, trace), put)
            && AcCount(Replay(k, w, trace)) == AcCount(Apply(k, Replay(k, w, trace), put)) + 2
  {
    hide Legal, Replay, Inv, Builds, FcvLasts, Apply;
    FcvOnly(k, w.stored, spec, spec.(members := w.members + 1));
    trace := CrashBeforeStatus(k, w, spec.(members := w.members + 1), auth, certificate);
    var v := Replay(k, w, trace);
    FcvOnly(k, v.stored, spec.(members := w.members + 1), spec.(members := w.members - 1));
    var down := TurnDown(k, v, spec.(members := w.members - 1), auth, certificate);
    Then(k, w, trace, down);
    trace := trace + down;
  }

  /** Whether building goes on working does not depend on the member count. */
  lemma FcvOnly(k: Resource, stored: Stored, spec: Spec, other: Spec)
    requires FcvLasts(k, stored, spec) && other.fcv == spec.fcv && other.version == spec.version
    ensures FcvLasts(k, stored, other)
  {}

  /** From an idle state one ahead of the count, a scale-down is about to publish one less than the count. */
  lemma TurnDown(k: Resource, v: World, spec: Spec, auth: Auth, certificate: string) returns (trace: seq<Action>)
    requires Inv(v) && v.local.Idle? && v.members >= 2 && AcCount(v) == v.members + 1 && FcvLasts(k, v.stored, spec)
    requires spec.members == v.members - 1 && HasHorizons(spec, spec.members) && Validates(spec, v.saved) && !spec.tls
    ensures Legal(k, v, trace)
    ensures var put := PutAc(auth, certificate);
            var u := Replay(k, v, trace);
            Enabled(k, u, put) && AcCount(u) == v.members + 1 && AcCount(Apply(k, u, put)) == v.members - 1
  {
    var down := EditSpec(spec);
    OneMore(k, v, [], down);
    var edited := Apply(k, v, down);
    assert [] + [down] == [down] && Replay(k, v, [down]) == edited;
    StepKeepsInv(k, v, down);
    hide Legal, Replay, Inv, FcvLasts;
    DownBegins(k, edited, auth, certificate);
    Then(k, v, [down], [Begin, Choose]);
    trace := [down] + [Begin, Choose];
  }

  /** A scale-down with TLS off is about to publish the config. */
  lemma DownBegins(k: Resource, v: World, auth: Auth, certificate: string)
    requires Inv(v) && v.local.Idle? && v.members >= 2 && v.spec.members == v.members - 1 && !v.spec.tls
    requires FcvLasts(k, v.stored, v.spec) && HasHorizons(v.spec, v.spec.members) && Validates(v.spec, v.saved)
    ensures Legal(k, v, [Begin, Choose])
    ensures var put := PutAc(auth, certificate);
            var u := Replay(k, v, [Begin, Choose]);
            Enabled(k, u, put) && AcCount(u) == AcCount(v) && AcCount(Apply(k, u, put)) == v.members - 1
  {
    BeginAndChoose(k, v);
    var u := Replay(k, v, [Begin, Choose]);
    InvKept(k, v, [Begin, Choose]);
    assert At(u, AcWrite) && u.stored == v.stored && u.local.snap == SnapshotOf(v);
    LastingBuilds(k, u.stored, u.local.snap);
    hide Legal, Replay, Inv, Builds, FcvLasts, Reflects, ShouldRunInOrder, Desired, EnsureSecret;
    BuildsIff(k, u, u.local.snap, auth, certificate);
    PutAcKeepsInv(k, u, auth, certificate);
  }
}
