/** Repeated merging of the lists and selectors of a StatefulSet spec with the same override. */
module StatefulSetLaws {
  import opened Wrappers
  import opened Ordering
  import opened PodMerge
  import opened PodMergeLaws
  import opened ExtendMerge
  import KM = KeyedMerge

  // ---- Tolerations, host aliases, topology constraints, claims ----

  lemma TolerationsAbsorb(x: seq<Toleration>, o: seq<Toleration>)
    ensures Tolerations(Tolerations(x, o), o) == Tolerations(x, o)
  {
    var mx, mo := ByKey(x, TolerationKey), ByKey(o, TolerationKey);
    assert KeyedMap(mx + mo, TolerationKey);
    assert (mx + mo) + mo == mx + mo;
  }

  /** The alias adds nothing to the map. */
  ghost predicate Known(m: map<string, HostAlias>, a: HostAlias) {
    a.ip in m && forall h :: h in a.hostnames ==> h in m[a.ip].hostnames
  }

  lemma {:induction false} AliasesKeyed(m: map<string, HostAlias>, o: seq<HostAlias>)
    requires KeyedMap(m, AliasKey)
    ensures KeyedMap(AddAliases(m, o), AliasKey)
  {
    if o != [] { AliasesKeyed(m, o[..|o| - 1]); }
  }

  lemma {:induction false} AliasesKnown(m: map<string, HostAlias>, o: seq<HostAlias>)
    ensures forall a :: a in o ==> Known(AddAliases(m, o), a)
  {
    if o != [] {
      var before := AddAliases(m, o[..|o| - 1]);
      AliasesKnown(m, o[..|o| - 1]);
      assert o == o[..|o| - 1] + [o[|o| - 1]];
      forall a | a in o ensures Known(AddAliases(m, o), a) {
        if a in o[..|o| - 1] { assert Known(before, a); }
      }
    }
  }

  lemma {:induction false} AliasesIdle(m: map<string, HostAlias>, o: seq<HostAlias>)
    requires KeyedMap(m, AliasKey) && forall a :: a in o ==> Known(m, a)
    ensures AddAliases(m, o) == m
  {
    if o != [] {
      var last := o[|o| - 1];
      assert last in o && Known(m, last);
      forall a | a in o[..|o| - 1] ensures Known(m, a) { assert a in o; }
      AliasesIdle(m, o[..|o| - 1]);
      StringSlicesIdle(m[last.ip].hostnames, last.hostnames);
      assert m[last.ip] == HostAlias(last.ip, m[last.ip].hostnames);
    }
  }

  lemma HostAliasesAbsorb(x: seq<HostAlias>, o: seq<HostAlias>)
    ensures HostAliases(HostAliases(x, o), o) == HostAliases(x, o)
  {
    var m := AddAliases(ByKey(x, AliasKey), o);
    AliasesKeyed(ByKey(x, AliasKey), o);
    AliasesKnown(ByKey(x, AliasKey), o);
    AliasesIdle(m, o);
  }

  lemma TopologyAbsorbs(x: Option<seq<TopologySpreadConstraint>>, o: Option<seq<TopologySpreadConstraint>>)
    ensures Topology(Topology(x, o), o) == Topology(x, o)
  {
    if o.Some? {
      TopologyLaws();
      KM.MergeAbsorbs(if x.Some? then x.value else [], o.value, TopologyRule());
    }
  }

  lemma ClaimsAbsorb(x: seq<Claim>, o: seq<Claim>)
    ensures Claims(Claims(x, o), o) == Claims(x, o)
  { ClaimLaws(); KM.MergeAbsorbs(x, o, ClaimRule()); }

  lemma DNSConfigAbsorbs(x: Option<PodDNSConfig>, o: Option<PodDNSConfig>)
    ensures DNSConfig(DNSConfig(x, o), o) == DNSConfig(x, o)
  {
    if o.Some? {
      Union(o.value.fields, o.value.fields);
      StringSlicesAbsorb(o.value.nameservers, o.value.nameservers);
      StringSlicesAbsorb(o.value.searches, o.value.searches);
      if x.Some? {
        Union(x.value.fields, o.value.fields);
        StringSlicesAbsorb(x.value.nameservers, o.value.nameservers);
        StringSlicesAbsorb(x.value.searches, o.value.searches);
      }
    }
  }

  // ---- Label selectors ----

  /** A requirement merged in place absorbs its override. */
  lemma RequirementQuiet(o: seq<Requirement>, r: Requirement)
    ensures Quiet(RequirementInPlace(o)(r), RequirementInPlace(o))
  {
    var b := RequirementByKey(o, r.key);
    var values := if b.Some? then StringSlices(r.values, b.value.values) else r.values;
    var sorted := StableSort(values, Itself);
    StableSortSorts(values, Itself);
    StableSortIdle(sorted, Itself);
    SortedMembers(values, Itself);
    if b.Some? { StringSlicesIdle(sorted, b.value.values); }
  }

  lemma RequirementLaws(o: seq<Requirement>)
    ensures SameKey(RequirementInPlace(o), RequirementKey) && SameKey(SortedValues, RequirementKey)
    ensures forall r :: Quiet(RequirementInPlace(o)(r), RequirementInPlace(o))
  {
    forall r ensures Quiet(RequirementInPlace(o)(r), RequirementInPlace(o)) { RequirementQuiet(o, r); }
  }

  lemma RequirementsSettle(x: seq<Requirement>, o: seq<Requirement>)
    ensures Requirements(Requirements(Requirements(x, o), o), o) == Requirements(Requirements(x, o), o)
  {
    RequirementLaws(o);
    ExtendSettlesIff(x, o, RequirementKey, RequirementInPlace(o), SortedValues);
  }

  lemma LabelSelectorsSettle(x: Option<LabelSelector>, o: Option<LabelSelector>)
    ensures LabelSelectors(LabelSelectors(LabelSelectors(x, o), o), o) == LabelSelectors(LabelSelectors(x, o), o)
  {
    hide Requirements;
    if x.Some? && o.Some? {
      Union(x.value.matchLabels, o.value.matchLabels);
      RequirementsSettle(x.value.matchExpressions, o.value.matchExpressions);
    }
  }

  /** The merged requirement says at least what the override's says. */
  predicate Demands(e: Requirement, q: Requirement) {
    e.key == q.key && (q.operator != "" ==> e.operator == q.operator) && forall v :: v in q.values ==> v in e.values
  }

  /** All labels of the override are in the selector, and so is each first requirement for a key. */
  ghost predicate Honours(r: LabelSelector, o: LabelSelector) {
    && (forall k :: k in o.matchLabels ==> k in r.matchLabels && r.matchLabels[k] == o.matchLabels[k])
    && (forall q :: q in o.matchExpressions && RequirementByKey(o.matchExpressions, q.key) == Some(q) ==>
          exists e :: e in r.matchExpressions && Demands(e, q))
  }

  lemma MergedDemands(o: seq<Requirement>, r: Requirement, q: Requirement)
    requires RequirementByKey(o, q.key) == Some(q) && r.key == q.key
    ensures Demands(RequirementInPlace(o)(r), q)
  {
    hide StableSort, RequirementByKey;
    SortedMembers(StringSlices(r.values, q.values), Itself);
  }

  lemma AppendedDemands(q: Requirement)
    ensures Demands(SortedValues(q), q)
  {
    hide StableSort;
    SortedMembers(q.values, Itself);
  }

  lemma RequirementReaches(x: seq<Requirement>, o: seq<Requirement>, q: Requirement) returns (e: Requirement)
    requires q in o && RequirementByKey(o, q.key) == Some(q)
    ensures e in Requirements(x, o) && Demands(e, q)
  {
    hide StableSort, RequirementByKey, Demands, Extend, SortedValues, RequirementInPlace;
    if q.key in ByKey(x, RequirementKey) {
      var i := ByKeyFrom(x, RequirementKey, q.key);
      assert x[i] in x;
      e := RequirementInPlace(o)(x[i]);
      MergedDemands(o, x[i], q);
    } else {
      e := SortedValues(q);
      AppendedDemands(q);
    }
    ExtendMembers(x, o, RequirementKey, RequirementInPlace(o), SortedValues, e);
  }

  /** The override reaches the merged selector exactly when the operator's own selector is not nil. */
  lemma OverrideReachesSelectorIff(x: Option<LabelSelector>, o: LabelSelector)
    ensures (var r := LabelSelectors(x, Some(o)); r.Some? && Honours(r.value, o)) <==> x.Some?
  {
    hide Requirements, RequirementByKey, Demands;
    if x.Some? {
      var r := LabelSelectors(x, Some(o)).value;
      forall q | q in o.matchExpressions && RequirementByKey(o.matchExpressions, q.key) == Some(q)
        ensures exists e :: e in r.matchExpressions && Demands(e, q)
      {
        var e := RequirementReaches(x.value.matchExpressions, o.matchExpressions, q);
      }
    }
  }
}
