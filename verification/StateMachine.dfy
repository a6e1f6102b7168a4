/** pkg/util/state: a machine that remembers in a store which state to reconcile next. */
module StateMachine {
  import opened Wrappers

  /** A registered state; its functions are the outcomes the caller meets in `Call`. */
  datatype State = State(name: string, hasOnEnter: bool)

  /** `predicate` identifies the transition's predicate. */
  datatype Transition = Transition(from: State, to: State, predicate_: nat)

  datatype Graph = Graph(transitions: map<string, seq<Transition>>, states: map<string, State>)

  /** What the outside world answers during one Reconcile. */
  datatype Call = Call(loadFails: bool, onEnterFails: bool, reconcileFails: bool, complete: bool, saveFails: bool,
                       holds: nat -> bool)

  /** Registration keeps every transition under its origin and both of its ends among the states. */
  ghost predicate Consistent(g: Graph) {
    && (forall n :: n in g.states ==> g.states[n].name == n)
    && (forall n, i :: n in g.transitions && 0 <= i < |g.transitions[n]| ==>
          g.transitions[n][i].from.name == n && n in g.states && g.transitions[n][i].to.name in g.states)
  }

  function Outgoing(g: Graph, name: string): (ts: seq<Transition>) {
    if name in g.transitions then g.transitions[name] else []
  }

  /** The position of the first transition whose predicate holds. */
  ghost predicate FirstEnabled(ts: seq<Transition>, holds: nat -> bool, i: int) {
    0 <= i < |ts| && holds(ts[i].predicate_) && forall j :: 0 <= j < i ==> !holds(ts[j].predicate_)
  }

  ghost predicate NoneEnabled(ts: seq<Transition>, holds: nat -> bool) {
    forall j :: 0 <= j < |ts| ==> !holds(ts[j].predicate_)
  }

  /** The state ran to completion and its result was saved. */
  predicate Finishes(g: Graph, name: string, c: Call) {
    && !c.loadFails && name in g.states && !(g.states[name].hasOnEnter && c.onEnterFails)
    && !c.reconcileFails && c.complete && !c.saveFails
  }

  /** How one call may change the stored name: the reference the method is proved against. */
  ghost predicate Moves(g: Graph, name: string, c: Call, next: string) {
    if !Finishes(g, name, c) then next == name
    else
      || (exists i :: FirstEnabled(Outgoing(g, name), c.holds, i) && next == Outgoing(g, name)[i].to.name)
      || (NoneEnabled(Outgoing(g, name), c.holds) && next == "")
  }

  class Store {
    var name: string

    constructor (name: string) ensures this.name == name { this.name := name; }

    method Save(next: string, fails: bool) returns (ok: bool)
      modifies this
      ensures ok == !fails && name == if fails then old(name) else next
    {
      if !fails { name := next; }
      ok := !fails;
    }
  }

  class Machine {
    var transitions: map<string, seq<Transition>>
    var states: map<string, State>
    var currentState: Option<State>
    const store: Store

    constructor (store: Store)
      ensures this.store == store && Registered() == Graph(map[], map[]) && Consistent(Registered())
    {
      transitions, states, currentState := map[], map[], None;
      this.store := store;
    }

    function Registered(): (g: Graph)
      reads this
    { Graph(transitions, states) }

    /** Registers both states and puts the transition behind those already leaving `from`. */
    method AddTransition(from: State, to: State, predicate_: nat)
      requires Consistent(Registered())
      modifies this
      ensures Consistent(Registered())
      ensures currentState == old(currentState)
      ensures states == old(states)[from.name := from][to.name := to]
      ensures forall n :: Outgoing(Registered(), n) ==
                old(Outgoing(Registered(), n)) + (if n == from.name then [Transition(from, to, predicate_)] else [])
    {
      if from.name !in transitions { transitions := transitions[from.name := []]; }
      transitions := transitions[from.name := transitions[from.name] + [Transition(from, to, predicate_)]];
      states := states[from.name := from];
      states := states[to.name := to];
      forall n, i | n in transitions && 0 <= i < |transitions[n]|
        ensures transitions[n][i].from.name == n && n in states && transitions[n][i].to.name in states
      {
        ghost var before := old(Outgoing(Registered(), n));
        if i < |before| { assert transitions[n][i] == before[i]; }
      }
    }

    /** Points currentState at the state the store names, if it was registered. */
    method DetermineState(c: Call) returns (ok: bool)
      modifies this`currentState
      ensures ok <==> !c.loadFails && store.name in states
      ensures currentState == if ok then Some(states[store.name]) else old(currentState)
    {
      if c.loadFails { return false; }
      var name := store.name;
      if name !in states { return false; }
      currentState := Some(states[name]);
      ok := true;
    }

    method TransitionForState(s: State, c: Call) returns (t: Option<Transition>)
      ensures t.None? ==> NoneEnabled(Outgoing(Registered(), s.name), c.holds)
      ensures var ts := Outgoing(Registered(), s.name);
              t.Some? ==> exists i :: FirstEnabled(ts, c.holds, i) && t.value == ts[i]
    {
      var ts := if s.name in transitions then transitions[s.name] else [];
      for i := 0 to |ts|
        invariant forall j :: 0 <= j < i ==> !c.holds(ts[j].predicate_)
      {
        if c.holds(ts[i].predicate_) {
          assert ts == Outgoing(Registered(), s.name) && FirstEnabled(ts, c.holds, i);
          return Some(ts[i]);
        }
      }
      t := None;
    }

    /** One Reconcile: succeeds unless something failed, and moves the stored name as `Moves` says. */
    method Reconcile(c: Call) returns (ok: bool)
      requires Consistent(Registered())
      modifies this`currentState, store
      ensures Moves(Registered(), old(store.name), c, store.name)
      ensures ok <==> (&& !c.loadFails && old(store.name) in states
                       && !(states[old(store.name)].hasOnEnter && c.onEnterFails)
                       && !c.reconcileFails && (c.complete ==> !c.saveFails))
    {
      ok := DetermineState(c);
      if !ok { return false; }
      var s := currentState.value;
      if s.hasOnEnter && c.onEnterFails { return false; }
      if c.reconcileFails { return false; }
      if c.complete {
        var t := TransitionForState(s, c);
        var next := "";
        if t.Some? { next := t.value.to.name; }
        ok := store.Save(next, c.saveFails);
        return;
      }
      ok := true;
    }
  }

  // ---- Runs ----

  /** names[0], names[1], ... are the stored names between successive calls. */
  ghost predicate IsRun(g: Graph, calls: seq<Call>, names: seq<string>) {
    |names| == |calls| + 1 && forall i :: 0 <= i < |calls| ==> Moves(g, names[i], calls[i], names[i + 1])
  }

  ghost predicate IsEdge(g: Graph, from: string, to: string) {
    exists t :: t in Outgoing(g, from) && t.to.name == to
  }

  /**
   Every step of a run stays put unless the state finishes; then it follows the first-added edge whose predicate holds,
   or stores the empty name because none does. So the names walk along edges until, perhaps, the empty one.
   */
  lemma RunIsWalk(g: Graph, calls: seq<Call>, names: seq<string>, i: nat)
    requires Consistent(g) && IsRun(g, calls, names) && i < |calls|
    ensures var c := calls[i];
            var done := && !c.loadFails && names[i] in g.states && (g.states[names[i]].hasOnEnter ==> !c.onEnterFails)
                        && !c.reconcileFails && c.complete && !c.saveFails;
            var ts := Outgoing(g, names[i]);
            && (!done ==> names[i + 1] == names[i])
            && (done && (forall j :: 0 <= j < |ts| ==> !c.holds(ts[j].predicate_)) ==> names[i + 1] == "")
            && (done && (exists j :: 0 <= j < |ts| && c.holds(ts[j].predicate_)) ==>
                  exists k :: && 0 <= k < |ts| && c.holds(ts[k].predicate_) && names[i + 1] == ts[k].to.name
                              && (forall j :: 0 <= j < k ==> !c.holds(ts[j].predicate_))
                              && IsEdge(g, names[i], names[i + 1]) && names[i + 1] in g.states)
  {
    assert Moves(g, names[i], calls[i], names[i + 1]);
    var ts := Outgoing(g, names[i]);
    if k :| FirstEnabled(ts, calls[i].holds, k) && names[i + 1] == ts[k].to.name { assert ts[k] in ts; }
  }

  /** A run that starts at a registered name stays on registered names until, perhaps, the empty one. */
  lemma {:induction false} RunStaysRegistered(g: Graph, calls: seq<Call>, names: seq<string>, i: nat)
    requires Consistent(g) && IsRun(g, calls, names) && i <= |calls| && names[0] in g.states
    ensures names[i] in g.states || names[i] == ""
  {
    if i > 0 {
      RunStaysRegistered(g, calls, names, i - 1);
      assert Moves(g, names[i - 1], calls[i - 1], names[i]);
    }
  }

  /** The empty name is final unless a state has it: every later call fails and the name stays. */
  lemma {:induction false} EmptyNameIsFinal(g: Graph, calls: seq<Call>, names: seq<string>, i: nat, j: nat)
    requires IsRun(g, calls, names) && i <= j <= |calls| && names[i] == "" && "" !in g.states
    ensures names[j] == "" && names[j] !in g.states
  {
    if i < j {
      EmptyNameIsFinal(g, calls, names, i, j - 1);
      assert Moves(g, names[j - 1], calls[j - 1], names[j]);
    }
  }

  /** The step is determined by the call: no two next names are possible. */
  lemma MovesDetermined(g: Graph, name: string, c: Call, next: string, other: string)
    requires Moves(g, name, c, next) && Moves(g, name, c, other)
    ensures next == other
  {
    if Finishes(g, name, c) {
      var ts := Outgoing(g, name);
      if i :| FirstEnabled(ts, c.holds, i) && next == ts[i].to.name {
        if k :| FirstEnabled(ts, c.holds, k) && other == ts[k].to.name {
          assert i <= k && k <= i;
        }
      }
    }
  }
}
