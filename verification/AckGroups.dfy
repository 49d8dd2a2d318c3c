/** `ack_group`: one transaction split into children, resolved once, by the last child. */
module AckGroups {
  import opened Values

  /** The exception a nack carries. */
  type Error = nat

  datatype Group = Group(pending: nat, sealed: bool, fired: bool, firstError: Option<Error>)

  const NEW_GROUP: Group := Group(0, false, false, None)

  /** A group after a step, and what the step called the parent with, if it did. */
  datatype Effect = Effect(g: Group, call: Option<Option<Error>>)

  function Added(g: Group): Group { g.(pending := g.pending + 1) }

  /** Fires unless it already has, once sealed with nothing pending. */
  function Settle(g: Group): Effect {
    if g.pending == 0 && g.sealed && !g.fired then Effect(g.(fired := true), Some(g.firstError)) else Effect(g, None)
  }

  function ChildDone(g: Group, e: Option<Error>): Effect
    requires g.pending > 0
  {
    Settle(g.(firstError := if g.firstError.Some? then g.firstError else e, pending := g.pending - 1))
  }

  function Seal(g: Group): Effect { Settle(g.(sealed := true)) }

  class AckGroup {
    var pending: nat
    var sealed: bool
    var fired: bool
    var firstError: Option<Error>
    ghost var parentCalls: seq<Option<Error>>

    ghost function State(): Group
      reads this
    {
      Group(pending, sealed, fired, firstError)
    }

    constructor ()
      ensures State() == NEW_GROUP && parentCalls == []
    {
      pending, sealed, fired, firstError, parentCalls := 0, false, false, None, [];
    }

    method AddChild()
      modifies this
      ensures State() == Added(old(State())) && parentCalls == old(parentCalls)
    {
      pending := pending + 1;
    }

    ghost method Parent(e: Option<Error>)
      modifies this`parentCalls
      ensures parentCalls == old(parentCalls) + [e]
    {
      parentCalls := parentCalls + [e];
    }

    method Done(e: Option<Error>)
      requires pending > 0
      modifies this
      ensures var x := ChildDone(old(State()), e);
              State() == x.g && parentCalls == old(parentCalls) + (if x.call.Some? then [x.call.value] else [])
    {
      if e.Some? && firstError.None? { firstError := e; }
      pending := pending - 1;
      if pending == 0 && sealed && !fired {
        fired := true;
        Parent(firstError);
      }
    }

    method SealGroup()
      modifies this
      ensures var x := Seal(old(State()));
              State() == x.g && parentCalls == old(parentCalls) + (if x.call.Some? then [x.call.value] else [])
    {
      sealed := true;
      if pending == 0 && !fired {
        fired := true;
        Parent(firstError);
      }
    }
  }

  // ---- every interleaving of one group ------------------------------------------------

  /** Children are numbered in the order they are added. */
  datatype Event = AddEvent | DoneEvent(child: nat, e: Option<Error>) | SealEvent

  datatype Run = Run(g: Group, children: nat, settled: set<nat>, calls: seq<Option<Error>>)

  function After(r: Run, x: Effect): Run {
    r.(g := x.g, calls := r.calls + (if x.call.Some? then [x.call.value] else []))
  }

  function Next(r: Run, ev: Event): Run {
    match ev
    case AddEvent => r.(g := Added(r.g), children := r.children + 1)
    case DoneEvent(k, e) =>
      if r.g.pending == 0 then r else After(r, ChildDone(r.g, e)).(settled := r.settled + {k})
    case SealEvent => After(r, Seal(r.g))
  }

  // the history, read off the events alone

  function Children(t: seq<Event>): nat {
    if t == [] then 0 else Children(t[..|t| - 1]) + (if t[|t| - 1].AddEvent? then 1 else 0)
  }

  function Settled(t: seq<Event>): set<nat> {
    if t == [] then {} else Settled(t[..|t| - 1]) + (if t[|t| - 1].DoneEvent? then {t[|t| - 1].child} else {})
  }

  predicate SealedIn(t: seq<Event>) { exists i :: 0 <= i < |t| && t[i].SealEvent? }

  function EarliestNack(t: seq<Event>): Option<Error> {
    if t == [] then None
    else if t[0].DoneEvent? && t[0].e.Some? then t[0].e
    else EarliestNack(t[1..])
  }

  predicate Legal(t: seq<Event>) {
    t == [] ||
    (var u, ev := t[..|t| - 1], t[|t| - 1];
     && Legal(u)
     && (ev.AddEvent? ==> !SealedIn(u))
     && (ev.DoneEvent? ==> ev.child < Children(u) && ev.child !in Settled(u)))
  }

  function Below(n: nat): (s: set<nat>)
    ensures forall k: nat :: k in s <==> k < n
    ensures |s| == n
  {
    if n == 0 then {} else Below(n - 1) + {n - 1}
  }

  predicate AllSettled(t: seq<Event>) { Settled(t) == Below(Children(t)) }

  function Exec(t: seq<Event>): Run {
    if t == [] then Run(NEW_GROUP, 0, {}, []) else Next(Exec(t[..|t| - 1]), t[|t| - 1])
  }

  lemma {:induction false} ExecFaithful(t: seq<Event>)
    requires Legal(t)
    ensures Faithful(t, Exec(t))
  {
    if t == [] {
      NothingYet();
    } else {
      hide Faithful, Next;
      var u, ev := t[..|t| - 1], t[|t| - 1];
      ExecFaithful(u);
      assert t == u + [ev];
      StepFaithful(u, Exec(u), ev);
    }
  }

  lemma NothingYet()
    ensures Faithful([], Exec([]))
  {
  }

  ghost predicate Faithful(t: seq<Event>, r: Run) {
    && r.children == Children(t) && r.settled == Settled(t) && r.g.sealed == SealedIn(t)
    && (forall k | k in r.settled :: k < r.children)
    && r.g.pending + |r.settled| == r.children
    && r.g.firstError == EarliestNack(t)
    && r.g.fired == (r.g.sealed && r.g.pending == 0)
    && r.calls == if r.g.fired then [EarliestNack(t)] else []
  }

  lemma StepFaithful(u: seq<Event>, r: Run, ev: Event)
    requires Legal(u + [ev]) && Faithful(u, r)
    ensures Faithful(u + [ev], Next(r, ev))
  {
    hide Children, Settled, SealedIn, EarliestNack, Legal;
    History(u, ev);
    if ev.DoneEvent? { OneMore(r.settled, ev.child, r.children); }
  }

  lemma OneMore(s: set<nat>, k: nat, n: nat)
    requires k !in s && k < n && forall j | j in s :: j < n
    ensures |s + {k}| == |s| + 1 && |s| < n
  {
    Room(s + {k}, n);
  }

  /** What one more event adds to the history. */
  lemma History(u: seq<Event>, ev: Event)
    requires Legal(u + [ev])
    ensures Legal(u) && (ev.AddEvent? ==> !SealedIn(u))
    ensures ev.DoneEvent? ==> ev.child < Children(u) && ev.child !in Settled(u)
    ensures Children(u + [ev]) == Children(u) + (if ev.AddEvent? then 1 else 0)
    ensures Settled(u + [ev]) == Settled(u) + (if ev.DoneEvent? then {ev.child} else {})
    ensures SealedIn(u + [ev]) == (SealedIn(u) || ev.SealEvent?)
    ensures EarliestNack(u + [ev]) ==
            if EarliestNack(u).Some? then EarliestNack(u) else if ev.DoneEvent? then ev.e else None
  {
    var t := u + [ev];
    assert t[..|t| - 1] == u && t[|t| - 1] == ev;
    EarliestSnoc(u, ev);
    if SealedIn(u) { var i :| 0 <= i < |u| && u[i].SealEvent?; assert t[i].SealEvent?; }
    if ev.SealEvent? { assert t[|u|].SealEvent?; }
  }

  lemma EarliestSnoc(u: seq<Event>, ev: Event)
    ensures EarliestNack(u + [ev]) ==
            if EarliestNack(u).Some? then EarliestNack(u) else if ev.DoneEvent? then ev.e else None
  {
    if u != [] {
      assert (u + [ev])[1..] == u[1..] + [ev];
      EarliestSnoc(u[1..], ev);
    } else {
      assert (u + [ev])[1..] == [];
    }
  }

  /** Distinct numbers below a bound are no more than the bound. */
  lemma {:induction false} Room(s: set<nat>, n: nat)
    requires forall k | k in s :: k < n
    ensures |s| <= n && (|s| == n <==> s == Below(n))
  {
    if n == 0 {
      assert s == {};
    } else {
      var below := s - {n - 1};
      Room(below, n - 1);
      if n - 1 in s { assert s == below + {n - 1}; } else { assert s == below; }
      if s == Below(n) { assert below == Below(n - 1); }
    }
  }

  /** In every interleaving the parent is called exactly once if the group is sealed and
      every child has settled, and not at all otherwise; the call carries the earliest nack. */
  lemma ParentOnce(t: seq<Event>)
    requires Legal(t)
    ensures Exec(t).calls == if SealedIn(t) && AllSettled(t) then [EarliestNack(t)] else []
  {
    ExecFaithful(t);
    var r := Exec(t);
    Room(r.settled, r.children);
  }

  /** The call never comes early: no later event can add to what it waited for. */
  lemma NothingAfterTheCall(t: seq<Event>, ev: Event)
    requires Legal(t + [ev]) && SealedIn(t) && AllSettled(t)
    ensures ev.SealEvent? && Exec(t + [ev]).calls == Exec(t).calls
  {
    var u := t + [ev];
    assert u[..|u| - 1] == t && u[|u| - 1] == ev;
    History(t, ev);
    ExecFaithful(t);
    ParentOnce(t);
  }
}
