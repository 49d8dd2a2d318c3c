/** Groups whose parents are children of other groups: any tree of `ack_group`s
    resolves its source exactly once. */
module AckTree {
  import opened Values
  import opened AckGroups

  /** Who told a group that a child has settled: a message, with its outcome, or the child group `j`. */
  datatype Report = FromMessage(e: Option<Error>) | FromGroup(j: nat)

  /** `open` counts the group's own unsettled messages, `nacked` records whether one failed,
      `log` who reported to the group, in order. */
  datatype Node = Node(g: Group, parent: Option<nat>, open: nat, nacked: bool, log: seq<Report>)

  /** Groups are numbered as they are made; `calls` is what the source has been told. */
  datatype Sys = Sys(nodes: seq<Node>, calls: seq<Option<Error>>)

  datatype TreeEvent = AddMessage(i: nat) | AddGroup(i: nat) | MessageDone(i: nat, e: Option<Error>) | SealNode(i: nat)

  const START: Sys := Sys([Node(NEW_GROUP, None, 0, false, [])], [])

  predicate Shaped(s: Sys) {
    && s.nodes != [] && s.nodes[0].parent == None
    && forall j: nat | 0 < j < |s.nodes| :: s.nodes[j].parent.Some? && s.nodes[j].parent.value < j
  }

  /** Passes a group's call on: to the source, or to the parent group as a settled child. */
  function Pass(s: Sys, i: nat, call: Option<Option<Error>>): Sys
    requires Shaped(s) && i < |s.nodes|
    decreases i, 1
  {
    if call.None? then s
    else if s.nodes[i].parent.None? then s.(calls := s.calls + [call.value])
    else Deliver(WithReport(s, s.nodes[i].parent.value, FromGroup(i)), s.nodes[i].parent.value, call.value)
  }

  /** `child_done` on group `i`. */
  function Deliver(s: Sys, i: nat, e: Option<Error>): Sys
    requires Shaped(s) && i < |s.nodes|
    decreases i, 2
  {
    if s.nodes[i].g.pending == 0 then s
    else
      var x := ChildDone(s.nodes[i].g, e);
      Pass(WithGroup(s, i, x.g), i, x.call)
  }

  function WithGroup(s: Sys, i: nat, g: Group): (r: Sys)
    requires Shaped(s) && i < |s.nodes|
    ensures Shaped(r)
  {
    s.(nodes := s.nodes[i := s.nodes[i].(g := g)])
  }

  function WithReport(s: Sys, i: nat, r: Report): (t: Sys)
    requires Shaped(s) && i < |s.nodes|
    ensures Shaped(t)
  {
    s.(nodes := s.nodes[i := s.nodes[i].(log := s.nodes[i].log + [r])])
  }

  /** The group's own message `i` settled: one fewer is open, and it is on record. */
  function MessageSettled(n: Node, e: Option<Error>): Node
    requires n.open > 0
  {
    n.(open := n.open - 1, nacked := n.nacked || e.Some?, log := n.log + [FromMessage(e)])
  }

  predicate LegalStep(s: Sys, ev: TreeEvent) {
    && ev.i < |s.nodes|
    && (ev.AddMessage? || ev.AddGroup? ==> !s.nodes[ev.i].g.sealed)
    && (ev.MessageDone? ==> s.nodes[ev.i].open > 0)
  }

  function Step(s: Sys, ev: TreeEvent): Sys
    requires Shaped(s) && LegalStep(s, ev)
  {
    var n := s.nodes[ev.i];
    match ev
    case AddMessage(i) => s.(nodes := s.nodes[i := n.(g := Added(n.g), open := n.open + 1)])
    case AddGroup(i) => s.(nodes := s.nodes[i := n.(g := Added(n.g))] + [Node(NEW_GROUP, Some(i), 0, false, [])])
    case MessageDone(i, e) =>
      Deliver(s.(nodes := s.nodes[i := MessageSettled(n, e)]), i, e)
    case SealNode(i) => Pass(WithGroup(s, i, Seal(n.g).g), i, Seal(n.g).call)
  }

  /** Child groups of `i` that have not resolved. */
  function Unfired(ns: seq<Node>, i: nat): nat {
    if ns == [] then 0 else Unfired(ns[..|ns| - 1], i) + Waits(ns[|ns| - 1], i)
  }

  function Waits(n: Node, i: nat): nat { if n.parent == Some(i) && !n.g.fired then 1 else 0 }

  lemma {:induction false} UnfiredUpdate(ns: seq<Node>, j: nat, n: Node, i: nat)
    requires j < |ns|
    ensures Unfired(ns[j := n], i) + Waits(ns[j], i) == Unfired(ns, i) + Waits(n, i)
  {
    var k := |ns| - 1;
    if j == k {
      assert ns[j := n][..k] == ns[..k];
    } else {
      assert ns[j := n][..k] == ns[..k][j := n];
      UnfiredUpdate(ns[..k], j, n, i);
    }
  }

  lemma {:induction false} UnfiredNone(ns: seq<Node>, i: nat)
    ensures Unfired(ns, i) == 0 <==> forall j | 0 <= j < |ns| && ns[j].parent == Some(i) :: ns[j].g.fired
  {
    if ns != [] {
      UnfiredNone(ns[..|ns| - 1], i);
      assert forall j | 0 <= j < |ns| - 1 :: ns[..|ns| - 1][j] == ns[j];
    }
  }

  /** A child group that resolved with an error. */
  predicate FailedChild(ns: seq<Node>, i: nat) {
    exists j :: 0 <= j < |ns| && ns[j].parent == Some(i) && ns[j].g.fired && ns[j].g.firstError.Some?
  }

  /** The group at `hole` has one settled child whose report `e` has not reached it yet. */
  ghost predicate NodeOk(ns: seq<Node>, i: nat, hole: Option<nat>, e: Option<Error>)
    requires i < |ns|
  {
    var n, late := ns[i], hole == Some(i);
    && n.g.pending == n.open + Unfired(ns, i) + (if late then 1 else 0)
    && n.g.fired == (n.g.sealed && n.g.pending == 0)
    && ((n.g.firstError.Some? || (late && e.Some?)) <==> n.nacked || FailedChild(ns, i))
  }

  ghost predicate Inv(s: Sys, hole: Option<nat>, e: Option<Error>) {
    && Shaped(s)
    && (forall i: nat | i < |s.nodes| :: NodeOk(s.nodes, i, hole, e))
    && s.calls == if s.nodes[0].g.fired then [s.nodes[0].g.firstError] else []
  }

  lemma {:induction false} DeliverKeeps(s: Sys, i: nat, e: Option<Error>)
    requires Inv(s, Some(i), e) && i < |s.nodes|
    ensures Inv(Deliver(s, i, e), None, None)
    decreases i, 2
  {
    assert NodeOk(s.nodes, i, Some(i), e);
    var x := ChildDone(s.nodes[i].g, e);
    PassKeeps(s, WithGroup(s, i, x.g), i, Some(i), e, x.call);
  }

  /** Group `i` took a step; the call it made, if any, is passed on. */
  lemma {:induction false} PassKeeps(s: Sys, t: Sys, i: nat, hole: Option<nat>, e: Option<Error>, call: Option<Option<Error>>)
    requires i < |s.nodes| && Inv(s, hole, e) && (hole.Some? ==> hole.value == i)
    requires var g := s.nodes[i].g;
             var x := if hole.Some? && g.pending > 0 then ChildDone(g, e) else Seal(g);
             (hole.Some? ==> g.pending > 0) && t == WithGroup(s, i, x.g) && call == x.call
    ensures Inv(Pass(t, i, call), None, None)
    decreases i, 1
  {
    var p := s.nodes[i].parent;
    var up := if call.Some? then p else None;
    var carried := if call.Some? && p.Some? then call.value else None;
    forall k: nat | k < |t.nodes|
      ensures NodeOk(t.nodes, k, up, carried)
    {
      StepNode(s, t, i, hole, e, call, k);
    }
    assert NodeOk(s.nodes, 0, hole, e);
    assert NodeOk(s.nodes, i, hole, e);
    if call.Some? && p.Some? {
      assert Inv(t, p, call.value);
      ReportKeeps(t, p.value, FromGroup(i), call.value);
      DeliverKeeps(WithReport(t, p.value, FromGroup(i)), p.value, call.value);
    }
  }

  /** Writing a report down changes no count. */
  lemma ReportKeeps(s: Sys, i: nat, r: Report, e: Option<Error>)
    requires i < |s.nodes| && Inv(s, Some(i), e)
    ensures Inv(WithReport(s, i, r), Some(i), e)
  {
    var t := WithReport(s, i, r);
    forall k: nat | k < |t.nodes|
      ensures NodeOk(t.nodes, k, Some(i), e)
    {
      assert NodeOk(s.nodes, k, Some(i), e);
      UnfiredUpdate(s.nodes, i, t.nodes[i], k);
      FailedStep(s.nodes, t.nodes, i, k);
    }
  }

  lemma StepNode(s: Sys, t: Sys, i: nat, hole: Option<nat>, e: Option<Error>, call: Option<Option<Error>>, k: nat)
    requires i < |s.nodes| && k < |s.nodes| && Inv(s, hole, e) && (hole.Some? ==> hole.value == i)
    requires var g := s.nodes[i].g;
             var x := if hole.Some? && g.pending > 0 then ChildDone(g, e) else Seal(g);
             (hole.Some? ==> g.pending > 0) && t == WithGroup(s, i, x.g) && call == x.call
    ensures var up := if call.Some? then s.nodes[i].parent else None;
            NodeOk(t.nodes, k, up, if up.Some? then call.value else None)
  {
    UnfiredUpdate(s.nodes, i, t.nodes[i], k);
    assert NodeOk(s.nodes, k, hole, e);
    assert NodeOk(s.nodes, i, hole, e);
    FailedStep(s.nodes, t.nodes, i, k);
  }

  lemma FailedStep(a: seq<Node>, b: seq<Node>, i: nat, k: nat)
    requires i < |a| == |b| && b == a[i := b[i]] && b[i].parent == a[i].parent && (a[i].g.fired ==> a[i].g == b[i].g)
    ensures FailedChild(b, k) <==> FailedChild(a, k) || (a[i].parent == Some(k) && b[i].g.fired && b[i].g.firstError.Some?)
  {
    if FailedChild(a, k) {
      var j :| 0 <= j < |a| && a[j].parent == Some(k) && a[j].g.fired && a[j].g.firstError.Some?;
      assert b[j].parent == Some(k) && b[j].g.fired && b[j].g.firstError.Some?;
    }
    if FailedChild(b, k) {
      var j :| 0 <= j < |b| && b[j].parent == Some(k) && b[j].g.fired && b[j].g.firstError.Some?;
      assert j != i ==> a[j] == b[j];
    }
  }

  // ---- every run ----------------------------------------------------------------------

  lemma StartOk()
    ensures Inv(START, None, None)
  {
    UnfiredNone(START.nodes, 0);
  }

  lemma StepKeeps(s: Sys, ev: TreeEvent)
    requires Inv(s, None, None) && LegalStep(s, ev)
    ensures Inv(Step(s, ev), None, None)
  {
    var i, n := ev.i, s.nodes[ev.i];
    match ev
    case AddMessage(_) => AddKeeps(s, i, n.(g := Added(n.g), open := n.open + 1));
    case AddGroup(_) =>
      ChildCounted(s, i);
      AppendKeeps(s.(nodes := s.nodes[i := n.(g := Added(n.g))]), i);
    case MessageDone(_, e) =>
      MessageLeaves(s, i, e);
      DeliverKeeps(s.(nodes := s.nodes[i := MessageSettled(n, e)]), i, e);
    case SealNode(_) => PassKeeps(s, WithGroup(s, i, Seal(n.g).g), i, None, None, Seal(n.g).call);
  }

  lemma ChildCounted(s: Sys, i: nat)
    requires Inv(s, None, None) && i < |s.nodes| && !s.nodes[i].g.sealed
    ensures var t := s.(nodes := s.nodes[i := s.nodes[i].(g := Added(s.nodes[i].g))]);
            Shaped(t) && forall k: nat | k < |t.nodes| :: NodeOk(t.nodes, k, Some(i), None)
  {
    var t := s.(nodes := s.nodes[i := s.nodes[i].(g := Added(s.nodes[i].g))]);
    assert NodeOk(s.nodes, i, None, None);
    forall k: nat | k < |t.nodes|
      ensures NodeOk(t.nodes, k, Some(i), None)
    {
      assert NodeOk(s.nodes, k, None, None);
      UnfiredUpdate(s.nodes, i, t.nodes[i], k);
      FailedStep(s.nodes, t.nodes, i, k);
    }
  }

  lemma MessageLeaves(s: Sys, i: nat, e: Option<Error>)
    requires Inv(s, None, None) && i < |s.nodes| && s.nodes[i].open > 0
    ensures Inv(s.(nodes := s.nodes[i := MessageSettled(s.nodes[i], e)]), Some(i), e)
  {
    var t := s.(nodes := s.nodes[i := MessageSettled(s.nodes[i], e)]);
    assert NodeOk(s.nodes, i, None, None);
    forall k: nat | k < |t.nodes|
      ensures NodeOk(t.nodes, k, Some(i), e)
    {
      assert NodeOk(s.nodes, k, None, None);
      UnfiredUpdate(s.nodes, i, t.nodes[i], k);
      FailedStep(s.nodes, t.nodes, i, k);
    }
  }

  lemma AddKeeps(s: Sys, i: nat, m: Node)
    requires Inv(s, None, None) && i < |s.nodes| && !s.nodes[i].g.sealed
    requires m == s.nodes[i].(g := Added(s.nodes[i].g), open := s.nodes[i].open + 1)
    ensures Inv(s.(nodes := s.nodes[i := m]), None, None)
  {
    var t := s.(nodes := s.nodes[i := m]);
    assert NodeOk(s.nodes, i, None, None);
    forall k: nat | k < |s.nodes|
      ensures NodeOk(t.nodes, k, None, None)
    {
      assert NodeOk(s.nodes, k, None, None);
      UnfiredUpdate(s.nodes, i, m, k);
      FailedStep(s.nodes, t.nodes, i, k);
    }
  }

  /** A new group is an outstanding child of group `i`, which has just counted it. */
  lemma AppendKeeps(s: Sys, i: nat)
    requires Shaped(s) && i < |s.nodes| && !s.nodes[i].g.sealed
    requires forall k: nat | k < |s.nodes| :: NodeOk(s.nodes, k, Some(i), None)
    requires s.calls == if s.nodes[0].g.fired then [s.nodes[0].g.firstError] else []
    ensures Inv(s.(nodes := s.nodes + [Node(NEW_GROUP, Some(i), 0, false, [])]), None, None)
  {
    var n := |s.nodes|;
    var t := s.(nodes := s.nodes + [Node(NEW_GROUP, Some(i), 0, false, [])]);
    assert t.nodes[..n] == s.nodes;
    assert Shaped(t) by {
      assert forall j: nat | 0 < j < |t.nodes| :: j == n || t.nodes[j] == s.nodes[j];
    }
    forall k: nat | k <= n
      ensures NodeOk(t.nodes, k, None, None)
    {
      if k < n {
        assert NodeOk(s.nodes, k, Some(i), None);
        if FailedChild(s.nodes, k) {
          var j :| 0 <= j < n && s.nodes[j].parent == Some(k) && s.nodes[j].g.fired && s.nodes[j].g.firstError.Some?;
          assert t.nodes[j] == s.nodes[j];
        }
        if FailedChild(t.nodes, k) {
          var j :| 0 <= j <= n && t.nodes[j].parent == Some(k) && t.nodes[j].g.fired && t.nodes[j].g.firstError.Some?;
          assert j < n && s.nodes[j] == t.nodes[j];
        }
      } else {
        UnfiredNone(t.nodes, n);
      }
    }
  }

  predicate LegalRun(s: Sys, evs: seq<TreeEvent>)
    requires Shaped(s)
    decreases |evs|
  {
    evs == [] || (LegalStep(s, evs[0]) && (Shaped(Step(s, evs[0])) && LegalRun(Step(s, evs[0]), evs[1..])))
  }

  function RunTree(s: Sys, evs: seq<TreeEvent>): Sys
    requires Shaped(s) && LegalRun(s, evs)
    decreases |evs|
  {
    if evs == [] then s else RunTree(Step(s, evs[0]), evs[1..])
  }

  lemma {:induction false} RunKeeps(s: Sys, evs: seq<TreeEvent>)
    requires Inv(s, None, None) && LegalRun(s, evs)
    ensures Inv(RunTree(s, evs), None, None)
    decreases |evs|
  {
    if evs != [] {
      StepKeeps(s, evs[0]);
      RunKeeps(Step(s, evs[0]), evs[1..]);
    }
  }

  /** Every group is sealed and every message has settled. */
  predicate Quiet(s: Sys) { forall n | n in s.nodes :: n.g.sealed && n.open == 0 }

  predicate SomeNack(s: Sys) { exists n :: n in s.nodes && n.nacked }

  lemma {:induction false} FiredDown(s: Sys, j: nat)
    requires Inv(s, None, None) && s.nodes[0].g.fired && j < |s.nodes|
    ensures s.nodes[j].g.fired
  {
    if j > 0 {
      var p := s.nodes[j].parent.value;
      FiredDown(s, p);
      assert NodeOk(s.nodes, p, None, None);
      UnfiredNone(s.nodes, p);
    }
  }

  lemma {:induction false} FiredUp(s: Sys, j: nat)
    requires Inv(s, None, None) && Quiet(s) && j < |s.nodes|
    ensures s.nodes[j].g.fired
    decreases |s.nodes| - j
  {
    forall k | j < k < |s.nodes| { FiredUp(s, k); }
    assert NodeOk(s.nodes, j, None, None) && s.nodes[j] in s.nodes;
    UnfiredNone(s.nodes, j);
  }

  lemma {:induction false} NackUp(s: Sys, j: nat)
    requires Inv(s, None, None) && s.nodes[0].g.fired && j < |s.nodes| && s.nodes[j].g.firstError.Some?
    ensures s.nodes[0].g.firstError.Some?
  {
    if j > 0 {
      var p := s.nodes[j].parent.value;
      FiredDown(s, j);
      assert FailedChild(s.nodes, p);
      assert NodeOk(s.nodes, p, None, None);
      NackUp(s, p);
    }
  }

  lemma {:induction false} NackDown(s: Sys, j: nat)
    requires Inv(s, None, None) && j < |s.nodes| && s.nodes[j].g.firstError.Some?
    ensures SomeNack(s)
    decreases |s.nodes| - j
  {
    assert NodeOk(s.nodes, j, None, None);
    if FailedChild(s.nodes, j) {
      var k :| 0 <= k < |s.nodes| && s.nodes[k].parent == Some(j) && s.nodes[k].g.fired && s.nodes[k].g.firstError.Some?;
      NackDown(s, k);
    } else {
      assert s.nodes[j] in s.nodes;
    }
  }

  /** In every run of every tree of groups the source hears exactly once, when every group
      is sealed and every message settled, and it hears a nack exactly when some message was
      nacked; until then it hears nothing. */
  lemma SourceResolvedOnce(evs: seq<TreeEvent>)
    requires LegalRun(START, evs)
    ensures var s := RunTree(START, evs);
            if Quiet(s) then |s.calls| == 1 && (s.calls[0].Some? <==> SomeNack(s)) else s.calls == []
  {
    StartOk();
    RunKeeps(START, evs);
    var s := RunTree(START, evs);
    if Quiet(s) {
      FiredUp(s, 0);
      if SomeNack(s) {
        var j :| 0 <= j < |s.nodes| && s.nodes[j].nacked;
        assert NodeOk(s.nodes, j, None, None);
        NackUp(s, j);
      }
      if s.nodes[0].g.firstError.Some? { NackDown(s, 0); }
    } else if s.nodes[0].g.fired {
      forall j: nat | j < |s.nodes|
        ensures s.nodes[j].g.sealed && s.nodes[j].open == 0
      {
        FiredDown(s, j);
        assert NodeOk(s.nodes, j, None, None);
      }
    }
  }
}
