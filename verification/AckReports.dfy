/** Which error a tree of groups passes on: each group the earliest of its own reports, a
    child group's report being the error that group passed on. */
module AckReports {
  import opened Values
  import opened AckGroups
  import opened AckTree

  /** The error a report carries; a group that has fired keeps its error for good. */
  function ValueOf(ns: seq<Node>, r: Report): Option<Error> {
    match r
    case FromMessage(e) => e
    case FromGroup(j) => if j < |ns| then ns[j].g.firstError else None
  }

  function Earliest(ns: seq<Node>, log: seq<Report>): Option<Error> {
    if log == [] then None
    else
      var before := Earliest(ns, log[..|log| - 1]);
      if before.Some? then before else ValueOf(ns, log[|log| - 1])
  }

  /** Group `i` holds the earliest error of its reports, and has heard of exactly the child
      groups that fired, once each. At `hole` the last report is still on its way. */
  ghost predicate LogOk(ns: seq<Node>, i: nat, hole: Option<nat>, e: Option<Error>)
    requires i < |ns|
  {
    var n, late := ns[i], hole == Some(i);
    && (late ==> n.log != [] && ValueOf(ns, n.log[|n.log| - 1]) == e)
    && n.g.firstError == Earliest(ns, if late then n.log[..|n.log| - 1] else n.log)
    && Heard(ns, i)
    && (forall a, b | 0 <= a < b < |n.log| && n.log[a].FromGroup? :: n.log[a] != n.log[b])
  }

  ghost predicate Heard(ns: seq<Node>, i: nat)
    requires i < |ns|
  {
    forall j: nat :: FromGroup(j) in ns[i].log <==> j < |ns| && ns[j].parent == Some(i) && ns[j].g.fired
  }

  ghost predicate Logs(s: Sys, hole: Option<nat>, e: Option<Error>) {
    forall i: nat | i < |s.nodes| :: LogOk(s.nodes, i, hole, e)
  }

  /** Groups named in the log have the same errors in both. */
  predicate Agree(a: seq<Node>, b: seq<Node>, log: seq<Report>) {
    forall r | r in log :: ValueOf(a, r) == ValueOf(b, r)
  }

  lemma {:induction false} EarliestSame(a: seq<Node>, b: seq<Node>, log: seq<Report>)
    requires Agree(a, b, log)
    ensures Earliest(a, log) == Earliest(b, log)
  {
    if log != [] {
      assert log[|log| - 1] in log;
      EarliestSame(a, b, log[..|log| - 1]);
    }
  }

  lemma EarliestSnoc(ns: seq<Node>, log: seq<Report>, r: Report)
    ensures Earliest(ns, log + [r]) == if Earliest(ns, log).Some? then Earliest(ns, log) else ValueOf(ns, r)
  {
    assert (log + [r])[..|log|] == log;
  }

  // ---- one group's step -----------------------------------------------------------------

  /** The state in which a call, if the step made one, is on its way to the parent group. */
  function Called(s: Sys, t: Sys, i: nat, call: Option<Option<Error>>): (u: Sys)
    requires i < |s.nodes| == |t.nodes| && Shaped(t)
    requires s.nodes[i].parent.Some? ==> s.nodes[i].parent.value < |t.nodes|
    ensures Shaped(u) && |u.nodes| == |t.nodes|
  {
    if call.Some? && s.nodes[i].parent.Some? then WithReport(t, s.nodes[i].parent.value, FromGroup(i)) else t
  }

  /** What the callers below know of a step of group `i`. */
  ghost predicate GroupStep(s: Sys, i: nat, hole: Option<nat>, e: Option<Error>, x: Effect) {
    && i < |s.nodes| && Inv(s, hole, e) && Logs(s, hole, e) && (hole.Some? ==> hole.value == i)
    && var g := s.nodes[i].g;
       if hole.Some? then g.pending > 0 && x == ChildDone(g, e) else x == Seal(g)
  }

  lemma StepFires(s: Sys, i: nat, hole: Option<nat>, e: Option<Error>, x: Effect)
    requires GroupStep(s, i, hole, e, x)
    ensures Shaped(s)
    ensures s.nodes[i].g.fired ==> x.g == s.nodes[i].g && x.call.None?
    ensures x.call.Some? ==> !s.nodes[i].g.fired && x.g.fired && x.call.value == x.g.firstError
    ensures x.g.fired <==> s.nodes[i].g.fired || x.call.Some?
    ensures x.g.firstError == if hole.Some? && s.nodes[i].g.firstError.None? then e else s.nodes[i].g.firstError
  {
    assert NodeOk(s.nodes, i, hole, e);
  }

  /** Every error on record stays what it was: groups that have fired do not change. */
  lemma ErrorsStay(s: Sys, i: nat, hole: Option<nat>, e: Option<Error>, x: Effect, k: nat)
    requires GroupStep(s, i, hole, e, x) && k < |s.nodes|
    ensures Agree(s.nodes, Called(s, WithGroup(s, i, x.g), i, x.call).nodes, s.nodes[k].log)
  {
    StepFires(s, i, hole, e, x);
    assert LogOk(s.nodes, k, hole, e);
  }

  lemma HeardStep(s: Sys, i: nat, hole: Option<nat>, e: Option<Error>, x: Effect, k: nat)
    requires GroupStep(s, i, hole, e, x) && k < |s.nodes|
    ensures Heard(Called(s, WithGroup(s, i, x.g), i, x.call).nodes, k)
  {
    StepFires(s, i, hole, e, x);
    assert LogOk(s.nodes, k, hole, e);
    var t := Called(s, WithGroup(s, i, x.g), i, x.call);
    var told := x.call.Some? && s.nodes[i].parent == Some(k);
    assert t.nodes[k].log == s.nodes[k].log + if told then [FromGroup(i)] else [];
    forall j: nat
      ensures FromGroup(j) in t.nodes[k].log <==> j < |t.nodes| && t.nodes[j].parent == Some(k) && t.nodes[j].g.fired
    {
      assert FromGroup(j) in t.nodes[k].log <==> FromGroup(j) in s.nodes[k].log || (told && j == i);
    }
  }

  /** The group that stepped: a report that was on its way has arrived. */
  lemma OwnEarliest(s: Sys, i: nat, hole: Option<nat>, e: Option<Error>, x: Effect)
    requires GroupStep(s, i, hole, e, x)
    ensures x.g.firstError == Earliest(s.nodes, s.nodes[i].log)
  {
    hide Heard;
    StepFires(s, i, hole, e, x);
    assert LogOk(s.nodes, i, hole, e);
    var log := s.nodes[i].log;
    if hole.Some? {
      assert log == log[..|log| - 1] + [log[|log| - 1]];
      EarliestSnoc(s.nodes, log[..|log| - 1], log[|log| - 1]);
    }
  }

  /** Appending a group that has not been heard of keeps the log free of repetitions. */
  lemma NoRepetition(log: seq<Report>, i: nat)
    requires FromGroup(i) !in log
    requires forall a, b | 0 <= a < b < |log| && log[a].FromGroup? :: log[a] != log[b]
    ensures var more := log + [FromGroup(i)];
            forall a, b | 0 <= a < b < |more| && more[a].FromGroup? :: more[a] != more[b]
  {
    var more := log + [FromGroup(i)];
    forall a, b | 0 <= a < b < |more| && more[a].FromGroup?
      ensures more[a] != more[b]
    {
      assert more[a] == log[a] && log[a] in log;
    }
  }

  lemma LogStep(s: Sys, i: nat, hole: Option<nat>, e: Option<Error>, x: Effect, k: nat)
    requires GroupStep(s, i, hole, e, x) && k < |s.nodes|
    ensures var t := Called(s, WithGroup(s, i, x.g), i, x.call);
            var up := if x.call.Some? then s.nodes[i].parent else None;
            LogOk(t.nodes, k, up, if up.Some? then x.call.value else None)
  {
    hide Heard, Earliest, Inv;
    StepFires(s, i, hole, e, x);
    ErrorsStay(s, i, hole, e, x, k);
    HeardStep(s, i, hole, e, x, k);
    assert LogOk(s.nodes, k, hole, e);
    var t := Called(s, WithGroup(s, i, x.g), i, x.call);
    var log := s.nodes[k].log;
    EarliestSame(s.nodes, t.nodes, log);
    assert t.nodes[k].g.firstError == Earliest(s.nodes, log) by {
      if k == i { OwnEarliest(s, i, hole, e, x); }
    }
    if x.call.Some? && s.nodes[i].parent == Some(k) {
      NotYetHeard(s, i, hole, e, k);
      NoRepetition(log, i);
      assert (log + [FromGroup(i)])[..|log|] == log;
      assert t.nodes[k].log == log + [FromGroup(i)];
      ParentBefore(s, i, hole, e);
      assert ValueOf(t.nodes, FromGroup(i)) == x.call.value;
    } else {
      assert t.nodes[k].log == log;
    }
  }

  lemma ParentBefore(s: Sys, i: nat, hole: Option<nat>, e: Option<Error>)
    requires Inv(s, hole, e) && i < |s.nodes| && s.nodes[i].parent.Some?
    ensures s.nodes[i].parent.value < i
  {
  }

  lemma NotYetHeard(s: Sys, i: nat, hole: Option<nat>, e: Option<Error>, k: nat)
    requires i < |s.nodes| && k < |s.nodes| && Logs(s, hole, e) && !s.nodes[i].g.fired
    ensures FromGroup(i) !in s.nodes[k].log
  {
    assert LogOk(s.nodes, k, hole, e);
  }

  // ---- every step of every tree ---------------------------------------------------------

  lemma {:induction false} DeliverLogs(s: Sys, i: nat, e: Option<Error>)
    requires Inv(s, Some(i), e) && Logs(s, Some(i), e) && i < |s.nodes|
    ensures Logs(Deliver(s, i, e), None, None)
    decreases i, 2
  {
    assert NodeOk(s.nodes, i, Some(i), e);
    PassLogs(s, i, Some(i), e, ChildDone(s.nodes[i].g, e));
  }

  lemma {:induction false} PassLogs(s: Sys, i: nat, hole: Option<nat>, e: Option<Error>, x: Effect)
    requires GroupStep(s, i, hole, e, x)
    ensures Logs(Pass(WithGroup(s, i, x.g), i, x.call), None, None)
    decreases i, 1
  {
    hide LogOk;
    var t := WithGroup(s, i, x.g);
    var u := Called(s, t, i, x.call);
    var up := if x.call.Some? then s.nodes[i].parent else None;
    var carried := if up.Some? then x.call.value else None;
    forall k: nat | k < |u.nodes|
      ensures LogOk(u.nodes, k, up, carried)
    {
      LogStep(s, i, hole, e, x, k);
    }
    if up.Some? {
      CallArrives(s, i, hole, e, x);
      DeliverLogs(u, up.value, carried);
    }
  }

  /** The tree with the call on its way keeps its own invariant. */
  lemma CallArrives(s: Sys, i: nat, hole: Option<nat>, e: Option<Error>, x: Effect)
    requires GroupStep(s, i, hole, e, x) && x.call.Some? && s.nodes[i].parent.Some?
    ensures Inv(Called(s, WithGroup(s, i, x.g), i, x.call), s.nodes[i].parent, x.call.value)
  {
    var p := s.nodes[i].parent;
    var t := WithGroup(s, i, x.g);
    forall k: nat | k < |t.nodes|
      ensures NodeOk(t.nodes, k, p, x.call.value)
    {
      StepNode(s, t, i, hole, e, x.call, k);
    }
    assert NodeOk(s.nodes, 0, hole, e) && NodeOk(s.nodes, i, hole, e);
    ReportKeeps(t, p.value, FromGroup(i), x.call.value);
  }

  lemma StepLogs(s: Sys, ev: TreeEvent)
    requires Inv(s, None, None) && Logs(s, None, None) && LegalStep(s, ev)
    ensures Logs(Step(s, ev), None, None)
  {
    var i, n := ev.i, s.nodes[ev.i];
    match ev
    case AddMessage(_) =>
      var m := n.(g := Added(n.g), open := n.open + 1);
      assert s.nodes[i := m] + [] == s.nodes[i := m];
      AddLogs(s, i, m, []);
    case AddGroup(_) => AddLogs(s, i, n.(g := Added(n.g)), [Node(NEW_GROUP, Some(i), 0, false, [])]);
    case MessageDone(_, e) =>
      MessageLeaves(s, i, e);
      MessageLogs(s, i, e);
      DeliverLogs(s.(nodes := s.nodes[i := MessageSettled(n, e)]), i, e);
    case SealNode(_) => PassLogs(s, i, None, None, Seal(n.g));
  }

  lemma AddLogs(s: Sys, i: nat, m: Node, more: seq<Node>)
    requires Inv(s, None, None) && Logs(s, None, None) && i < |s.nodes|
    requires m.log == s.nodes[i].log && m.parent == s.nodes[i].parent
    requires m.g == Added(s.nodes[i].g)
    requires more == [] || more == [Node(NEW_GROUP, Some(i), 0, false, [])]
    ensures Logs(s.(nodes := s.nodes[i := m] + more), None, None)
  {
    var b := s.nodes[i := m] + more;
    forall k: nat | k < |b|
      ensures LogOk(b, k, None, None)
    {
      if k < |s.nodes| {
        assert LogOk(s.nodes, k, None, None);
        EarliestSame(s.nodes, b, s.nodes[k].log);
      } else {
        assert forall j: nat | j < |b| :: b[j].parent != Some(k);
      }
    }
  }

  lemma MessageLogs(s: Sys, i: nat, e: Option<Error>)
    requires Inv(s, None, None) && Logs(s, None, None) && i < |s.nodes| && s.nodes[i].open > 0
    ensures Logs(s.(nodes := s.nodes[i := MessageSettled(s.nodes[i], e)]), Some(i), e)
  {
    var b := s.nodes[i := MessageSettled(s.nodes[i], e)];
    forall k: nat | k < |b|
      ensures LogOk(b, k, Some(i), e)
    {
      assert LogOk(s.nodes, k, None, None);
      EarliestSame(s.nodes, b, s.nodes[k].log);
      if k == i {
        var log := s.nodes[i].log;
        assert (log + [FromMessage(e)])[..|log|] == log;
      }
    }
  }

  // ---- every run ------------------------------------------------------------------------

  lemma {:induction false} RunLogs(s: Sys, evs: seq<TreeEvent>)
    requires Inv(s, None, None) && Logs(s, None, None) && LegalRun(s, evs)
    ensures Logs(RunTree(s, evs), None, None)
    decreases |evs|
  {
    if evs != [] {
      StepLogs(s, evs[0]);
      StepKeeps(s, evs[0]);
      RunLogs(Step(s, evs[0]), evs[1..]);
    }
  }

  /** The error a group passes on, from the reports of the messages alone: the earliest in its
      log, where a child group stands for the error that group passes on. */
  function Verdict(ns: seq<Node>, i: nat): Option<Error>
    requires i < |ns|
    decreases |ns| - i, 1, 0
  {
    VerdictOf(ns, i, |ns[i].log|)
  }

  function VerdictOf(ns: seq<Node>, i: nat, n: nat): Option<Error>
    requires i < |ns| && n <= |ns[i].log|
    decreases |ns| - i, 0, n
  {
    if n == 0 then None
    else
      var before := VerdictOf(ns, i, n - 1);
      if before.Some? then before
      else
        match ns[i].log[n - 1]
        case FromMessage(e) => e
        case FromGroup(j) => if i < j < |ns| then Verdict(ns, j) else None
  }

  lemma {:induction false} FirstErrorIsVerdict(s: Sys, i: nat)
    requires Inv(s, None, None) && Logs(s, None, None) && i < |s.nodes|
    ensures s.nodes[i].g.firstError == Verdict(s.nodes, i)
    decreases |s.nodes| - i, 1, 0
  {
    assert LogOk(s.nodes, i, None, None);
    var log := s.nodes[i].log;
    EarliestIsVerdict(s, i, |log|);
    assert log[..|log|] == log;
  }

  lemma {:induction false} EarliestIsVerdict(s: Sys, i: nat, n: nat)
    requires Inv(s, None, None) && Logs(s, None, None) && i < |s.nodes| && n <= |s.nodes[i].log|
    ensures Earliest(s.nodes, s.nodes[i].log[..n]) == VerdictOf(s.nodes, i, n)
    decreases |s.nodes| - i, 0, n
  {
    if n > 0 {
      var log := s.nodes[i].log;
      EarliestIsVerdict(s, i, n - 1);
      assert log[..n] == log[..n - 1] + [log[n - 1]];
      EarliestSnoc(s.nodes, log[..n - 1], log[n - 1]);
      if log[n - 1].FromGroup? {
        var j := log[n - 1].j;
        assert LogOk(s.nodes, i, None, None) && FromGroup(j) in log;
        ParentBefore(s, j, None, None);
        FirstErrorIsVerdict(s, j);
      }
    }
  }

  /** What the messages of group `i` reported, in the order of the events. */
  function Told(evs: seq<TreeEvent>, i: nat): seq<Option<Error>> {
    if evs == [] then []
    else (if evs[0].MessageDone? && evs[0].i == i then [evs[0].e] else []) + Told(evs[1..], i)
  }

  function Messages(log: seq<Report>): seq<Option<Error>> {
    if log == [] then []
    else Messages(log[..|log| - 1]) + (match log[|log| - 1] case FromMessage(e) => [e] case FromGroup(_) => [])
  }

  lemma MessagesSnoc(log: seq<Report>, r: Report)
    ensures Messages(log + [r]) == Messages(log) + (match r case FromMessage(e) => [e] case FromGroup(_) => [])
  {
    assert (log + [r])[..|log|] == log;
  }

  /** What messages have reported to group `i`; nothing before the group is made. */
  function Record(s: Sys, i: nat): seq<Option<Error>> {
    if i < |s.nodes| then Messages(s.nodes[i].log) else []
  }

  lemma {:induction false} DeliverRecords(s: Sys, i: nat, e: Option<Error>, k: nat)
    requires Shaped(s) && i < |s.nodes|
    ensures Record(Deliver(s, i, e), k) == Record(s, k)
    decreases i, 2
  {
    hide Messages, ChildDone;
    if s.nodes[i].g.pending > 0 {
      var x := ChildDone(s.nodes[i].g, e);
      PassRecords(WithGroup(s, i, x.g), i, x.call, k);
    }
  }

  lemma {:induction false} PassRecords(s: Sys, i: nat, call: Option<Option<Error>>, k: nat)
    requires Shaped(s) && i < |s.nodes|
    ensures Record(Pass(s, i, call), k) == Record(s, k)
    decreases i, 1
  {
    hide Messages, Record, Deliver;
    if call.None? || s.nodes[i].parent.None? {
      CallRecords(s, i, call, k);
    } else {
      var p := s.nodes[i].parent.value;
      ReportRecords(s, p, FromGroup(i), k);
      DeliverRecords(WithReport(s, p, FromGroup(i)), p, call.value, k);
    }
  }

  lemma CallRecords(s: Sys, i: nat, call: Option<Option<Error>>, k: nat)
    requires Shaped(s) && i < |s.nodes| && (call.None? || s.nodes[i].parent.None?)
    ensures Record(Pass(s, i, call), k) == Record(s, k)
  {
    hide Messages;
  }

  /** A child group's report is no message's. */
  lemma ReportRecords(s: Sys, p: nat, r: Report, k: nat)
    requires Shaped(s) && p < |s.nodes| && r.FromGroup?
    ensures Record(WithReport(s, p, r), k) == Record(s, k)
  {
    hide Messages;
    MessagesSnoc(s.nodes[p].log, r);
    assert Messages(s.nodes[p].log) + [] == Messages(s.nodes[p].log);
  }

  lemma StepRecords(s: Sys, ev: TreeEvent, k: nat)
    requires Shaped(s) && LegalStep(s, ev)
    ensures Record(Step(s, ev), k) == Record(s, k) + (if ev.MessageDone? && ev.i == k then [ev.e] else [])
  {
    hide Messages;
    var n := s.nodes[ev.i];
    assert Record(s, k) + [] == Record(s, k);
    NoMessages();
    match ev
    case AddMessage(_) =>
    case AddGroup(_) =>
    case MessageDone(i, e) =>
      MessagesSnoc(n.log, FromMessage(e));
      DeliverRecords(s.(nodes := s.nodes[i := MessageSettled(n, e)]), i, e, k);
    case SealNode(i) => PassRecords(WithGroup(s, i, Seal(n.g).g), i, Seal(n.g).call, k);
  }

  lemma NoMessages()
    ensures Messages([]) == []
  {
  }

  lemma {:induction false} RunRecords(s: Sys, evs: seq<TreeEvent>, k: nat)
    requires Shaped(s) && LegalRun(s, evs)
    ensures Record(RunTree(s, evs), k) == Record(s, k) + Told(evs, k)
    decreases |evs|
  {
    hide Record, Step, LegalStep;
    if evs == [] {
      assert Record(s, k) + [] == Record(s, k);
    } else {
      StepRecords(s, evs[0], k);
      RunRecords(Step(s, evs[0]), evs[1..], k);
      var told := if evs[0].MessageDone? && evs[0].i == k then [evs[0].e] else [];
      assert Record(s, k) + told + Told(evs[1..], k) == Record(s, k) + (told + Told(evs[1..], k));
    }
  }

  /** In every run of every tree the source, once it hears, hears the earliest error of the
      outermost group; each group's log holds what its messages reported, in the order in
      which they did, and each child group at the place where that one resolved. */
  lemma SourceHearsEarliest(evs: seq<TreeEvent>)
    requires LegalRun(START, evs)
    ensures var s := RunTree(START, evs);
            && s.nodes != []
            && (Quiet(s) ==> s.calls == [Verdict(s.nodes, 0)])
            && (!Quiet(s) ==> s.calls == [])
            && (forall i: nat | i < |s.nodes| :: s.nodes[i].g.firstError == Verdict(s.nodes, i) && Heard(s.nodes, i))
            && (forall i: nat | i < |s.nodes| :: Messages(s.nodes[i].log) == Told(evs, i))
  {
    StartOk();
    RunKeeps(START, evs);
    assert Logs(START, None, None);
    RunLogs(START, evs);
    SourceResolvedOnce(evs);
    var s := RunTree(START, evs);
    forall i: nat | i < |s.nodes|
      ensures s.nodes[i].g.firstError == Verdict(s.nodes, i) && Heard(s.nodes, i)
      ensures Messages(s.nodes[i].log) == Told(evs, i)
    {
      FirstErrorIsVerdict(s, i);
      assert LogOk(s.nodes, i, None, None);
      RunRecords(START, evs, i);
      assert [] + Told(evs, i) == Told(evs, i);
    }
  }

  /** So the error that reaches the source is one that a message reported. */
  lemma SourceErrorReported(evs: seq<TreeEvent>)
    requires LegalRun(START, evs)
    ensures var s := RunTree(START, evs);
            s.calls != [] && s.calls[0].Some? ==> exists i: nat :: s.calls[0] in Told(evs, i)
  {
    SourceHearsEarliest(evs);
    var s := RunTree(START, evs);
    if s.calls != [] && s.calls[0].Some? {
      var i := VerdictReported(s.nodes, 0);
      assert s.calls[0] in Told(evs, i);
    }
  }

  lemma {:induction false} VerdictReported(ns: seq<Node>, i: nat) returns (k: nat)
    requires i < |ns| && Verdict(ns, i).Some?
    ensures k < |ns| && Verdict(ns, i) in Messages(ns[k].log)
    decreases |ns| - i, 1, 0
  {
    k := VerdictOfReported(ns, i, |ns[i].log|);
  }

  lemma {:induction false} VerdictOfReported(ns: seq<Node>, i: nat, n: nat) returns (k: nat)
    requires i < |ns| && n <= |ns[i].log| && VerdictOf(ns, i, n).Some?
    ensures k < |ns| && VerdictOf(ns, i, n) in Messages(ns[k].log)
    decreases |ns| - i, 0, n
  {
    if VerdictOf(ns, i, n - 1).Some? {
      k := VerdictOfReported(ns, i, n - 1);
    } else if ns[i].log[n - 1].FromGroup? {
      k := VerdictReported(ns, ns[i].log[n - 1].j);
    } else {
      k := i;
      MessageListed(ns[i].log, n - 1);
    }
  }

  lemma {:induction false} MessageListed(log: seq<Report>, n: nat)
    requires n < |log| && log[n].FromMessage?
    ensures log[n].e in Messages(log)
  {
    if n < |log| - 1 { MessageListed(log[..|log| - 1], n); }
  }
}
