/** `stdout_writer`: every shard's writes through one queue and one thread, as the
    interleaved steps of its mutex sections, write calls and completions. */
module StdoutWriter {
  import opened Values

  datatype Req = Req(id: nat, buf: Str)

  /** Outside the mutex a thread is between requests, inside `write_all`, or gone. */
  datatype Thread = Waiting | Writing(req: Req, off: nat) | Exited

  /** A request the thread is through with: the bytes that went out, and the errno, 0 if none. */
  datatype Done = Done(req: Req, written: nat, errno: int)

  /** `accepted` and `finished` are history; the rest is the program's. */
  datatype State = State(
    q: seq<Req>, refs: nat, running: bool, threads: seq<Thread>,
    posted: seq<nat>, resolved: map<nat, int>, output: Str,
    accepted: seq<Req>, finished: seq<Done>)

  const INITIAL: State := State([], 0, false, [], [], map[], [], [], [])

  datatype Step =
    | Write(buf: Str)                // any shard, under the mutex
    | RefStep | UnrefStep            // under the mutex
    | Take(t: nat)                   // the thread, under the mutex: pop, or exit
    | Chunk(t: nat, n: nat)          // write(2) took n bytes
    | Retry(t: nat)                  // EINTR
    | Finish(t: nat, errno: int)     // write_all returned; the completion is posted
    | Resolve(k: nat)                // a posted completion runs on its shard

  predicate Enabled(s: State, st: Step) {
    match st
    case Take(t) => t < |s.threads| && s.threads[t].Waiting? && (s.q != [] || !s.running)
    case Chunk(t, n) => t < |s.threads| && s.threads[t].Writing? && 0 < n <= |s.threads[t].req.buf| - s.threads[t].off
    case Retry(t) => t < |s.threads| && s.threads[t].Writing? && s.threads[t].off < |s.threads[t].req.buf|
    case Finish(t, errno) =>
      // a zero return is reported as EIO, so stopping early is always an error
      t < |s.threads| && s.threads[t].Writing? && (errno != 0 <==> s.threads[t].off < |s.threads[t].req.buf|)
    case Resolve(k) => k < |s.posted| && s.posted[k] < |s.finished|
    case _ => true
  }

  function Apply(s: State, st: Step): State
    requires Enabled(s, st)
  {
    match st
    case Write(buf) =>
      if buf == [] || !s.running then s
      else
        var r := Req(|s.accepted|, buf);
        s.(q := s.q + [r], accepted := s.accepted + [r])
    case RefStep =>
      s.(refs := s.refs + 1, running := s.running || s.refs == 0,
         threads := if s.refs == 0 then s.threads + [Waiting] else s.threads)
    case UnrefStep =>
      if s.refs == 0 then s else s.(refs := s.refs - 1, running := s.running && s.refs != 1)
    case Take(t) =>
      if s.q == [] then s.(threads := s.threads[t := Exited])
      else s.(q := s.q[1..], threads := s.threads[t := Writing(s.q[0], 0)])
    case Chunk(t, n) =>
      var w := s.threads[t];
      s.(output := s.output + w.req.buf[w.off..w.off + n], threads := s.threads[t := w.(off := w.off + n)])
    case Retry(t) => s
    case Finish(t, errno) =>
      var w := s.threads[t];
      s.(finished := s.finished + [Done(w.req, w.off, errno)], posted := s.posted + [w.req.id],
         threads := s.threads[t := Waiting])
    case Resolve(k) =>
      s.(posted := s.posted[..k] + s.posted[k + 1..], resolved := s.resolved[s.posted[k] := s.finished[s.posted[k]].errno])
  }

  /** The thread is started again only once the previous one is gone. */
  predicate Orderly(s: State, st: Step) {
    Enabled(s, st) && (st.RefStep? && s.refs == 0 && s.threads != [] ==> s.threads[|s.threads| - 1].Exited?)
  }

  function Bytes(ds: seq<Done>): Str {
    if ds == [] then []
    else
      var d := ds[|ds| - 1];
      Bytes(ds[..|ds| - 1]) + (if d.written <= |d.req.buf| then d.req.buf[..d.written] else [])
  }

  function Reqs(ds: seq<Done>): seq<Req> { seq(|ds|, i requires 0 <= i < |ds| => ds[i].req) }

  /** The request in hand, and how much of it is out. */
  function Current(s: State): seq<Req> {
    if s.threads != [] && s.threads[|s.threads| - 1].Writing? then [s.threads[|s.threads| - 1].req] else []
  }

  function Partial(s: State): Str {
    if s.threads == [] then []
    else
      var w := s.threads[|s.threads| - 1];
      if w.Writing? && w.off <= |w.req.buf| then w.req.buf[..w.off] else []
  }

  predicate Live(s: State) { s.threads != [] && !s.threads[|s.threads| - 1].Exited? }

  ghost predicate Inv(s: State) { Threads(s) && InOrder(s) && Output(s) && Resolutions(s) }

  /** One thread at a time, and none outlives its queue. */
  ghost predicate Threads(s: State) {
    && (forall t | 0 <= t < |s.threads| - 1 :: s.threads[t].Exited?)
    && (s.running <==> s.refs > 0) && (s.running ==> Live(s)) && (!Live(s) ==> s.q == [])
  }

  /** Accepted requests are finished, in hand or queued, in that order. */
  ghost predicate InOrder(s: State) {
    && s.accepted == Reqs(s.finished) + Current(s) + s.q
    && (forall i | 0 <= i < |s.accepted| :: s.accepted[i].id == i && s.accepted[i].buf != [])
  }

  /** The output is what each request wrote, one after the other. */
  ghost predicate Output(s: State) {
    && s.output == Bytes(s.finished) + Partial(s)
    && (Live(s) && s.threads[|s.threads| - 1].Writing? ==>
          s.threads[|s.threads| - 1].off <= |s.threads[|s.threads| - 1].req.buf|)
    && (forall i | 0 <= i < |s.finished| :: Sound(s.finished[i]))
  }

  predicate Sound(d: Done) {
    d.written <= |d.req.buf| && (d.errno == 0 <==> d.written == |d.req.buf|)
  }

  /** A finished request is posted once or resolved, never both, with its own result. */
  ghost predicate Resolutions(s: State) {
    && (forall i: nat :: i < |s.finished| <==> (i in s.posted || i in s.resolved))
    && (forall i | i in s.posted :: i !in s.resolved)
    && (forall a, b | 0 <= a < b < |s.posted| :: s.posted[a] != s.posted[b])
    && (forall i | i in s.resolved :: i < |s.finished| && s.resolved[i] == s.finished[i].errno)
  }

  lemma BytesSnoc(ds: seq<Done>, d: Done)
    requires d.written <= |d.req.buf|
    ensures Bytes(ds + [d]) == Bytes(ds) + d.req.buf[..d.written]
  {
    assert (ds + [d])[..|ds|] == ds;
  }

  lemma StepKeeps(s: State, st: Step)
    requires Inv(s) && Orderly(s, st)
    ensures Inv(Apply(s, st))
  {
    hide Inv;
    match st
    case Write(buf) => WriteKeeps(s, buf);
    case RefStep => RefsKeep(s, st);
    case UnrefStep => RefsKeep(s, st);
    case Take(t) => TakeKeeps(s, t);
    case Chunk(t, n) => ChunkKeeps(s, t, n);
    case Retry(_) =>
    case Finish(t, errno) => FinishKeeps(s, t, errno);
    case Resolve(k) => ResolveKeeps(s, k);
  }

  lemma RefsKeep(s: State, st: Step)
    requires Inv(s) && Orderly(s, st) && (st.RefStep? || st.UnrefStep?)
    ensures Inv(Apply(s, st))
  {
    hide Resolutions, Bytes, Reqs;
    SameResolutions(s, Apply(s, st));
  }

  lemma WriteKeeps(s: State, buf: Str)
    requires Inv(s)
    ensures Inv(Apply(s, Write(buf)))
  {
    hide Resolutions, Bytes, Reqs, Current, Partial;
    var r, u := Req(|s.accepted|, buf), Apply(s, Write(buf));
    assert Resolutions(u) by { SameResolutions(s, u); }
    assert Current(u) == Current(s) && Partial(u) == Partial(s) by { SameThreads(s, u); }
    assert Reqs(s.finished) + Current(s) + (s.q + [r]) == Reqs(s.finished) + Current(s) + s.q + [r];
  }

  lemma SameThreads(s: State, u: State)
    requires u.threads == s.threads
    ensures Current(u) == Current(s) && Partial(u) == Partial(s)
  {
  }

  lemma TakeKeeps(s: State, t: nat)
    requires Inv(s) && Enabled(s, Take(t))
    ensures Inv(Apply(s, Take(t)))
  {
    hide Resolutions, Bytes, Reqs;
    var u := Apply(s, Take(t));
    assert t == |s.threads| - 1;
    assert Resolutions(u) by { SameResolutions(s, u); }
    if s.q != [] {
      assert [s.q[0]] + s.q[1..] == s.q;
      assert Reqs(s.finished) + [] + s.q == Reqs(s.finished) + [s.q[0]] + s.q[1..];
      assert Partial(u) == [];
    }
  }

  lemma ChunkKeeps(s: State, t: nat, n: nat)
    requires Inv(s) && Enabled(s, Chunk(t, n))
    ensures Inv(Apply(s, Chunk(t, n)))
  {
    hide Resolutions, Bytes, Reqs;
    var w, u := s.threads[t], Apply(s, Chunk(t, n));
    assert t == |s.threads| - 1;
    assert Resolutions(u) by { SameResolutions(s, u); }
    assert Current(u) == Current(s);
    assert Partial(s) == w.req.buf[..w.off] && Partial(u) == w.req.buf[..w.off + n];
    assert w.req.buf[..w.off + n] == w.req.buf[..w.off] + w.req.buf[w.off..w.off + n];
  }

  lemma SameResolutions(s: State, u: State)
    requires Resolutions(s) && u.finished == s.finished && u.posted == s.posted && u.resolved == s.resolved
    ensures Resolutions(u)
  {
  }

  lemma FinishKeeps(s: State, t: nat, errno: int)
    requires Inv(s) && Enabled(s, Finish(t, errno))
    ensures Inv(Apply(s, Finish(t, errno)))
  {
    hide Resolutions, InOrder, Bytes;
    var w, u := s.threads[t], Apply(s, Finish(t, errno));
    assert t == |s.threads| - 1;
    FinishOrder(s, t, errno);
    FinishOutput(s, u, t, Done(w.req, w.off, errno));
    FinishPosts(s, u, Done(w.req, w.off, errno));
  }

  lemma FinishOrder(s: State, t: nat, errno: int)
    requires InOrder(s) && Enabled(s, Finish(t, errno)) && t == |s.threads| - 1
    ensures InOrder(Apply(s, Finish(t, errno))) && s.threads[t].req.id == |s.finished|
  {
    var w, u := s.threads[t], Apply(s, Finish(t, errno));
    assert Reqs(u.finished) == Reqs(s.finished) + [w.req];
    assert Reqs(u.finished) + [] + s.q == Reqs(s.finished) + [w.req] + s.q;
    assert s.accepted[|s.finished|] == w.req;
  }

  lemma FinishOutput(s: State, u: State, t: nat, d: Done)
    requires Output(s) && t + 1 == |s.threads| && s.threads[t] == Writing(d.req, d.written) && Sound(d)
    requires u.finished == s.finished + [d] && u.output == s.output && u.threads == s.threads[t := Waiting]
    ensures Output(u)
  {
    hide Bytes, Sound;
    assert d.written <= |d.req.buf|;
    BytesSnoc(s.finished, d);
    assert Partial(s) == d.req.buf[..d.written] && Partial(u) == [];
    assert s.output + [] == s.output;
  }

  /** The finished request was not yet posted or resolved; now it is posted. */
  lemma FinishPosts(s: State, u: State, d: Done)
    requires Resolutions(s) && d.req.id == |s.finished|
    requires u.finished == s.finished + [d] && u.posted == s.posted + [d.req.id] && u.resolved == s.resolved
    ensures Resolutions(u)
  {
    assert forall i :: i in u.posted <==> i in s.posted || i == d.req.id;
    assert forall i | i in s.resolved :: i < |s.finished| && u.finished[i] == s.finished[i];
    forall a | 0 <= a < |s.posted|
      ensures s.posted[a] != d.req.id
    {
      assert s.posted[a] in s.posted;
    }
  }

  lemma ResolveKeeps(s: State, k: nat)
    requires Inv(s) && Enabled(s, Resolve(k))
    ensures Inv(Apply(s, Resolve(k))) && s.posted[k] !in s.resolved
  {
    hide Bytes, Reqs;
    assert s.posted[k] in s.posted;
    RemoveAt(s.posted, k);
    var u := Apply(s, Resolve(k));
    assert Resolutions(u) by {
      assert forall i: nat :: i in u.resolved <==> i in s.resolved || i == s.posted[k];
    }
  }

  lemma RemoveAt(p: seq<nat>, k: nat)
    requires k < |p| && forall a, b | 0 <= a < b < |p| :: p[a] != p[b]
    ensures var r := p[..k] + p[k + 1..];
            && (forall i :: i in r <==> i in p && i != p[k])
            && (forall a, b | 0 <= a < b < |r| :: r[a] != r[b])
  {
    var r := p[..k] + p[k + 1..];
    forall i
      ensures i in r <==> i in p && i != p[k]
    {
      if i in p && i != p[k] {
        var j :| 0 <= j < |p| && p[j] == i;
        assert r[if j < k then j else j - 1] == i;
      }
      if i in r {
        var j :| 0 <= j < |r| && r[j] == i;
        assert p[if j < k then j else j + 1] == i;
      }
    }
    forall a, b | 0 <= a < b < |r|
      ensures r[a] != r[b]
    {
      assert r[a] == p[if a < k then a else a + 1] && r[b] == p[if b < k then b else b + 1];
    }
  }

  // ---- whole runs ---------------------------------------------------------------------

  predicate OrderlyRun(s: State, run: seq<Step>)
    decreases |run|
  {
    run == [] || (Orderly(s, run[0]) && OrderlyRun(Apply(s, run[0]), run[1..]))
  }

  predicate EnabledRun(s: State, run: seq<Step>)
    decreases |run|
  {
    run == [] || (Enabled(s, run[0]) && EnabledRun(Apply(s, run[0]), run[1..]))
  }

  function Final(s: State, run: seq<Step>): State
    requires EnabledRun(s, run)
    decreases |run|
  {
    if run == [] then s else Final(Apply(s, run[0]), run[1..])
  }

  lemma {:induction false} RunKeeps(s: State, run: seq<Step>)
    requires Inv(s) && OrderlyRun(s, run)
    ensures EnabledRun(s, run) && Inv(Final(s, run))
    decreases |run|
  {
    if run != [] {
      StepKeeps(s, run[0]);
      RunKeeps(Apply(s, run[0]), run[1..]);
    }
  }

  function Bufs(rs: seq<Req>): (r: seq<Str>)
    ensures |r| == |rs|
  {
    seq(|rs|, i requires 0 <= i < |rs| => rs[i].buf)
  }

  /** The buffers written while someone holds the writer, empty ones left out. */
  function Offered(run: seq<Step>, holders: nat): seq<Str> {
    if run == [] then []
    else
      match run[0]
      case Write(buf) => (if buf != [] && holders > 0 then [buf] else []) + Offered(run[1..], holders)
      case RefStep => Offered(run[1..], holders + 1)
      case UnrefStep => Offered(run[1..], if holders == 0 then 0 else holders - 1)
      case _ => Offered(run[1..], holders)
  }

  /** How one step changes the holders. */
  function HoldersAfter(st: Step, holders: nat): nat {
    if st.RefStep? then holders + 1 else if st.UnrefStep? && holders > 0 then holders - 1 else holders
  }

  lemma StepAccepts(s: State, st: Step)
    requires Enabled(s, st) && (s.running <==> s.refs > 0)
    ensures var t := Apply(s, st);
            && t.refs == HoldersAfter(st, s.refs)
            && Bufs(t.accepted) == Bufs(s.accepted) + (if st.Write? && st.buf != [] && s.refs > 0 then [st.buf] else [])
  {
  }

  lemma OfferedStep(run: seq<Step>, holders: nat)
    requires run != []
    ensures Offered(run, holders) ==
            (if run[0].Write? && run[0].buf != [] && holders > 0 then [run[0].buf] else []) + Offered(run[1..], HoldersAfter(run[0], holders))
  {
  }

  /** What is accepted is what was written while the writer was held, in that order. */
  lemma {:induction false} AcceptedAre(s: State, run: seq<Step>)
    requires Inv(s) && OrderlyRun(s, run) && EnabledRun(s, run)
    ensures Bufs(Final(s, run).accepted) == Bufs(s.accepted) + Offered(run, s.refs)
    decreases |run|
  {
    hide InOrder, Output, Resolutions, Apply, Offered, Bufs, Live;
    if run != [] {
      var t := Apply(s, run[0]);
      StepKeeps(s, run[0]);
      StepAccepts(s, run[0]);
      OfferedStep(run, s.refs);
      AcceptedAre(t, run[1..]);
    } else {
      NothingOffered(s.refs);
    }
  }

  lemma NothingOffered(holders: nat)
    ensures Offered([], holders) == []
  {
  }

  lemma WritesAccepted(run: seq<Step>)
    requires OrderlyRun(INITIAL, run) && EnabledRun(INITIAL, run)
    ensures Bufs(Final(INITIAL, run).accepted) == Offered(run, 0)
  {
    hide Final, Offered, OrderlyRun, EnabledRun;
    assert Inv(INITIAL);
    AcceptedAre(INITIAL, run);
    assert Bufs(INITIAL.accepted) == [];
  }

  lemma Delivered(run: seq<Step>)
    requires OrderlyRun(INITIAL, run)
    ensures EnabledRun(INITIAL, run)
    ensures var s := Final(INITIAL, run);
            // buffers appear in acceptance order, each whole unless its write failed
            && Reqs(s.finished) <= s.accepted
            && s.output == Bytes(s.finished) + Partial(s)
            // success is reported only when every byte went out
            && (forall i | i in s.resolved :: i < |s.finished| && (s.resolved[i] == 0 <==> s.finished[i].written == |s.accepted[i].buf|))
            // once the thread is gone and its posts have run, every accepted request is resolved
            && (!Live(s) && s.posted == [] ==> forall i: nat :: i < |s.accepted| <==> i in s.resolved)
  {
    assert Inv(INITIAL);
    RunKeeps(INITIAL, run);
    var s := Final(INITIAL, run);
    forall i | i in s.resolved
      ensures i < |s.finished| && s.finished[i].req == s.accepted[i]
    {
      assert Reqs(s.finished)[i] == s.accepted[i];
    }
  }

  /** Starting a second thread while the first is still draining is what `Orderly` shuts out:
      then two buffers can interleave. */
  lemma LateRefInterleaves()
    ensures var run := [RefStep, Write([1, 2]), Take(0), UnrefStep, RefStep, Write([3, 4]), Take(1), Chunk(0, 1), Chunk(1, 1), Chunk(0, 1)];
            EnabledRun(INITIAL, run) && Final(INITIAL, run).output == [1, 3, 2]
  {
    var a, b := Req(0, [1, 2]), Req(1, [3, 4]);
    var s1 := INITIAL.(refs := 1, running := true, threads := [Waiting]);
    var s2 := s1.(q := [a], accepted := [a]);
    var s3 := s2.(q := [], threads := [Writing(a, 0)]);
    var s4 := s3.(refs := 0, running := false);
    var s5 := s4.(refs := 1, running := true, threads := [Writing(a, 0), Waiting]);
    var s6 := s5.(q := [b], accepted := [a, b]);
    var s7 := s6.(q := [], threads := [Writing(a, 0), Writing(b, 0)]);
    var s8 := s7.(threads := [Writing(a, 1), Writing(b, 0)], output := [1]);
    var s9 := s8.(threads := [Writing(a, 1), Writing(b, 1)], output := [1, 3]);
    var s10 := s9.(threads := [Writing(a, 2), Writing(b, 1)], output := [1, 3, 2]);
    RunCons(s9, Chunk(0, 1), [], s10);
    RunCons(s8, Chunk(1, 1), [Chunk(0, 1)], s9);
    RunCons(s7, Chunk(0, 1), [Chunk(1, 1), Chunk(0, 1)], s8);
    RunCons(s6, Take(1), [Chunk(0, 1), Chunk(1, 1), Chunk(0, 1)], s7);
    RunCons(s5, Write([3, 4]), [Take(1), Chunk(0, 1), Chunk(1, 1), Chunk(0, 1)], s6);
    RunCons(s4, RefStep, [Write([3, 4]), Take(1), Chunk(0, 1), Chunk(1, 1), Chunk(0, 1)], s5);
    RunCons(s3, UnrefStep, [RefStep, Write([3, 4]), Take(1), Chunk(0, 1), Chunk(1, 1), Chunk(0, 1)], s4);
    RunCons(s2, Take(0), [UnrefStep, RefStep, Write([3, 4]), Take(1), Chunk(0, 1), Chunk(1, 1), Chunk(0, 1)], s3);
    RunCons(s1, Write([1, 2]), [Take(0), UnrefStep, RefStep, Write([3, 4]), Take(1), Chunk(0, 1), Chunk(1, 1), Chunk(0, 1)], s2);
    RunCons(INITIAL, RefStep, [Write([1, 2]), Take(0), UnrefStep, RefStep, Write([3, 4]), Take(1), Chunk(0, 1), Chunk(1, 1), Chunk(0, 1)], s1);
  }

  lemma RunCons(s: State, st: Step, rest: seq<Step>, t: State)
    requires Enabled(s, st) && Apply(s, st) == t && EnabledRun(t, rest)
    ensures EnabledRun(s, [st] + rest) && Final(s, [st] + rest) == Final(t, rest)
  {
    assert ([st] + rest)[1..] == rest;
  }

  /** Every step of the run is possible, and what has finished went in acceptance order. */
  predicate InSequence(s: State, run: seq<Step>) {
    EnabledRun(s, run) && Reqs(Final(s, run).finished) <= Final(s, run).accepted
  }

  /** `Orderly` is exact: from any state of an orderly run, a step keeps the requests in order
      whatever orderly steps follow, if and only if it is orderly itself. */
  lemma OrderlyExactly(s: State, st: Step)
    requires Inv(s) && Enabled(s, st)
    ensures Orderly(s, st) <==> forall run | OrderlyRun(Apply(s, st), run) :: InSequence(Apply(s, st), run)
  {
    hide Apply, Inv;
    if Orderly(s, st) {
      StepKeeps(s, st);
      forall run | OrderlyRun(Apply(s, st), run)
        ensures InSequence(Apply(s, st), run)
      {
        RunKeeps(Apply(s, st), run);
        FinishedFirst(Final(Apply(s, st), run));
      }
    } else {
      var run := LateRefReorders(s);
    }
  }

  lemma FinishedFirst(s: State)
    requires Inv(s)
    ensures Reqs(s.finished) <= s.accepted
  {
    hide Reqs, Current;
  }

  /** A late `ref`: the old thread holds one request, the new one takes the next and is done first. */
  lemma LateRefReorders(s: State) returns (run: seq<Step>)
    requires Inv(s) && s.refs == 0 && Live(s)
    ensures OrderlyRun(Apply(s, RefStep), run) && !InSequence(Apply(s, RefStep), run)
  {
    hide Resolutions, Output, Bytes, Partial;
    var t, u := |s.threads| - 1, Apply(s, RefStep);
    if s.threads[t].Writing? {
      run := Overtakes(u, t);
    } else {
      var v := Apply(u, Write([1]));
      var w := Apply(v, Take(t));
      assert [v.q[0]] + w.q == v.q;
      assert u.accepted + [Req(|u.accepted|, [1])] == Reqs(w.finished) + [v.q[0]] + w.q by {
        assert Current(s) == [];
        assert Reqs(s.finished) + [] + s.q + [Req(|u.accepted|, [1])] == Reqs(s.finished) + (s.q + [Req(|u.accepted|, [1])]);
      }
      var rest := Overtakes(w, t);
      OrderlyCons(v, Take(t), rest, w);
      OrderlyCons(u, Write([1]), [Take(t)] + rest, v);
      run := [Write([1])] + ([Take(t)] + rest);
    }
  }

  /** Thread `t` is held up while the one after it, which is idle, takes a request and finishes it. */
  lemma Overtakes(s: State, t: nat) returns (run: seq<Step>)
    requires s.running && t + 2 == |s.threads| && s.threads[t].Writing? && s.threads[t + 1].Waiting?
    requires s.accepted == Reqs(s.finished) + [s.threads[t].req] + s.q
    requires forall i | 0 <= i < |s.accepted| :: s.accepted[i].id == i
    ensures OrderlyRun(s, run) && EnabledRun(s, run) && !InSequence(s, run)
  {
    var held, n := s.threads[t].req, |s.finished|;
    var s1 := Apply(s, Write([1]));
    var next := s1.q[0];
    assert s1.accepted[n] == held && s1.accepted[n + 1] == next;
    var s2 := Apply(s1, Take(t + 1));
    var errno := if next.buf == [] then 0 else EIO;
    var s3 := Apply(s2, Finish(t + 1, errno));
    run := [Write([1]), Take(t + 1), Finish(t + 1, errno)];
    OrderlyCons(s2, Finish(t + 1, errno), [], s3);
    OrderlyCons(s1, Take(t + 1), [Finish(t + 1, errno)], s2);
    OrderlyCons(s, Write([1]), [Take(t + 1), Finish(t + 1, errno)], s1);
    assert Reqs(s3.finished)[n] == next && s3.accepted == s1.accepted;
  }

  lemma OrderlyCons(s: State, st: Step, rest: seq<Step>, t: State)
    requires Orderly(s, st) && Apply(s, st) == t && OrderlyRun(t, rest) && EnabledRun(t, rest)
    ensures OrderlyRun(s, [st] + rest)
    ensures EnabledRun(s, [st] + rest) && Final(s, [st] + rest) == Final(t, rest)
  {
    assert ([st] + rest)[1..] == rest;
  }

  // ---- write_all ----------------------------------------------------------------------

  const EINTR: int := 4
  const EIO: int := 5

  /** What write(2) returns: some bytes, possibly none, or -1 and an errno. */
  datatype Return = Took(n: nat) | Failed(errno: int)

  /** The loop over partial writes, for any answers the kernel gives; `None` while they have
      not yet decided the outcome. */
  method WriteAll(buf: Str, answers: seq<Return>) returns (result: Option<int>, off: nat)
    requires forall a | a in answers :: a.Failed? ==> a.errno > 0
    ensures off <= |buf|
    ensures result.Some? ==> Sound(Done(Req(0, buf), off, result.value))
    ensures result.None? ==> off < |buf| && forall a | a in answers :: a.Took? || a.errno == EINTR
  {
    off := 0;
    var i := 0;
    while off < |buf|
      invariant off <= |buf| && i <= |answers|
      invariant forall k | 0 <= k < i :: answers[k].Took? || answers[k].errno == EINTR
      decreases |answers| - i
    {
      if i == |answers| { return None, off; }
      var a := answers[i];
      i := i + 1;
      if a.Took? && 0 < a.n <= |buf| - off {
        off := off + a.n;
        continue;
      }
      if a.Failed? && a.errno == EINTR { continue; }
      return Some(if a.Failed? then a.errno else EIO), off;
    }
    result := Some(0);
  }
}
