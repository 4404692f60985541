/**
The edge event channel over a FIFO connection: the host of scripts/plugin-edge-host.js against a server that
accepts an event only when its number is above the last accepted one of the plugin, and acknowledges that last
number. Connections open, drop (losing what is under way) and reopen at any time.
*/
module EdgeChannel {
  import opened EdgeHost

  // ---------- Sequences of events ----------

  function LastNr(es: seq<Event>): int { if es == [] then 0 else es[|es| - 1].nr }

  /** The events of plugin `p`, numbered strictly upwards from at least 1. */
  ghost predicate Ascending(p: Plugin, es: seq<Event>) {
    && (forall i :: 0 <= i < |es| ==> es[i].plugin == p && es[i].nr >= 1)
    && (forall i, j :: 0 <= i < j < |es| ==> es[i].nr < es[j].nr)
  }

  lemma {:induction false} AboveTwice(es: seq<Event>, a: int, b: int)
    ensures Above(Above(es, a), b) == Above(es, Max(a, b))
  {
    if es != [] {
      AboveTwice(es[1..], a, b);
      var rest := Above(es[1..], a);
      if es[0].nr > a {
        assert ([es[0]] + rest)[1..] == rest;
      } else {
        assert [] + rest == rest;
      }
    }
  }

  lemma {:induction false} AboveSnoc(es: seq<Event>, e: Event, k: int)
    ensures Above(es + [e], k) == Above(es, k) + if e.nr > k then [e] else []
  {
    if es == [] {
      assert [e][1..] == [];
    } else {
      assert (es + [e])[1..] == es[1..] + [e];
      AboveSnoc(es[1..], e, k);
    }
  }

  lemma {:induction false} AboveAll(es: seq<Event>, k: int)
    requires forall i :: 0 <= i < |es| ==> es[i].nr > k
    ensures Above(es, k) == es
  {
    if es != [] {
      AboveAll(es[1..], k);
    }
  }

  /** The first position from `i` on with a number above `k`, or the length. */
  function FirstAbove(es: seq<Event>, k: int, i: nat): (from: nat)
    requires i <= |es|
    ensures i <= from <= |es| && (forall j :: i <= j < from ==> es[j].nr <= k)
    ensures from < |es| ==> es[from].nr > k
    decreases |es| - i
  {
    if i < |es| && es[i].nr <= k then FirstAbove(es, k, i + 1) else i
  }

  /** Events up to a number are left out. */
  lemma {:induction false} AboveSkips(es: seq<Event>, k: int, i: nat)
    requires i <= |es| && forall j :: 0 <= j < i ==> es[j].nr <= k
    ensures Above(es, k) == Above(es[i..], k)
  {
    if i == 0 {
      assert es[0..] == es;
    } else {
      AboveSkips(es, k, i - 1);
      assert es[i - 1..][1..] == es[i..];
    }
  }

  /** In ascending order the events above a number are a suffix. */
  lemma AboveIsSuffix(p: Plugin, es: seq<Event>, k: int) returns (from: nat)
    requires Ascending(p, es)
    ensures from <= |es| && Above(es, k) == es[from..]
    ensures from > 0 ==> es[from - 1].nr <= k
    ensures from < |es| ==> es[from].nr > k
  {
    from := FirstAbove(es, k, 0);
    AboveSkips(es, k, from);
    AboveAll(es[from..], k);
  }

  // ---------- The server ----------

  /** Acceptance of one frame by a server that only compares numbers; `acc` are the accepted events of `p`. */
  function Accept(p: Plugin, acc: seq<Event>, f: Frame): seq<Event> {
    if f.EventFrame? && f.event.plugin == p && f.event.nr > LastNr(acc) then acc + [f.event] else acc
  }

  /** What the server will have accepted of `p` once the frames under way have arrived. */
  function Drain(p: Plugin, acc: seq<Event>, wire: seq<Frame>): seq<Event>
    decreases |wire|
  {
    if wire == [] then acc else Drain(p, Accept(p, acc, wire[0]), wire[1..])
  }

  function Frames(es: seq<Event>): seq<Frame> { seq(|es|, i requires 0 <= i < |es| => EventFrame(es[i])) }

  lemma {:induction false} DrainConcat(p: Plugin, acc: seq<Event>, w: seq<Frame>, w': seq<Frame>)
    ensures Drain(p, acc, w + w') == Drain(p, Drain(p, acc, w), w')
    decreases |w|
  {
    if w == [] {
      assert w + w' == w';
    } else {
      assert (w + w')[1..] == w[1..] + w';
      DrainConcat(p, Accept(p, acc, w[0]), w[1..], w');
    }
  }

  lemma {:induction false} DrainGrows(p: Plugin, acc: seq<Event>, w: seq<Frame>)
    ensures acc <= Drain(p, acc, w)
    decreases |w|
  {
    if w != [] {
      DrainGrows(p, Accept(p, acc, w[0]), w[1..]);
    }
  }

  lemma DrainOne(p: Plugin, acc: seq<Event>, w: seq<Frame>, f: Frame)
    ensures Drain(p, acc, w + [f]) == Accept(p, Drain(p, acc, w), f)
  {
    DrainConcat(p, acc, w, [f]);
    assert [f][1..] == [];
    assert Drain(p, Accept(p, Drain(p, acc, w), f), []) == Accept(p, Drain(p, acc, w), f);
  }

  lemma {:induction false} DrainOthers(p: Plugin, acc: seq<Event>, es: seq<Event>)
    requires forall e :: e in es ==> e.plugin != p
    ensures Drain(p, acc, Frames(es)) == acc
    decreases |es|
  {
    if es != [] {
      assert Frames(es)[1..] == Frames(es[1..]);
      DrainOthers(p, acc, es[1..]);
    }
  }

  /** Sending a suffix again completes what the server has, whatever part of it the server has already. */
  lemma {:induction false} DrainSuffix(p: Plugin, es: seq<Event>, from: nat, d: nat)
    requires Ascending(p, es) && from <= d <= |es|
    ensures Drain(p, es[..d], Frames(es[from..])) == es
    decreases |es| - from
  {
    var w := Frames(es[from..]);
    if from == |es| {
      assert es[..d] == es;
    } else {
      assert w[1..] == Frames(es[from + 1..]) && w[0] == EventFrame(es[from]);
      if d == from {
        assert es[..d] + [es[from]] == es[..d + 1];
        assert Accept(p, es[..d], w[0]) == es[..d + 1];
        DrainSuffix(p, es, from + 1, d + 1);
      } else {
        assert Accept(p, es[..d], w[0]) == es[..d];
        DrainSuffix(p, es, from + 1, d);
      }
    }
  }

  // ---------- One plugin's line ----------

  /** The queue law: the unacknowledged queue is exactly the emitted events above the recorded acknowledgement. */
  ghost predicate QueueLaw(q: Queues, p: Plugin, emitted: seq<Event>) {
    && Ascending(p, emitted)
    && Get(q.seqs, p, 0) == LastNr(emitted)
    && q.Unacked(p) == Above(emitted, q.AckOf(p))
    && 0 <= q.AckOf(p) <= LastNr(emitted)
    && (p in q.unacked ==> p in q.order)
  }

  lemma AscendingSnoc(p: Plugin, es: seq<Event>, e: Event)
    requires Ascending(p, es) && e.plugin == p && e.nr >= 1 && e.nr > LastNr(es)
    ensures Ascending(p, es + [e]) && LastNr(es + [e]) == e.nr
  {
  }

  lemma EmitKeepsQueueLaw(q: Queues, p: Plugin, emitted: seq<Event>, e: Event)
    requires QueueLaw(q, p, emitted) && (e.plugin == p ==> e.nr > LastNr(emitted))
    ensures QueueLaw(Queued(q, e), p, if e.plugin == p then emitted + [e] else emitted)
  {
    if e.plugin == p {
      AboveSnoc(emitted, e, q.AckOf(p));
      AscendingSnoc(p, emitted, e);
    }
  }

  lemma AckKeepsQueueLaw(q: Queues, p: Plugin, emitted: seq<Event>, r: Plugin, k: int)
    requires QueueLaw(q, p, emitted) && (p == r ==> 1 <= k <= LastNr(emitted))
    ensures QueueLaw(Acked(q, r, k), p, emitted)
    ensures Acked(q, r, k).AckOf(p) == if p == r then Max(k, q.AckOf(p)) else q.AckOf(p)
  {
    if p == r {
      AboveTwice(emitted, q.AckOf(p), k);
    }
  }

  lemma {:induction false} SentAllIs(h: Host, es: seq<Event>)
    ensures SentAll(h, es) == if h.open then h.(wire := h.wire + Frames(es)) else h
    decreases |es|
  {
    if es == [] {
      assert h.wire + Frames(es) == h.wire;
    } else {
      SentAllIs(Sent(h, EventFrame(es[0])), es[1..]);
      assert h.wire + Frames(es) == h.wire + [EventFrame(es[0])] + Frames(es[1..]);
    }
  }

  lemma {:induction false} ResentAllIsWire(h: Host, ps: seq<Plugin>)
    ensures ResentAll(h, ps) == h.(wire := ResentAll(h, ps).wire)
    ensures !h.open ==> ResentAll(h, ps) == h
    decreases |ps|
  {
    if ps != [] {
      SentAllIs(h, h.q.Unacked(ps[0]));
      ResentAllIsWire(Resent(h, ps[0]), ps[1..]);
    }
  }

  // ---------- Runs of the host alone ----------

  datatype Act =
    | Emit(p: Plugin, name: string, data: string, at: string, now: int)
    | Resend(p: Plugin)
    | Receive(m: Message)
    | Open
    | Close
    | WaitForAck(p: Plugin, nr: int)

  /** The host and everything it has emitted. */
  datatype Log = Log(host: Host, emitted: map<Plugin, seq<Event>>)
  {
    function Of(p: Plugin): seq<Event> { Get(emitted, p, []) }
  }

  function Do(l: Log, a: Act): Log {
    match a
    case Emit(p, name, data, at, now) =>
      var e := NextEvent(l.host.q, p, name, data, at, now);
      Log(Emitted(l.host, e), l.emitted[p := l.Of(p) + [e]])
    case Resend(p) => l.(host := Resent(l.host, p))
    case Receive(m) => l.(host := Received(l.host, m))
    case Open => l.(host := Opened(l.host))
    case Close => l.(host := Closed(l.host))
    case WaitForAck(p, nr) => l.(host := Waiting(l.host, Waiter(p, nr)))
  }

  /** Acknowledgements name events that were sent; nothing else is asked of the server or the clock. */
  ghost predicate Honest(l: Log, a: Act) {
    a.Receive? && a.m.Ack? ==> exists e :: e in l.Of(a.m.plugin) && e.nr == a.m.nr
  }

  ghost predicate HonestRun(l: Log, acts: seq<Act>)
    decreases |acts|
  {
    acts == [] || (Honest(l, acts[0]) && HonestRun(Do(l, acts[0]), acts[1..]))
  }

  function DoAll(l: Log, acts: seq<Act>): Log
    decreases |acts|
  {
    if acts == [] then l else DoAll(Do(l, acts[0]), acts[1..])
  }

  function AckIn(a: Act, p: Plugin, k: int): int {
    if a.Receive? && a.m.Ack? && a.m.plugin == p then Max(a.m.nr, k) else k
  }

  /** The highest acknowledgement of `p` among `k` and those in the run. */
  function HighestAck(acts: seq<Act>, p: Plugin, k: int): int
    decreases |acts|
  {
    if acts == [] then k else HighestAck(acts[1..], p, AckIn(acts[0], p, k))
  }

  /** What one act does to the queues: only an emission and an acknowledgement touch them. */
  function QueuesAfter(q: Queues, a: Act): Queues {
    match a
    case Emit(p, name, data, at, now) => Queued(q, NextEvent(q, p, name, data, at, now))
    case Receive(Ack(p, k)) => Acked(q, p, k)
    case _ => q
  }

  lemma ActOnQueues(l: Log, a: Act)
    ensures Do(l, a).host.q == QueuesAfter(l.host.q, a)
    ensures !a.Emit? ==> Do(l, a).emitted == l.emitted
  {
    if a.Resend? {
      SentAllIs(l.host, l.host.q.Unacked(a.p));
    }
    if a == Receive(State) {
      StateOnlySends(l.host);
    }
  }

  lemma StateOnlySends(h: Host)
    ensures StateSeen(h) == h.(wire := StateSeen(h).wire, ready := true)
  {
    var h1 := h.(ready := true);
    var h2 := if h.o.autoStatus then Sent(h1, Status) else h1;
    ResentAllIsWire(h2, h2.q.order);
  }

  lemma EmitStep(l: Log, a: Act, p: Plugin)
    requires QueueLaw(l.host.q, p, l.Of(p)) && a.Emit?
    ensures QueueLaw(Do(l, a).host.q, p, Do(l, a).Of(p)) && l.Of(p) <= Do(l, a).Of(p)
    ensures Do(l, a).host.q.AckOf(p) == l.host.q.AckOf(p)
  {
    ActOnQueues(l, a);
    EmitKeepsQueueLaw(l.host.q, p, l.Of(p), NextEvent(l.host.q, a.p, a.name, a.data, a.at, a.now));
  }

  lemma AckStep(l: Log, a: Act, p: Plugin)
    requires QueueLaw(l.host.q, p, l.Of(p)) && Honest(l, a) && a.Receive? && a.m.Ack?
    ensures QueueLaw(Do(l, a).host.q, p, Do(l, a).Of(p)) && l.Of(p) == Do(l, a).Of(p)
    ensures Do(l, a).host.q.AckOf(p) == AckIn(a, p, l.host.q.AckOf(p))
  {
    ActOnQueues(l, a);
    if a.m.plugin == p {
      HonestAckInRange(l, a.m);
    }
    AckKeepsQueueLaw(l.host.q, p, l.Of(p), a.m.plugin, a.m.nr);
  }

  lemma StepKeepsQueueLaw(l: Log, a: Act, p: Plugin)
    requires QueueLaw(l.host.q, p, l.Of(p)) && Honest(l, a)
    ensures QueueLaw(Do(l, a).host.q, p, Do(l, a).Of(p)) && l.Of(p) <= Do(l, a).Of(p)
    ensures Do(l, a).host.q.AckOf(p) == AckIn(a, p, l.host.q.AckOf(p))
  {
    if a.Emit? {
      EmitStep(l, a, p);
    } else if a.Receive? && a.m.Ack? {
      AckStep(l, a, p);
    } else {
      ActOnQueues(l, a);
    }
  }

  lemma HonestAckInRange(l: Log, m: Message)
    requires m.Ack? && Ascending(m.plugin, l.Of(m.plugin)) && Honest(l, Receive(m))
    ensures 1 <= m.nr <= LastNr(l.Of(m.plugin))
  {
  }

  lemma {:induction false} RunKeepsQueueLaw(l: Log, acts: seq<Act>, p: Plugin)
    requires QueueLaw(l.host.q, p, l.Of(p)) && HonestRun(l, acts)
    ensures QueueLaw(DoAll(l, acts).host.q, p, DoAll(l, acts).Of(p))
    ensures DoAll(l, acts).host.q.AckOf(p) == HighestAck(acts, p, l.host.q.AckOf(p))
    decreases |acts|
  {
    if acts != [] {
      StepKeepsQueueLaw(l, acts[0], p);
      RunKeepsQueueLaw(Do(l, acts[0]), acts[1..], p);
    }
  }

  /**
  In every run of a host, whatever the clock does and however late or often acknowledgements arrive: numbers
  strictly increase, the recorded acknowledgement is the highest one received, and the queue is exactly the
  emitted events above it, in emission order.
  */
  lemma QueueIsEmittedAboveHighestAck(o: Options, acts: seq<Act>, p: Plugin)
    requires HonestRun(Log(Fresh(o), map[]), acts)
    ensures var l := DoAll(Log(Fresh(o), map[]), acts);
      && Ascending(p, l.Of(p))
      && l.host.q.AckOf(p) == HighestAck(acts, p, 0)
      && l.host.q.Unacked(p) == Above(l.Of(p), HighestAck(acts, p, 0))
  {
    RunKeepsQueueLaw(Log(Fresh(o), map[]), acts, p);
  }

  // ---------- Waits, numbers and configurations of a run ----------

  /** The waits a run asks for. */
  function Waits(acts: seq<Act>): seq<Waiter> {
    if acts == [] then []
    else (if acts[0].WaitForAck? then [Waiter(acts[0].p, acts[0].nr)] else []) + Waits(acts[1..])
  }

  /** A wait is queued only while its acknowledgement is missing, and done only when it has come. */
  ghost predicate WaitsRight(h: Host) {
    && (forall w :: w in h.waiters ==> Get(h.q.acks, w.plugin, -1) < w.nr)
    && (forall w :: w in h.done ==> Get(h.q.acks, w.plugin, -1) >= w.nr)
  }

  lemma SplitCons(w: Waiter, a: seq<Waiter>, b: seq<Waiter>, ws: seq<Waiter>)
    requires multiset(a) + multiset(b) == multiset(ws)
    ensures multiset([w] + a) + multiset(b) == multiset([w] + ws)
    ensures multiset(a) + multiset([w] + b) == multiset([w] + ws)
  {
  }

  lemma SettledCons(acks: map<Plugin, int>, w: Waiter, ws: seq<Waiter>, which: bool)
    ensures Settled(acks, [w] + ws, which)
         == if IsDone(acks, w) == which then [w] + Settled(acks, ws, which) else Settled(acks, ws, which)
  {
    assert ([w] + ws)[1..] == ws;
  }

  lemma {:induction false} SettledCounts(acks: map<Plugin, int>, ws: seq<Waiter>)
    ensures multiset(Settled(acks, ws, true)) + multiset(Settled(acks, ws, false)) == multiset(ws)
  {
    if ws != [] {
      var w, rest := ws[0], ws[1..];
      assert ws == [w] + rest;
      SettledCounts(acks, rest);
      SettledCons(acks, w, rest, true);
      SettledCons(acks, w, rest, false);
      SplitCons(w, Settled(acks, rest, true), Settled(acks, rest, false), rest);
    }
  }

  lemma {:induction false} SettledAre(acks: map<Plugin, int>, ws: seq<Waiter>, which: bool)
    ensures forall w :: w in Settled(acks, ws, which) ==> (which <==> Get(acks, w.plugin, -1) >= w.nr)
  {
    if ws != [] {
      SettledAre(acks, ws[1..], which);
    }
  }

  lemma SettledSplits(acks: map<Plugin, int>, ws: seq<Waiter>)
    ensures multiset(Settled(acks, ws, true)) + multiset(Settled(acks, ws, false)) == multiset(ws)
    ensures forall w :: w in Settled(acks, ws, true) ==> Get(acks, w.plugin, -1) >= w.nr
    ensures forall w :: w in Settled(acks, ws, false) ==> Get(acks, w.plugin, -1) < w.nr
  {
    SettledCounts(acks, ws);
    SettledAre(acks, ws, true);
    SettledAre(acks, ws, false);
  }

  /** Every wait is either done or queued, once. */
  function AllWaits(h: Host): multiset<Waiter> { multiset(h.done) + multiset(h.waiters) }

  lemma NotifiedKeepsWaits(h: Host)
    ensures AllWaits(Notified(h)) == AllWaits(h)
  {
    SettledSplits(h.q.acks, h.waiters);
  }

  lemma NotifiedIsRight(h: Host)
    requires forall w :: w in h.done ==> Get(h.q.acks, w.plugin, -1) >= w.nr
    ensures WaitsRight(Notified(h))
  {
    SettledSplits(h.q.acks, h.waiters);
  }

  lemma WaitingIs(h: Host, w: Waiter)
    requires WaitsRight(h)
    ensures WaitsRight(Waiting(h, w)) && AllWaits(Waiting(h, w)) == AllWaits(h) + multiset{w}
  {
  }

  lemma ResentKeepsWaits(h: Host, p: Plugin)
    ensures AllWaits(Resent(h, p)) == AllWaits(h)
  {
    SentAllIs(h, h.q.Unacked(p));
  }

  /** Only a wait that is asked for is added. */
  lemma ActKeepsWaits(l: Log, a: Act)
    requires !a.WaitForAck?
    ensures AllWaits(Do(l, a).host) == AllWaits(l.host)
  {
    match a
    case Resend(p) => ResentKeepsWaits(l.host, p);
    case Receive(m) => ReceivedKeepsWaits(l.host, m);
    case _ =>
  }

  lemma ActOnWaits(l: Log, a: Act)
    requires WaitsRight(l.host)
    ensures AllWaits(Do(l, a).host)
         == AllWaits(l.host) + if a.WaitForAck? then multiset{Waiter(a.p, a.nr)} else multiset{}
  {
    if a.WaitForAck? {
      WaitingIs(l.host, Waiter(a.p, a.nr));
    } else {
      ActKeepsWaits(l, a);
    }
  }

  lemma ReceivedKeepsWaits(h: Host, m: Message)
    ensures AllWaits(Received(h, m)) == AllWaits(h)
  {
    if m.State? {
      StateOnlySends(h);
      NotifiedKeepsWaits(StateSeen(h));
    } else {
      SettledSplits(Received(h, m).q.acks, h.waiters);
    }
  }

  lemma ReceivedIsRight(h: Host, m: Message)
    requires WaitsRight(h) && (m.Ack? ==> m.nr >= 1)
    ensures WaitsRight(Received(h, m))
  {
    if m.State? {
      StateOnlySends(h);
    }
    SettledSplits(Received(h, m).q.acks, h.waiters);
  }

  lemma ActKeepsRight(l: Log, a: Act)
    requires WaitsRight(l.host) && (a.Receive? && a.m.Ack? ==> a.m.nr >= 1)
    ensures WaitsRight(Do(l, a).host)
  {
    match a
    case Resend(p) => SentAllIs(l.host, l.host.q.Unacked(p));
    case Receive(m) => ReceivedIsRight(l.host, m);
    case WaitForAck(p, nr) => WaitingIs(l.host, Waiter(p, nr));
    case _ =>
  }

  /** The recorded acknowledgement, -1 before the first one. */
  lemma ActOnAck(l: Log, a: Act, p: Plugin)
    requires a.Receive? && a.m.Ack? ==> a.m.nr >= 1
    ensures Get(Do(l, a).host.q.acks, p, -1) == AckIn(a, p, Get(l.host.q.acks, p, -1))
  {
    ActOnQueues(l, a);
  }

  ghost predicate AllQueueLaws(l: Log) { forall p: Plugin :: QueueLaw(l.host.q, p, l.Of(p)) }

  lemma StepKeepsAllLaws(l: Log, a: Act)
    requires AllQueueLaws(l) && Honest(l, a)
    ensures AllQueueLaws(Do(l, a)) && (a.Receive? && a.m.Ack? ==> a.m.nr >= 1)
  {
    forall p: Plugin ensures QueueLaw(Do(l, a).host.q, p, Do(l, a).Of(p)) {
      assert QueueLaw(l.host.q, p, l.Of(p));
      StepKeepsQueueLaw(l, a, p);
    }
    if a.Receive? && a.m.Ack? {
      assert QueueLaw(l.host.q, a.m.plugin, l.Of(a.m.plugin));
      HonestAckInRange(l, a.m);
    }
  }

  lemma {:induction false} RunKeepsWaits(l: Log, acts: seq<Act>, p: Plugin)
    requires AllQueueLaws(l) && WaitsRight(l.host) && HonestRun(l, acts)
    ensures var h := DoAll(l, acts).host;
      && WaitsRight(h) && AllWaits(h) == AllWaits(l.host) + multiset(Waits(acts))
      && Get(h.q.acks, p, -1) == HighestAck(acts, p, Get(l.host.q.acks, p, -1))
    decreases |acts|
  {
    if acts != [] {
      StepKeepsAllLaws(l, acts[0]);
      ActKeepsRight(l, acts[0]);
      ActOnWaits(l, acts[0]);
      ActOnAck(l, acts[0], p);
      RunKeepsWaits(Do(l, acts[0]), acts[1..], p);
    }
  }

  /**
  In every run each wait for an acknowledgement is either queued or resolved, once, and it is resolved exactly when an
  acknowledgement of at least its number has been received, before or after the wait was asked for.
  */
  lemma WaitIsResolvedExactly(o: Options, acts: seq<Act>, w: Waiter)
    requires HonestRun(Log(Fresh(o), map[]), acts)
    ensures var h := DoAll(Log(Fresh(o), map[]), acts).host;
      && multiset(h.done) + multiset(h.waiters) == multiset(Waits(acts))
      && (w in h.done <==> w in Waits(acts) && HighestAck(acts, w.plugin, -1) >= w.nr)
  {
    var l := Log(Fresh(o), map[]);
    RunKeepsWaits(l, acts, w.plugin);
    var h := DoAll(l, acts).host;
    assert w in multiset(h.done) + multiset(h.waiters) <==> w in h.done || w in h.waiters;
    assert w in multiset(Waits(acts)) <==> w in Waits(acts);
  }

  /** The emissions of a plugin in a run. */
  function Emissions(acts: seq<Act>, p: Plugin): seq<Act> {
    if acts == [] then []
    else (if acts[0].Emit? && acts[0].p == p then [acts[0]] else []) + Emissions(acts[1..], p)
  }

  /** The event carries what was emitted, under a number that is not below the clock. */
  ghost predicate Carries(e: Event, a: Act) {
    a.Emit? && e.plugin == a.p && e.name == a.name && e.data == a.data && e.at == a.at && e.nr >= a.now
  }

  ghost predicate AllCarry(es: seq<Event>, acts: seq<Act>) {
    |es| == |acts| && forall i :: 0 <= i < |es| ==> Carries(es[i], acts[i])
  }

  /** One act appends the event it emits. */
  lemma ActEmits(l: Log, a: Act, p: Plugin) returns (es: seq<Event>)
    ensures Do(l, a).Of(p) == l.Of(p) + es && AllCarry(es, if a.Emit? && a.p == p then [a] else [])
  {
    ActOnQueues(l, a);
    es := if a.Emit? && a.p == p then [NextEvent(l.host.q, p, a.name, a.data, a.at, a.now)] else [];
  }

  lemma CarryConcat(es: seq<Event>, acts: seq<Act>, fs: seq<Event>, bcts: seq<Act>)
    requires AllCarry(es, acts) && AllCarry(fs, bcts)
    ensures AllCarry(es + fs, acts + bcts)
  {
  }

  lemma AppendTwice(a: seq<Event>, b: seq<Event>, c: seq<Event>)
    ensures a + b + c == a + (b + c)
  {
  }

  lemma {:induction false} RunEmits(l: Log, acts: seq<Act>, p: Plugin) returns (es: seq<Event>)
    ensures DoAll(l, acts).Of(p) == l.Of(p) + es && AllCarry(es, Emissions(acts, p))
    decreases |acts|
  {
    if acts == [] {
      es := [];
      assert l.Of(p) + [] == l.Of(p);
    } else {
      var mine := if acts[0].Emit? && acts[0].p == p then [acts[0]] else [];
      var first := ActEmits(l, acts[0], p);
      var rest := RunEmits(Do(l, acts[0]), acts[1..], p);
      es := first + rest;
      AppendTwice(l.Of(p), first, rest);
      CarryConcat(first, mine, rest, Emissions(acts[1..], p));
    }
  }

  /** In every run the events of a plugin are those emitted, in order, each under a number not below its clock. */
  lemma EventsAreEmissions(o: Options, acts: seq<Act>, p: Plugin)
    ensures var of, es := DoAll(Log(Fresh(o), map[]), acts).Of(p), Emissions(acts, p);
      |of| == |es| && forall i :: 0 <= i < |es| ==> Carries(of[i], es[i])
  {
    var es := RunEmits(Log(Fresh(o), map[]), acts, p);
    assert [] + es == es;
  }

  /** The last configuration of `p` in a run, or `none`. */
  function LastConfig(acts: seq<Act>, p: Plugin, none: string): string
    decreases |acts|
  {
    if acts == [] then none
    else
      var a := acts[0];
      LastConfig(acts[1..], p, if a.Receive? && a.m.Configure? && a.m.plugin == p then a.m.data else none)
  }

  lemma ConfigAfter(l: Log, a: Act, p: Plugin, none: string)
    ensures Get(Do(l, a).host.configs, p, none)
         == if a.Receive? && a.m.Configure? && a.m.plugin == p then a.m.data else Get(l.host.configs, p, none)
    ensures p in l.host.configs ==> p in Do(l, a).host.configs
  {
    match a
    case Resend(q) => SentAllIs(l.host, l.host.q.Unacked(q));
    case Receive(State) => StateOnlySends(l.host);
    case _ =>
  }

  /** `configOf` answers the last configuration received. */
  lemma {:induction false} ConfigIsLast(l: Log, acts: seq<Act>, p: Plugin, none: string)
    ensures Get(DoAll(l, acts).host.configs, p, none) == LastConfig(acts, p, Get(l.host.configs, p, none))
    decreases |acts|
  {
    if acts != [] {
      ConfigAfter(l, acts[0], p, none);
      ConfigIsLast(Do(l, acts[0]), acts[1..], p, none);
    }
  }

  /** A connection opens with a hello where the host is to greet, and with nothing under way otherwise. */
  lemma OpensWithHello(l: Log)
    ensures var h := Do(l, Open).host;
      h.open && h.q == l.host.q && if l.host.o.hello then h.wire == [Hello] else h.wire == []
  {
  }

  /** A state is answered with a status first, where that is wanted, and with the queues after the first one only. */
  lemma StateIsAnswered(l: Log)
    requires l.host.open
    ensures var before, after := l.host.wire, Do(l, Receive(State)).host.wire;
      && (l.host.o.autoStatus ==> before + [Status] <= after)
      && (l.host.ready ==> after == before + if l.host.o.autoStatus then [Status] else [])
  {
    var h1 := l.host.(ready := true);
    var h2 := if l.host.o.autoStatus then Sent(h1, Status) else h1;
    ResendGrows(h2, h2.q.order);
    StateOnlySends(l.host);
  }

  lemma {:induction false} ResendGrows(h: Host, ps: seq<Plugin>)
    ensures h.wire <= ResentAll(h, ps).wire
    decreases |ps|
  {
    if ps != [] {
      SentAllIs(h, h.q.Unacked(ps[0]));
      ResendGrows(Resent(h, ps[0]), ps[1..]);
    }
  }

  /** The order of the queues is that in which their plugins were first met: it only grows at the end. */
  lemma OrderGrows(l: Log, a: Act)
    ensures l.host.q.order <= Do(l, a).host.q.order
  {
    ActOnQueues(l, a);
  }
}
