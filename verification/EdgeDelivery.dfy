/**
Delivery over the edge event channel: host, FIFO connection and server together. The result is in-order,
exactly-once acceptance, and the exact discipline the host's user has to keep for it.
*/
module EdgeDelivery {
  import opened EdgeHost
  import opened EdgeChannel

  /**
  `down` are the messages under way to the host. `behind` are the plugins with unacknowledged events that were never
  sent on the present connection: those with a queue when it opened, until a resend or an acknowledgement of it all.
  */
  datatype Sys = Sys(log: Log, down: seq<Message>, accepted: map<Plugin, seq<Event>>, behind: set<Plugin>)
  {
    function Acc(p: Plugin): seq<Event> { Get(accepted, p, []) }

    predicate Open() { log.host.open }

    function Wire(): seq<Frame> { log.host.wire }
  }

  datatype Step =
    | Local(a: Act)       // something the host does by itself
    | Deliver             // the server takes the next frame
    | Serve(m: Message)   // the server sends
    | Hear                // the host takes the next message

  function Start(o: Options): Sys { Sys(Log(Fresh(o), map[]), [], map[], {}) }

  predicate Enabled(s: Sys, t: Step) {
    match t
    case Local(a) => !a.Receive? && (a.Open? ==> !s.Open())
    case Deliver => s.Wire() != []
    case Serve(m) => s.Open() && (m.Ack? ==> s.Acc(m.plugin) != [] && m.nr == LastNr(s.Acc(m.plugin)))
    case Hear => s.down != []
  }

  function BehindAfter(s: Sys, a: Act): set<Plugin> {
    match a
    case Open => set p | p in s.log.host.q.unacked && s.log.host.q.unacked[p] != []
    case Resend(p) => s.behind - {p}
    case Receive(State) => if s.log.host.ready then s.behind else {}
    case Receive(Ack(p, k)) => if Above(s.log.host.q.Unacked(p), k) == [] then s.behind - {p} else s.behind
    case _ => s.behind
  }

  function Next(s: Sys, t: Step): Sys
    requires Enabled(s, t)
  {
    match t
    case Local(a) =>
      Sys(Do(s.log, a), if a.Open? || a.Close? then [] else s.down, s.accepted, BehindAfter(s, a))
    case Deliver =>
      var f := s.Wire()[0];
      s.(log := Log(s.log.host.(wire := s.Wire()[1..]), s.log.emitted),
         accepted :=
           if f.EventFrame? then s.accepted[f.event.plugin := Accept(f.event.plugin, s.Acc(f.event.plugin), f)]
           else s.accepted)
    case Serve(m) => s.(down := s.down + [m])
    case Hear =>
      Sys(Do(s.log, Receive(s.down[0])), s.down[1..], s.accepted, BehindAfter(s, Receive(s.down[0])))
  }

  /**
  The discipline: nothing is emitted on an open connection for a plugin whose queue has not been sent on it.
  A caller sees this before the call: the queue was empty when the connection opened or has been acknowledged
  since, or the first state has arrived since, or `resend` was called since.
  */
  predicate Disciplined(s: Sys, t: Step) {
    t.Local? && t.a.Emit? && s.Open() ==> t.a.p !in s.behind
  }

  ghost predicate IsRun(s: Sys, ts: seq<Step>)
    decreases |ts|
  {
    ts == [] || (Enabled(s, ts[0]) && IsRun(Next(s, ts[0]), ts[1..]))
  }

  ghost predicate DisciplinedRun(s: Sys, ts: seq<Step>)
    requires IsRun(s, ts)
    decreases |ts|
  {
    ts == [] || (Disciplined(s, ts[0]) && DisciplinedRun(Next(s, ts[0]), ts[1..]))
  }

  function After(s: Sys, ts: seq<Step>): Sys
    requires IsRun(s, ts)
    decreases |ts|
  {
    if ts == [] then s else After(Next(s, ts[0]), ts[1..])
  }

  // ---------- One plugin's line ----------

  /** What is under way completes a prefix of the emitted events, all of them when the plugin is not behind. */
  ghost predicate Line(q: Queues, wire: seq<Frame>, p: Plugin, emitted: seq<Event>, acc: seq<Event>, synced: bool) {
    && QueueLaw(q, p, emitted)
    && q.AckOf(p) <= LastNr(acc)
    && Drain(p, acc, wire) <= emitted
    && (synced ==> Drain(p, acc, wire) == emitted)
  }

  /** Whatever prefix the server has by then, the queue of a plugin completes it. */
  lemma QueueCompletes(q: Queues, p: Plugin, emitted: seq<Event>, acc: seq<Event>, d: seq<Event>)
    requires QueueLaw(q, p, emitted) && q.AckOf(p) <= LastNr(acc) && acc <= d <= emitted
    ensures Drain(p, d, Frames(q.Unacked(p))) == emitted
  {
    var from := AboveIsSuffix(p, emitted, q.AckOf(p));
    PrefixReaches(p, emitted, acc, from, q.AckOf(p));
    assert d == emitted[..|d|];
    DrainSuffix(p, emitted, from, |d|);
  }

  /** Sending a queue again catches its plugin up and disturbs no other. */
  lemma ResendLine(q: Queues, wire: seq<Frame>, p: Plugin, emitted: seq<Event>, acc: seq<Event>, synced: bool,
      r: Plugin)
    requires Line(q, wire, p, emitted, acc, synced)
    requires forall e :: e in q.Unacked(r) ==> e.plugin == r
    ensures Line(q, wire + Frames(q.Unacked(r)), p, emitted, acc, synced || p == r)
  {
    var d := Drain(p, acc, wire);
    DrainConcat(p, acc, wire, Frames(q.Unacked(r)));
    if p == r {
      DrainGrows(p, acc, wire);
      QueueCompletes(q, p, emitted, acc, d);
    } else {
      DrainOthers(p, d, q.Unacked(r));
    }
  }

  /** An acknowledged number lies within the accepted events. */
  lemma PrefixReaches(p: Plugin, emitted: seq<Event>, acc: seq<Event>, from: nat, k: int)
    requires Ascending(p, emitted) && acc <= emitted && 0 <= k <= LastNr(acc) && from <= |emitted|
    requires from > 0 ==> emitted[from - 1].nr <= k
    ensures from <= |acc|
  {
    assert acc != [] ==> acc[|acc| - 1] == emitted[|acc| - 1];
  }

  /** An empty queue: everything emitted has been accepted. */
  lemma EmptyQueueIsComplete(q: Queues, p: Plugin, emitted: seq<Event>, acc: seq<Event>)
    requires QueueLaw(q, p, emitted) && q.AckOf(p) <= LastNr(acc) && acc <= emitted && q.Unacked(p) == []
    ensures acc == emitted
  {
    var from := AboveIsSuffix(p, emitted, q.AckOf(p));
    PrefixReaches(p, emitted, acc, from, q.AckOf(p));
  }

  lemma EmitLine(q: Queues, wire: seq<Frame>, p: Plugin, emitted: seq<Event>, acc: seq<Event>, synced: bool, e: Event,
      open: bool)
    requires Line(q, wire, p, emitted, acc, synced)
    requires e.plugin == p ==> e.nr > LastNr(emitted) && (open ==> synced)
    ensures Line(Queued(q, e), if open then wire + [EventFrame(e)] else wire, p,
                 if e.plugin == p then emitted + [e] else emitted, acc, open && synced)
  {
    EmitKeepsQueueLaw(q, p, emitted, e);
    DrainOne(p, acc, wire, EventFrame(e));
  }

  lemma DeliverLine(q: Queues, wire: seq<Frame>, p: Plugin, emitted: seq<Event>, acc: seq<Event>, synced: bool)
    requires wire != [] && Line(q, wire, p, emitted, acc, synced)
    ensures Line(q, wire[1..], p, emitted, Accept(p, acc, wire[0]), synced)
  {
    DrainGrows(p, Accept(p, acc, wire[0]), wire[1..]);
    AcceptedGrows(p, emitted, acc, Accept(p, acc, wire[0]));
  }

  lemma AcceptedGrows(p: Plugin, emitted: seq<Event>, acc: seq<Event>, acc': seq<Event>)
    requires acc <= acc' <= emitted && Ascending(p, emitted)
    ensures LastNr(acc) <= LastNr(acc')
  {
  }

  lemma SilentLine(q: Queues, wire: seq<Frame>, p: Plugin, emitted: seq<Event>, acc: seq<Event>, synced: bool, f: Frame)
    requires Line(q, wire, p, emitted, acc, synced) && !f.EventFrame?
    ensures Line(q, wire + [f], p, emitted, acc, synced)
  {
    DrainOne(p, acc, wire, f);
  }

  /** Losing the connection leaves what was accepted; the new one is in step for a plugin with an empty queue. */
  lemma ReconnectLine(q: Queues, wire: seq<Frame>, p: Plugin, emitted: seq<Event>, acc: seq<Event>, synced: bool)
    requires Line(q, wire, p, emitted, acc, synced)
    ensures Line(q, [], p, emitted, acc, q.Unacked(p) == [])
  {
    DrainGrows(p, acc, wire);
    if q.Unacked(p) == [] {
      EmptyQueueIsComplete(q, p, emitted, acc);
    }
  }

  lemma {:induction false} ResentAllLine(h: Host, ps: seq<Plugin>, p: Plugin, emitted: seq<Event>, acc: seq<Event>,
      synced: bool)
    requires h.open && Line(h.q, h.wire, p, emitted, acc, synced)
    requires forall r, e :: e in h.q.Unacked(r) ==> e.plugin == r
    ensures Line(h.q, ResentAll(h, ps).wire, p, emitted, acc, synced || p in ps)
    decreases |ps|
  {
    if ps != [] {
      var h' := Resent(h, ps[0]);
      SentAllIs(h, h.q.Unacked(ps[0]));
      ResendLine(h.q, h.wire, p, emitted, acc, synced, ps[0]);
      ResentAllLine(h', ps[1..], p, emitted, acc, synced || p == ps[0]);
      assert p in ps <==> p == ps[0] || p in ps[1..];
    }
  }

  /** The first state sends every queue, so no plugin stays behind. */
  lemma StateLine(h: Host, p: Plugin, emitted: seq<Event>, acc: seq<Event>, synced: bool)
    requires h.open && Line(h.q, h.wire, p, emitted, acc, synced)
    requires forall r, e :: e in h.q.Unacked(r) ==> e.plugin == r
    ensures Line(h.q, StateSeen(h).wire, p, emitted, acc, synced || !h.ready)
  {
    var h1 := h.(ready := true);
    var h2 := if h.o.autoStatus then Sent(h1, Status) else h1;
    if h.o.autoStatus {
      SilentLine(h.q, h.wire, p, emitted, acc, synced, Status);
    }
    if !h.ready {
      ResentAllLine(h2, h2.q.order, p, emitted, acc, synced);
      if p !in h2.q.order {
        var w := ResentAll(h2, h2.q.order).wire;
        DrainGrows(p, acc, w);
        EmptyQueueIsComplete(h.q, p, emitted, acc);
      }
    }
  }

  // ---------- The whole system ----------

  ghost predicate LineOf(s: Sys, p: Plugin) {
    Line(s.log.host.q, s.log.host.wire, p, s.log.Of(p), s.Acc(p), s.log.host.open && p !in s.behind)
  }

  ghost predicate AllLines(s: Sys) {
    forall p: Plugin :: LineOf(s, p)
  }

  ghost predicate Inv(s: Sys) {
    && AllLines(s)
    && Quiet(s)
    && (forall m :: m in s.down ==> AckNamesAccepted(s, m))
    && DoneIsDone(s.log.host)
    && (forall p: Plugin :: Unsent(s, p))
  }

  /** The server gets no event of `p` from these frames. */
  ghost predicate Without(p: Plugin, wire: seq<Frame>) {
    forall f :: f in wire && f.EventFrame? ==> f.event.plugin != p
  }

  /** A plugin that is behind has a queue, and nothing of it is under way. */
  ghost predicate Unsent(s: Sys, p: Plugin) {
    s.Open() && p in s.behind ==> s.log.host.q.Unacked(p) != [] && Without(p, s.Wire())
  }

  /** A closed connection carries nothing. */
  ghost predicate Quiet(s: Sys) { !s.Open() ==> s.Wire() == [] && s.down == [] }

  ghost predicate AckNamesAccepted(s: Sys, m: Message) {
    m.Ack? ==> exists e :: e in s.Acc(m.plugin) && e.nr == m.nr
  }

  ghost predicate DoneIsDone(h: Host) { forall w :: w in h.done ==> IsDone(h.q.acks, w) }

  lemma QueuesAreSorted(s: Sys)
    requires AllLines(s)
    ensures forall r, e :: e in s.log.host.q.Unacked(r) ==> e.plugin == r
  {
    forall r, e | e in s.log.host.q.Unacked(r) ensures e.plugin == r {
      assert LineOf(s, r);
      var from := AboveIsSuffix(r, s.log.Of(r), s.log.host.q.AckOf(r));
    }
  }

  lemma EmitKeepsLine(s: Sys, a: Act, p: Plugin)
    requires a.Emit? && LineOf(s, p) && Disciplined(s, Local(a))
    ensures LineOf(Next(s, Local(a)), p)
  {
    var h := s.log.host;
    EmitLine(h.q, h.wire, p, s.log.Of(p), s.Acc(p), h.open && p !in s.behind,
             NextEvent(h.q, a.p, a.name, a.data, a.at, a.now), h.open);
  }

  lemma ResendKeepsLine(s: Sys, r: Plugin, p: Plugin)
    requires AllLines(s)
    ensures LineOf(Next(s, Local(Resend(r))), p)
  {
    var h := s.log.host;
    assert LineOf(s, p);
    QueuesAreSorted(s);
    SentAllIs(h, h.q.Unacked(r));
    ResendLine(h.q, h.wire, p, s.log.Of(p), s.Acc(p), h.open && p !in s.behind, r);
  }

  lemma OpenKeepsLine(s: Sys, p: Plugin)
    requires LineOf(s, p) && Enabled(s, Local(Open))
    ensures LineOf(Next(s, Local(Open)), p)
  {
    var h := s.log.host;
    ReconnectLine(h.q, h.wire, p, s.log.Of(p), s.Acc(p), h.open && p !in s.behind);
    SilentLine(h.q, [], p, s.log.Of(p), s.Acc(p), h.q.Unacked(p) == [], Hello);
    assert [] + [Hello] == [Hello];
  }

  lemma CloseKeepsLine(s: Sys, p: Plugin)
    requires LineOf(s, p)
    ensures LineOf(Next(s, Local(Close)), p)
  {
    var h := s.log.host;
    ReconnectLine(h.q, h.wire, p, s.log.Of(p), s.Acc(p), h.open && p !in s.behind);
  }

  lemma DeliverKeepsLine(s: Sys, p: Plugin)
    requires LineOf(s, p) && Enabled(s, Deliver)
    ensures LineOf(Next(s, Deliver), p) && Next(s, Deliver).Acc(p) == Accept(p, s.Acc(p), s.Wire()[0])
  {
    var h := s.log.host;
    DeliverLine(h.q, h.wire, p, s.log.Of(p), s.Acc(p), h.open && p !in s.behind);
  }

  lemma HearKeepsLine(s: Sys, p: Plugin)
    requires Inv(s) && Enabled(s, Hear)
    ensures LineOf(Next(s, Hear), p)
  {
    var h, m := s.log.host, s.down[0];
    assert LineOf(s, p);
    assert m in s.down;
    match m
    case State =>
      QueuesAreSorted(s);
      StateOnlySends(h);
      StateLine(h, p, s.log.Of(p), s.Acc(p), p !in s.behind);
    case Ack(r, k) => HearAckKeepsLine(s, p, r, k);
    case _ =>
  }

  /** An acknowledgement of the whole queue means that everything has been accepted. */
  lemma HearAckKeepsLine(s: Sys, p: Plugin, r: Plugin, k: int)
    requires LineOf(s, p) && s.down != [] && s.down[0] == Ack(r, k) && AckNamesAccepted(s, Ack(r, k))
    ensures LineOf(Next(s, Hear), p)
  {
    var h := s.log.host;
    if r == p {
      AckIsAccepted(s, p, k);
    }
    AckKeepsQueueLaw(h.q, p, s.log.Of(p), r, k);
    DrainGrows(p, s.Acc(p), s.Wire());
    var q := Acked(h.q, r, k);
    if q.Unacked(p) == [] {
      EmptyQueueIsComplete(q, p, s.log.Of(p), s.Acc(p));
    }
  }

  lemma AckIsAccepted(s: Sys, p: Plugin, k: int)
    requires LineOf(s, p) && exists e :: e in s.Acc(p) && e.nr == k
    ensures 1 <= k <= LastNr(s.Acc(p)) <= LastNr(s.log.Of(p))
  {
    DrainGrows(p, s.Acc(p), s.Wire());
    AcceptedGrows(p, s.log.Of(p), s.Acc(p), s.log.Of(p));
    assert forall i :: 0 <= i < |s.Acc(p)| ==> s.Acc(p)[i] == s.log.Of(p)[i];
  }

  lemma NextKeepsLines(s: Sys, t: Step)
    requires Inv(s) && Enabled(s, t) && Disciplined(s, t)
    ensures AllLines(Next(s, t))
  {
    forall p: Plugin ensures LineOf(Next(s, t), p) {
      assert LineOf(s, p);
      match t
      case Local(a) =>
        if a.Emit? { EmitKeepsLine(s, a, p); }
        else if a.Resend? { ResendKeepsLine(s, a.p, p); }
        else if a.Open? { OpenKeepsLine(s, p); }
        else if a.Close? { CloseKeepsLine(s, p); }
      case Deliver => DeliverKeepsLine(s, p);
      case Serve(_) =>
      case Hear => HearKeepsLine(s, p);
    }
  }

  lemma NextKeepsQuiet(s: Sys, t: Step)
    requires Quiet(s) && Enabled(s, t)
    ensures Quiet(Next(s, t))
  {
    match t
    case Local(Resend(r)) => SentAllIs(s.log.host, s.log.host.q.Unacked(r));
    case Hear =>
      if s.down[0].State? {
        StateOnlySends(s.log.host);
      }
    case _ =>
  }

  lemma NextKeepsAcks(s: Sys, t: Step, m: Message)
    requires Enabled(s, t) && m in Next(s, t).down && (m in s.down ==> AckNamesAccepted(s, m))
    ensures AckNamesAccepted(Next(s, t), m)
  {
    if m in s.down && m.Ack? {
      var e :| e in s.Acc(m.plugin) && e.nr == m.nr;
      assert e in Next(s, t).Acc(m.plugin);
    }
    if m !in s.down && m.Ack? {
      var acc := s.Acc(m.plugin);
      assert acc[|acc| - 1] in acc;
    }
  }

  lemma {:induction false} SettledAreDone(acks: map<Plugin, int>, ws: seq<Waiter>)
    ensures forall w :: w in Settled(acks, ws, true) ==> IsDone(acks, w)
  {
    if ws != [] {
      SettledAreDone(acks, ws[1..]);
    }
  }

  /** A recorded acknowledgement never falls. */
  lemma AcksRise(q: Queues, a: Act, p: Plugin)
    requires a.Receive? && a.m.Ack? ==> a.m.nr >= 1
    ensures Get(QueuesAfter(q, a).acks, p, -1) >= Get(q.acks, p, -1)
  {
  }

  lemma NextKeepsDone(s: Sys, a: Act)
    requires DoneIsDone(s.log.host)
    requires a.Receive? && a.m.Ack? ==> a.m.nr >= 1
    ensures DoneIsDone(Do(s.log, a).host)
  {
    var h, h' := s.log.host, Do(s.log, a).host;
    ActOnQueues(s.log, a);
    forall w | w in h.done ensures IsDone(h'.q.acks, w) {
      AcksRise(h.q, a, w.plugin);
    }
    DoneAfter(s.log, a);
  }

  lemma DoneAfter(l: Log, a: Act)
    ensures forall w :: w in Do(l, a).host.done ==> w in l.host.done || IsDone(Do(l, a).host.q.acks, w)
  {
    match a
    case Resend(p) => SentAllIs(l.host, l.host.q.Unacked(p));
    case Receive(m) =>
      ActOnQueues(l, a);
      if m.State? {
        StateOnlySends(l.host);
      }
      SettledAreDone(Do(l, a).host.q.acks, l.host.waiters);
    case _ =>
  }

  lemma HearKeepsUnsent(s: Sys, p: Plugin)
    requires Unsent(s, p) && Enabled(s, Hear)
    ensures Unsent(Next(s, Hear), p)
  {
    if s.down[0].State? {
      StateOnlySends(s.log.host);
    }
  }

  lemma ResendKeepsUnsent(s: Sys, r: Plugin, p: Plugin)
    requires AllLines(s) && Unsent(s, p)
    ensures Unsent(Next(s, Local(Resend(r))), p)
  {
    var es := s.log.host.q.Unacked(r);
    QueuesAreSorted(s);
    SentAllIs(s.log.host, es);
    forall f | f in Frames(es) ensures f.event.plugin == r {
      var i :| 0 <= i < |es| && Frames(es)[i] == f;
      assert es[i] in es;
    }
  }

  lemma NextKeepsUnsent(s: Sys, t: Step, p: Plugin)
    requires AllLines(s) && Unsent(s, p) && Enabled(s, t) && Disciplined(s, t)
    ensures Unsent(Next(s, t), p)
  {
    match t
    case Local(Resend(r)) => ResendKeepsUnsent(s, r, p);
    case Hear => HearKeepsUnsent(s, p);
    case _ =>
  }

  lemma NextKeepsInv(s: Sys, t: Step)
    requires Inv(s) && Enabled(s, t) && Disciplined(s, t)
    ensures Inv(Next(s, t))
  {
    NextKeepsLines(s, t);
    NextKeepsQuiet(s, t);
    forall p: Plugin ensures Unsent(Next(s, t), p) {
      NextKeepsUnsent(s, t, p);
    }
    forall m | m in Next(s, t).down ensures AckNamesAccepted(Next(s, t), m) {
      NextKeepsAcks(s, t, m);
    }
    if t.Local? {
      NextKeepsDone(s, t.a);
    } else if t.Hear? {
      var m := s.down[0];
      if m.Ack? {
        assert AckNamesAccepted(s, m) && LineOf(s, m.plugin);
        AckIsAccepted(s, m.plugin, m.nr);
      }
      NextKeepsDone(s, Receive(s.down[0]));
    }
  }

  lemma {:induction false} RunKeepsInv(s: Sys, ts: seq<Step>)
    requires Inv(s) && IsRun(s, ts) && DisciplinedRun(s, ts)
    ensures Inv(After(s, ts))
    decreases |ts|
  {
    if ts != [] {
      NextKeepsInv(s, ts[0]);
      RunKeepsInv(Next(s, ts[0]), ts[1..]);
    }
  }

  lemma StartIsSound(o: Options)
    ensures Inv(Start(o))
  {
  }

  // ---------- Main results ----------

  /**
  In every disciplined run, however often events are sent again and connections are lost, the server has accepted
  exactly a prefix of each plugin's emitted events: in order, none twice, none missing a predecessor.
  */
  lemma ExactlyOnceInOrder(o: Options, ts: seq<Step>, p: Plugin)
    requires IsRun(Start(o), ts) && DisciplinedRun(Start(o), ts)
    ensures var s := After(Start(o), ts);
      s.Acc(p) <= s.log.Of(p) && Ascending(p, s.log.Of(p))
  {
    var s := After(Start(o), ts);
    StartIsSound(o);
    RunKeepsInv(Start(o), ts);
    assert LineOf(s, p);
    DrainGrows(p, s.Acc(p), s.Wire());
  }

  /** Delivering the frames under way reaches the state `Drain` foretells. */
  lemma ArrivesWhenSent(s: Sys, p: Plugin)
    requires Inv(s) && s.Open() && p !in s.behind
    ensures IsRun(s, Delivers(|s.Wire()|)) && After(s, Delivers(|s.Wire()|)).Acc(p) == s.log.Of(p)
  {
    assert LineOf(s, p);
    DrainIsReached(s, p);
  }

  /**
  At least once: on an open connection everything emitted is accepted when the frames under way arrive, at once for
  a plugin that is not behind, and after a resend for any plugin.
  */
  lemma EverythingArrives(o: Options, ts: seq<Step>, p: Plugin)
    requires IsRun(Start(o), ts) && DisciplinedRun(Start(o), ts) && After(Start(o), ts).Open()
    ensures var s := After(Start(o), ts);
      && (p !in s.behind ==>
          IsRun(s, Delivers(|s.Wire()|)) && After(s, Delivers(|s.Wire()|)).Acc(p) == s.log.Of(p))
    ensures var s := Next(After(Start(o), ts), Local(Resend(p)));
      && IsRun(s, Delivers(|s.Wire()|)) && After(s, Delivers(|s.Wire()|)).Acc(p) == s.log.Of(p)
      && s.log.Of(p) == After(Start(o), ts).log.Of(p)
  {
    var s := After(Start(o), ts);
    StartIsSound(o);
    RunKeepsInv(Start(o), ts);
    if p !in s.behind {
      ArrivesWhenSent(s, p);
    }
    NextKeepsInv(s, Local(Resend(p)));
    SentAllIs(s.log.host, s.log.host.q.Unacked(p));
    ArrivesWhenSent(Next(s, Local(Resend(p))), p);
  }

  /** A resolved `waitForAck(p, nr)` means the server has accepted every event of `p` up to that number. */
  lemma ResolvedWaitMeansAccepted(o: Options, ts: seq<Step>, w: Waiter)
    requires IsRun(Start(o), ts) && DisciplinedRun(Start(o), ts)
    requires w in After(Start(o), ts).log.host.done
    ensures var s := After(Start(o), ts);
      forall e :: e in s.log.Of(w.plugin) && e.nr <= w.nr ==> e in s.Acc(w.plugin)
  {
    var s := After(Start(o), ts);
    var of, acc := s.log.Of(w.plugin), s.Acc(w.plugin);
    StartIsSound(o);
    RunKeepsInv(Start(o), ts);
    assert LineOf(s, w.plugin);
    DrainGrows(w.plugin, acc, s.Wire());
    assert acc != [] ==> acc[|acc| - 1] == of[|acc| - 1];
    forall e | e in of && e.nr <= w.nr ensures e in acc {
      var i :| 0 <= i < |of| && of[i] == e;
      assert i < |acc|;
      assert acc[i] == e;
    }
  }

  // ---------- Who keeps the discipline ----------

  /**
  How `createEdgeHost` is used: one connection, and nothing emitted between its opening and the first state.
  `connected` says whether the connection was opened before the run.
  */
  ghost predicate CreateRun(s: Sys, ts: seq<Step>, connected: bool)
    requires IsRun(s, ts)
    decreases |ts|
  {
    ts != [] ==>
      && (ts[0] == Local(Open) ==> !connected)
      && (ts[0].Local? && ts[0].a.Emit? && s.Open() ==> s.log.host.ready)
      && CreateRun(Next(s, ts[0]), ts[1..], connected || ts[0] == Local(Open))
  }

  lemma NextKeepsUpToDate(s: Sys, t: Step, connected: bool)
    requires Enabled(s, t) && Quiet(s) && (t == Local(Open) ==> !connected)
    requires (s.Open() && s.log.host.ready ==> s.behind == {}) && (!connected ==> !s.Open() && !s.log.host.ready)
    ensures var s' := Next(s, t);
      && (s'.Open() && s'.log.host.ready ==> s'.behind == {})
      && (!(connected || t == Local(Open)) ==> !s'.Open() && !s'.log.host.ready)
  {
    match t
    case Local(Resend(r)) => SentAllIs(s.log.host, s.log.host.q.Unacked(r));
    case Hear =>
      if s.down[0].State? {
        StateOnlySends(s.log.host);
      }
    case _ =>
  }

  lemma {:induction false} CreateRunIsDisciplined(s: Sys, ts: seq<Step>, connected: bool)
    requires IsRun(s, ts) && CreateRun(s, ts, connected) && Quiet(s)
    requires (s.Open() && s.log.host.ready ==> s.behind == {}) && (!connected ==> !s.Open() && !s.log.host.ready)
    ensures DisciplinedRun(s, ts)
    decreases |ts|
  {
    if ts != [] {
      NextKeepsQuiet(s, ts[0]);
      NextKeepsUpToDate(s, ts[0], connected);
      CreateRunIsDisciplined(Next(s, ts[0]), ts[1..], connected || ts[0] == Local(Open));
    }
  }

  /** What `createEdgeHost` promises: exactly-once, in-order acceptance in every run that waits for the first state. */
  lemma CreateEdgeHostDelivers(o: Options, ts: seq<Step>, p: Plugin)
    requires IsRun(Start(o), ts) && CreateRun(Start(o), ts, false)
    ensures After(Start(o), ts).Acc(p) <= After(Start(o), ts).log.Of(p)
  {
    CreateRunIsDisciplined(Start(o), ts, false);
    ExactlyOnceInOrder(o, ts, p);
  }

  // ---------- The discipline is exact ----------

  function Delivers(n: nat): seq<Step> { seq(n, _ => Deliver) }

  lemma {:induction false} DrainIsReached(s: Sys, p: Plugin)
    ensures IsRun(s, Delivers(|s.Wire()|))
    ensures After(s, Delivers(|s.Wire()|)).Acc(p) == Drain(p, s.Acc(p), s.Wire())
    ensures After(s, Delivers(|s.Wire()|)).log.emitted == s.log.emitted
    decreases |s.Wire()|
  {
    var ts := Delivers(|s.Wire()|);
    if s.Wire() != [] {
      var s' := Next(s, Deliver);
      assert ts[0] == Deliver && ts[1..] == Delivers(|s'.Wire()|);
      DrainIsReached(s', p);
    }
  }

  /** Emitting and then delivering what is under way leaves a prefix of the emitted events accepted. */
  ghost predicate SafeToEmit(s: Sys, a: Act)
    requires a.Emit?
  {
    var s' := Next(s, Local(a));
    var ts := Delivers(|s'.Wire()|);
    IsRun(s', ts) && After(s', ts).Acc(a.p) <= After(s', ts).log.Of(a.p)
  }

  /** Otherwise the server skips an event for good: the new number is above that of every event not sent yet. */
  lemma SafeWhenSent(s: Sys, a: Act)
    requires Inv(s) && a.Emit? && s.Open()
    ensures SafeToEmit(s, a) <==> Drain(a.p, s.Acc(a.p), s.Wire()) == s.log.Of(a.p)
  {
    var s' := Next(s, Local(a));
    var e := NextEvent(s.log.host.q, a.p, a.name, a.data, a.at, a.now);
    var d := Drain(a.p, s.Acc(a.p), s.Wire());
    assert LineOf(s, a.p);
    DrainIsReached(s', a.p);
    DrainOne(a.p, s.Acc(a.p), s.Wire(), EventFrame(e));
    NewestIsTaken(a.p, s.log.Of(a.p), d, e);
  }

  lemma NewestIsTaken(p: Plugin, of: seq<Event>, d: seq<Event>, e: Event)
    requires Ascending(p, of) && d <= of && e.plugin == p && e.nr >= 1 && e.nr > LastNr(of)
    ensures Accept(p, d, EventFrame(e)) <= of + [e] <==> d == of
  {
    assert d != [] ==> d[|d| - 1] == of[|d| - 1];
    assert Accept(p, d, EventFrame(e)) == d + [e];
    AppendedPrefix(d, of, e);
  }

  lemma AppendedPrefix(d: seq<Event>, of: seq<Event>, e: Event)
    requires d <= of && forall i :: 0 <= i < |of| ==> of[i] != e
    ensures d + [e] <= of + [e] <==> d == of
  {
    if |d| < |of| {
      assert (d + [e])[|d|] == e && (of + [e])[|d|] == of[|d|];
    }
  }

  lemma {:induction false} DrainWithout(p: Plugin, acc: seq<Event>, wire: seq<Frame>)
    requires Without(p, wire)
    ensures Drain(p, acc, wire) == acc
    decreases |wire|
  {
    if wire != [] {
      assert wire[0] in wire;
      DrainWithout(p, acc, wire[1..]);
    }
  }

  /** The discipline read off the queue: a plugin is behind only while events queued before the connection remain. */
  lemma BehindHasQueue(o: Options, ts: seq<Step>, p: Plugin)
    requires IsRun(Start(o), ts) && DisciplinedRun(Start(o), ts)
    ensures var s := After(Start(o), ts);
      s.Open() && p in s.behind ==> s.log.host.q.Unacked(p) != []
  {
    StartIsSound(o);
    RunKeepsInv(Start(o), ts);
    assert Unsent(After(Start(o), ts), p);
  }

  // ---------- A second connection ----------

  lemma {:induction false} RunConcat(s: Sys, ts: seq<Step>, us: seq<Step>)
    requires IsRun(s, ts) && IsRun(After(s, ts), us)
    ensures IsRun(s, ts + us) && After(s, ts + us) == After(After(s, ts), us)
    decreases |ts|
  {
    if ts == [] {
      assert ts + us == us;
    } else {
      assert (ts + us)[1..] == ts[1..] + us;
      RunConcat(Next(s, ts[0]), ts[1..], us);
    }
  }

  lemma DisciplinedCons(s: Sys, t: Step, ts: seq<Step>)
    requires Enabled(s, t) && Disciplined(s, t) && IsRun(Next(s, t), ts) && DisciplinedRun(Next(s, t), ts)
    ensures IsRun(s, [t] + ts) && DisciplinedRun(s, [t] + ts) && After(s, [t] + ts) == After(Next(s, t), ts)
  {
    assert ([t] + ts)[1..] == ts;
  }

  /** A connection is opened and greeted with a state. */
  function Greeted(): seq<Step> { [Local(Open)] + ([Serve(State)] + ([Hear] + [])) }

  lemma GreetedIsRun(s: Sys)
    requires !s.Open() && s.down == []
    ensures IsRun(s, Greeted()) && DisciplinedRun(s, Greeted())
    ensures After(s, Greeted()) == Next(Next(Next(s, Local(Open)), Serve(State)), Hear)
  {
    var s1 := Next(s, Local(Open));
    var s2 := Next(s1, Serve(State));
    DisciplinedCons(s2, Hear, []);
    DisciplinedCons(s1, Serve(State), [Hear] + []);
    DisciplinedCons(s, Local(Open), [Serve(State)] + ([Hear] + []));
  }

  /** What it changes: nothing of the events, and when a state had arrived before, no event is sent either. */
  lemma GreetedState(s: Sys, p: Plugin)
    requires !s.Open() && s.down == []
    ensures var s' := Next(Next(Next(s, Local(Open)), Serve(State)), Hear);
      && s'.Open() && s'.log.host.ready && s'.log.emitted == s.log.emitted && s'.accepted == s.accepted
      && s'.log.host.q == s.log.host.q && if s.log.host.ready then Without(p, s'.Wire()) else s'.behind == {}
  {
    StateOnlySends(Next(Next(s, Local(Open)), Serve(State)).log.host);
  }

  /**
  The queue is sent again after the first state of the host, not of each connection (the code at line 127 against
  its comment at line 126). When a connection is lost with an event unaccepted, the second connection may begin
  with a state and still the next event is accepted in front of the lost one, whatever the options are.
  */
  lemma ReconnectSkipsAnEvent(s: Sys, a: Act)
    requires Inv(s) && a.Emit?
    requires !s.Open() && s.log.host.ready && s.Acc(a.p) != s.log.Of(a.p)
    ensures IsRun(s, Greeted()) && !SafeToEmit(After(s, Greeted()), a)
  {
    GreetedIsRun(s);
    GreetedState(s, a.p);
    RunKeepsInv(s, Greeted());
    var s0 := After(s, Greeted());
    DrainWithout(a.p, s0.Acc(a.p), s0.Wire());
    SafeWhenSent(s0, a);
  }

  /** One event, emitted after the first state and lost with its connection; then a second connection. */
  function LossyRun(p: Plugin): seq<Step> {
    Greeted() + ([Local(Emit(p, "", "", "", 1))] + ([Local(Close)] + Greeted()))
  }

  lemma LostWithConnection(s: Sys, p: Plugin)
    requires Inv(s) && s.Open() && s.log.host.ready && s.behind == {} && s.Acc(p) == [] && s.log.Of(p) == []
    ensures var s' := Next(Next(s, Local(Emit(p, "", "", "", 1))), Local(Close));
      Inv(s') && !s'.Open() && s'.log.host.ready && s'.Acc(p) != s'.log.Of(p)
  {
    var emit := Local(Emit(p, "", "", "", 1));
    var s1 := Next(s, emit);
    assert |s1.log.Of(p)| == 1;
    NextKeepsInv(s, emit);
    NextKeepsInv(s1, Local(Close));
  }

  lemma RunCons(s: Sys, t: Step, ts: seq<Step>)
    requires Enabled(s, t) && IsRun(Next(s, t), ts)
    ensures IsRun(s, [t] + ts) && After(s, [t] + ts) == After(Next(s, t), ts)
  {
    assert ([t] + ts)[1..] == ts;
  }

  /**
  Under all options, hello and automatic status included, a run from the start leads there: its second connection is
  open and greeted, and whatever event comes next is accepted in front of the lost one.
  */
  lemma AnEventCanBeLost(o: Options, p: Plugin, a: Act)
    requires a.Emit? && a.p == p
    ensures IsRun(Start(o), LossyRun(p)) && !SafeToEmit(After(Start(o), LossyRun(p)), a)
  {
    var s0 := Start(o);
    GreetedIsRun(s0);
    GreetedState(s0, p);
    StartIsSound(o);
    RunKeepsInv(s0, Greeted());
    var s1 := After(s0, Greeted());
    LostWithConnection(s1, p);
    var emit := Local(Emit(p, "", "", "", 1));
    var s2 := Next(s1, emit);
    var s3 := Next(s2, Local(Close));
    ReconnectSkipsAnEvent(s3, a);
    RunCons(s2, Local(Close), Greeted());
    RunCons(s1, emit, [Local(Close)] + Greeted());
    RunConcat(s0, Greeted(), [emit] + ([Local(Close)] + Greeted()));
  }
}
