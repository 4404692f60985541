/**
The sender of the edge event channel (scripts/plugin-edge-host.js, class `EdgeHost`): ascending sequence numbers
per plugin, cumulative acknowledgements, a queue of unacknowledged events and a resend on the first state.
*/
module EdgeHost {
  /** A plugin id, as it keys the maps of the host. */
  datatype Plugin = Plugin(id: string)

  datatype Event = Event(plugin: Plugin, name: string, data: string, at: string, nr: int)

  /** What the host sends. Only event frames carry model content. */
  datatype Frame = EventFrame(event: Event) | Hello | Status

  /** What the host receives. */
  datatype Message = State | Ack(plugin: Plugin, nr: int) | Configure(plugin: Plugin, data: string) | Other

  datatype Waiter = Waiter(plugin: Plugin, nr: int)

  /** The options of the host that matter here. */
  datatype Options = Options(hello: bool, autoStatus: bool)

  /** The maps of the sender; `order` is the insertion order of the keys of `unacked`. */
  datatype Queues = Queues(seqs: map<Plugin, int>, unacked: map<Plugin, seq<Event>>, order: seq<Plugin>,
      acks: map<Plugin, int>)
  {
    function Unacked(p: Plugin): seq<Event> { Get(unacked, p, []) }

    function AckOf(p: Plugin): int { Get(acks, p, 0) }
  }

  /** The fields of an `EdgeHost` as one value. */
  datatype Host = Host(
    o: Options,
    q: Queues,
    configs: map<Plugin, string>,
    waiters: seq<Waiter>,
    done: seq<Waiter>,      // waiters whose promise was resolved
    ready: bool,            // a state has arrived
    open: bool,             // the socket is open
    wire: seq<Frame>)       // handed to the socket and not yet delivered

  function Get<V>(m: map<Plugin, V>, p: Plugin, default: V): V {
    if p in m then m[p] else default
  }

  function Max(a: int, b: int): int { if a >= b then a else b }

  /** `list.filter((e) => e.nr > k)` */
  function Above(es: seq<Event>, k: int): seq<Event> {
    if es == [] then [] else (if es[0].nr > k then [es[0]] else []) + Above(es[1..], k)
  }

  function Touch(order: seq<Plugin>, p: Plugin): seq<Plugin> {
    if p in order then order else order + [p]
  }

  // ---------- The operations as functions of the fields ----------

  function Fresh(o: Options): Host { Host(o, Queues(map[], map[], [], map[]), map[], [], [], false, false, []) }

  function Sent(h: Host, f: Frame): Host {
    if h.open then h.(wire := h.wire + [f]) else h
  }

  function SentAll(h: Host, es: seq<Event>): Host
    decreases |es|
  {
    if es == [] then h else SentAll(Sent(h, EventFrame(es[0])), es[1..])
  }

  function Resent(h: Host, p: Plugin): Host {
    SentAll(h, h.q.Unacked(p))
  }

  function ResentAll(h: Host, ps: seq<Plugin>): Host
    decreases |ps|
  {
    if ps == [] then h else ResentAll(Resent(h, ps[0]), ps[1..])
  }

  function Opened(h: Host): Host {
    var h' := h.(open := true, wire := []);
    if h.o.hello then Sent(h', Hello) else h'
  }

  function Closed(h: Host): Host { h.(open := false, wire := []) }

  function NextSeq(q: Queues, p: Plugin, now: int): int { Max(Get(q.seqs, p, 0) + 1, now) }

  function NextEvent(q: Queues, p: Plugin, name: string, data: string, at: string, now: int): Event {
    Event(p, name, data, at, NextSeq(q, p, now))
  }

  function Queued(q: Queues, e: Event): Queues {
    Queues(q.seqs[e.plugin := Max(e.nr, Get(q.seqs, e.plugin, 0))],
           q.unacked[e.plugin := q.Unacked(e.plugin) + [e]],
           Touch(q.order, e.plugin),
           q.acks)
  }

  function Emitted(h: Host, e: Event): Host { Sent(h.(q := Queued(h.q, e)), EventFrame(e)) }

  function Acked(q: Queues, p: Plugin, k: int): Queues {
    Queues(q.seqs,
           q.unacked[p := Above(q.Unacked(p), k)],
           Touch(q.order, p),
           if p !in q.acks || k > q.acks[p] then q.acks[p := k] else q.acks)
  }

  function StateSeen(h: Host): Host {
    var h1 := h.(ready := true);
    var h2 := if h.o.autoStatus then Sent(h1, Status) else h1;
    if !h.ready then ResentAll(h2, h2.q.order) else h2
  }

  predicate IsDone(acks: map<Plugin, int>, w: Waiter) { Get(acks, w.plugin, -1) >= w.nr }

  function Settled(acks: map<Plugin, int>, ws: seq<Waiter>, which: bool): seq<Waiter> {
    if ws == [] then [] else (if IsDone(acks, ws[0]) == which then [ws[0]] else []) + Settled(acks, ws[1..], which)
  }

  function Notified(h: Host): Host {
    h.(waiters := Settled(h.q.acks, h.waiters, false), done := h.done + Settled(h.q.acks, h.waiters, true))
  }

  function Received(h: Host, m: Message): Host {
    Notified(match m
             case State => StateSeen(h)
             case Ack(p, k) => h.(q := Acked(h.q, p, k))
             case Configure(p, data) => h.(configs := h.configs[p := data])
             case Other => h)
  }

  function Waiting(h: Host, w: Waiter): Host {
    if IsDone(h.q.acks, w) then h.(done := h.done + [w]) else h.(waiters := h.waiters + [w])
  }

  // ---------- The class ----------

  class EdgeHost {
    const o: Options
    var seqs: map<Plugin, int>
    var unacked: map<Plugin, seq<Event>>
    var order: seq<Plugin>
    var acks: map<Plugin, int>
    var configs: map<Plugin, string>
    var waiters: seq<Waiter>
    var done: seq<Waiter>
    var ready: bool
    var open: bool
    var wire: seq<Frame>

    ghost function View(): Host
      reads this
    {
      Host(o, Queues(seqs, unacked, order, acks), configs, waiters, done, ready, open, wire)
    }

    constructor (o: Options)
      ensures View() == Fresh(o)
    {
      this.o := o;
      seqs, unacked, order, acks, configs := map[], map[], [], map[], map[];
      waiters, done, ready, open, wire := [], [], false, false, [];
    }

    method OnOpen()
      modifies this
      ensures View() == Opened(old(View()))
    {
      open, wire := true, [];
      if o.hello {
        var _ := Send(Hello);
      }
    }

    method OnClose()
      modifies this
      ensures View() == Closed(old(View()))
    {
      open, wire := false, [];
    }

    method Send(f: Frame) returns (sent: bool)
      modifies this`wire
      ensures View() == Sent(old(View()), f) && sent == open
    {
      if !open {
        return false;
      }
      wire := wire + [f];
      return true;
    }

    method Emit(p: Plugin, name: string, data: string, at: string, now: int) returns (s: int)
      modifies this
      ensures View() == Emitted(old(View()), NextEvent(old(View()).q, p, name, data, at, now))
      ensures s == NextSeq(old(View()).q, p, now)
    {
      s := Max(Get(seqs, p, 0) + 1, now);
      seqs := seqs[p := Max(s, Get(seqs, p, 0))];
      var frame := Event(p, name, data, at, s);
      var list := Get(unacked, p, []);
      list := list + [frame];
      order := Touch(order, p);
      unacked := unacked[p := list];
      var _ := Send(EventFrame(frame));
    }

    method Resend(p: Plugin)
      modifies this`wire
      ensures View() == Resent(old(View()), p)
    {
      var list := Get(unacked, p, []);
      for i := 0 to |list|
        invariant SentAll(View(), list[i..]) == Resent(old(View()), p)
      {
        assert list[i..][0] == list[i] && list[i..][1..] == list[i + 1..];
        var _ := Send(EventFrame(list[i]));
      }
    }

    method OnMessage(m: Message)
      modifies this
      ensures View() == Received(old(View()), m)
    {
      match m {
        case State => OnState();
        case Ack(p, k) => OnAck(p, k);
        case Configure(p, data) => configs := configs[p := data];
        case Other =>
      }
      Notify();
    }

    method OnState()
      modifies this
      ensures View() == StateSeen(old(View()))
    {
      var first := !ready;
      ready := true;
      if o.autoStatus {
        var _ := Send(Status);
      }
      if first {
        ResendEverything();
      }
    }

    method OnAck(p: Plugin, k: int)
      modifies this
      ensures View() == old(View()).(q := Acked(old(View()).q, p, k))
    {
      if p !in acks || k > acks[p] {
        acks := acks[p := k];
      }
      var list := Get(unacked, p, []);
      order := Touch(order, p);
      unacked := unacked[p := Above(list, k)];
    }

    method ResendEverything()
      modifies this`wire
      ensures View() == ResentAll(old(View()), order)
    {
      for i := 0 to |order|
        invariant ResentAll(View(), order[i..]) == ResentAll(old(View()), order)
      {
        assert order[i..][0] == order[i] && order[i..][1..] == order[i + 1..];
        Resend(order[i]);
      }
    }

    method Notify()
      modifies this`waiters, this`done
      ensures View() == Notified(old(View()))
    {
      var left, resolved := [], [];
      var ws := waiters;
      for i := 0 to |ws|
        invariant left + Settled(acks, ws[i..], false) == Settled(acks, ws, false)
        invariant resolved + Settled(acks, ws[i..], true) == Settled(acks, ws, true)
      {
        assert ws[i..][0] == ws[i] && ws[i..][1..] == ws[i + 1..];
        if Get(acks, ws[i].plugin, -1) >= ws[i].nr {
          resolved := resolved + [ws[i]];
        } else {
          left := left + [ws[i]];
        }
      }
      waiters := left;
      done := done + resolved;
    }

    method WaitForAck(p: Plugin, s: int)
      modifies this`waiters, this`done
      ensures View() == Waiting(old(View()), Waiter(p, s))
    {
      if Get(acks, p, -1) >= s {
        done := done + [Waiter(p, s)];
      } else {
        waiters := waiters + [Waiter(p, s)];
      }
    }
  }
}
