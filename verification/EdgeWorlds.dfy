/**
What the host of the edge event channel cannot see: worlds that look the same to it and differ in what the server has
accepted. They give the exact condition under which an emission on an open connection is safe.
*/
module EdgeWorlds {
  import opened EdgeHost
  import opened EdgeChannel
  import opened EdgeDelivery

  // ---------- Worlds that disciplined runs reach ----------

  ghost predicate Reaches(o: Options, ts: seq<Step>, s: Sys) {
    IsRun(Start(o), ts) && DisciplinedRun(Start(o), ts) && After(Start(o), ts) == s
  }

  ghost predicate Reachable(o: Options, s: Sys) { exists ts :: Reaches(o, ts, s) }

  lemma {:induction false} DisciplinedSnoc(s: Sys, ts: seq<Step>, t: Step)
    requires IsRun(s, ts) && DisciplinedRun(s, ts) && Enabled(After(s, ts), t) && Disciplined(After(s, ts), t)
    ensures IsRun(s, ts + [t]) && DisciplinedRun(s, ts + [t]) && After(s, ts + [t]) == Next(After(s, ts), t)
    decreases |ts|
  {
    if ts == [] {
      assert ts + [t] == [t] && [t][1..] == [];
    } else {
      assert (ts + [t])[1..] == ts[1..] + [t];
      DisciplinedSnoc(Next(s, ts[0]), ts[1..], t);
    }
  }

  lemma StartIsReachable(o: Options)
    ensures Reachable(o, Start(o))
  {
    assert Reaches(o, [], Start(o));
  }

  lemma NextIsReachable(o: Options, s: Sys, t: Step)
    requires Reachable(o, s) && Enabled(s, t) && Disciplined(s, t)
    ensures Reachable(o, Next(s, t))
  {
    var ts :| Reaches(o, ts, s);
    DisciplinedSnoc(Start(o), ts, t);
    assert Reaches(o, ts + [t], Next(s, t));
  }

  lemma ReachableIsSound(o: Options, s: Sys)
    requires Reachable(o, s)
    ensures Inv(s)
  {
    var ts :| Reaches(o, ts, s);
    StartIsSound(o);
    RunKeepsInv(Start(o), ts);
  }

  lemma AcceptedIsPrefix(s: Sys, p: Plugin)
    requires Inv(s)
    ensures s.Acc(p) <= s.log.Of(p) && Ascending(p, s.log.Of(p)) && s.log.host.q.AckOf(p) <= LastNr(s.Acc(p))
  {
    assert LineOf(s, p);
    DrainGrows(p, s.Acc(p), s.Wire());
  }

  /** Of two prefixes the one with the smaller last number is the shorter one. */
  lemma ShorterPrefix(p: Plugin, of: seq<Event>, a: seq<Event>, b: seq<Event>)
    requires Ascending(p, of) && a <= of && b <= of && LastNr(a) <= LastNr(b)
    ensures |a| <= |b|
  {
    assert a != [] ==> a[|a| - 1] == of[|a| - 1];
    assert b != [] ==> b[|b| - 1] == of[|b| - 1];
  }

  // ---------- Delivering part of a queue ----------

  lemma DeliveredTo(s: Sys, r: Plugin)
    requires s.Wire() != []
    ensures Next(s, Deliver).Acc(r) == Accept(r, s.Acc(r), s.Wire()[0])
  {
  }

  lemma DrainFront(r: Plugin, acc: seq<Event>, w: seq<Frame>, n: nat)
    requires 0 < n <= |w|
    ensures Drain(r, acc, w[..n]) == Drain(r, Accept(r, acc, w[0]), w[1..][..n - 1])
  {
    assert w[..n][1..] == w[1..][..n - 1];
  }

  lemma DeliversCons(s: Sys, n: nat)
    requires 0 < n <= |s.Wire()|
    ensures Delivers(n)[0] == Deliver && Delivers(n)[1..] == Delivers(n - 1) && Next(s, Deliver).Wire() == s.Wire()[1..]
  {
  }

  lemma {:induction false} DeliversIsRun(o: Options, s: Sys, n: nat)
    requires Reachable(o, s) && n <= |s.Wire()|
    ensures IsRun(s, Delivers(n)) && Reachable(o, After(s, Delivers(n)))
    ensures After(s, Delivers(n)).log == Log(s.log.host.(wire := s.Wire()[n..]), s.log.emitted)
    decreases n
  {
    if n > 0 {
      DeliversCons(s, n);
      NextIsReachable(o, s, Deliver);
      DeliversIsRun(o, Next(s, Deliver), n - 1);
      assert s.Wire()[1..][n - 1..] == s.Wire()[n..];
    }
  }

  lemma {:induction false} DeliversBring(s: Sys, n: nat, r: Plugin)
    requires n <= |s.Wire()| && IsRun(s, Delivers(n))
    ensures After(s, Delivers(n)).Acc(r) == Drain(r, s.Acc(r), s.Wire()[..n])
    decreases n
  {
    if n > 0 {
      DeliversCons(s, n);
      DeliveredTo(s, r);
      DrainFront(r, s.Acc(r), s.Wire(), n);
      DeliversBring(Next(s, Deliver), n - 1, r);
    }
  }

  lemma DeliverSome(o: Options, s: Sys, n: nat) returns (s': Sys)
    requires Reachable(o, s) && n <= |s.Wire()|
    ensures Reachable(o, s') && s'.log == Log(s.log.host.(wire := s.Wire()[n..]), s.log.emitted)
    ensures forall r: Plugin :: s'.Acc(r) == Drain(r, s.Acc(r), s.Wire()[..n])
  {
    DeliversIsRun(o, s, n);
    s' := After(s, Delivers(n));
    forall r: Plugin ensures s'.Acc(r) == Drain(r, s.Acc(r), s.Wire()[..n]) {
      DeliversBring(s, n, r);
    }
  }

  /** A frame sequence that begins with others' frames and goes on with a part of one queue. */
  lemma DrainPart(p: Plugin, of: seq<Event>, acc: seq<Event>, w: seq<Frame>, from: nat, m: nat)
    requires Ascending(p, of) && acc <= of && from <= |acc| <= m <= |of| && Without(p, w)
    ensures Drain(p, acc, w + Frames(of[from..m])) == of[..m]
  {
    DrainConcat(p, acc, w, Frames(of[from..m]));
    DrainWithout(p, acc, w);
    PartOf(p, of, acc, from, m);
    DrainSuffix(p, of[..m], from, |acc|);
  }

  lemma PartOf(p: Plugin, of: seq<Event>, acc: seq<Event>, from: nat, m: nat)
    requires Ascending(p, of) && acc <= of && from <= |acc| <= m <= |of|
    ensures of[..m][..|acc|] == acc && of[..m][from..] == of[from..m] && Ascending(p, of[..m])
  {
  }

  lemma DrainPartOfOther(r: Plugin, p: Plugin, es: seq<Event>, acc: seq<Event>, w: seq<Frame>)
    requires r != p && Without(r, w) && forall e :: e in es ==> e.plugin == p
    ensures Drain(r, acc, w + Frames(es)) == acc
  {
    DrainConcat(r, acc, w, Frames(es));
    DrainWithout(r, acc, w);
    DrainOthers(r, acc, es);
  }

  /** The first frames of a wire that ends with a queue. */
  lemma WirePart(w: seq<Frame>, of: seq<Event>, from: nat, m: nat)
    requires from <= m <= |of|
    ensures |w + Frames(of[from..])| >= |w| + (m - from)
    ensures (w + Frames(of[from..]))[..|w| + (m - from)] == w + Frames(of[from..m])
  {
  }

  /** A connection on which nothing but one plugin's queue is sent, behind a hello. */
  lemma OpenAndResend(o: Options, s: Sys, p: Plugin) returns (s': Sys, w: seq<Frame>)
    requires Reachable(o, s) && !s.Open()
    ensures Reachable(o, s') && s'.accepted == s.accepted && (forall r :: Without(r, w))
    ensures s'.log == Log(s.log.host.(open := true, wire := w + Frames(s.log.host.q.Unacked(p))), s.log.emitted)
  {
    var s1 := Next(s, Local(Open));
    NextIsReachable(o, s, Local(Open));
    s' := Next(s1, Local(Resend(p)));
    NextIsReachable(o, s1, Local(Resend(p)));
    SentAllIs(s1.log.host, s1.log.host.q.Unacked(p));
    w := s1.Wire();
  }

  lemma DeliverAndClose(o: Options, s: Sys, n: nat) returns (s': Sys)
    requires Reachable(o, s) && s.Open() && n <= |s.Wire()|
    ensures Reachable(o, s') && !s'.Open() && s'.log == Log(Closed(s.log.host), s.log.emitted) && s'.down == []
    ensures forall r: Plugin :: s'.Acc(r) == Drain(r, s.Acc(r), s.Wire()[..n])
  {
    var s1 := DeliverSome(o, s, n);
    s' := Next(s1, Local(Close));
    NextIsReachable(o, s1, Local(Close));
  }

  /** What a part of one queue brings to the server. */
  lemma PartArrives(s: Sys, p: Plugin, w: seq<Frame>, from: nat, m: nat)
    requires var of := s.log.Of(p); Ascending(p, of) && s.Acc(p) <= of && from <= |s.Acc(p)| <= m <= |of|
    requires forall r :: Without(r, w)
    ensures Drain(p, s.Acc(p), w + Frames(s.log.Of(p)[from..m])) == s.log.Of(p)[..m]
    ensures forall r :: r != p ==> Drain(r, s.Acc(r), w + Frames(s.log.Of(p)[from..m])) == s.Acc(r)
  {
    var of := s.log.Of(p);
    DrainPart(p, of, s.Acc(p), w, from, m);
    forall r | r != p ensures Drain(r, s.Acc(r), w + Frames(of[from..m])) == s.Acc(r) {
      DrainPartOfOther(r, p, of[from..m], s.Acc(r), w);
    }
  }

  /** Over a connection of its own the server can be brought to have any longer prefix of one plugin's events. */
  lemma Catch(o: Options, s: Sys, p: Plugin, m: nat) returns (s': Sys)
    requires Reachable(o, s) && !s.Open() && |s.Acc(p)| <= m <= |s.log.Of(p)|
    ensures Reachable(o, s') && s'.log == s.log
    ensures s'.Acc(p) == s.log.Of(p)[..m] && forall r :: r != p ==> s'.Acc(r) == s.Acc(r)
  {
    var from := AckedPart(o, s, p);
    var s1, w := OpenAndResend(o, s, p);
    WirePart(w, s.log.Of(p), from, m);
    PartArrives(s, p, w, from, m);
    s' := DeliverAndClose(o, s1, |w| + (m - from));
    ReachableIsSound(o, s);
  }

  lemma AckedPart(o: Options, s: Sys, p: Plugin) returns (from: nat)
    requires Reachable(o, s)
    ensures Ascending(p, s.log.Of(p)) && s.Acc(p) <= s.log.Of(p) && from <= |s.Acc(p)|
    ensures s.log.host.q.Unacked(p) == s.log.Of(p)[from..]
  {
    ReachableIsSound(o, s);
    AcceptedIsPrefix(s, p);
    assert LineOf(s, p);
    from := AboveIsSuffix(p, s.log.Of(p), s.log.host.q.AckOf(p));
    PrefixReaches(p, s.log.Of(p), s.Acc(p), from, s.log.host.q.AckOf(p));
  }

  /** And of several plugins, one after the other, as another world has them. */
  lemma {:induction false} CatchAll(o: Options, s: Sys, t: Sys, ps: set<Plugin>) returns (s': Sys)
    requires Reachable(o, s) && !s.Open()
    requires forall r :: r in ps ==> |s.Acc(r)| <= |t.Acc(r)| && t.Acc(r) <= s.log.Of(r)
    ensures Reachable(o, s') && s'.log == s.log
    ensures forall r :: s'.Acc(r) == if r in ps then t.Acc(r) else s.Acc(r)
    decreases ps
  {
    if ps == {} {
      s' := s;
    } else {
      var p :| p in ps;
      var s1 := Catch(o, s, p, |t.Acc(p)|);
      s' := CatchAll(o, s1, t, ps - {p});
    }
  }

  // ---------- What a closed host knows ----------

  /** The host without its connection. */
  function Shut(l: Log): Log { Log(Closed(l.host), l.emitted) }

  lemma ShutSent(h: Host, f: Frame)
    ensures Closed(Sent(h, f)) == Closed(h)
  {
  }

  /** What an act does to the fields of the host does not depend on its connection. */
  lemma ActIgnoresConnection(l: Log, k: Log, a: Act)
    requires Shut(l) == Shut(k)
    ensures Shut(Do(l, a)) == Shut(Do(k, a))
    ensures a.Resend? || a.Open? || a.Close? ==> Shut(Do(l, a)) == Shut(l)
  {
    match a
    case Resend(p) =>
      SentAllIs(l.host, l.host.q.Unacked(p));
      SentAllIs(k.host, k.host.q.Unacked(p));
    case Receive(State) =>
      StateOnlySends(l.host);
      StateOnlySends(k.host);
    case _ =>
  }

  /** Messages can be heard over a connection of their own. */
  lemma HearAlone(o: Options, s: Sys, m: Message) returns (s': Sys)
    requires Reachable(o, s) && !s.Open()
    requires m.Ack? ==> s.Acc(m.plugin) != [] && m.nr == LastNr(s.Acc(m.plugin))
    ensures Reachable(o, s') && !s'.Open() && s'.log == Shut(Do(s.log, Receive(m))) && s'.accepted == s.accepted
  {
    var s1 := Next(s, Local(Open));
    NextIsReachable(o, s, Local(Open));
    var s2 := Next(s1, Serve(m));
    NextIsReachable(o, s1, Serve(m));
    var s3 := Next(s2, Hear);
    assert s2.down == [m];
    NextIsReachable(o, s2, Hear);
    s' := Next(s3, Local(Close));
    NextIsReachable(o, s3, Local(Close));
    ActIgnoresConnection(s.log, s1.log, Receive(m));
  }

  // ---------- The order of acknowledgements ----------

  /** The acknowledgements of `p` under way rise from the recorded one to the last accepted number. */
  ghost predicate Rising(s: Sys, p: Plugin) {
    && (forall i :: 0 <= i < |s.down| && IsAckOf(s.down[i], p) ==>
          s.log.host.q.AckOf(p) <= s.down[i].nr <= LastNr(s.Acc(p)))
    && (forall i, j :: 0 <= i < j < |s.down| && IsAckOf(s.down[i], p) && IsAckOf(s.down[j], p) ==>
          s.down[i].nr <= s.down[j].nr)
  }

  predicate IsAckOf(m: Message, p: Plugin) { m.Ack? && m.plugin == p }

  /** While a plugin is behind, the server accepts nothing of it: all acknowledgements under way are the last one. */
  ghost predicate Standing(s: Sys, p: Plugin) {
    s.Open() && p in s.behind ==>
      forall i :: 0 <= i < |s.down| && IsAckOf(s.down[i], p) ==> s.down[i].nr == LastNr(s.Acc(p))
  }

  lemma RisingActs(s: Sys, a: Act, p: Plugin)
    requires Enabled(s, Local(a)) && Rising(s, p)
    ensures Rising(Next(s, Local(a)), p)
  {
    ActOnQueues(s.log, a);
  }

  lemma RisingDelivers(s: Sys, p: Plugin)
    requires Enabled(s, Deliver) && Rising(s, p)
    ensures Rising(Next(s, Deliver), p)
  {
    DeliveredTo(s, p);
    AcceptRises(p, s.Acc(p), s.Wire()[0]);
  }

  lemma RisingHears(s: Sys, p: Plugin)
    requires Enabled(s, Hear) && Rising(s, p)
    ensures Rising(Next(s, Hear), p)
  {
    ActOnQueues(s.log, Receive(s.down[0]));
  }

  lemma NextKeepsRising(s: Sys, t: Step, p: Plugin)
    requires Inv(s) && Enabled(s, t) && Rising(s, p)
    ensures Rising(Next(s, t), p)
  {
    match t
    case Local(a) => RisingActs(s, a, p);
    case Deliver => RisingDelivers(s, p);
    case Serve(m) => AcceptedIsPrefix(s, p);
    case Hear => RisingHears(s, p);
  }

  lemma AcceptRises(p: Plugin, acc: seq<Event>, f: Frame)
    ensures LastNr(acc) <= LastNr(Accept(p, acc, f))
  {
  }

  lemma NextKeepsStanding(s: Sys, t: Step, p: Plugin)
    requires Inv(s) && Enabled(s, t) && Standing(s, p)
    ensures Standing(Next(s, t), p)
  {
    assert Unsent(s, p);
    match t
    case Local(a) => BehindShrinks(s, a);
    case Deliver => assert s.Wire()[0] in s.Wire();
    case Serve(m) =>
    case Hear => BehindShrinks(s, Receive(s.down[0]));
  }

  /** Apart from opening, an act takes a plugin out of those behind or leaves it. */
  lemma BehindShrinks(s: Sys, a: Act)
    ensures !a.Open? ==> BehindAfter(s, a) <= s.behind && (Do(s.log, a).host.open ==> s.Open())
  {
    match a
    case Resend(p) => SentAllIs(s.log.host, s.log.host.q.Unacked(p));
    case Receive(State) => StateOnlySends(s.log.host);
    case _ =>
  }

  // ---------- A world in which nothing but the acknowledged has been accepted ----------

  /** `t` is closed, looks like `s` but for the connection, and its server has only what the host has acknowledged. */
  ghost predicate Shadow(s: Sys, t: Sys) {
    && !t.Open() && t.log == Shut(s.log)
    && forall r: Plugin :: LastNr(t.Acc(r)) == s.log.host.q.AckOf(r)
  }

  /** How many events the server of a shadow must have for an acknowledgement that is under way. */
  lemma AckedCount(s: Sys, m: Message) returns (n: nat)
    requires Inv(s) && m.Ack? && m in s.down
    ensures n <= |s.log.Of(m.plugin)| && LastNr(s.log.Of(m.plugin)[..n]) == m.nr
  {
    assert AckNamesAccepted(s, m);
    AcceptedIsPrefix(s, m.plugin);
    var i :| 0 <= i < |s.Acc(m.plugin)| && s.Acc(m.plugin)[i].nr == m.nr;
    n := i + 1;
  }

  /** An acknowledgement is heard: the server of the shadow first gets what it needs for it. */
  lemma ShadowHearsAck(o: Options, s: Sys, t: Sys, m: Message) returns (t': Sys)
    requires Inv(s) && m.Ack? && m in s.down && s.log.host.q.AckOf(m.plugin) <= m.nr && m.nr > 0
    requires Reachable(o, t) && Shadow(s, t)
    ensures Reachable(o, t') && !t'.Open() && t'.log == Shut(Do(s.log, Receive(m)))
    ensures forall r: Plugin :: LastNr(t'.Acc(r)) == if r == m.plugin then m.nr else s.log.host.q.AckOf(r)
  {
    var n := AckedCount(s, m);
    ReachableIsSound(o, t);
    AcceptedIsPrefix(t, m.plugin);
    ShorterPrefix(m.plugin, s.log.Of(m.plugin), t.Acc(m.plugin), s.log.Of(m.plugin)[..n]);
    var t1 := Catch(o, t, m.plugin, n);
    t' := HearAlone(o, t1, m);
    ActIgnoresConnection(t1.log, s.log, Receive(m));
  }

  lemma ShadowHears(o: Options, s: Sys, t: Sys) returns (t': Sys)
    requires Inv(s) && Enabled(s, Hear) && (forall p :: Rising(s, p)) && Reachable(o, t) && Shadow(s, t)
    ensures Reachable(o, t') && Shadow(Next(s, Hear), t')
  {
    var m := s.down[0];
    ActOnQueues(s.log, Receive(m));
    if m.Ack? {
      assert Rising(s, m.plugin) && IsAckOf(m, m.plugin) && AckNamesAccepted(s, m);
      AcceptedIsPrefix(s, m.plugin);
      t' := ShadowHearsAck(o, s, t, m);
    } else {
      t' := HearAlone(o, t, m);
      ActIgnoresConnection(t.log, s.log, Receive(m));
    }
  }

  lemma ShadowActs(o: Options, s: Sys, t: Sys, a: Act) returns (t': Sys)
    requires Enabled(s, Local(a)) && Reachable(o, t) && Shadow(s, t)
    ensures Reachable(o, t') && Shadow(Next(s, Local(a)), t')
  {
    ActIgnoresConnection(s.log, t.log, a);
    ActOnQueues(s.log, a);
    if a.Emit? || a.WaitForAck? {
      t' := Next(t, Local(a));
      NextIsReachable(o, t, Local(a));
      assert t'.log == Shut(t'.log);
      forall r: Plugin ensures LastNr(t'.Acc(r)) == Do(s.log, a).host.q.AckOf(r) {
        assert t'.Acc(r) == t.Acc(r);
      }
    } else {
      t' := t;
    }
  }

  /** Every step has a shadow. */
  lemma ShadowFollows(o: Options, s: Sys, t: Sys, step: Step) returns (t': Sys)
    requires Inv(s) && Enabled(s, step) && (forall p :: Rising(s, p)) && Reachable(o, t) && Shadow(s, t)
    ensures Reachable(o, t') && Shadow(Next(s, step), t')
  {
    match step
    case Local(a) => t' := ShadowActs(o, s, t, a);
    case Hear => t' := ShadowHears(o, s, t);
    case _ => t' := t;
  }

  // ---------- A world that looks the same and in which one plugin lags ----------

  function Others(down: seq<Message>, p: Plugin): seq<Message> {
    if down == [] then [] else (if IsAckOf(down[0], p) then [] else [down[0]]) + Others(down[1..], p)
  }

  lemma {:induction false} OthersSnoc(down: seq<Message>, p: Plugin, m: Message)
    ensures Others(down + [m], p) == Others(down, p) + if IsAckOf(m, p) then [] else [m]
  {
    if down == [] {
      assert down + [m] == [m] && [m][1..] == [];
    } else {
      assert (down + [m])[1..] == down[1..] + [m];
      OthersSnoc(down[1..], p, m);
    }
  }

  /** The same to the host, and the same server but for `p`, of which it has only what has been acknowledged. */
  ghost predicate Mirror(s: Sys, t: Sys, p: Plugin) {
    && t.log == s.log && t.behind == s.behind && t.down == Others(s.down, p)
    && (forall r: Plugin :: r != p ==> t.Acc(r) == s.Acc(r))
    && LastNr(t.Acc(p)) == s.log.host.q.AckOf(p)
  }

  /** The server of `s` itself has only what it has acknowledged. */
  ghost predicate Lean(s: Sys, p: Plugin) { LastNr(s.Acc(p)) == s.log.host.q.AckOf(p) }

  lemma MirrorOpens(o: Options, s: Sys, t: Sys, p: Plugin) returns (t': Sys)
    requires Reachable(o, s) && Enabled(s, Local(Open)) && Reachable(o, t) && Shadow(s, t)
    ensures Reachable(o, t') && Mirror(Next(s, Local(Open)), t', p)
  {
    ReachableIsSound(o, s);
    ReachableIsSound(o, t);
    forall r: Plugin ensures |t.Acc(r)| <= |s.Acc(r)| && s.Acc(r) <= t.log.Of(r) {
      AcceptedIsPrefix(s, r);
      AcceptedIsPrefix(t, r);
      ShorterPrefix(r, s.log.Of(r), t.Acc(r), s.Acc(r));
    }
    var t1 := CatchAll(o, t, s, s.accepted.Keys - {p});
    assert Shut(s.log) == s.log;
    t' := Next(t1, Local(Open));
    NextIsReachable(o, t1, Local(Open));
    forall r: Plugin | r != p ensures t'.Acc(r) == s.Acc(r) {
      assert r !in s.accepted ==> |t.Acc(r)| <= |s.Acc(r)| == 0;
    }
  }

  /** The step of a mirrored world, taken there too. */
  ghost predicate Together(s: Sys, t: Sys, p: Plugin, step: Step) {
    s.Open() && p in s.behind && Mirror(s, t, p) && Enabled(s, step) && Disciplined(s, step)
  }

  lemma MirrorActs(s: Sys, t: Sys, p: Plugin, a: Act)
    requires Together(s, t, p, Local(a))
    ensures Enabled(t, Local(a)) && Disciplined(t, Local(a))
    ensures Next(s, Local(a)).Open() ==> Mirror(Next(s, Local(a)), Next(t, Local(a)), p)
  {
    ActOnQueues(s.log, a);
    var s', t' := Next(s, Local(a)), Next(t, Local(a));
    forall r: Plugin ensures s'.Acc(r) == s.Acc(r) && t'.Acc(r) == t.Acc(r) {
    }
  }

  lemma MirrorDelivers(s: Sys, t: Sys, p: Plugin)
    requires Together(s, t, p, Deliver) && Unsent(s, p)
    ensures Mirror(Next(s, Deliver), Next(t, Deliver), p)
  {
    assert s.Wire()[0] in s.Wire();
    forall r: Plugin
      ensures Next(s, Deliver).Acc(r) == Accept(r, s.Acc(r), s.Wire()[0])
      ensures Next(t, Deliver).Acc(r) == Accept(r, t.Acc(r), s.Wire()[0])
    {
      DeliveredTo(s, r);
      DeliveredTo(t, r);
    }
  }

  lemma MirrorServes(s: Sys, t: Sys, p: Plugin, m: Message)
    requires Together(s, t, p, Serve(m))
    ensures if IsAckOf(m, p) then Mirror(Next(s, Serve(m)), t, p)
            else Enabled(t, Serve(m)) && Mirror(Next(s, Serve(m)), Next(t, Serve(m)), p)
  {
    OthersSnoc(s.down, p, m);
    forall r: Plugin ensures Next(s, Serve(m)).Acc(r) == s.Acc(r) {
    }
  }

  lemma MirrorHears(s: Sys, t: Sys, p: Plugin)
    requires Together(s, t, p, Hear) && !IsAckOf(s.down[0], p)
    ensures Enabled(t, Hear) && Mirror(Next(s, Hear), Next(t, Hear), p)
  {
    ActOnQueues(s.log, Receive(s.down[0]));
    assert Others(s.down, p)[0] == s.down[0] && Others(s.down, p)[1..] == Others(s.down[1..], p);
    forall r: Plugin ensures Next(s, Hear).Acc(r) == s.Acc(r) && Next(t, Hear).Acc(r) == t.Acc(r) {
    }
  }

  lemma MirrorFollows(o: Options, s: Sys, t: Sys, p: Plugin, step: Step) returns (t': Sys)
    requires Together(s, t, p, step) && Unsent(s, p) && Reachable(o, t) && Next(s, step).Open()
    requires !(step == Hear && IsAckOf(s.down[0], p))
    ensures Reachable(o, t') && Mirror(Next(s, step), t', p)
  {
    match step {
      case Local(a) => MirrorActs(s, t, p, a);
      case Deliver => MirrorDelivers(s, t, p);
      case Serve(m) => MirrorServes(s, t, p, m);
      case Hear => MirrorHears(s, t, p);
    }
    if step.Serve? && IsAckOf(step.m, p) {
      t' := t;
    } else {
      t' := Next(t, step);
      NextIsReachable(o, t, step);
    }
  }

  // ---------- Every run has both ----------

  ghost predicate HasShadow(o: Options, s: Sys) { exists t :: Reachable(o, t) && Shadow(s, t) }

  ghost predicate HasMirror(o: Options, s: Sys, p: Plugin) { exists t :: Reachable(o, t) && Mirror(s, t, p) }

  ghost predicate Doubtful(o: Options, s: Sys, p: Plugin) {
    s.Open() && p in s.behind ==> Lean(s, p) || HasMirror(o, s, p)
  }

  ghost predicate Tracked(o: Options, s: Sys, p: Plugin) {
    && Reachable(o, s) && HasShadow(o, s) && Doubtful(o, s, p) && Standing(s, p) && forall r :: Rising(s, r)
  }

  /** A server that has only what it has acknowledged stays so while the plugin is behind. */
  lemma LeanStays(s: Sys, step: Step, p: Plugin)
    requires Inv(s) && Enabled(s, step) && s.Open() && p in s.behind && Rising(s, p) && Standing(s, p)
    requires Lean(s, p) || (step == Hear && IsAckOf(s.down[0], p))
    ensures Lean(Next(s, step), p)
  {
    assert Unsent(s, p);
    match step
    case Local(a) => ActOnQueues(s.log, a);
    case Deliver =>
      assert s.Wire()[0] in s.Wire();
      DeliveredTo(s, p);
    case Serve(m) =>
    case Hear => ActOnQueues(s.log, Receive(s.down[0]));
  }

  lemma NextKeepsDoubtful(o: Options, s: Sys, step: Step, p: Plugin)
    requires Tracked(o, s, p) && Enabled(s, step) && Disciplined(s, step)
    ensures Doubtful(o, Next(s, step), p)
  {
    ReachableIsSound(o, s);
    var s' := Next(s, step);
    if s'.Open() && p in s'.behind {
      if step == Local(Open) {
        var t :| Reachable(o, t) && Shadow(s, t);
        var t' := MirrorOpens(o, s, t, p);
      } else {
        StaysBehind(s, step, p);
        if Lean(s, p) || (step == Hear && IsAckOf(s.down[0], p)) {
          LeanStays(s, step, p);
        } else {
          var t :| Reachable(o, t) && Mirror(s, t, p);
          assert Unsent(s, p);
          var t' := MirrorFollows(o, s, t, p, step);
        }
      }
    }
  }

  lemma StaysBehind(s: Sys, step: Step, p: Plugin)
    requires Enabled(s, step) && step != Local(Open) && Next(s, step).Open() && p in Next(s, step).behind
    ensures s.Open() && p in s.behind
  {
    match step
    case Local(a) => BehindShrinks(s, a);
    case Hear => BehindShrinks(s, Receive(s.down[0]));
    case _ =>
  }

  lemma NextKeepsTracked(o: Options, s: Sys, step: Step, p: Plugin)
    requires Tracked(o, s, p) && Enabled(s, step) && Disciplined(s, step)
    ensures Tracked(o, Next(s, step), p)
  {
    ReachableIsSound(o, s);
    NextIsReachable(o, s, step);
    ReachableIsSound(o, Next(s, step));
    NextKeepsDoubtful(o, s, step, p);
    NextKeepsStanding(s, step, p);
    forall r ensures Rising(Next(s, step), r) {
      NextKeepsRising(s, step, r);
    }
    var t :| Reachable(o, t) && Shadow(s, t);
    var t' := ShadowFollows(o, s, t, step);
  }

  lemma {:induction false} RunIsTracked(o: Options, s: Sys, ts: seq<Step>, p: Plugin)
    requires Tracked(o, s, p) && IsRun(s, ts) && DisciplinedRun(s, ts)
    ensures Tracked(o, After(s, ts), p)
    decreases |ts|
  {
    if ts != [] {
      NextKeepsTracked(o, s, ts[0], p);
      RunIsTracked(o, Next(s, ts[0]), ts[1..], p);
    }
  }

  lemma StartIsTracked(o: Options, p: Plugin)
    ensures Tracked(o, Start(o), p)
  {
    StartIsReachable(o);
    assert Shadow(Start(o), Start(o));
  }

  // ---------- The condition of a safe emission ----------

  /** The host's own fields, and the plugins it knows to be behind, are the same. */
  ghost predicate SameToHost(s: Sys, t: Sys) { t.log == s.log && t.behind == s.behind }

  lemma UnsafeWhenLean(s: Sys, a: Act)
    requires Inv(s) && a.Emit? && s.Open() && a.p in s.behind && Lean(s, a.p)
    ensures !SafeToEmit(s, a)
  {
    var of, k := s.log.Of(a.p), s.log.host.q.AckOf(a.p);
    assert Unsent(s, a.p) && LineOf(s, a.p);
    AcceptedIsPrefix(s, a.p);
    var from := AboveIsSuffix(a.p, of, k);
    assert of[|of| - 1].nr > k;
    DrainWithout(a.p, s.Acc(a.p), s.Wire());
    SafeWhenSent(s, a);
  }

  /** To a plugin that is behind belongs a reachable world, the same to the host, in which emitting is unsafe. */
  lemma UnsafeWorld(o: Options, ts: seq<Step>, a: Act) returns (t: Sys)
    requires IsRun(Start(o), ts) && DisciplinedRun(Start(o), ts) && a.Emit?
    requires var s := After(Start(o), ts); s.Open() && a.p in s.behind
    ensures Reachable(o, t) && SameToHost(After(Start(o), ts), t) && !SafeToEmit(t, a)
  {
    var s := After(Start(o), ts);
    StartIsTracked(o, a.p);
    RunIsTracked(o, Start(o), ts, a.p);
    if Lean(s, a.p) {
      t := s;
    } else {
      t :| Reachable(o, t) && Mirror(s, t, a.p);
    }
    ReachableIsSound(o, t);
    UnsafeWhenLean(t, a);
  }

  /**
  After any disciplined run, emitting on an open connection is safe in every world that a disciplined run reaches and
  that looks the same to the host, exactly when the plugin is not behind: nothing was queued when the connection
  opened, or the queue has been sent or acknowledged since.
  */
  lemma EmitIsSafeExactly(o: Options, ts: seq<Step>, a: Act)
    requires IsRun(Start(o), ts) && DisciplinedRun(Start(o), ts) && a.Emit? && After(Start(o), ts).Open()
    ensures var s := After(Start(o), ts);
      (forall t :: Reachable(o, t) && SameToHost(s, t) ==> SafeToEmit(t, a)) <==> a.p !in s.behind
  {
    var s := After(Start(o), ts);
    if a.p in s.behind {
      var t := UnsafeWorld(o, ts, a);
    } else {
      forall t | Reachable(o, t) && SameToHost(s, t) ensures SafeToEmit(t, a) {
        ReachableIsSound(o, t);
        SafeWhenSent(t, a);
        assert LineOf(t, a.p);
      }
    }
  }
}
