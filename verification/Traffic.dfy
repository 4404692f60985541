/**
The traffic panel of the dashboard (public/js/dashboard.js): the range buttons, the traffic job and its check
against a range that changed while the request was in flight, on top of the refresh protocol.
*/
module Traffic {
  import opened Wrappers
  import opened Refresh

  type Range = string

  /** What was on screen when the chart was drawn: the period of the data, and the selected range. */
  datatype Render = Render(period: Range, selected: Range)

  /** The fields of `state` the traffic job and the range buttons share: the selected range and the shown period. */
  datatype Shared = Shared(range: Range, shown: Option<Range>)

  // ---------- The button and the answer as functions of the shared fields ----------

  function Selected(st: Shared, r: Range): Shared { st.(range := r) }

  /** Choosing another range asks for a run of the job. */
  function JobSelected(st: Shared, r: Range, j: Job, now: int): Job {
    if r == st.range then j else Ran(j, now)
  }

  /** An answer is drawn when its range is still selected. */
  predicate IsCurrent(st: Shared, asked: Range) { asked == st.range }

  function AnswerShown(st: Shared, asked: Range): Shared {
    if IsCurrent(st, asked) then st.(shown := Some(asked)) else st
  }

  class TrafficState {
    var range: Range
    var traffic: Option<Range>

    ghost function View(): Shared
      reads this
    {
      Shared(range, traffic)
    }

    constructor (range: Range)
      ensures View() == Shared(range, None)
    {
      this.range, traffic := range, None;
    }

    /** A range button was clicked. */
    method OnSelect(r: Range, job: JobRecord, now: int)
      modifies this, job
      ensures View() == Selected(old(View()), r)
      ensures job.View() == JobSelected(old(View()), r, old(job.View()), now)
    {
      if range == r {
        return;
      }
      range := r;
      var _ := job.Run(now);
    }

    /** The answer to a request that asked for `asked` arrives. */
    method OnAnswer(asked: Range) returns (rendered: bool)
      modifies this`traffic
      ensures View() == AnswerShown(old(View()), asked) && rendered == IsCurrent(old(View()), asked)
    {
      if asked != range {
        return false;
      }
      traffic := Some(asked);
      return true;
    }
  }

  // ---------- Runs ----------

  /** `asked` is the range each execution read when it began; `lastOk` the outcome of the last one that ended. */
  datatype Panel = Panel(
    m: Machine,
    st: Shared,
    asked: map<nat, Range>,
    lastOk: Option<bool>,
    renders: seq<Render>)

  datatype Move = Select(r: Range, now: int) | Schedule(t: Step)

  function Opened(range: Range): Panel { Panel(START, Shared(range, None), map[], None, []) }

  predicate CanMove(p: Panel, v: Move) {
    match v
    case Select(_, _) => true
    case Schedule(t) => Enabled(p.m, t) && (t.Answer? ==> t.id in p.asked)
  }

  function Moved(p: Panel, v: Move): Panel
    requires CanMove(p, v)
  {
    match v
    case Select(r, now) => p.(st := Selected(p.st, r), m := MachineSelected(p, r, now))
    case Schedule(RunTask(i, now)) =>
      var started := p.m.job.tasks[i];
      p.(m := Next(p.m, v.t), asked := if started.StartFn? then p.asked[started.id := p.st.range] else p.asked)
    case Schedule(Answer(id, ok)) => AnswerSeen(p.(m := Next(p.m, v.t)), p.asked[id], ok)
    case Schedule(t) => p.(m := Next(p.m, t))
  }

  function MachineSelected(p: Panel, r: Range, now: int): (m: Machine)
    ensures m.job == JobSelected(p.st, r, p.m.job, now)
  {
    if r == p.st.range then p.m else Next(p.m, CallRun(now))
  }

  /** Only a successful answer reaches the callback that draws. */
  function AnswerSeen(p: Panel, asked: Range, ok: bool): Panel {
    if !ok then p.(lastOk := Some(false))
    else
      p.(lastOk := Some(true), st := AnswerShown(p.st, asked),
         renders := if IsCurrent(p.st, asked) then p.renders + [Render(asked, p.st.range)] else p.renders)
  }

  ghost predicate IsRun(p: Panel, vs: seq<Move>)
    decreases |vs|
  {
    vs == [] || (CanMove(p, vs[0]) && IsRun(Moved(p, vs[0]), vs[1..]))
  }

  function After(p: Panel, vs: seq<Move>): Panel
    requires IsRun(p, vs)
    decreases |vs|
  {
    if vs == [] then p else After(Moved(p, vs[0]), vs[1..])
  }

  /** Unless a re-run is marked, the present execution asked for the selected range, or has shown it. */
  ghost predicate UpToDate(p: Panel) {
    && p.asked.Keys == p.m.executions.Keys
    && match p.m.job.busy {
         case None => p.lastOk == Some(true) ==> p.st.shown == Some(p.st.range)
         case Some(id) =>
           id in p.m.executions && !p.m.job.again ==>
             if p.m.executions[id].end.None? then p.asked[id] == p.st.range
             else p.lastOk == Some(true) ==> p.st.shown == Some(p.st.range)
       }
  }

  ghost predicate Drawn(p: Panel) {
    forall r :: r in p.renders ==> r.period == r.selected
  }

  /** What the refresh protocol gives the panel: one token, and no execution before its promise. */
  ghost predicate Orderly(m: Machine) {
    && Token(m)
    && (forall id :: id in m.executions ==> id < |m.job.promises|)
    && (m.job.busy.Some? ==> m.job.busy.value < |m.job.promises|)
  }

  lemma SelectKeeps(p: Panel, r: Range, now: int)
    requires Orderly(p.m) && UpToDate(p)
    ensures UpToDate(Moved(p, Select(r, now)))
  {
  }

  lemma TaskKeeps(p: Panel, i: nat, now: int)
    requires Orderly(p.m) && UpToDate(p) && CanMove(p, Schedule(RunTask(i, now)))
    ensures UpToDate(Moved(p, Schedule(RunTask(i, now))))
  {
    assert i == 0;
    match p.m.job.tasks[0]
    case StartFn(id) =>
    case NoteOutcome(id, ok) =>
    case Finish(id) => assert p.m.job.again ==> |p.m.job.promises| !in p.m.executions;
  }

  lemma AnswerKeeps(p: Panel, id: nat, ok: bool)
    requires Orderly(p.m) && UpToDate(p) && CanMove(p, Schedule(Answer(id, ok)))
    ensures UpToDate(Moved(p, Schedule(Answer(id, ok))))
  {
    assert p.m.job.busy == Some(id);
  }

  lemma MoveKeepsUpToDate(p: Panel, v: Move)
    requires Orderly(p.m) && UpToDate(p) && CanMove(p, v)
    ensures UpToDate(Moved(p, v))
  {
    match v
    case Select(r, now) => SelectKeeps(p, r, now);
    case Schedule(RunTask(i, now)) => TaskKeeps(p, i, now);
    case Schedule(Answer(id, ok)) => AnswerKeeps(p, id, ok);
    case Schedule(_) =>
  }

  lemma MoveKeepsDrawn(p: Panel, v: Move)
    requires Drawn(p) && CanMove(p, v)
    ensures Drawn(Moved(p, v))
  {
  }

  lemma MoveKeepsMachine(p: Panel, v: Move)
    requires Inv(p.m) && CanMove(p, v)
    ensures Inv(Moved(p, v).m)
  {
    var t := if v.Select? then CallRun(v.now) else v.t;
    Refresh.NextKeepsInv(p.m, t);
    MoveIsStep(p, v, t);
  }

  lemma MoveIsStep(p: Panel, v: Move, t: Step)
    requires CanMove(p, v) && t == if v.Select? then CallRun(v.now) else v.t
    ensures Moved(p, v).m == p.m || Moved(p, v).m == Next(p.m, t)
  {
  }

  lemma InvIsOrderly(m: Machine)
    requires Inv(m)
    ensures Orderly(m)
  {
  }

  lemma MoveKeepsInv(p: Panel, v: Move)
    requires Inv(p.m) && UpToDate(p) && Drawn(p) && CanMove(p, v)
    ensures Inv(Moved(p, v).m) && UpToDate(Moved(p, v)) && Drawn(Moved(p, v))
  {
    InvIsOrderly(p.m);
    MoveKeepsUpToDate(p, v);
    MoveKeepsDrawn(p, v);
    MoveKeepsMachine(p, v);
  }

  lemma {:induction false} RunKeepsInv(p: Panel, vs: seq<Move>)
    requires Inv(p.m) && UpToDate(p) && Drawn(p) && IsRun(p, vs)
    ensures UpToDate(After(p, vs)) && Drawn(After(p, vs))
    decreases |vs|
  {
    if vs != [] {
      MoveKeepsInv(p, vs[0]);
      RunKeepsInv(Moved(p, vs[0]), vs[1..]);
    }
  }

  /**
  In every run: whatever is drawn belongs to the range selected when it is drawn, and when the job is idle and its
  last execution succeeded, the period on screen is the selected range.
  */
  lemma ShownIsSelected(range: Range, vs: seq<Move>)
    requires IsRun(Opened(range), vs)
    ensures var p := After(Opened(range), vs);
      && (forall r :: r in p.renders ==> r.period == r.selected)
      && (p.m.job.busy.None? && p.lastOk == Some(true) ==> p.st.shown == Some(p.st.range))
  {
    RunKeepsInv(Opened(range), vs);
  }

  /**
  A click on the range that is selected changes nothing, no matter what is going on. A click on another one selects it,
  leaves what is on screen, and asks for exactly one run, which starts or is marked.
  */
  lemma ClickAsksForOneRun(p: Panel, r: Range, now: int)
    ensures r == p.st.range ==> Moved(p, Select(r, now)) == p
    ensures r != p.st.range ==>
              var p' := Moved(p, Select(r, now));
              && p'.st.range == r && p'.st.shown == p.st.shown && p'.renders == p.renders
              && |p'.m.calls| == |p.m.calls| + 1 && p'.m.calls[|p.m.calls|].time == p.m.clock
              && if p.m.job.busy.Some? then p'.m.job.again && p'.m.job.tasks == p.m.job.tasks
                 else p'.m.job.busy == Some(|p.m.job.promises|) && |p'.m.job.tasks| == |p.m.job.tasks| + 1
  {
  }
}
