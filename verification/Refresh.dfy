/**
The refresh jobs of the dashboard (public/js/dashboard.js, `job` and `run`, and the traffic job). Promises are
a table of states; the callbacks they schedule are tasks that run in any order between calls of `run`.
*/
module Refresh {
  import opened Wrappers

  /** A promise made by `run`: unsettled, settled by another one it was resolved with, or settled. */
  datatype PromiseState = Pending | Follows(next: nat) | Resolved

  /** The three callbacks chained to one execution: call the function, note its outcome, finish. */
  datatype Task = StartFn(id: nat) | NoteOutcome(id: nat, ok: bool) | Finish(id: nat)

  /** A job record with its promises, the callbacks ready to run and the executions whose answer is awaited. */
  datatype Job = Job(at: int, busy: Option<nat>, again: bool, promises: seq<PromiseState>, tasks: seq<Task>,
      flying: set<nat>)

  const IDLE := Job(0, None, false, [], [], {})

  // ---------- `run` and its callbacks as functions of the record ----------

  function Ran(j: Job, now: int): Job {
    if j.busy.Some? then j.(again := true)
    else Job(now, Some(|j.promises|), j.again, j.promises + [Pending], j.tasks + [StartFn(|j.promises|)], j.flying)
  }

  /** The promise `run` returns. */
  function Returned(j: Job): nat { if j.busy.Some? then j.busy.value else |j.promises| }

  function Without<T>(s: seq<T>, i: nat): seq<T>
    requires i < |s|
  {
    s[..i] + s[i + 1..]
  }

  function Finished(j: Job, id: nat, now: int): Job
    requires id < |j.promises|
  {
    var j1 := j.(busy := None);
    if j.again then
      var j2 := Ran(j1.(again := false), now);
      j2.(promises := j2.promises[id := Follows(Returned(j1))])
    else j1.(promises := j1.promises[id := Resolved])
  }

  /** One ready callback runs. */
  function TaskRun(j: Job, i: nat, now: int): Job
    requires i < |j.tasks| && j.tasks[i].id < |j.promises|
  {
    var j1 := j.(tasks := Without(j.tasks, i));
    match j.tasks[i]
    case StartFn(id) => j1.(flying := j.flying + {id})
    case NoteOutcome(id, _) => j1.(tasks := j1.tasks + [Finish(id)])
    case Finish(id) => Finished(j1, id, now)
  }

  /** The function's own promise settles. */
  function Answered(j: Job, id: nat, ok: bool): Job {
    j.(flying := j.flying - {id}, tasks := j.tasks + [NoteOutcome(id, ok)])
  }

  function Adopted(j: Job, n: nat): Job
    requires n < |j.promises|
  {
    j.(promises := j.promises[n := Resolved])
  }

  class JobRecord {
    var at: int
    var busy: Option<nat>
    var again: bool
    var promises: seq<PromiseState>
    var tasks: seq<Task>
    var flying: set<nat>

    ghost function View(): Job
      reads this
    {
      Job(at, busy, again, promises, tasks, flying)
    }

    constructor ()
      ensures View() == IDLE
    {
      at, busy, again, promises, tasks, flying := 0, None, false, [], [], {};
    }

    method Run(now: int) returns (promise: nat)
      modifies this
      ensures View() == Ran(old(View()), now) && promise == Returned(old(View()))
    {
      if busy.Some? {
        again := true;
        return busy.value;
      }
      at := now;
      promise := |promises|;
      promises := promises + [Pending];
      tasks := tasks + [StartFn(promise)];
      busy := Some(promise);
    }

    /** The last callback of an execution. */
    method OnFinish(id: nat, now: int)
      requires id < |promises|
      modifies this
      ensures View() == Finished(old(View()), id, now)
    {
      busy := None;
      if again {
        again := false;
        var next := Run(now);
        promises := promises[id := Follows(next)];
      } else {
        promises := promises[id := Resolved];
      }
    }
  }

  // ---------- Runs, with a record of calls and executions ----------

  datatype Call = Call(time: nat, promise: nat)

  datatype Execution = Execution(start: nat, end: Option<nat>)

  datatype Machine = Machine(job: Job, clock: nat, calls: seq<Call>, executions: map<nat, Execution>)

  datatype Step =
    | CallRun(now: int)
    | RunTask(i: nat, now: int)
    | Answer(id: nat, ok: bool)
    | Adopt(n: nat)

  const START := Machine(IDLE, 0, [], map[])

  predicate Enabled(m: Machine, t: Step) {
    match t
    case CallRun(_) => true
    case RunTask(i, _) => i < |m.job.tasks| && m.job.tasks[i].id < |m.job.promises|
    case Answer(id, _) => id in m.job.flying && id in m.executions
    case Adopt(n) =>
      && n < |m.job.promises| && m.job.promises[n].Follows?
      && m.job.promises[n].next < |m.job.promises| && m.job.promises[m.job.promises[n].next] == Resolved
  }

  function Next(m: Machine, t: Step): Machine
    requires Enabled(m, t)
  {
    var c := m.clock + 1;
    match t
    case CallRun(now) => Machine(Ran(m.job, now), c, m.calls + [Call(m.clock, Returned(m.job))], m.executions)
    case RunTask(i, now) =>
      var j := TaskRun(m.job, i, now);
      (match m.job.tasks[i]
       case StartFn(id) => Machine(j, c, m.calls, m.executions[id := Execution(m.clock, None)])
       case NoteOutcome(_, _) => Machine(j, c, m.calls, m.executions)
       case Finish(_) =>
         // the re-run is a call of `run` too
         Machine(j, c, if m.job.again then m.calls + [Call(m.clock, |m.job.promises|)] else m.calls, m.executions))
    case Answer(id, ok) =>
      Machine(Answered(m.job, id, ok), c, m.calls, m.executions[id := Execution(m.executions[id].start, Some(m.clock))])
    case Adopt(n) => Machine(Adopted(m.job, n), c, m.calls, m.executions)
  }

  ghost predicate IsRun(m: Machine, ts: seq<Step>)
    decreases |ts|
  {
    ts == [] || (Enabled(m, ts[0]) && IsRun(Next(m, ts[0]), ts[1..]))
  }

  function After(m: Machine, ts: seq<Step>): Machine
    requires IsRun(m, ts)
    decreases |ts|
  {
    if ts == [] then m else After(Next(m, ts[0]), ts[1..])
  }

  // ---------- The invariant ----------

  /** Execution `id` has begun at or after `time`, and has ended. */
  ghost predicate Covers(m: Machine, id: nat, time: nat) {
    id in m.executions && m.executions[id].start >= time && m.executions[id].end.Some?
  }

  /** Some completed execution began at or after the call. */
  ghost predicate Served(m: Machine, c: Call) {
    exists id :: Covers(m, id, c.time)
  }

  /** The one token of the present execution: a ready callback, or an awaited answer. */
  ghost predicate Token(m: Machine) {
    var j := m.job;
    if j.busy.None? then j.tasks == [] && j.flying == {} && !j.again
    else
      var id := j.busy.value;
      || (j.tasks == [StartFn(id)] && j.flying == {} && id !in m.executions)
      || (j.tasks == [] && j.flying == {id} && id in m.executions && m.executions[id].end.None?)
      || (|j.tasks| == 1 && (j.tasks[0] == Finish(id) || (j.tasks[0].NoteOutcome? && j.tasks[0].id == id))
          && j.flying == {} && id in m.executions && m.executions[id].end.Some?)
  }

  /** A call that is not served yet will be: by the present execution or by the re-run that is marked. */
  ghost predicate Promised(m: Machine, c: Call) {
    m.job.busy.Some? &&
    (m.job.again || m.job.busy.value !in m.executions || m.executions[m.job.busy.value].start >= c.time)
  }

  ghost predicate PromiseInv(m: Machine, n: nat)
    requires n < |m.job.promises|
  {
    match m.job.promises[n]
    case Pending => m.job.busy == Some(n)
    case Follows(next) =>
      && next == n + 1 < |m.job.promises|
      && (forall c :: c in m.calls && c.promise == n ==> next in m.executions ==> m.executions[next].start >= c.time)
    case Resolved => forall c :: c in m.calls && c.promise == n ==> Served(m, c)
  }

  ghost predicate Inv(m: Machine) {
    && Token(m)
    && (m.job.busy.Some? ==> m.job.busy.value == |m.job.promises| - 1 && m.job.promises[m.job.busy.value] == Pending)
    && (forall id :: id in m.executions ==> id < |m.job.promises| && m.executions[id].start < m.clock)
    && (forall n :: 0 <= n < |m.job.promises| && m.job.busy != Some(n) ==>
          n in m.executions && m.executions[n].end.Some?)
    && (forall c :: c in m.calls ==>
          c.time < m.clock && c.promise < |m.job.promises| && (Served(m, c) || Promised(m, c)))
    && (forall n :: 0 <= n < |m.job.promises| ==> PromiseInv(m, n))
  }

  lemma ServedStays(m: Machine, m': Machine, c: Call)
    requires Served(m, c)
    requires forall id :: Covers(m, id, c.time) ==> Covers(m', id, c.time)
    ensures Served(m', c)
  {
    var id :| Covers(m, id, c.time);
    assert Covers(m', id, c.time);
  }

  /** Completed executions stay as they are. */
  ghost predicate Extends(m: Machine, m': Machine) {
    forall id, time :: Covers(m, id, time) ==> Covers(m', id, time)
  }

  lemma CallKeepsInv(m: Machine, now: int)
    requires Inv(m)
    ensures Inv(Next(m, CallRun(now)))
  {
    var m' := Next(m, CallRun(now));
    assert Extends(m, m');
    forall c | c in m.calls && Served(m, c) ensures Served(m', c) {
      ServedStays(m, m', c);
    }
    forall n | 0 <= n < |m'.job.promises| ensures PromiseInv(m', n) {
      assert n < |m.job.promises| ==> PromiseInv(m, n);
    }
  }

  lemma StartKeepsInv(m: Machine, i: nat, now: int)
    requires Inv(m) && Enabled(m, RunTask(i, now)) && m.job.tasks[i].StartFn?
    ensures Inv(Next(m, RunTask(i, now)))
  {
    var m' := Next(m, RunTask(i, now));
    assert Extends(m, m');
    forall c | c in m.calls && Served(m, c) ensures Served(m', c) {
      ServedStays(m, m', c);
    }
    forall n | 0 <= n < |m'.job.promises| ensures PromiseInv(m', n) {
      assert PromiseInv(m, n);
    }
  }

  lemma NoteKeepsInv(m: Machine, i: nat, now: int)
    requires Inv(m) && Enabled(m, RunTask(i, now)) && m.job.tasks[i].NoteOutcome?
    ensures Inv(Next(m, RunTask(i, now)))
  {
    var m' := Next(m, RunTask(i, now));
    assert Extends(m, m');
    forall c | c in m.calls && Served(m, c) ensures Served(m', c) {
      ServedStays(m, m', c);
    }
    forall n | 0 <= n < |m'.job.promises| ensures PromiseInv(m', n) {
      assert PromiseInv(m, n);
    }
  }

  lemma FinishKeepsInv(m: Machine, i: nat, now: int)
    requires Inv(m) && Enabled(m, RunTask(i, now)) && m.job.tasks[i].Finish?
    ensures Inv(Next(m, RunTask(i, now)))
  {
    var m' := Next(m, RunTask(i, now));
    var id := m.job.tasks[i].id;
    assert Extends(m, m');
    forall c | c in m.calls && (Served(m, c) || !m.job.again) ensures Served(m', c) {
      if !Served(m, c) {
        assert Covers(m, id, c.time);
      }
      ServedStays(m, m', c);
    }
    forall n | 0 <= n < |m'.job.promises| ensures PromiseInv(m', n) {
      assert n < |m.job.promises| ==> PromiseInv(m, n);
    }
  }

  lemma AnswerKeepsInv(m: Machine, id: nat, ok: bool)
    requires Inv(m) && Enabled(m, Answer(id, ok))
    ensures Inv(Next(m, Answer(id, ok)))
  {
    var m' := Next(m, Answer(id, ok));
    assert Extends(m, m');
    forall c | c in m.calls && Served(m, c) ensures Served(m', c) {
      ServedStays(m, m', c);
    }
    forall n | 0 <= n < |m'.job.promises| ensures PromiseInv(m', n) {
      assert PromiseInv(m, n);
    }
  }

  lemma AdoptKeepsInv(m: Machine, n: nat)
    requires Inv(m) && Enabled(m, Adopt(n))
    ensures Inv(Next(m, Adopt(n)))
  {
    var m' := Next(m, Adopt(n));
    assert PromiseInv(m, n);
    forall c | c in m.calls && (Served(m, c) || c.promise == n) ensures Served(m', c) {
      if c.promise == n {
        assert Covers(m', n + 1, c.time);
      } else {
        ServedStays(m, m', c);
      }
    }
    forall k | 0 <= k < |m'.job.promises| ensures PromiseInv(m', k) {
      assert PromiseInv(m, k);
    }
  }

  lemma NextKeepsInv(m: Machine, t: Step)
    requires Inv(m) && Enabled(m, t)
    ensures Inv(Next(m, t))
  {
    match t
    case CallRun(now) => CallKeepsInv(m, now);
    case RunTask(i, now) =>
      match m.job.tasks[i] {
        case StartFn(_) => StartKeepsInv(m, i, now);
        case NoteOutcome(_, _) => NoteKeepsInv(m, i, now);
        case Finish(_) => FinishKeepsInv(m, i, now);
      }
    case Answer(id, ok) => AnswerKeepsInv(m, id, ok);
    case Adopt(n) => AdoptKeepsInv(m, n);
  }

  lemma {:induction false} RunKeepsInv(m: Machine, ts: seq<Step>)
    requires Inv(m) && IsRun(m, ts)
    ensures Inv(After(m, ts))
    decreases |ts|
  {
    if ts != [] {
      NextKeepsInv(m, ts[0]);
      RunKeepsInv(Next(m, ts[0]), ts[1..]);
    }
  }

  // ---------- Main results ----------

  /** The function of a job is never active twice, and callbacks and awaited answers never overlap. */
  lemma NeverTwice(ts: seq<Step>)
    requires IsRun(START, ts)
    ensures var j := After(START, ts).job;
      |j.tasks| + |j.flying| == if j.busy.Some? then 1 else 0
  {
    RunKeepsInv(START, ts);
  }

  /** The promise of a call settles only after a completed execution that began at or after the call. */
  lemma PromiseSettlesAfterFreshExecution(ts: seq<Step>, c: Call)
    requires IsRun(START, ts) && c in After(START, ts).calls
    ensures var m := After(START, ts);
      && c.promise < |m.job.promises|
      && (m.job.promises[c.promise] == Resolved ==>
            exists id :: id in m.executions && m.executions[id].start >= c.time && m.executions[id].end.Some?)
  {
    var m := After(START, ts);
    RunKeepsInv(START, ts);
    assert PromiseInv(m, c.promise);
    if m.job.promises[c.promise] == Resolved {
      var id :| Covers(m, id, c.time);
    }
  }

  /**
  No refresh request is lost. An idle job has served every call; a busy one has marked a re-run, or its present
  execution begins late enough for every call not served before.
  */
  lemma NoRequestIsLost(ts: seq<Step>, c: Call)
    requires IsRun(START, ts) && c in After(START, ts).calls
    ensures var m := After(START, ts);
      || (exists id :: id in m.executions && m.executions[id].start >= c.time && m.executions[id].end.Some?)
      || (m.job.busy.Some? &&
          (m.job.again || m.job.busy.value !in m.executions || m.executions[m.job.busy.value].start >= c.time))
  {
    var m := After(START, ts);
    RunKeepsInv(START, ts);
    if Served(m, c) {
      var id :| Covers(m, id, c.time);
    }
  }

  /**
  The callbacks and answers of a reachable machine can always proceed: nothing waits for ever on the model's guards.
  */
  lemma NothingIsStuck(ts: seq<Step>, now: int)
    requires IsRun(START, ts)
    ensures var m := After(START, ts);
      && (forall i :: 0 <= i < |m.job.tasks| ==> Enabled(m, RunTask(i, now)))
      && (forall id, ok :: id in m.job.flying ==> Enabled(m, Answer(id, ok)))
      && (m.job.busy.Some? ==> m.job.tasks != [] || m.job.flying != {})
  {
    RunKeepsInv(START, ts);
  }

  // ---------- Progress ----------

  /** A run of callbacks, answers and adoptions: nobody calls `run`. */
  ghost predicate Unprompted(ts: seq<Step>) {
    forall i :: 0 <= i < |ts| ==> !ts[i].CallRun?
  }

  /** The steps the present execution still takes, and those of a marked re-run. */
  function StepsLeft(j: Job): nat {
    (if j.busy.None? then 0 else if j.tasks == [] then 3
     else match j.tasks[0] { case StartFn(_) => 4 case NoteOutcome(_, _) => 2 case Finish(_) => 1 })
    + if j.again then 5 else 0
  }

  function Unresolved(ps: seq<PromiseState>): (n: nat)
    ensures n <= |ps|
  {
    if ps == [] then 0 else Unresolved(ps[..|ps| - 1]) + if ps[|ps| - 1] == Resolved then 0 else 1
  }

  /** Every unprompted step makes this smaller. */
  function Measure(m: Machine): nat { StepsLeft(m.job) + Unresolved(m.job.promises) }

  lemma {:induction false} UnresolvedUpdate(ps: seq<PromiseState>, n: nat, v: PromiseState)
    requires n < |ps| && ps[n] != Resolved
    ensures Unresolved(ps[n := v]) == Unresolved(ps) - if v == Resolved then 1 else 0
  {
    var last := |ps| - 1;
    if n < last {
      assert ps[n := v][..last] == ps[..last][n := v];
      UnresolvedUpdate(ps[..last], n, v);
    } else {
      assert ps[n := v][..last] == ps[..last];
    }
  }

  lemma UnresolvedSnoc(ps: seq<PromiseState>, v: PromiseState)
    requires v != Resolved
    ensures Unresolved(ps + [v]) == Unresolved(ps) + 1
  {
    assert (ps + [v])[..|ps|] == ps;
  }

  lemma FinishIsSmaller(m: Machine, now: int)
    requires Inv(m) && |m.job.tasks| == 1 && m.job.tasks[0].Finish?
    ensures Measure(Next(m, RunTask(0, now))) < Measure(m)
  {
    var ps, id := m.job.promises, m.job.tasks[0].id;
    if m.job.again {
      UnresolvedSnoc(ps, Pending);
      UnresolvedUpdate(ps + [Pending], id, Follows(|ps|));
    } else {
      UnresolvedUpdate(ps, id, Resolved);
    }
  }

  lemma NextIsSmaller(m: Machine, t: Step)
    requires Inv(m) && Enabled(m, t) && !t.CallRun?
    ensures Measure(Next(m, t)) < Measure(m)
  {
    match t
    case RunTask(i, now) =>
      assert i == 0;
      if m.job.tasks[0].Finish? {
        FinishIsSmaller(m, now);
      }
    case Adopt(n) => UnresolvedUpdate(m.job.promises, n, Resolved);
    case _ =>
  }

  lemma {:induction false} UnpromptedIsBounded(m: Machine, ts: seq<Step>)
    requires Inv(m) && IsRun(m, ts) && Unprompted(ts)
    ensures |ts| + Measure(After(m, ts)) <= Measure(m) && m.calls <= After(m, ts).calls
    decreases |ts|
  {
    if ts != [] {
      NextIsSmaller(m, ts[0]);
      NextKeepsInv(m, ts[0]);
      UnpromptedIsBounded(Next(m, ts[0]), ts[1..]);
    }
  }

  /** Nothing can happen until somebody calls `run`. */
  ghost predicate AtRest(m: Machine) {
    forall t: Step :: !t.CallRun? ==> !Enabled(m, t)
  }

  /** Without an execution, the last promise that is not resolved could adopt its successor. */
  lemma {:induction false} RestIsResolved(m: Machine, k: nat)
    requires Inv(m) && AtRest(m) && m.job.busy.None? && k <= |m.job.promises|
    requires forall n :: k <= n < |m.job.promises| ==> m.job.promises[n] == Resolved
    ensures forall n :: 0 <= n < |m.job.promises| ==> m.job.promises[n] == Resolved
  {
    if k > 0 {
      assert PromiseInv(m, k - 1);
      assert !Enabled(m, Adopt(k - 1));
      RestIsResolved(m, k - 1);
    }
  }

  /**
  Progress under every schedule: from any reachable machine a run without further calls takes a bounded number of
  steps, and where it cannot go on the job is idle, every call is served and every promise resolved.
  */
  lemma EveryScheduleFinishes(before: seq<Step>, ts: seq<Step>)
    requires IsRun(START, before) && IsRun(After(START, before), ts) && Unprompted(ts)
    ensures |ts| <= |After(START, before).job.promises| + 9
    ensures After(START, before).calls <= After(After(START, before), ts).calls
    ensures var m := After(After(START, before), ts);
      AtRest(m) ==>
        && m.job.busy.None? && !m.job.again
        && (forall n :: 0 <= n < |m.job.promises| ==> m.job.promises[n] == Resolved)
        && (forall c :: c in m.calls ==>
              exists id :: id in m.executions && m.executions[id].start >= c.time && m.executions[id].end.Some?)
  {
    var m0 := After(START, before);
    var m := After(m0, ts);
    RunKeepsInv(START, before);
    RunKeepsInv(m0, ts);
    UnpromptedIsBounded(m0, ts);
    if AtRest(m) {
      RestIsIdle(m);
      RestIsResolved(m, |m.job.promises|);
      forall c | c in m.calls
        ensures exists id :: id in m.executions && m.executions[id].start >= c.time && m.executions[id].end.Some?
      {
        assert Served(m, c);
        var id :| Covers(m, id, c.time);
      }
    }
  }

  lemma RestIsIdle(m: Machine)
    requires Inv(m) && AtRest(m)
    ensures m.job.busy.None?
  {
    if m.job.busy.Some? {
      assert m.job.tasks != [] ==> Enabled(m, RunTask(0, 0));
      assert m.job.tasks == [] ==> Enabled(m, Answer(m.job.busy.value, true));
    }
  }

  /** The time of a job is that of the step that made its present promise: a call while busy does not move it. */
  lemma TimeMarksStart(m: Machine, t: Step)
    requires Inv(m) && Enabled(m, t)
    ensures var j := Next(m, t).job;
      if |j.promises| == |m.job.promises| then j.at == m.job.at
      else |j.promises| == |m.job.promises| + 1 && (t.CallRun? || t.RunTask?) && j.at == t.now
  {
  }
}
