/** The cron scheduler of `app.py`: the cancellable `Sleeper`, one pass of
    the main loop (run the due tasks, then work out how long to sleep), and
    `insert_task` as the web thread calls it.

    Times are whole seconds (the loop zeroes microseconds). The croniter
    lookup `get_next_run_at(cron, after)` is a function parameter `next`. */
module Scheduler {
  import opened Wrappers

  /** `APP_DEFAULT_SLEEP_TIME`. */
  const DefaultSleep: int := 5

  /** `PeriodicTrigger`. */
  datatype Trigger = Trigger(cron: string, immediateFirstRun: bool)

  /** The bookkeeping a pass reads and writes. */
  datatype Schedule = Schedule(
    tasks: map<string, Trigger>,
    lastRunAt: map<string, int>,
    lastRunCheck: map<string, int>,
    startedAt: int)

  /** `d.get(k) or default` for a map whose values are never falsy. */
  function Get(m: map<string, int>, k: string, default: int): int {
    if k in m then m[k] else default
  }

  /** Lines 107-115: a task runs when it asks for an immediate first run
      and no check has been recorded for it, or when its next cron time
      after its last run (or after the start of the app) has come. */
  predicate Runs(s: Schedule, name: string, now: int, next: (string, int) -> int)
    requires name in s.tasks
  {
    var task := s.tasks[name];
    (task.immediateFirstRun && name !in s.lastRunCheck)
    || next(task.cron, Get(s.lastRunAt, name, s.startedAt)) <= now
  }

  /** The tasks among `names` that run, in order. */
  function Ran(s: Schedule, names: seq<string>, now: int, next: (string, int) -> int): seq<string>
    requires forall n :: n in names ==> n in s.tasks
    decreases |names|
  {
    if names == [] then []
    else
      var last := names[|names| - 1];
      Ran(s, names[..|names| - 1], now, next) + (if Runs(s, last, now, next) then [last] else [])
  }

  /** `tasks_last_run_at[name] = now` for each task run, in order. */
  function MarkRuns(m: map<string, int>, ran: seq<string>, now: int): map<string, int>
    decreases |ran|
  {
    if ran == [] then m else MarkRuns(m, ran[..|ran| - 1], now)[ran[|ran| - 1] := now]
  }

  /** `tasks_last_run_check[name] = now` for each task of `names` without an
      immediate first run, in order. */
  function RecordChecks(m: map<string, int>, tasks: map<string, Trigger>, names: seq<string>, now: int): map<string, int>
    requires forall n :: n in names ==> n in tasks
    decreases |names|
  {
    if names == [] then m
    else
      var before := RecordChecks(m, tasks, names[..|names| - 1], now);
      var last := names[|names| - 1];
      if tasks[last].immediateFirstRun then before else before[last := now]
  }

  /** The bookkeeping after a pass over `order` at `now`. */
  function AfterPass(s: Schedule, order: seq<string>, now: int, next: (string, int) -> int): Schedule
    requires forall n :: n in order ==> n in s.tasks
  {
    s.(lastRunAt := MarkRuns(s.lastRunAt, Ran(s, order, now, next), now),
       lastRunCheck := RecordChecks(s.lastRunCheck, s.tasks, order, now))
  }

  /** Entries of a task that is not among `ran` are kept. */
  lemma {:induction false} MarkRunsEntry(m: map<string, int>, ran: seq<string>, now: int, k: string)
    ensures k in ran ==> k in MarkRuns(m, ran, now) && MarkRuns(m, ran, now)[k] == now
    ensures k !in ran ==> (k in MarkRuns(m, ran, now) <==> k in m)
                          && (k in m ==> MarkRuns(m, ran, now)[k] == m[k])
    decreases |ran|
  {
    if ran != [] {
      MarkRunsEntry(m, ran[..|ran| - 1], now, k);
      assert ran == ran[..|ran| - 1] + [ran[|ran| - 1]];
    }
  }

  lemma {:induction false} RecordChecksEntry(m: map<string, int>, tasks: map<string, Trigger>, names: seq<string>, now: int, k: string)
    requires forall n :: n in names ==> n in tasks
    ensures k in names && !tasks[k].immediateFirstRun ==>
              k in RecordChecks(m, tasks, names, now) && RecordChecks(m, tasks, names, now)[k] == now
    ensures !(k in names && !tasks[k].immediateFirstRun) ==>
              (k in RecordChecks(m, tasks, names, now) <==> k in m)
              && (k in m ==> RecordChecks(m, tasks, names, now)[k] == m[k])
    decreases |names|
  {
    if names != [] {
      RecordChecksEntry(m, tasks, names[..|names| - 1], now, k);
      assert names == names[..|names| - 1] + [names[|names| - 1]];
    }
  }

  /** Lines 127-129: the next run time computed after a task's turn, from
      its last run if it has one and from `now` otherwise. */
  function NextRunAt(s: Schedule, name: string, now: int, next: (string, int) -> int): int
    requires name in s.tasks
  {
    var base := if Runs(s, name, now, next) then now else Get(s.lastRunAt, name, now);
    next(s.tasks[name].cron, base)
  }

  /** The per-task delays of line 130, in order. */
  function Delays(s: Schedule, names: seq<string>, now: int, next: (string, int) -> int): (ds: seq<int>)
    requires forall n :: n in names ==> n in s.tasks
    ensures |ds| == |names|
  {
    seq(|names|, k requires 0 <= k < |names| => Delay(s, names[k], now, next))
  }

  /** The index the strict `<` of line 132 settles on: the first position of
      the least value. */
  function FirstMin(ds: seq<int>): (j: nat)
    requires ds != []
    ensures j < |ds|
    ensures forall k :: 0 <= k < |ds| ==> ds[j] <= ds[k]
    ensures forall k :: 0 <= k < j ==> ds[j] < ds[k]
    decreases |ds|
  {
    if |ds| == 1 then 0
    else
      var j := FirstMin(ds[..|ds| - 1]);
      if ds[|ds| - 1] < ds[j] then |ds| - 1 else j
  }

  /** The delay of line 130 for one task. */
  function Delay(s: Schedule, name: string, now: int, next: (string, int) -> int): int
    requires name in s.tasks
  {
    NextRunAt(s, name, now, next) - now
  }

  /** The delay chosen by a pass over `names`, as the strict `<` of line 132
      keeps it task by task; the default when there are no tasks. */
  function ChosenDelay(s: Schedule, names: seq<string>, now: int, next: (string, int) -> int): int
    requires forall n :: n in names ==> n in s.tasks
    decreases |names|
  {
    if names == [] then DefaultSleep
    else
      var init, d := names[..|names| - 1], Delay(s, names[|names| - 1], now, next);
      if init == [] || d < ChosenDelay(s, init, now, next) then d else ChosenDelay(s, init, now, next)
  }

  /** The chosen delay is the least task delay, taken at its first position:
      no task has a smaller delay and every task before it a larger one. */
  lemma {:induction false} ChosenDelayIsFirstLeast(s: Schedule, names: seq<string>, now: int, next: (string, int) -> int)
    requires forall n :: n in names ==> n in s.tasks
    requires names != []
    ensures var ds := Delays(s, names, now, next);
            ChosenDelay(s, names, now, next) == ds[FirstMin(ds)]
    decreases |names|
  {
    var init := names[..|names| - 1];
    var ds := Delays(s, names, now, next);
    if init != [] {
      ChosenDelayIsFirstLeast(s, init, now, next);
      assert ds[..|ds| - 1] == Delays(s, init, now, next);
    }
  }

  /** A task is among those that ran exactly when it is listed and due. */
  lemma {:induction false} RanIff(s: Schedule, names: seq<string>, now: int, next: (string, int) -> int, n: string)
    requires forall m :: m in names ==> m in s.tasks
    ensures n in Ran(s, names, now, next) <==> n in names && Runs(s, n, now, next)
    decreases |names|
  {
    if names != [] {
      var init := names[..|names| - 1];
      RanIff(s, init, now, next, n);
      assert names == init + [names[|names| - 1]];
    }
  }

  /** Tasks with an immediate first run never get a check time, so such a
      task runs in this pass, still has no check time after it, and runs in
      the next pass too. */
  lemma ImmediateTaskRunsEveryPass(s: Schedule, order: seq<string>, now: int, next: (string, int) -> int,
                                   later: int, n: string)
    requires forall m :: m in order ==> m in s.tasks
    requires n in order && s.tasks[n].immediateFirstRun && n !in s.lastRunCheck
    ensures n in Ran(s, order, now, next)
    ensures n !in AfterPass(s, order, now, next).lastRunCheck
    ensures n in Ran(AfterPass(s, order, now, next), order, later, next)
  {
    RanIff(s, order, now, next, n);
    RanIff(AfterPass(s, order, now, next), order, later, next, n);
    RecordChecksEntry(s.lastRunCheck, s.tasks, order, now, n);
  }

  /** The bookkeeping after one pass at each of `times`, in order, with the
      task list unchanged. */
  function Passes(s: Schedule, order: seq<string>, times: seq<int>, next: (string, int) -> int): (r: Schedule)
    requires forall m :: m in order ==> m in s.tasks
    ensures r.tasks == s.tasks
    decreases |times|
  {
    if times == [] then s
    else Passes(AfterPass(s, order, times[0], next), order, times[1..], next)
  }

  /** After any number of passes such a task still has no check time, so it
      runs in the pass after them, whatever the times. */
  lemma {:induction false} ImmediateTaskRunsInEveryLaterPass(s: Schedule, order: seq<string>, times: seq<int>,
                                                             next: (string, int) -> int, later: int, n: string)
    requires forall m :: m in order ==> m in s.tasks
    requires n in order && s.tasks[n].immediateFirstRun && n !in s.lastRunCheck
    ensures n !in Passes(s, order, times, next).lastRunCheck
    ensures n in Ran(Passes(s, order, times, next), order, later, next)
    decreases |times|
  {
    if times == [] {
      ImmediateTaskRunsEveryPass(s, order, later, next, later, n);
    } else {
      ImmediateTaskRunsEveryPass(s, order, times[0], next, later, n);
      ImmediateTaskRunsInEveryLaterPass(AfterPass(s, order, times[0], next), order, times[1..], next, later, n);
    }
  }

  /** A pass records `now` as the last run of exactly the tasks that ran,
      and as the last check of exactly the tasks without an immediate first
      run; every other entry is kept. */
  lemma PassBookkeeping(s: Schedule, order: seq<string>, now: int, next: (string, int) -> int, n: string)
    requires forall m :: m in order ==> m in s.tasks
    ensures var a := AfterPass(s, order, now, next);
            && (n in order && Runs(s, n, now, next) ==> n in a.lastRunAt && a.lastRunAt[n] == now)
            && (!(n in order && Runs(s, n, now, next)) ==>
                  (n in a.lastRunAt <==> n in s.lastRunAt) && (n in s.lastRunAt ==> a.lastRunAt[n] == s.lastRunAt[n]))
            && (n in order && !s.tasks[n].immediateFirstRun ==> n in a.lastRunCheck && a.lastRunCheck[n] == now)
            && (n in order && s.tasks[n].immediateFirstRun ==>
                  (n in a.lastRunCheck <==> n in s.lastRunCheck))
  {
    RanIff(s, order, now, next, n);
    MarkRunsEntry(s.lastRunAt, Ran(s, order, now, next), now, n);
    RecordChecksEntry(s.lastRunCheck, s.tasks, order, now, n);
  }

  /** The cancellable sleep. */
  class Sleeper {
    var cancelled: bool

    constructor ()
      ensures !cancelled
    {
      cancelled := false;
    }

    method Cancel()
      modifies this
      ensures cancelled
    {
      cancelled := true;
    }

    method Reset()
      modifies this
      ensures !cancelled
    {
      cancelled := false;
    }

    /** `sleep(t)`: one-second steps while fewer than `t` were taken, none
        once cancelled. Cancellation from another thread during the sleep is
        not part of this model. */
    method Sleep(t: int) returns (steps: nat)
      ensures steps == if cancelled || t <= 0 then 0 else t
    {
      steps := 0;
      while steps < t
        invariant steps <= if t <= 0 then 0 else t
        invariant cancelled ==> steps == 0
        decreases t - steps
      {
        if cancelled {
          break;
        }
        steps := steps + 1;
      }
    }
  }

  /** `AppData` with the loop body and `insert_task`. `order` is the
      insertion order of the `tasks` dict, which `items()` follows. */
  class App {
    var tasks: map<string, Trigger>
    var order: seq<string>
    var lastRunAt: map<string, int>
    var lastRunCheck: map<string, int>
    const startedAt: int
    var nextCheck: Option<int>
    const sleeper: Sleeper

    ghost predicate Valid()
      reads this`order, this`tasks
    {
      && (forall n :: n in order <==> n in tasks)
      && NoRepeats(order)
    }

    function Book(): Schedule
      reads this
    {
      Schedule(tasks, lastRunAt, lastRunCheck, startedAt)
    }

    /** `main`'s start-up state with no tasks. */
    constructor (startedAt: int)
      ensures Valid() && fresh(sleeper) && !sleeper.cancelled
      ensures tasks == map[] && order == [] && lastRunAt == map[] && lastRunCheck == map[]
      ensures this.startedAt == startedAt && nextCheck == None
    {
      tasks, order := map[], [];
      lastRunAt, lastRunCheck := map[], map[];
      this.startedAt := startedAt;
      nextCheck := None;
      sleeper := new Sleeper();
    }

    /** `insert_task`: add or replace a task (a replaced task keeps its
        place in the order), cancel the sleep, forget the next check time. */
    method InsertTask(name: string, task: Trigger)
      requires Valid()
      modifies this, sleeper
      ensures Valid()
      ensures tasks == old(tasks)[name := task]
      ensures order == if name in old(tasks) then old(order) else old(order) + [name]
      ensures sleeper.cancelled && nextCheck == None
      ensures lastRunAt == old(lastRunAt) && lastRunCheck == old(lastRunCheck)
    {
      if name !in tasks {
        assert (order + [name])[..|order|] == order;
        order := order + [name];
      }
      tasks := tasks[name := task];
      sleeper.Cancel();
      nextCheck := None;
    }

    /** One pass of the `while True` body at time `now`: reset the sleeper,
        plan the pass, then sleep. `ran` lists the tasks run, `sleepFor` the
        requested sleep and `steps` the seconds slept. */
    method Pass(now: int, next: (string, int) -> int) returns (ran: seq<string>, sleepFor: int, steps: nat)
      requires Valid()
      modifies this, sleeper
      ensures Valid() && tasks == old(tasks) && order == old(order)
      ensures ran == Ran(old(Book()), order, now, next)
      ensures Book() == AfterPass(old(Book()), order, now, next)
      ensures var d := ChosenDelay(old(Book()), order, now, next);
              && nextCheck == Some(now + d)
              && sleepFor == (if d == 0 then DefaultSleep else d)
      ensures !sleeper.cancelled && steps == if sleepFor <= 0 then 0 else sleepFor
    {
      sleeper.Reset();
      ran, sleepFor := Plan(now, next);
      steps := sleeper.Sleep(sleepFor);
    }

    /** The scheduling part of a pass: run the due tasks in order, record
        run and check times, pick the least delay (the first task attaining
        it sets the next check time), and fall back to the default with no
        tasks or a zero delay. */
    method Plan(now: int, next: (string, int) -> int) returns (ran: seq<string>, sleepFor: int)
      requires Valid()
      modifies this`lastRunAt, this`lastRunCheck, this`nextCheck
      ensures ran == Ran(old(Book()), order, now, next)
      ensures Book() == AfterPass(old(Book()), order, now, next)
      ensures var d := ChosenDelay(old(Book()), order, now, next);
              && nextCheck == Some(now + d)
              && sleepFor == (if d == 0 then DefaultSleep else d)
    {
      ghost var b0, nc0 := Book(), nextCheck;
      var best;
      ran, best := Scan(now, next);
      SweepMeaning(b0, order, now, next, nc0);
      if best.None? {
        best := Some(DefaultSleep);
        nextCheck := Some(now + DefaultSleep);
      }
      sleepFor := if best.value == 0 then DefaultSleep else best.value;
    }

    /** The `for` loop of lines 106-134 over the tasks in order; `best` is
        `next_sleep_time`, None when there are no tasks. */
    method Scan(now: int, next: (string, int) -> int) returns (ran: seq<string>, best: Option<int>)
      requires forall n :: n in order ==> n in tasks
      modifies this`lastRunAt, this`lastRunCheck, this`nextCheck
      ensures var p := Swept(old(Book()), order, now, next, old(nextCheck));
              ran == p.ran && lastRunAt == p.runAt && lastRunCheck == p.checks
              && best == p.best && nextCheck == p.nextCheck
    {
      ghost var s0, nc0 := Book(), nextCheck;
      var runAt, checks, due := lastRunAt, lastRunCheck, nextCheck;
      best := None;
      ran := [];
      var i := 0;
      ghost var prog := Swept(s0, [], now, next, nc0);
      assert order[..0] == [];
      while i < |order|
        invariant i <= |order|
        invariant prog == Swept(s0, order[..i], now, next, nc0)
        invariant ran == prog.ran && runAt == prog.runAt && checks == prog.checks
        invariant best == prog.best && due == prog.nextCheck
        decreases |order| - i
      {
        // lines 107-130: run it when due, record its check time, and
        // compute its delay (`Delay` reads the last run as updated here)
        var name := order[i];
        var task := tasks[name];
        var book := Schedule(tasks, runAt, checks, startedAt);
        var runs := Runs(book, name, now, next);
        var delay := Delay(book, name, now, next);
        if runs {
          ran := ran + [name];
          runAt := runAt[name := now];
        }
        if !task.immediateFirstRun {
          checks := checks[name := now];
        }
        // lines 130-134: keep the least delay and its run time
        if best.None? || delay < best.value {
          best := Some(delay);
          due := Some(now + delay);
        }
        SweptSnoc(s0, order, i, now, next, nc0);
        prog := Step(prog, name, now, runs, delay, task.immediateFirstRun);
        i := i + 1;
      }
      assert order[..i] == order;
      lastRunAt, lastRunCheck, nextCheck := runAt, checks, due;
    }
  }

  /** What the loop of lines 106-134 carries from one task to the next. */
  datatype Progress = Progress(
    ran: seq<string>,
    runAt: map<string, int>,
    checks: map<string, int>,
    best: Option<int>,
    nextCheck: Option<int>)

  /** What a turn does with its task once it knows whether it runs,
      its delay `d`, and whether it asks for an immediate first run. */
  function Step(p: Progress, name: string, now: int, runs: bool, d: int, immediate: bool): Progress {
    var better := p.best.None? || d < p.best.value;
    Progress(
      if runs then p.ran + [name] else p.ran,
      if runs then p.runAt[name := now] else p.runAt,
      if immediate then p.checks else p.checks[name := now],
      if better then Some(d) else p.best,
      if better then Some(now + d) else p.nextCheck)
  }

  /** One turn of the loop on values: a task is judged on the bookkeeping
      as the earlier turns left it. An unknown name changes nothing. */
  function Turned(s0: Schedule, p: Progress, name: string, now: int, next: (string, int) -> int): Progress {
    if name !in s0.tasks then p
    else
      var b := s0.(lastRunAt := p.runAt, lastRunCheck := p.checks);
      Step(p, name, now, Runs(b, name, now, next), Delay(b, name, now, next), s0.tasks[name].immediateFirstRun)
  }

  /** The turns for `names`, in order, from the bookkeeping `s0` and the
      next check time `nc0`. */
  function Swept(s0: Schedule, names: seq<string>, now: int, next: (string, int) -> int, nc0: Option<int>): Progress
    decreases |names|
  {
    if names == [] then Progress([], s0.lastRunAt, s0.lastRunCheck, None, nc0)
    else Turned(s0, Swept(s0, names[..|names| - 1], now, next, nc0), names[|names| - 1], now, next)
  }

  /** The turns for the first `i + 1` tasks are those for the first `i`
      and then the turn for task `i`. */
  lemma SweptSnoc(s0: Schedule, names: seq<string>, i: nat, now: int, next: (string, int) -> int, nc0: Option<int>)
    requires i < |names|
    ensures Swept(s0, names[..i + 1], now, next, nc0) == Turned(s0, Swept(s0, names[..i], now, next, nc0), names[i], now, next)
  {
    assert names[..i + 1][..i] == names[..i];
  }

  /** No task is listed twice: each is absent from those before it. */
  predicate NoRepeats(names: seq<string>)
    decreases |names|
  {
    names != [] ==> NoRepeats(names[..|names| - 1]) && names[|names| - 1] !in names[..|names| - 1]
  }

  /** The loop over distinct tasks does what a pass promises: the tasks that
      ran are those due at the start, the bookkeeping is `AfterPass`, and the
      least delay and its next check come from the first task attaining it;
      with no tasks nothing is chosen and the next check is left alone. */
  lemma {:induction false} SweepMeaning(s0: Schedule, names: seq<string>, now: int, next: (string, int) -> int,
                                        nc0: Option<int>)
    requires forall n :: n in names ==> n in s0.tasks
    requires NoRepeats(names)
    ensures var p := Swept(s0, names, now, next, nc0);
            && p.ran == Ran(s0, names, now, next)
            && s0.(lastRunAt := p.runAt, lastRunCheck := p.checks) == AfterPass(s0, names, now, next)
            && (p.best.None? <==> names == [])
            && (names == [] ==> p.nextCheck == nc0)
            && (names != [] ==> p.best == Some(ChosenDelay(s0, names, now, next))
                                && p.nextCheck == Some(now + p.best.value))
  {
    SweptChecks(s0, names, now, next, nc0);
    SweptRuns(s0, names, now, next, nc0);
    SweptBest(s0, names, now, next, nc0);
  }

  lemma {:induction false} SweptChecks(s0: Schedule, names: seq<string>, now: int, next: (string, int) -> int,
                                       nc0: Option<int>)
    requires forall n :: n in names ==> n in s0.tasks
    ensures Swept(s0, names, now, next, nc0).checks == RecordChecks(s0.lastRunCheck, s0.tasks, names, now)
    decreases |names|
  {
    if names != [] {
      SweptChecks(s0, names[..|names| - 1], now, next, nc0);
    }
  }

  lemma {:induction false} SweptRuns(s0: Schedule, names: seq<string>, now: int, next: (string, int) -> int,
                                     nc0: Option<int>)
    requires forall n :: n in names ==> n in s0.tasks
    requires NoRepeats(names)
    ensures var p := Swept(s0, names, now, next, nc0);
            p.ran == Ran(s0, names, now, next) && p.runAt == MarkRuns(s0.lastRunAt, p.ran, now)
    decreases |names|
  {
    if names != [] {
      var init, last := names[..|names| - 1], names[|names| - 1];
      SweptRuns(s0, init, now, next, nc0);
      SweptChecks(s0, init, now, next, nc0);
      var p := Swept(s0, init, now, next, nc0);
      var b := s0.(lastRunAt := p.runAt, lastRunCheck := p.checks);
      TurnAgrees(s0, b, init, last, now, next);
      MarkStep(s0.lastRunAt, p.ran, last, now);
    }
  }

  lemma {:induction false} SweptBest(s0: Schedule, names: seq<string>, now: int, next: (string, int) -> int,
                                     nc0: Option<int>)
    requires forall n :: n in names ==> n in s0.tasks
    requires NoRepeats(names)
    ensures var p := Swept(s0, names, now, next, nc0);
            && (p.best.None? <==> names == [])
            && (names == [] ==> p.nextCheck == nc0)
            && (names != [] ==> p.best == Some(ChosenDelay(s0, names, now, next))
                                && p.nextCheck == Some(now + p.best.value))
    decreases |names|
  {
    if names != [] {
      var init, last := names[..|names| - 1], names[|names| - 1];
      SweptBest(s0, init, now, next, nc0);
      SweptSees(s0, names, now, next, nc0);
    }
  }

  /** The last turn of a pass computes its task's delay from what that task
      looked like at the start. */
  lemma SweptSees(s0: Schedule, names: seq<string>, now: int, next: (string, int) -> int, nc0: Option<int>)
    requires forall n :: n in names ==> n in s0.tasks
    requires NoRepeats(names) && names != []
    ensures var p, last := Swept(s0, names[..|names| - 1], now, next, nc0), names[|names| - 1];
            Delay(s0.(lastRunAt := p.runAt, lastRunCheck := p.checks), last, now, next) == Delay(s0, last, now, next)
  {
    var init, last := names[..|names| - 1], names[|names| - 1];
    SweptRuns(s0, init, now, next, nc0);
    SweptChecks(s0, init, now, next, nc0);
    var p := Swept(s0, init, now, next, nc0);
    TurnAgrees(s0, s0.(lastRunAt := p.runAt, lastRunCheck := p.checks), init, last, now, next);
  }

  /** What a turn sees of its task is what it was before the pass, since
      earlier turns touch only their own tasks: a task runs, and computes
      its next run time, as it would have at the start. */
  lemma TurnAgrees(s0: Schedule, b: Schedule, done: seq<string>, name: string, now: int, next: (string, int) -> int)
    requires forall n :: n in done ==> n in s0.tasks
    requires name in s0.tasks && name !in done
    requires b.tasks == s0.tasks && b.startedAt == s0.startedAt
    requires b.lastRunAt == MarkRuns(s0.lastRunAt, Ran(s0, done, now, next), now)
    requires b.lastRunCheck == RecordChecks(s0.lastRunCheck, s0.tasks, done, now)
    ensures Runs(b, name, now, next) == Runs(s0, name, now, next)
    ensures NextRunAt(b, name, now, next) == NextRunAt(s0, name, now, next)
  {
    RanIff(s0, done, now, next, name);
    MarkRunsEntry(s0.lastRunAt, Ran(s0, done, now, next), now, name);
    RecordChecksEntry(s0.lastRunCheck, s0.tasks, done, now, name);
  }

  /** Recording one more run at `now`. */
  lemma MarkStep(base: map<string, int>, ran: seq<string>, name: string, now: int)
    ensures MarkRuns(base, ran + [name], now) == MarkRuns(base, ran, now)[name := now]
  {
    assert (ran + [name])[..|ran|] == ran;
   }
}
