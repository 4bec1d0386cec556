/** Runs of the scheduler: what each operation does to its state, what holds at every point of every
    run, and who goes down when the timer fires again and again. */
module SchedulerRuns {
  import opened Wrappers
  import opened ExecTable
  import opened Scheduler

  /** The state between two operations. */
  datatype Snapshot = Snapshot(
    all: Table, active: Table, cleaning: Threads, manualDownNum: int, rule: Rule, on: bool, cleanTimes: map<Addr, int>)

  /** One operation under the lock; of a report of wrong answers, each item is one. */
  datatype Step =
    | HealthCheck(a: Addr, healthy: bool, now: int, seed: nat -> int, draw: nat -> nat)
    | Timer(time: int, luck: nat)
    | ManualUp(a: Addr)
    | ManualDown(a: Addr)
    | ManualClean(a: Addr)
    | ReportError(a: Addr, time: int, luck: nat)
    | UpdateConfig(on: bool, rule: Rule, draw: nat -> nat)
    | CleanerDone(a: Addr, now: int)

  function Now(s: Schedule): Snapshot
    reads s
  {
    Snapshot(s.all, s.active, s.cleaning, s.manualDownNum, s.scheduleRule, s.mimicOn, s.preCleanTimes)
  }

  predicate Known(b: Snapshot) { b.rule != UnknownRule }

  predicate MayCleanAgain(b: Snapshot, now: int, a: Addr) {
    a !in b.cleanTimes || (now - b.cleanTimes[a]) % WRAP >= CLEAN_PAUSE
  }

  predicate UpAccepted(b: Snapshot, a: Addr, execNum: nat) {
    a in b.all && |b.active| != execNum && a !in b.active
  }

  /** A manual up of an executor that is being cleaned, or one while nothing is withdrawn by hand. */
  predicate Excluded(b: Snapshot, step: Step, execNum: nat) {
    step.ManualUp? && UpAccepted(b, step.a, execNum) && (b.all[step.a].status == CLEANING || b.manualDownNum <= 0)
  }

  ghost predicate OldestGoes(active: Table, down: Addr) {
    down in active &&
    ((forall a :: a in active ==> active[a].activeTime > 0) ==>
      forall a :: a in active ==> active[down].activeTime <= active[a].activeTime)
  }

  /** The report, by way of the tables `table` and `up`, and the refill. */
  ghost predicate CheckOk(execNum: nat, b: Snapshot, step: Step, key: Option<Addr>, table: Table, up: Table,
      c: Snapshot)
    requires step.HealthCheck? && step.a in b.all
  {
    Reported(b.all, b.active, b.cleaning, MayCleanAgain(b, step.now, step.a), Known(b), step.a, step.healthy,
             step.seed(0), execNum, key, table, up, c.cleaning) &&
    Grown(table, up, c.all, c.active, step.seed) &&
    (Known(b) ==> |c.active| + c.manualDownNum == execNum || ReadySet(c.all) == {}) &&
    c == b.(all := c.all, active := c.active, cleaning := c.cleaning)
  }

  ghost predicate TimerOk(execNum: nat, b: Snapshot, time: int, down: Addr, key: Option<Addr>, c: Snapshot) {
    down in b.all && OldestGoes(b.active, down) &&
    if |b.active| == 1 || !Known(b) then c == b
    else
      Replaced(b.all, b.active, key, Some(down), time, execNum, c.all, c.active) &&
      c == b.(all := c.all, active := c.active, cleaning := b.cleaning + multiset{down})
  }

  ghost predicate ReportOk(execNum: nat, b: Snapshot, a: Addr, time: int, key: Option<Addr>, c: Snapshot)
    requires a in b.all
  {
    Ousted(b.all, b.active, b.cleaning, Known(b), a, time, execNum, key, c.all, c.active, c.cleaning) &&
    c == b.(all := c.all, active := c.active, cleaning := c.cleaning)
  }

  ghost predicate ConfigOk(b: Snapshot, on: bool, c: Snapshot) {
    if !on && b.on then
      Withdrawn(b.all, b.active, c.all, c.active) && |c.active| <= 1 && (b.active != map[] ==> c.active != map[]) &&
      |c.active| + c.manualDownNum == |b.active| + b.manualDownNum
    else c.all == b.all && c.active == b.active && c.manualDownNum == if on && !b.on then 0 else b.manualDownNum
  }

  /** What an operation does, whatever is drawn. */
  ghost predicate StepOk(execNum: nat, b: Snapshot, step: Step, c: Snapshot) {
    match step
    case HealthCheck(a, _, _, _, _) =>
      if a in b.all then exists key, table, up :: CheckOk(execNum, b, step, key, table, up, c) else c == b
    case Timer(time, _) =>
      if b.active == map[] then c == b else exists down, key :: TimerOk(execNum, b, time, down, key, c)
    case ManualUp(a) =>
      if UpAccepted(b, a, execNum) then
        var all := SetStatus(b.all, a, ACTIVE);
        c == b.(all := all, active := b.active[a := all[a]], manualDownNum := b.manualDownNum - 1)
      else c == b
    case ManualDown(a) =>
      if a in b.active && a in b.all && |b.active| != 1 then
        c == b.(all := SetStatus(b.all, a, READY), active := b.active - {a}, manualDownNum := b.manualDownNum + 1)
      else c == b
    case ManualClean(a) =>
      if a in b.all && b.all[a].status == OFFLINE then
        c == b.(all := SetStatus(b.all, a, CLEANING), cleaning := b.cleaning + multiset{a})
      else c == b
    case ReportError(a, time, _) =>
      if a in b.active && a in b.all then exists key :: ReportOk(execNum, b, a, time, key, c) else c == b
    case UpdateConfig(on, rule, _) =>
      ConfigOk(b, on, c) && c.on == on && c.rule == rule && c.cleaning == b.cleaning && c.cleanTimes == b.cleanTimes
    case CleanerDone(a, now) =>
      if a in b.cleaning && a in b.all then
        c == b.(all := SetStatus(b.all, a, OFFLINE), cleaning := b.cleaning - multiset{a},
            cleanTimes := b.cleanTimes[a := now])
      else c == b
  }

  ghost predicate Sound(order: seq<Addr>, execNum: nat, b: Snapshot) {
    Consistent(order, b.all, b.active, b.cleaning) && WithinCapacity(b.active, b.manualDownNum, execNum)
  }

  /** The states of a run, one more than there are steps; all of them are sound. */
  ghost predicate IsRun(order: seq<Addr>, execNum: nat, trace: seq<Snapshot>, steps: seq<Step>) {
    |trace| == |steps| + 1 &&
    (forall k :: 0 <= k < |trace| ==> Sound(order, execNum, trace[k])) &&
    forall k :: 0 <= k < |steps| ==> StepOk(execNum, trace[k], steps[k], trace[k + 1])
  }

  /** Performs an operation. */
  method Perform(s: Schedule, step: Step)
    requires s.Valid() && !Excluded(Now(s), step, s.execNum)
    modifies s
    ensures s.Valid() && StepOk(s.execNum, old(Now(s)), step, Now(s)) && (old(s.active) != map[] ==> s.active != map[])
  {
    hide *;
    match step {
      case HealthCheck(_, _, _, _, _) => Check(s, step);
      case Timer(_, _) => Tick(s, step);
      case ReportError(_, _, _) => Blame(s, step);
      case ManualUp(_) => PutUp(s, step);
      case UpdateConfig(_, _, _) => Configure(s, step);
      case ManualDown(_) => Withdraw(s, step);
      case ManualClean(_) => Clean(s, step);
      case CleanerDone(_, _) => Finish(s, step);
    }
  }

  method Check(s: Schedule, step: Step)
    requires s.Valid() && step.HealthCheck?
    modifies s
    ensures s.Valid() && StepOk(s.execNum, old(Now(s)), step, Now(s)) && (old(s.active) != map[] ==> s.active != map[])
  {
    hide Schedule.Valid, Grown, Reported, ReadySet;
    if step.a in s.all {
      ghost var key, table, up := s.ExecAutoReport(step.a, step.healthy, step.now, step.seed, step.draw);
      assert CheckOk(s.execNum, old(Now(s)), step, key, table, up, Now(s));
    }
  }

  method Tick(s: Schedule, step: Step)
    requires s.Valid() && step.Timer?
    modifies s
    ensures s.Valid() && StepOk(s.execNum, old(Now(s)), step, Now(s)) && (old(s.active) != map[] ==> s.active != map[])
  {
    hide Schedule.Valid, Replaced;
    var down, key := s.ExecAutoSchedule(step.time, step.luck);
    if down.Some? {
      s.NotEmpty(old(s.active), down.value);
      assert TimerOk(s.execNum, old(Now(s)), step.time, down.value, key, Now(s));
    }
  }

  method Blame(s: Schedule, step: Step)
    requires s.Valid() && step.ReportError?
    modifies s
    ensures s.Valid() && StepOk(s.execNum, old(Now(s)), step, Now(s)) && (old(s.active) != map[] ==> s.active != map[])
  {
    hide Schedule.Valid, Ousted;
    var found, key := s.ReportOne(step.a, step.time, step.luck);
    if found { assert ReportOk(s.execNum, old(Now(s)), step.a, step.time, key, Now(s)); }
  }

  method PutUp(s: Schedule, step: Step)
    requires s.Valid() && step.ManualUp? && !Excluded(Now(s), step, s.execNum)
    modifies s
    ensures s.Valid() && StepOk(s.execNum, old(Now(s)), step, Now(s)) && (old(s.active) != map[] ==> s.active != map[])
  {
    hide Consistent;
    var ok := s.DoManualUp(step.a);
  }

  method Configure(s: Schedule, step: Step)
    requires s.Valid() && step.UpdateConfig?
    modifies s
    ensures s.Valid() && StepOk(s.execNum, old(Now(s)), step, Now(s)) && (old(s.active) != map[] ==> s.active != map[])
  {
    hide Schedule.Valid, Withdrawn;
    s.DoUpdateConfig(step.on, step.rule, step.draw);
  }

  method Withdraw(s: Schedule, step: Step)
    requires s.Valid() && step.ManualDown?
    modifies s
    ensures s.Valid() && StepOk(s.execNum, old(Now(s)), step, Now(s)) && (old(s.active) != map[] ==> s.active != map[])
  {
    hide Schedule.Valid;
    var ok := s.DoManualDown(step.a);
  }

  method Clean(s: Schedule, step: Step)
    requires s.Valid() && step.ManualClean?
    modifies s
    ensures s.Valid() && StepOk(s.execNum, old(Now(s)), step, Now(s)) && (old(s.active) != map[] ==> s.active != map[])
  {
    hide Schedule.Valid;
    var ok := s.DoManualClean(step.a);
  }

  method Finish(s: Schedule, step: Step)
    requires s.Valid() && step.CleanerDone?
    modifies s
    ensures s.Valid() && StepOk(s.execNum, old(Now(s)), step, Now(s)) && (old(s.active) != map[] ==> s.active != map[])
  {
    hide Schedule.Valid;
    if step.a in s.cleaning { s.CleanThreadDone(step.a, step.now); }
  }

  /** Every run: whatever the operations, the clock and the luck of the draw, each operation does what
      it should, the tables agree and the capacity is respected after each, and the active list, once
      not empty, stays so. A run ends exactly before an excluded manual up. */
  method Run(order: seq<Addr>, execs: Table, execNum: nat, rule: Rule, on: bool,
             seed: nat -> int, draw: nat -> nat, steps: seq<Step>)
    returns (trace: seq<Snapshot>, done: nat)
    requires execNum > 0 && Iterates(order, execs)
    requires forall a :: a in execs ==>
      execs[a].addr == a && execs[a].scweight > 0 && execs[a].status in {OFFLINE, READY}
    ensures done <= |steps| && IsRun(order, execNum, trace, steps[..done])
    ensures Filled(execs, execNum, rule, on, seed, trace[0])
    ensures StaysUp(trace)
    ensures rule != UnknownRule && ReadySet(execs) != {} ==> forall k :: 0 <= k <= done ==> trace[k].active != map[]
    ensures forall k :: 0 <= k < done ==> !Excluded(trace[k], steps[k], execNum)
    ensures done < |steps| ==> Excluded(trace[done], steps[done], execNum)
    ensures forall k :: 0 <= k < done ==> Moves(execNum, trace[k], steps[k], trace[k + 1])
    ensures forall a :: a in execs && 0 <= execs[a].failCount < 0x7FFF_FFFF ==>
      a in trace[done].all &&
      trace[done].all[a].failCount == CountAfter(execs[a].failCount, Failures(trace, steps, done, a))
  {
    hide Schedule.Valid, Consistent, ReadySet, StepOk, Excluded, IsRun, StaysUp, Filled, Moves, Failures, CountAfter;
    var s := Start(order, execs, execNum, rule, on, seed, draw);
    trace, done := [Now(s)], 0;
    s.SoundNow();
    RunStarts(order, execNum, Now(s));
    while done < |steps|
      invariant 0 <= done <= |steps| && |trace| == done + 1 && trace[done] == Now(s)
      invariant fresh(s) && s.Valid() && s.order == order && s.execNum == execNum
      invariant IsRun(order, execNum, trace, steps[..done]) && Filled(execs, execNum, rule, on, seed, trace[0])
      invariant StaysUp(trace)
      invariant rule != UnknownRule && ReadySet(execs) != {} ==> trace[0].active != map[]
      invariant forall k :: 0 <= k < done ==> !Excluded(trace[k], steps[k], execNum)
    {
      if Excluded(Now(s), steps[done], execNum) { break; }
      Perform(s, steps[done]);
      s.SoundNow();
      RunGrows(order, execNum, trace, steps, done, Now(s));
      StaysUpMore(trace, Now(s));
      trace := trace + [Now(s)];
      done := done + 1;
    }
    UpThroughout(trace);
    RunMoves(order, execNum, trace, steps, done);
    RunCounts(order, execNum, trace, steps, done, execs, rule, on, seed);
  }

  lemma RunMoves(order: seq<Addr>, execNum: nat, trace: seq<Snapshot>, steps: seq<Step>, done: nat)
    requires done <= |steps| && IsRun(order, execNum, trace, steps[..done])
    ensures forall k :: 0 <= k < done ==> Moves(execNum, trace[k], steps[k], trace[k + 1])
  {
    hide Sound, StepOk, Moves;
    forall k | 0 <= k < done
      ensures Moves(execNum, trace[k], steps[k], trace[k + 1])
    {
      assert steps[..done][k] == steps[k];
      StepMoves(order, execNum, trace[k], steps[k], trace[k + 1]);
    }
  }

  lemma RunCounts(order: seq<Addr>, execNum: nat, trace: seq<Snapshot>, steps: seq<Step>, done: nat,
      execs: Table, rule: Rule, on: bool, seed: nat -> int)
    requires done <= |steps| && |trace| == done + 1 && IsRun(order, execNum, trace, steps[..done])
    requires Filled(execs, execNum, rule, on, seed, trace[0])
    ensures forall a :: a in execs && 0 <= execs[a].failCount < 0x7FFF_FFFF ==>
      a in trace[done].all &&
      trace[done].all[a].failCount == CountAfter(execs[a].failCount, Failures(trace, steps, done, a))
  {
    hide Sound, StepOk, CountAfter, Failures;
    forall a | a in execs && 0 <= execs[a].failCount < 0x7FFF_FFFF
      ensures a in trace[done].all
      ensures trace[done].all[a].failCount == CountAfter(execs[a].failCount, Failures(trace, steps, done, a))
    {
      assert a in trace[0].all && trace[0].all[a].failCount == execs[a].failCount;
      FailuresCounted(order, execNum, trace, steps[..done], done, a);
      SameFailures(trace, steps, done, done, a);
    }
  }

  lemma {:induction false} SameFailures(trace: seq<Snapshot>, steps: seq<Step>, done: nat, n: nat, x: Addr)
    requires n <= done <= |steps| && |trace| == done + 1
    ensures Failures(trace, steps[..done], n, x) == Failures(trace, steps, n, x)
  {
    if n > 0 { SameFailures(trace, steps, done, n - 1, x); }
  }

  /** The scheduler, its active list filled for the first time. */
  method Start(order: seq<Addr>, execs: Table, execNum: nat, rule: Rule, on: bool, seed: nat -> int, draw: nat -> nat)
    returns (s: Schedule)
    requires execNum > 0 && Iterates(order, execs)
    requires forall a :: a in execs ==>
      execs[a].addr == a && execs[a].scweight > 0 && execs[a].status in {OFFLINE, READY}
    ensures fresh(s) && s.Valid() && s.order == order && s.execNum == execNum &&
      Filled(execs, execNum, rule, on, seed, Now(s))
    ensures rule != UnknownRule && ReadySet(execs) != {} ==> s.active != map[]
  {
    hide Schedule.Valid, Grown, ReadySet, Filled;
    s := new Schedule(order, execs, execNum, rule, on);
    s.InitActiveExec(seed, draw);
    s.ActiveByStatus();
    FilledNow(execs, execNum, rule, on, seed, Now(s));
    FirstFilled(execs, s.all, s.active, s.manualDownNum, execNum, rule, seed);
  }

  /** The active list, once not empty, stays so. */
  ghost predicate StaysUp(trace: seq<Snapshot>) {
    forall j, k :: 0 <= j <= k < |trace| && trace[j].active != map[] ==> trace[k].active != map[]
  }

  lemma StaysUpMore(trace: seq<Snapshot>, c: Snapshot)
    requires StaysUp(trace) && trace != [] && (trace[|trace| - 1].active != map[] ==> c.active != map[])
    ensures StaysUp(trace + [c])
  {
  }

  lemma UpThroughout(trace: seq<Snapshot>)
    requires StaysUp(trace) && trace != []
    ensures trace[0].active != map[] ==> forall k :: 0 <= k < |trace| ==> trace[k].active != map[]
  {
  }

  lemma RunStarts(order: seq<Addr>, execNum: nat, b: Snapshot)
    requires Sound(order, execNum, b)
    ensures IsRun(order, execNum, [b], []) && StaysUp([b])
  {
    hide Consistent;
  }

  lemma FilledNow(execs: Table, execNum: nat, rule: Rule, on: bool, seed: nat -> int, b: Snapshot)
    requires Grown(execs, map[], b.all, b.active, seed) && b.cleaning == multiset{} && b.rule == rule && b.on == on
    requires b.cleanTimes == map[] && b.manualDownNum == if on then 0 else execNum - 1
    requires Known(b) ==> |b.active| + b.manualDownNum == execNum || ReadySet(b.all) == {}
    ensures Filled(execs, execNum, rule, on, seed, b)
  {
  }

  /** Somebody in reserve at the start means somebody active after the first filling. */
  lemma FirstFilled(execs: Table, all: Table, active: Table, manualDownNum: int, execNum: nat, rule: Rule,
      seed: nat -> int)
    requires Grown(execs, map[], all, active, seed) && manualDownNum < execNum
    requires rule != UnknownRule ==> |active| + manualDownNum == execNum || ReadySet(all) == {}
    requires forall a :: a in active <==> a in all && all[a].status == ACTIVE
    ensures rule != UnknownRule && ReadySet(execs) != {} ==> active != map[]
  {
    if rule != UnknownRule && ReadySet(execs) != {} && ReadySet(all) == {} {
      var a :| a in ReadySet(execs);
      assert a in all && a !in ReadySet(all);
      assert a in active;
    }
  }

  lemma RunGrows(order: seq<Addr>, execNum: nat, trace: seq<Snapshot>, steps: seq<Step>, n: nat, c: Snapshot)
    requires n < |steps| && IsRun(order, execNum, trace, steps[..n])
    requires Sound(order, execNum, c) && StepOk(execNum, trace[n], steps[n], c)
    ensures IsRun(order, execNum, trace + [c], steps[..n + 1])
  {
    hide Consistent, StepOk, WithinCapacity;
  }

  /** The state after the first filling. */
  ghost predicate Filled(execs: Table, execNum: nat, rule: Rule, on: bool, seed: nat -> int, b: Snapshot) {
    Grown(execs, map[], b.all, b.active, seed) && b.cleaning == multiset{} && b.rule == rule && b.on == on &&
    b.cleanTimes == map[] && b.manualDownNum == (if on then 0 else execNum - 1) &&
    (Known(b) ==> |b.active| + b.manualDownNum == execNum || ReadySet(b.all) == {})
  }

  // ----- what a step does to each executor -----

  /** A voter's report of an active executor that is not the last one. */
  predicate Accepted(b: Snapshot, step: Step, x: Addr) {
    step.ReportError? && step.a == x && x in b.active && |b.active| > 1
  }

  /** The statuses that `x` may have after a step, when it had status `t` before. Those whom the step
      names have exactly one, but for a recovered executor, which may be put up at once; the others stay
      as they are, go up from reserve, or go down as the oldest or as withdrawn. */
  ghost predicate MayBecome(execNum: nat, b: Snapshot, step: Step, x: Addr, t: int, t': int) {
    match step
    case HealthCheck(a, healthy, now, _, _) =>
      if x != a then t' == t || (t == READY && t' == ACTIVE)
      else if healthy then t' == t || (t in {OFFLINE, READY} && t' == ACTIVE) || (t == OFFLINE && t' == READY)
      else if t == READY || (t == OFFLINE && MayCleanAgain(b, now, x)) || (t == ACTIVE && |b.active| > 1 && Known(b))
      then t' == CLEANING
      else t' == t
    case Timer(_, _) =>
      t' == t || (t == READY && t' == ACTIVE) ||
      (t == ACTIVE && t' == CLEANING && |b.active| > 1 && Known(b) && OldestGoes(b.active, x))
    case ManualUp(a) => if x == a && UpAccepted(b, a, execNum) then t' == ACTIVE else t' == t
    case ManualDown(a) => if x == a && a in b.active && |b.active| > 1 then t' == READY else t' == t
    case ManualClean(a) => if x == a && t == OFFLINE then t' == CLEANING else t' == t
    case ReportError(a, _, _) =>
      if Accepted(b, step, x) && Known(b) then t' == CLEANING
      else t' == t || (t == READY && t' == ACTIVE && Accepted(b, step, a))
    case UpdateConfig(on, _, _) => t' == t || (t == ACTIVE && t' == READY && !on && b.on)
    case CleanerDone(a, _) => if x == a && a in b.cleaning then t' == OFFLINE else t' == t
  }

  /** When an executor that comes went up: at a time of the clock, or by hand at the time of before. */
  ghost predicate CameAt(b: Snapshot, step: Step, x: Addr, time: int) {
    match step
    case HealthCheck(_, _, _, seed, _) => exists i: nat :: time == seed(i)
    case Timer(now, _) => time == now
    case ReportError(_, now, _) => time == now
    case ManualUp(a) => x == a && x in b.all && time == b.all[x].activeTime
    case _ => false
  }

  /** An executor stays in the table, with its address and weight; its status moves as it may, exactly an
      accepted report is counted, and if it goes up, it has the time at which it did. */
  ghost predicate MovesOne(execNum: nat, b: Snapshot, step: Step, c: Snapshot, x: Addr) {
    (x in c.all <==> x in b.all) &&
    (x in b.all ==>
       var e, e' := b.all[x], c.all[x];
       e'.addr == e.addr && e'.scweight == e.scweight && MayBecome(execNum, b, step, x, e.status, e'.status) &&
       e'.failCount ==
         if !Accepted(b, step, x) then e.failCount else if e.failCount == 0x7FFF_FFFE then 1 else e.failCount + 1) &&
    (x in c.active && x in b.active ==> c.active[x] == b.active[x]) &&
    (x in c.active && x !in b.active ==> CameAt(b, step, x, c.active[x].activeTime))
  }

  ghost predicate Moves(execNum: nat, b: Snapshot, step: Step, c: Snapshot) {
    forall x :: MovesOne(execNum, b, step, c, x)
  }

  lemma StepMoves(order: seq<Addr>, execNum: nat, b: Snapshot, step: Step, c: Snapshot)
    requires Sound(order, execNum, b) && Sound(order, execNum, c) && StepOk(execNum, b, step, c)
    ensures Moves(execNum, b, step, c)
  {
    hide Sound, StepOk, MovesOne;
    forall x
      ensures MovesOne(execNum, b, step, c, x)
    {
      Statuses(order, execNum, b, x);
      if step.HealthCheck? {
        Statuses(order, execNum, b, step.a);
        Statuses(order, execNum, c, x);
        CheckMoves(execNum, b, step, c, x);
      } else if step.Timer? {
        TimerMoves(execNum, b, step, c, x);
      } else if step.ReportError? {
        ReportMoves(execNum, b, step, c, x);
      } else if step.UpdateConfig? {
        ConfigMoves(execNum, b, step, c, x);
      } else {
        Statuses(order, execNum, b, step.a);
        if step.ManualUp? || step.ManualDown? {
          HandMoves(execNum, b, step, c, x);
        } else if step.ManualClean? {
          CleanMoves(execNum, b, step, c, x);
        } else {
          FinishMoves(execNum, b, step, c, x);
        }
      }
    }
  }

  ghost predicate StatusMeans(b: Snapshot, x: Addr) {
    (x in b.active <==> x in b.all && b.all[x].status == ACTIVE) && (x in b.cleaning ==> x in b.all)
  }

  lemma Statuses(order: seq<Addr>, execNum: nat, b: Snapshot, x: Addr)
    requires Sound(order, execNum, b)
    ensures StatusMeans(b, x)
  {
    hide Iterates;
    assert AgreeOn(b.all, b.active, b.cleaning, x);
  }

  lemma ConfigMoves(execNum: nat, b: Snapshot, step: Step, c: Snapshot, x: Addr)
    requires StatusMeans(b, x) && step.UpdateConfig? && StepOk(execNum, b, step, c)
    ensures MovesOne(execNum, b, step, c, x)
  {
    hide Grown, Reported, Ousted, Replaced, OldestGoes;
    assert x in b.all <==> x in b.all.Keys;
    assert x in c.all <==> x in c.all.Keys;
  }

  lemma HandMoves(execNum: nat, b: Snapshot, step: Step, c: Snapshot, x: Addr)
    requires step.ManualUp? || step.ManualDown?
    requires StatusMeans(b, x) && StatusMeans(b, step.a) && StepOk(execNum, b, step, c)
    ensures MovesOne(execNum, b, step, c, x)
  {
    hide Grown, Reported, Ousted, Replaced, Withdrawn, OldestGoes, CheckOk, TimerOk, ReportOk, ConfigOk;
    if step.ManualDown? && step.a in b.active { HasOne(b.active, step.a); }
  }

  lemma CleanMoves(execNum: nat, b: Snapshot, step: Step, c: Snapshot, x: Addr)
    requires step.ManualClean? && StatusMeans(b, x) && StepOk(execNum, b, step, c)
    ensures MovesOne(execNum, b, step, c, x)
  {
    hide Grown, Reported, Ousted, Replaced, Withdrawn, OldestGoes, CheckOk, TimerOk, ReportOk, ConfigOk, CameAt;
  }

  lemma FinishMoves(execNum: nat, b: Snapshot, step: Step, c: Snapshot, x: Addr)
    requires step.CleanerDone? && StatusMeans(b, x) && StatusMeans(b, step.a) && StepOk(execNum, b, step, c)
    ensures MovesOne(execNum, b, step, c, x)
  {
    hide Grown, Reported, Ousted, Replaced, Withdrawn, OldestGoes, CheckOk, TimerOk, ReportOk, ConfigOk, CameAt;
  }

  lemma HasOne(t: Table, a: Addr)
    requires a in t
    ensures |t| > 0
  {
    assert t.Keys != {};
  }

  /** `down` goes to be cleaned, and somebody may come at time `time`. */
  ghost predicate SwapsOne(all: Table, active: Table, down: Addr, time: int, all': Table, active': Table, x: Addr) {
    (x in all' <==> x in all) &&
    (x in all ==>
       all'[x].addr == all[x].addr && all'[x].scweight == all[x].scweight && all'[x].failCount == all[x].failCount &&
       if x == down then all'[x].status == CLEANING && x !in active'
       else all'[x].status == all[x].status || (all[x].status == READY && all'[x].status == ACTIVE)) &&
    (x in active' && x in active ==> active'[x] == active[x]) &&
    (x in active' && x !in active ==> active'[x].activeTime == time) &&
    (x in active && x != down ==> x in active')
  }

  lemma ReplacedSwaps(all: Table, active: Table, key: Option<Addr>, down: Addr, time: int, execNum: nat,
      all': Table, active': Table, x: Addr)
    requires down in all && down in active
    requires Replaced(all, active, key, Some(down), time, execNum, all', active')
    requires x in active <==> x in all && all[x].status == ACTIVE
    ensures SwapsOne(all, active, down, time, all', active', x)
  {
    hide NoChoice;
  }

  lemma TimerMoves(execNum: nat, b: Snapshot, step: Step, c: Snapshot, x: Addr)
    requires StatusMeans(b, x) && step.Timer? && StepOk(execNum, b, step, c)
    ensures MovesOne(execNum, b, step, c, x)
  {
    hide Replaced, Reported, Ousted, Grown, Withdrawn;
    if b.active != map[] {
      var down, key :| TimerOk(execNum, b, step.time, down, key, c);
      HasOne(b.active, down);
      if |b.active| != 1 && Known(b) {
        ReplacedSwaps(b.all, b.active, key, down, step.time, execNum, c.all, c.active, x);
      }
    }
  }

  lemma ReportMoves(execNum: nat, b: Snapshot, step: Step, c: Snapshot, x: Addr)
    requires StatusMeans(b, x) && step.ReportError? && StepOk(execNum, b, step, c)
    ensures MovesOne(execNum, b, step, c, x)
  {
    hide Replaced, Reported, Grown, Withdrawn, CheckOk, TimerOk, ConfigOk;
    if step.a in b.active && step.a in b.all {
      HasOne(b.active, step.a);
      var key :| ReportOk(execNum, b, step.a, step.time, key, c);
      if |b.active| != 1 && Known(b) {
        ReplacedSwaps(Failed(b.all, step.a), b.active, key, step.a, step.time, execNum, c.all, c.active, x);
      }
    }
  }

  /** What a health check does before the refill. */
  ghost predicate CheckedSo(b: Snapshot, step: Step, table: Table, up: Table, x: Addr)
    requires step.HealthCheck?
  {
    (x in table <==> x in b.all) &&
    (x in b.all ==>
       var e, e' := b.all[x], table[x];
       e'.addr == e.addr && e'.scweight == e.scweight && e'.failCount == e.failCount &&
       if x != step.a then e'.status == e.status || (e.status == READY && e'.status == ACTIVE)
       else if step.healthy then e'.status == if e.status == OFFLINE then READY else e.status
       else if e.status == READY || (e.status == OFFLINE && MayCleanAgain(b, step.now, x)) ||
               (e.status == ACTIVE && |b.active| > 1 && Known(b))
       then e'.status == CLEANING
       else e'.status == e.status) &&
    (x in up && x in b.active ==> up[x] == b.active[x]) &&
    (x in up && x !in b.active ==> up[x].activeTime == step.seed(0)) &&
    (x in b.active && x !in up ==> x == step.a && x in table && table[x].status == CLEANING)
  }

  lemma ReportedMoves(execNum: nat, b: Snapshot, step: Step, key: Option<Addr>, table: Table, up: Table, c: Snapshot,
      x: Addr)
    requires step.HealthCheck? && StatusMeans(b, x) && StatusMeans(b, step.a)
    requires step.a in b.all && CheckOk(execNum, b, step, key, table, up, c)
    ensures CheckedSo(b, step, table, up, x)
  {
    hide Replaced, Grown, ReadySet;
    if !step.healthy && b.all[step.a].status == ACTIVE && |b.active| > 1 && Known(b) {
      ReplacedSwaps(b.all, b.active, key, step.a, step.seed(0), execNum, table, up, x);
    }
  }

  lemma CheckMoves(execNum: nat, b: Snapshot, step: Step, c: Snapshot, x: Addr)
    requires step.HealthCheck? && StatusMeans(b, x) && StatusMeans(b, step.a) && StepOk(execNum, b, step, c)
    requires StatusMeans(c, x)
    ensures MovesOne(execNum, b, step, c, x)
  {
    hide Reported, ReadySet, Known, MayCleanAgain, Grown, TimerOk, ReportOk, ConfigOk;
    if step.a in b.all {
      var key, table, up :| CheckOk(execNum, b, step, key, table, up, c);
      ReportedMoves(execNum, b, step, key, table, up, c, x);
      GrownMoves(execNum, b, step, table, up, c, x);
    }
  }

  lemma GrownMoves(execNum: nat, b: Snapshot, step: Step, table: Table, up: Table, c: Snapshot, x: Addr)
    requires step.HealthCheck? && CheckedSo(b, step, table, up, x) && Grown(table, up, c.all, c.active, step.seed)
    requires StatusMeans(b, x) && StatusMeans(c, x)
    ensures MovesOne(execNum, b, step, c, x)
  {
    hide Known, MayCleanAgain;
    if x in table && x in c.all { assert c.all[x] == table[x] || WentUp(table[x], c.all[x], step.seed); }
    assert x in table <==> x in table.Keys;
    assert x in c.all <==> x in c.all.Keys;
  }

  // ----- failures are counted -----

  /** The count after `n` more failures: it runs from 1 to two below 2 to the 31, again and again. */
  function CountAfter(count: int, n: nat): int
  {
    if count + n < 0x7FFF_FFFF then count + n else (count + n - 1) % 0x7FFF_FFFE + 1
  }

  /** How many of the first `n` steps of a run are accepted reports of `x`. */
  ghost function Failures(trace: seq<Snapshot>, steps: seq<Step>, n: nat, x: Addr): nat
    requires n <= |steps| && n <= |trace|
  {
    if n == 0 then 0 else Failures(trace, steps, n - 1, x) + if Accepted(trace[n - 1], steps[n - 1], x) then 1 else 0
  }

  lemma OneMoreFailure(count: int, n: nat)
    requires 0 <= count < 0x7FFF_FFFF
    ensures CountAfter(count, n) < 0x7FFF_FFFF
    ensures CountAfter(count, n + 1) == if CountAfter(count, n) == 0x7FFF_FFFE then 1 else CountAfter(count, n) + 1
  {
  }

  /** In every run, the count of an executor is that of the start and one more for each accepted report. */
  lemma {:induction false} FailuresCounted(order: seq<Addr>, execNum: nat, trace: seq<Snapshot>, steps: seq<Step>,
      n: nat, x: Addr)
    requires IsRun(order, execNum, trace, steps) && n <= |steps| && x in trace[0].all
    requires 0 <= trace[0].all[x].failCount < 0x7FFF_FFFF
    ensures x in trace[n].all
    ensures trace[n].all[x].failCount == CountAfter(trace[0].all[x].failCount, Failures(trace, steps, n, x))
  {
    hide Sound, StepOk, MayBecome, CameAt, CountAfter;
    if n == 0 {
      NoFailureYet(trace[0].all[x].failCount);
    } else {
      FailuresCounted(order, execNum, trace, steps, n - 1, x);
      OneMoreFailure(trace[0].all[x].failCount, Failures(trace, steps, n - 1, x));
      assert Sound(order, execNum, trace[n - 1]) && StepOk(execNum, trace[n - 1], steps[n - 1], trace[n]);
      StepMoves(order, execNum, trace[n - 1], steps[n - 1], trace[n]);
      assert MovesOne(execNum, trace[n - 1], steps[n - 1], trace[n], x);
    }
  }

  lemma NoFailureYet(count: int)
    requires count < 0x7FFF_FFFF
    ensures CountAfter(count, 0) == count
  {
  }

  // ----- rotation -----

  ghost predicate UpBefore(active: Table, t: int) {
    forall a :: a in active ==> 0 < active[a].activeTime < t
  }

  /** Timer events, and between them recoveries: executors are found healthy, and cleaners are done. No
      clock is behind `start`. */
  ghost predicate Recovering(step: Step, start: int) {
    match step
    case HealthCheck(_, healthy, _, seed, _) => healthy && forall i: nat :: seed(i) >= start
    case Timer(time, _) => time >= start
    case CleanerDone(_, _) => true
    case _ => false
  }

  /** How many of the first `n` steps are timer events. */
  function Ticks(steps: seq<Step>, n: nat): nat
    requires n <= |steps|
  {
    if n == 0 then 0 else Ticks(steps, n - 1) + if steps[n - 1].Timer? then 1 else 0
  }

  /** The active executors are `left` of the first ones, with the times of then, and others, which went
      up at `start` or later. */
  ghost predicate Rotating(first: Table, active: Table, left: set<Addr>, start: int) {
    left <= first.Keys && left <= active.Keys &&
    (forall a :: a in left ==> active[a].activeTime == first[a].activeTime) &&
    forall a :: a in active ==> 0 < active[a].activeTime && (a in left <==> active[a].activeTime < start)
  }

  /** The first executors have gone down in the order in which they went up, but for those `left`. */
  ghost predicate InOrder(first: Table, downs: seq<Addr>, left: set<Addr>) {
    left <= first.Keys && |left| + |downs| == |first| && (forall a :: a in first ==> a in left || a in downs) &&
    (forall i :: 0 <= i < |downs| ==> downs[i] in first && downs[i] !in left) &&
    (forall i, j :: 0 <= i < j < |downs| ==>
      downs[i] != downs[j] && first[downs[i]].activeTime <= first[downs[j]].activeTime) &&
    forall i, a :: 0 <= i < |downs| && a in left ==> first[downs[i]].activeTime <= first[a].activeTime
  }

  /** These executors are different ones of the table, in the order in which they went up, and no other
      went up before one of them. */
  ghost predicate OldestFirst(first: Table, downs: seq<Addr>) {
    (forall i :: 0 <= i < |downs| ==> downs[i] in first) &&
    (forall i, j :: 0 <= i < j < |downs| ==>
      downs[i] != downs[j] && first[downs[i]].activeTime <= first[downs[j]].activeTime) &&
    forall i, a :: 0 <= i < |downs| && a in first && a !in downs ==> first[downs[i]].activeTime <= first[a].activeTime
  }

  /** At each timer event up to step `n` the next of `downs` leaves the active list. */
  ghost predicate GoDown(trace: seq<Snapshot>, steps: seq<Step>, n: nat, downs: seq<Addr>)
    requires n <= |steps| && |trace| == |steps| + 1
  {
    |downs| == Ticks(steps, n) &&
    forall k :: 0 <= k < n && steps[k].Timer? ==>
      Ticks(steps, k) < |downs| && trace[k].active.Keys - trace[k + 1].active.Keys == {downs[Ticks(steps, k)]}
  }

  /** First in, first out: in every run of timer events and recoveries, with somebody in reserve at each
      timer event, the executors that are active at the start go down in the order in which they went
      up, one at each timer event; and all of them have, after as many events as there are of them. */
  lemma Rotation(order: seq<Addr>, execNum: nat, trace: seq<Snapshot>, steps: seq<Step>, start: int)
    returns (downs: seq<Addr>)
    requires IsRun(order, execNum, trace, steps) && (forall k :: 0 <= k < |steps| ==> Recovering(steps[k], start))
    requires Known(trace[0]) && |trace[0].active| >= 2 && UpBefore(trace[0].active, start)
    requires forall k :: 0 <= k < |steps| && steps[k].Timer? ==> ReadySet(trace[k].all) != {}
    requires Ticks(steps, |steps|) <= |trace[0].active|
    ensures GoDown(trace, steps, |steps|, downs)
    ensures OldestFirst(trace[0].active, downs)
    ensures Ticks(steps, |steps|) == |trace[0].active| ==> forall a :: a in trace[0].active ==> a in downs
  {
    ghost var left: set<Addr>;
    downs, left := RotationUpTo(order, execNum, trace, steps, start, |steps|);
    AllDown(trace[0].active, downs, left);
  }

  lemma {:induction false} RotationUpTo(order: seq<Addr>, execNum: nat, trace: seq<Snapshot>, steps: seq<Step>,
      start: int, n: nat)
    returns (downs: seq<Addr>, left: set<Addr>)
    requires n <= |steps| && IsRun(order, execNum, trace, steps) &&
      (forall k :: 0 <= k < |steps| ==> Recovering(steps[k], start))
    requires Known(trace[0]) && |trace[0].active| >= 2 && UpBefore(trace[0].active, start)
    requires forall k :: 0 <= k < |steps| && steps[k].Timer? ==> ReadySet(trace[k].all) != {}
    requires Ticks(steps, n) <= |trace[0].active|
    ensures GoDown(trace, steps, n, downs) && InOrder(trace[0].active, downs, left)
    ensures Rotating(trace[0].active, trace[n].active, left, start) && Known(trace[n]) && |trace[n].active| >= 2
  {
    hide Consistent, StepOk, Grown, ReadySet;
    var first := trace[0].active;
    if n == 0 {
      downs, left := [], first.Keys;
    } else {
      downs, left := RotationUpTo(order, execNum, trace, steps, start, n - 1);
      var b, step, c := trace[n - 1], steps[n - 1], trace[n];
      assert StepOk(execNum, b, step, c);
      if step.Timer? {
        var down := TickRotates(order, execNum, first, b, step, c, left, start);
        TickInOrder(first, downs, left, down);
        GoDownMore(trace, steps, n, downs, down);
        downs, left := downs + [down], left - {down};
      } else {
        RecoveryRotates(execNum, first, b, step, c, left, start);
      }
    }
  }

  /** A timer event with somebody in reserve takes down one of those left, which went up first. */
  lemma TickRotates(order: seq<Addr>, execNum: nat, first: Table, b: Snapshot, step: Step, c: Snapshot,
      left: set<Addr>, start: int)
    returns (down: Addr)
    requires Sound(order, execNum, b) && step.Timer? && step.time >= start > 0 && StepOk(execNum, b, step, c)
    requires Rotating(first, b.active, left, start) && left != {} && Known(b) && |b.active| >= 2 &&
      ReadySet(b.all) != {}
    ensures down in left && forall a :: a in left ==> first[down].activeTime <= first[a].activeTime
    ensures b.active.Keys - c.active.Keys == {down} && |c.active| == |b.active| && Known(c)
    ensures Rotating(first, c.active, left - {down}, start)
  {
    hide Consistent, ReadySet, Replaced;
    assert b.active != map[];
    var d, key :| TimerOk(execNum, b, step.time, d, key, c);
    down := d;
    var a :| a in left;
    assert b.active[down].activeTime <= b.active[a].activeTime < start;
    SomebodyComes(order, execNum, b, step.time, down, key, c);
    SizeAfter(b.active, key.value, Up(b.all, key.value, step.time)[key.value], Some(down));
  }

  lemma SomebodyComes(order: seq<Addr>, execNum: nat, b: Snapshot, time: int, down: Addr, key: Option<Addr>,
      c: Snapshot)
    requires Sound(order, execNum, b) && down in b.active && down in b.all && ReadySet(b.all) != {}
    requires Replaced(b.all, b.active, key, Some(down), time, execNum, c.all, c.active)
    ensures key.Some? && key.value in b.all && key.value !in b.active
    ensures c.active == Without(b.active[key.value := Up(b.all, key.value, time)[key.value]], Some(down))
  {
    if key.Some? { assert AgreeOn(b.all, b.active, b.cleaning, key.value); }
  }

  lemma RecoveryRotates(execNum: nat, first: Table, b: Snapshot, step: Step, c: Snapshot, left: set<Addr>, start: int)
    requires Recovering(step, start) && !step.Timer? && StepOk(execNum, b, step, c) && start > 0
    requires Rotating(first, b.active, left, start) && Known(b) && |b.active| >= 2
    ensures Rotating(first, c.active, left, start) && Known(c) && |c.active| >= 2
  {
    hide ReadySet;
    if step.HealthCheck? && step.a in b.all {
      var key, table, up :| CheckOk(execNum, b, step, key, table, up, c);
      assert up == b.active;
      assert b.active.Keys <= c.active.Keys;
      assert c.active.Keys == b.active.Keys + (c.active.Keys - b.active.Keys);
    }
  }

  lemma TickInOrder(first: Table, downs: seq<Addr>, left: set<Addr>, down: Addr)
    requires InOrder(first, downs, left) && down in left
    requires forall a :: a in left ==> first[down].activeTime <= first[a].activeTime
    ensures InOrder(first, downs + [down], left - {down})
  {
  }

  lemma {:induction false} TicksGrow(steps: seq<Step>, k: nat, n: nat)
    requires k <= n <= |steps|
    ensures Ticks(steps, k) <= Ticks(steps, n) && (k < n && steps[k].Timer? ==> Ticks(steps, k) < Ticks(steps, n))
    decreases n - k
  {
    if k < n { TicksGrow(steps, k + 1, n); }
  }

  lemma GoDownMore(trace: seq<Snapshot>, steps: seq<Step>, n: nat, downs: seq<Addr>, down: Addr)
    requires 0 < n <= |steps| && |trace| == |steps| + 1 && GoDown(trace, steps, n - 1, downs) && steps[n - 1].Timer?
    requires trace[n - 1].active.Keys - trace[n].active.Keys == {down}
    ensures GoDown(trace, steps, n, downs + [down])
  {
  }

  lemma AllDown(first: Table, downs: seq<Addr>, left: set<Addr>)
    requires InOrder(first, downs, left)
    ensures OldestFirst(first, downs) && (|downs| == |first| ==> forall a :: a in first ==> a in downs)
  {
    if |downs| == |first| { assert left == {}; }
  }
}
