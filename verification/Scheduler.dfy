/** The scheduler: which executors are active, in reserve, offline or being cleaned. Every operation
    runs under one lock, so that a run is a sequence of operations. */
module Scheduler {
  import opened Wrappers
  import opened ExecTable

  datatype Rule = RandomRule | WeightRule | HostRule | UnknownRule

  const INT_MAX := 0x7FFF_FFFF
  const CLEAN_PAUSE := 60 * 1000000
  const WRAP := 0x1_0000_0000_0000_0000

  type Threads = multiset<Addr>

  function SetStatus(all: Table, a: Addr, status: int): Table
    requires a in all
  {
    all[a := all[a].(status := status)]
  }

  /** The executor `key` goes up at time `seed`. */
  function Up(all: Table, key: Addr, seed: int): Table
    requires key in all
  {
    all[key := all[key].(status := ACTIVE, activeTime := seed)]
  }

  function Down(all: Table, down: Option<Addr>): Table
    requires down.Some? ==> down.value in all
  {
    if down.Some? then SetStatus(all, down.value, CLEANING) else all
  }

  function Without(active: Table, down: Option<Addr>): Table {
    if down.Some? then active - {down.value} else active
  }

  function WithCleaner(cleaning: Threads, down: Option<Addr>): Threads {
    if down.Some? then cleaning + multiset{down.value} else cleaning
  }

  /** One more failure on the count, which never stays at the largest integer. */
  function Failed(all: Table, a: Addr): Table
    requires a in all
  {
    var f := all[a].failCount + 1;
    all[a := all[a].(failCount := if f == INT_MAX then 1 else f)]
  }

  /** The executor `a`, if there is one, has failed once more, and counts start again at 1 before they
      reach the largest integer; no other count changes. */
  ghost predicate CountsFailure(all: Table, a: Option<Addr>, all': Table) {
    all'.Keys == all.Keys &&
    forall x :: x in all ==>
      x in all' &&
      all'[x].failCount ==
        if a != Some(x) then all[x].failCount
        else if all[x].failCount == 0x7FFF_FFFE then 1
        else all[x].failCount + 1
  }

  lemma ReplacedCounts(all: Table, active: Table, key: Option<Addr>, down: Option<Addr>, seed: int, execNum: nat,
      all': Table, active': Table)
    requires down.Some? ==> down.value in all
    requires Replaced(all, active, key, down, seed, execNum, all', active')
    ensures CountsFailure(all, None, all')
  {
    hide NoChoice;
  }

  lemma FailedCounts(all: Table, a: Addr, all': Table)
    requires a in all && CountsFailure(Failed(all, a), None, all')
    ensures CountsFailure(all, Some(a), all')
  {
  }

  /** An accepted report counts one failure, unless the executor is the last one active. */
  lemma OustedCounts(all: Table, active: Table, cleaning: Threads, known: bool, a: Addr, seed: int, execNum: nat,
      key: Option<Addr>, all': Table, active': Table, cleaning': Threads)
    requires a in all && Ousted(all, active, cleaning, known, a, seed, execNum, key, all', active', cleaning')
    ensures CountsFailure(all, if |active| == 1 then None else Some(a), all')
  {
    hide Replaced, Failed;
    if |active| != 1 {
      if known { ReplacedCounts(Failed(all, a), active, key, Some(a), seed, execNum, all', active'); }
      FailedCounts(all, a, all');
    }
  }

  /** The tables agree on `a`: status 1 means active, with a snapshot taken when it went up; status 2
      means that exactly one thread is cleaning it. */
  ghost predicate AgreeOn(all: Table, active: Table, cleaning: Threads, a: Addr) {
    (a in all ==> all[a].addr == a && all[a].scweight > 0 && all[a].status in {OFFLINE, READY, ACTIVE, CLEANING}) &&
    (a in active <==> a in all && all[a].status == ACTIVE) &&
    (a in active ==>
       active[a].status == ACTIVE && active[a].addr == a && active[a].activeTime == all[a].activeTime) &&
    cleaning[a] == if a in all && all[a].status == CLEANING then 1 else 0
  }

  ghost predicate Consistent(order: seq<Addr>, all: Table, active: Table, cleaning: Threads) {
    Iterates(order, all) && forall a :: AgreeOn(all, active, cleaning, a)
  }

  /** The active executors and those withdrawn by hand do not exceed the configured number. */
  predicate WithinCapacity(active: Table, manualDownNum: int, execNum: nat) {
    manualDownNum >= 0 && |active| + manualDownNum <= execNum
  }

  lemma SameKeysIterate(order: seq<Addr>, all: Table, all': Table)
    requires Iterates(order, all) && all'.Keys == all.Keys
    ensures Iterates(order, all')
  {
    assert forall a :: a in all' <==> a in all'.Keys;
  }

  lemma SizeAfter(active: Table, key: Addr, e: Exec, down: Option<Addr>)
    requires key !in active && (down.Some? ==> down.value in active)
    ensures |active[key := e]| == |active| + 1
    ensures |Without(active, down)| == |active| - (if down.Some? then 1 else 0)
    ensures |Without(active[key := e], down)| == |active| + (if down.Some? then 0 else 1)
  {
    var up := active[key := e];
    assert up.Keys == active.Keys + {key};
    if down.Some? {
      assert (up - {down.value}).Keys == up.Keys - {down.value};
      assert (active - {down.value}).Keys == active.Keys - {down.value};
    }
  }

  lemma SwapConsistent(order: seq<Addr>, all: Table, active: Table, cleaning: Threads, key: Addr, down: Option<Addr>,
      seed: int)
    requires Consistent(order, all, active, cleaning) && IsReady(all, key) && (down.Some? ==> down.value in active)
    ensures key !in active && (down.Some? ==> down.value in all)
    ensures var all' := Down(Up(all, key, seed), down);
      Consistent(order, all', Without(active[key := Up(all, key, seed)[key]], down), WithCleaner(cleaning, down))
    ensures |Without(active[key := Up(all, key, seed)[key]], down)| == |active| + (if down.Some? then 0 else 1)
  {
    hide Iterates;
    assert AgreeOn(all, active, cleaning, key);
    if down.Some? { assert AgreeOn(all, active, cleaning, down.value); }
    var all' := Down(Up(all, key, seed), down);
    var active' := Without(active[key := Up(all, key, seed)[key]], down);
    forall a
      ensures AgreeOn(all', active', WithCleaner(cleaning, down), a)
    {
      assert AgreeOn(all, active, cleaning, a);
    }
    SizeAfter(active, key, Up(all, key, seed)[key], down);
    SameKeysIterate(order, all, all');
  }

  lemma RetireConsistent(order: seq<Addr>, all: Table, active: Table, cleaning: Threads, down: Option<Addr>)
    requires Consistent(order, all, active, cleaning) && (down.Some? ==> down.value in active)
    ensures down.Some? ==> down.value in all
    ensures Consistent(order, Down(all, down), Without(active, down), WithCleaner(cleaning, down))
    ensures |Without(active, down)| == |active| - (if down.Some? then 1 else 0)
  {
    hide Iterates;
    if down.Some? {
      assert AgreeOn(all, active, cleaning, down.value);
      assert (active - {down.value}).Keys == active.Keys - {down.value};
    }
    forall a
      ensures AgreeOn(Down(all, down), Without(active, down), WithCleaner(cleaning, down), a)
    {
      assert AgreeOn(all, active, cleaning, a);
    }
    SameKeysIterate(order, all, Down(all, down));
  }

  lemma FailedConsistent(order: seq<Addr>, all: Table, active: Table, cleaning: Threads, a: Addr)
    requires Consistent(order, all, active, cleaning) && a in all
    ensures Consistent(order, Failed(all, a), active, cleaning) && Failed(all, a).Keys == all.Keys
  {
    hide Iterates;
    forall b
      ensures AgreeOn(Failed(all, a), active, cleaning, b)
    {
      assert AgreeOn(all, active, cleaning, b);
    }
    SameKeysIterate(order, all, Failed(all, a));
  }

  /** A status change after which the executor is neither active nor cleaned. */
  lemma IdleConsistent(order: seq<Addr>, all: Table, active: Table, cleaning: Threads, a: Addr, status: int)
    requires Consistent(order, all, active, cleaning) && a in all && status in {OFFLINE, READY}
    ensures all[a].status in {OFFLINE, READY} ==> Consistent(order, SetStatus(all, a, status), active, cleaning)
    ensures all[a].status == ACTIVE ==> Consistent(order, SetStatus(all, a, status), active - {a}, cleaning)
    ensures all[a].status == CLEANING ==> Consistent(order, SetStatus(all, a, status), active, cleaning - multiset{a})
  {
    hide Iterates;
    var all' := SetStatus(all, a, status);
    forall b
      ensures all[a].status in {OFFLINE, READY} ==> AgreeOn(all', active, cleaning, b)
      ensures all[a].status == ACTIVE ==> AgreeOn(all', active - {a}, cleaning, b)
      ensures all[a].status == CLEANING ==> AgreeOn(all', active, cleaning - multiset{a}, b)
    {
      assert AgreeOn(all, active, cleaning, b);
    }
    SameKeysIterate(order, all, all');
  }

  lemma CleanConsistent(order: seq<Addr>, all: Table, active: Table, cleaning: Threads, a: Addr)
    requires Consistent(order, all, active, cleaning) && a in all && all[a].status in {OFFLINE, READY}
    ensures Consistent(order, SetStatus(all, a, CLEANING), active, cleaning + multiset{a})
  {
    hide Iterates;
    var all' := SetStatus(all, a, CLEANING);
    forall b
      ensures AgreeOn(all', active, cleaning + multiset{a}, b)
    {
      assert AgreeOn(all, active, cleaning, b);
    }
    SameKeysIterate(order, all, all');
  }

  /** Putting an executor up by hand, at the time at which it last went up, keeps the tables in
      agreement exactly when no thread is cleaning it. */
  lemma UpByHand(order: seq<Addr>, all: Table, active: Table, cleaning: Threads, a: Addr)
    requires Consistent(order, all, active, cleaning) && a in all && a !in active
    ensures var all' := SetStatus(all, a, ACTIVE);
      Consistent(order, all', active[a := all'[a]], cleaning) <==> all[a].status != CLEANING
  {
    hide Iterates;
    var all' := SetStatus(all, a, ACTIVE);
    var active' := active[a := all'[a]];
    assert AgreeOn(all, active, cleaning, a);
    if all[a].status != CLEANING {
      forall b
        ensures AgreeOn(all', active', cleaning, b)
      {
        assert AgreeOn(all, active, cleaning, b);
      }
    } else {
      assert !AgreeOn(all', active', cleaning, a);
    }
    SameKeysIterate(order, all, all');
  }

  ghost predicate FullySpread(active: Table, execNum: nat) { |HostsOf(active)| == execNum }

  /** A policy finds nobody: there is nobody in reserve, or nobody is to go down although every
      active executor has a host of its own. */
  ghost predicate NoChoice(all: Table, active: Table, down: Option<Addr>, execNum: nat) {
    ReadySet(all) == {} || (down.None? && FullySpread(active, execNum))
  }

  /** What a policy does to the tables. */
  ghost predicate Chosen(all: Table, active: Table, key: Option<Addr>, down: Option<Addr>, seed: int, execNum: nat,
                         all': Table, active': Table)
    requires down.Some? ==> down.value in all
  {
    match key
    case None => all' == all && active' == active && NoChoice(all, active, down, execNum)
    case Some(k) =>
      IsReady(all, k) && all' == Down(Up(all, k, seed), down) &&
      active' == Without(active[k := Up(all, k, seed)[k]], down)
  }

  /** What a change of guard does to the tables: `down` goes, whether or not somebody comes. */
  ghost predicate Replaced(all: Table, active: Table, key: Option<Addr>, down: Option<Addr>, seed: int, execNum: nat,
                           all': Table, active': Table)
    requires down.Some? ==> down.value in all
  {
    match key
    case None =>
      all' == Down(all, down) && active' == Without(active, down) && NoChoice(all, active, down, execNum)
    case Some(_) => Chosen(all, active, key, down, seed, execNum, all', active')
  }

  /** Some active executors go into reserve; nothing else changes. */
  ghost predicate Withdrawn(all: Table, active: Table, all': Table, active': Table) {
    all'.Keys == all.Keys && (forall a :: a in active' ==> a in active && active'[a] == active[a]) &&
    forall a :: a in all ==> all'[a] == if a in active && a !in active' then all[a].(status := READY) else all[a]
  }

  /** What the answer of an executor to a health check changes before the refill. `rest` says that an
      offline executor may be cleaned again. */
  ghost predicate Reported(all: Table, active: Table, cleaning: Threads, rest: bool, known: bool, a: Addr,
                           healthy: bool, seed: int, execNum: nat, key: Option<Addr>,
                           all': Table, active': Table, cleaning': Threads)
    requires a in all
  {
    var status := all[a].status;
    if healthy then
      key == None && active' == active && cleaning' == cleaning &&
      all' == if status == OFFLINE then SetStatus(all, a, READY) else all
    else if status == READY || (status == OFFLINE && rest) then
      key == None && active' == active && cleaning' == cleaning + multiset{a} && all' == SetStatus(all, a, CLEANING)
    else if status == ACTIVE && |active| > 1 && known then
      Replaced(all, active, key, Some(a), seed, execNum, all', active') && cleaning' == cleaning + multiset{a}
    else
      key == None && all' == all && active' == active && cleaning' == cleaning
  }

  /** What the report of a wrong answer changes. */
  ghost predicate Ousted(all: Table, active: Table, cleaning: Threads, known: bool, a: Addr, seed: int, execNum: nat,
                         key: Option<Addr>, all': Table, active': Table, cleaning': Threads)
    requires a in all
  {
    if |active| == 1 then key == None && all' == all && active' == active && cleaning' == cleaning
    else if !known then key == None && all' == Failed(all, a) && active' == active && cleaning' == cleaning
    else
      a in Failed(all, a) && Replaced(Failed(all, a), active, key, Some(a), seed, execNum, all', active') &&
      cleaning' == cleaning + multiset{a}
  }

  /** Only reported executors have new cleaners. */
  ghost predicate ReportedIn(before: Threads, after: Threads, addrs: seq<Addr>) {
    before <= after && forall a :: after[a] > before[a] ==> a in addrs
  }

  /** The first `n` of the reported executors are being cleaned, or are the last one active. */
  ghost predicate DealtWith(addrs: seq<Addr>, n: nat, cleaning: Threads, active: Table)
    requires n <= |addrs|
  {
    forall j :: 0 <= j < n ==> addrs[j] in cleaning || active.Keys == {addrs[j]}
  }

  lemma NoneReported(addrs: seq<Addr>, cleaning: Threads, active: Table)
    ensures ReportedIn(cleaning, cleaning, addrs) && DealtWith(addrs, 0, cleaning, active)
  {
  }

  lemma ReportedMeans(before: Threads, after: Threads, addrs: seq<Addr>)
    requires ReportedIn(before, after, addrs)
    ensures before <= after && forall a :: after[a] > before[a] ==> a in addrs
  {
  }

  lemma AllDealtWith(addrs: seq<Addr>, cleaning: Threads, active: Table)
    ensures DealtWith(addrs, |addrs|, cleaning, active) ==>
      forall a :: a in addrs ==> a in cleaning || active.Keys == {a}
  {
  }

  lemma OneMoreReported(addrs: seq<Addr>, i: nat, before: Threads, threads: Threads, up: Table, threads': Threads,
      up': Table)
    requires i < |addrs| && addrs[i] in up && ReportedIn(before, threads, addrs)
    requires threads' == threads || threads' == threads + multiset{addrs[i]}
    requires up.Keys == {addrs[i]} ==> up' == up && threads' == threads
    ensures ReportedIn(before, threads', addrs)
    ensures DealtWith(addrs, i, threads, up) && (up.Keys != {addrs[i]} ==> addrs[i] in threads') ==>
      DealtWith(addrs, i + 1, threads', up')
  {
    if DealtWith(addrs, i, threads, up) {
      forall j | 0 <= j < i ensures addrs[j] in threads' || up'.Keys == {addrs[j]} {
        assert addrs[j] in threads || up.Keys == {addrs[j]};
      }
    }
  }

  lemma WithdrawnNone(all: Table, active: Table)
    ensures Withdrawn(all, active, all, active)
  {
  }

  lemma WithdrawnMore(all: Table, active: Table, all1: Table, active1: Table, a: Addr)
    requires Withdrawn(all, active, all1, active1) && a in active1 && a in all1
    ensures Withdrawn(all, active, SetStatus(all1, a, READY), active1 - {a})
  {
  }

  method SparesOn(ready: seq<Addr>, h: Host) returns (spares: seq<Addr>)
    ensures forall a :: a in spares <==> a in ready && a.host == h
  {
    spares := [];
    for n := 0 to |ready|
      invariant forall a :: a in spares <==> a in ready[..n] && a.host == h
    {
      assert ready[..n + 1] == ready[..n] + [ready[n]];
      if ready[n].host == h { spares := spares + [ready[n]]; }
    }
    assert ready[..|ready|] == ready;
  }

  /** What a refill may do: executors in reserve go up, each at a time taken from the clock, and
      nothing else changes. */
  ghost predicate Grown(all: Table, active: Table, all': Table, active': Table, seed: nat -> int) {
    all'.Keys == all.Keys &&
    (forall b :: b in active ==> b in active' && active'[b] == active[b]) &&
    (forall b :: b in all ==> b in all' && (all'[b] == all[b] || WentUp(all[b], all'[b], seed))) &&
    forall b :: b in active' && b !in active ==> exists i :: active'[b].activeTime == seed(i)
  }

  ghost predicate WentUp(e: Exec, e': Exec, seed: nat -> int) {
    e.status == READY && exists i :: e' == e.(status := ACTIVE, activeTime := seed(i))
  }

  lemma GrownOne(all: Table, active: Table, all1: Table, active1: Table, key: Addr, i: nat, seed: nat -> int)
    requires Grown(all, active, all1, active1, seed) && IsReady(all1, key) && key !in active1
    ensures key in all1
    ensures var all2 := Up(all1, key, seed(i)); Grown(all, active, all2, active1[key := all2[key]], seed)
  {
    var all2 := Up(all1, key, seed(i));
    var active2 := active1[key := all2[key]];
    assert active2[key].activeTime == seed(i);
    assert key in all by { assert key in all1.Keys; }
    assert all1[key] == all[key];
    assert WentUp(all[key], all2[key], seed);
  }

  lemma GrownNone(all: Table, active: Table, seed: nat -> int)
    ensures Grown(all, active, all, active, seed)
  {
  }

  lemma GrownNotEmpty(all: Table, active: Table, all': Table, active': Table, seed: nat -> int)
    requires Grown(all, active, all', active', seed) && active != map[]
    ensures active' != map[]
  {
    var b :| b in active;
    assert b in active';
  }

  lemma AllIterated(order: seq<Addr>, all: Table)
    requires Iterates(order, all)
    ensures forall a :: a in all ==> a in order
  {
  }

  ghost function ReadyHosts(all: Table): set<Host> { set a | a in all && all[a].status == READY :: a.host }

  lemma IdleHost(order: seq<Addr>, all: Table, active: Table, cleaning: Threads, h: Host)
    requires Consistent(order, all, active, cleaning)
    ensures ActiveOn(all, h) == 0 <==> h !in HostsOf(active)
  {
    hide Iterates;
    var on := set a | a in all && a.host == h && all[a].status == ACTIVE;
    forall a
      ensures a in on <==> a in active && a.host == h
    {
      assert AgreeOn(all, active, cleaning, a);
    }
    assert on == set a | a in active && a.host == h;
    if h in HostsOf(active) {
      var a :| a in active && a.host == h;
      assert a in on;
    } else {
      assert forall a :: a in active ==> a.host in HostsOf(active);
    }
  }

  /** Every host of `hosts` without an active executor still has one in reserve. */
  ghost predicate HostsWait(hosts: set<Host>, all: Table, active: Table) {
    forall h :: h in hosts && h !in HostsOf(active) ==> HostHasReady(all, h)
  }

  /** While a host with a spare is idle, the host with the fewest active executors is idle. */
  lemma FreshHost(order: seq<Addr>, all: Table, active: Table, cleaning: Threads, hosts: set<Host>, h: Host)
    requires Consistent(order, all, active, cleaning) && HostsWait(hosts, all, active)
    requires |HostsOf(active)| < |hosts| && LeastBusy(all, h)
    ensures h !in HostsOf(active)
  {
    hide Consistent, ActiveOn, HostsOf, HostHasReady;
    if hosts <= HostsOf(active) { SubsetSize(hosts, HostsOf(active)); }
    var g :| g in hosts && g !in HostsOf(active);
    assert HostHasReady(all, g);
    IdleHost(order, all, active, cleaning, g);
    IdleHost(order, all, active, cleaning, h);
  }

  lemma SubsetSize(a: set<Host>, b: set<Host>)
    requires a <= b
    ensures |a| <= |b|
  {
    assert b == a + (b - a);
  }

  lemma StillWait(hosts: set<Host>, all: Table, active: Table, key: Addr, seed: int)
    requires HostsWait(hosts, all, active) && key in all && key !in active && key.host !in HostsOf(active)
    ensures var all' := Up(all, key, seed);
      HostsWait(hosts, all', active[key := all'[key]]) &&
      |HostsOf(active[key := all'[key]])| == |HostsOf(active)| + 1
  {
    var all' := Up(all, key, seed);
    var active' := active[key := all'[key]];
    assert HostsOf(active') == HostsOf(active) + {key.host};
    forall h | h in hosts && h !in HostsOf(active')
      ensures HostHasReady(all', h)
    {
      assert HostHasReady(all, h);
      var a :| a in all && a.host == h && all[a].status == READY;
      assert a != key && all'[a] == all[a];
    }
  }

  lemma SameHosts(active: Table, key: Addr, e: Exec, down: Addr)
    requires down in active && key !in active && key.host == down.host
    ensures HostsOf(Without(active[key := e], Some(down))) == HostsOf(active)
  {
    var after := Without(active[key := e], Some(down));
    forall h | h in HostsOf(active)
      ensures h in HostsOf(after)
    {
      var a :| a in active && a.host == h;
      assert (if a == down then key else a) in after;
    }
  }

  class Schedule {
    const order: seq<Addr>
    const execNum: nat
    var scheduleRule: Rule
    var all: Table
    var active: Table
    var manualDownNum: int
    var preCleanTimes: map<Addr, int>
    var cleaning: Threads
    var mimicOn: bool

    ghost predicate Agrees()
      reads this
    {
      execNum > 0 && Consistent(order, all, active, cleaning)
    }

    ghost predicate Valid()
      reads this
    {
      Agrees() && WithinCapacity(active, manualDownNum, execNum)
    }

    /** The first start is over: every executor is in reserve or offline. With the mimic service off,
        all places but one count as withdrawn by hand. */
    constructor (order: seq<Addr>, execs: Table, execNum: nat, rule: Rule, on: bool)
      requires execNum > 0 && Iterates(order, execs)
      requires forall a :: a in execs ==>
        execs[a].addr == a && execs[a].scweight > 0 && execs[a].status in {OFFLINE, READY}
      ensures Valid() && all == execs && active == map[] && this.order == order && this.execNum == execNum
      ensures scheduleRule == rule && manualDownNum == if on then 0 else execNum - 1
      ensures cleaning == multiset{} && preCleanTimes == map[] && mimicOn == on
    {
      this.order, this.execNum := order, execNum;
      all, active, cleaning, preCleanTimes := execs, map[], multiset{}, map[];
      manualDownNum := if on then 0 else execNum - 1;
      scheduleRule, mimicOn := rule, on;
      new;
      hide Iterates;
      assert forall a :: AgreeOn(all, active, cleaning, a);
    }

    /** Fills the active list for the first time. Under the host rule, with enough hosts that have a
        spare, every active executor is on a host of its own. */
    method InitActiveExec(seed: nat -> int, draw: nat -> nat)
      requires Valid() && active == map[]
      modifies `all, `active
      ensures Valid() && Grown(old(all), map[], all, active, seed)
      ensures scheduleRule != UnknownRule ==> |active| + manualDownNum == execNum || ReadySet(all) == {}
      ensures scheduleRule == HostRule && |ReadyHosts(old(all))| >= execNum - manualDownNum ==>
        |HostsOf(active)| == |active| == execNum - manualDownNum
    {
      hide Consistent, Grown, HostsOf, HostsWait;
      GrownNone(all, map[], seed);
      ghost var hosts := ReadyHosts(all);
      AllWait(all);
      var i := 0;
      while i < execNum - manualDownNum
        invariant 0 <= i <= execNum - manualDownNum && Agrees() && Grown(old(all), map[], all, active, seed)
        invariant |active| <= i
        invariant scheduleRule != UnknownRule ==> |active| == i || ReadySet(all) == {}
        invariant scheduleRule == HostRule && |hosts| >= execNum - manualDownNum ==>
          |HostsOf(active)| == |active| == i && HostsWait(hosts, all, active)
      {
        if scheduleRule == UnknownRule { return; }
        InitOne(seed, draw, i, old(all), hosts);
        i := i + 1;
      }
    }

    lemma AllWait(t: Table)
      ensures HostsWait(ReadyHosts(t), t, map[]) && HostsOf(map[]) == {}
    {
    }

    /** One round of the first filling. */
    method InitOne(seed: nat -> int, draw: nat -> nat, i: nat, ghost all0: Table, ghost hosts: set<Host>)
      requires Agrees() && |active| < execNum && Grown(all0, map[], all, active, seed) && scheduleRule != UnknownRule
      modifies `all, `active
      ensures Agrees() && Grown(all0, map[], all, active, seed)
      ensures |active| == |old(active)| + 1 || (ReadySet(all) == {} && |active| == |old(active)|)
      ensures ReadySet(old(all)) == {} ==> ReadySet(all) == {}
      ensures
        (scheduleRule == HostRule && |HostsOf(old(active))| < |hosts| && HostsWait(hosts, old(all), old(active))) ==>
        (HostsWait(hosts, all, active) && |HostsOf(active)| == |HostsOf(old(active))| + 1 &&
         |active| == |old(active)| + 1)
    {
      hide Consistent, Grown, HostsOf, HostsWait, Up, LeastBusy, HostHasReady;
      HostsFew(active);
      Facts();
      var key: Option<Addr>;
      if scheduleRule == HostRule {
        key := PolicyHostRandom(None, seed(i), draw(i));
        if |HostsOf(old(active))| < |hosts| && HostsWait(hosts, old(all), old(active)) {
          if key.Some? {
            FreshHost(order, old(all), old(active), cleaning, hosts, key.value.host);
            StillWait(hosts, old(all), old(active), key.value, seed(i));
          } else {
            SomebodyWaits(hosts, all, active);
          }
        }
      } else {
        key := RunPolicy(None, seed(i), draw(i));
      }
      if key.Some? {
        assert key.value in ReadySet(old(all));
        SwapConsistent(order, old(all), old(active), cleaning, key.value, None, seed(i));
        GrownOne(all0, map[], old(all), old(active), key.value, i, seed);
      }
    }

    lemma SomebodyWaits(hosts: set<Host>, t: Table, up: Table)
      requires HostsWait(hosts, t, up) && |HostsOf(up)| < |hosts|
      ensures ReadySet(t) != {}
    {
      hide HostsOf;
      if hosts <= HostsOf(up) { SubsetSize(hosts, HostsOf(up)); }
      var g :| g in hosts && g !in HostsOf(up);
      assert HostHasReady(t, g);
      var a :| a in t && a.host == g && t[a].status == READY;
      assert a in ReadySet(t);
    }

    /** Puts `key` up, and takes `down` out of the active list if there is one to take out. */
    method SwapIn(key: Addr, down: Option<Addr>, seed: int)
      requires key in all && key !in active && (down.Some? ==> down.value in all)
      modifies `all, `active
      ensures all == Down(Up(old(all), key, seed), down)
      ensures active == Without(old(active)[key := Up(old(all), key, seed)[key]], down)
    {
      all := all[key := all[key].(status := ACTIVE)];
      all := all[key := all[key].(activeTime := seed)];
      active := active[key := all[key]];
      if down.Some? {
        all := all[down.value := all[down.value].(status := CLEANING)];
        active := active - {down.value};
      }
    }

    lemma ActiveByStatus()
      requires Valid()
      ensures forall a :: a in active <==> a in all && all[a].status == ACTIVE
    {
      hide Consistent;
      Facts();
    }

    lemma SoundNow()
      requires Valid()
      ensures Consistent(order, all, active, cleaning) && WithinCapacity(active, manualDownNum, execNum)
    {
    }

    lemma Facts()
      requires Agrees()
      ensures Iterates(order, all) && (forall a :: a in all ==> all[a].scweight > 0)
      ensures forall a :: a in active <==> a in all && all[a].status == ACTIVE
      ensures forall a :: a in active ==> active[a].status == ACTIVE
      ensures forall a :: a in cleaning <==> a in all && all[a].status == CLEANING
      ensures forall a :: a in all ==> all[a].status in {OFFLINE, READY, ACTIVE, CLEANING}
    {
      hide Iterates;
      forall a
        ensures a in active <==> a in all && all[a].status == ACTIVE
        ensures a in active ==> active[a].status == ACTIVE
        ensures a in cleaning <==> a in all && all[a].status == CLEANING
        ensures a in all ==> all[a].scweight > 0 && all[a].status in {OFFLINE, READY, ACTIVE, CLEANING}
      {
        assert AgreeOn(all, active, cleaning, a);
      }
    }

    /** Any executor in reserve, at random. */
    method PolicyAllRandom(down: Option<Addr>, seed: int, draw: nat) returns (key: Option<Addr>)
      requires Agrees() && (down.Some? ==> down.value in all)
      modifies `all, `active
      ensures Chosen(old(all), old(active), key, down, seed, execNum, all, active)
      ensures key.Some? ==> var ready := ReadyOf(order, old(all)); ready != [] && key.value == ready[draw % |ready|]
    {
      hide Consistent, Up, Down, Without, Iterates, HostsOf, ReadyOf;
      Facts();
      var ready := ReadyList(order, all);
      if |ready| == 0 {
        assert forall a :: a !in ReadySet(all);
        return None;
      }
      var chosen := ready[draw % |ready|];
      assert chosen in ready;
      SwapIn(chosen, down, seed);
      return Some(chosen);
    }

    /** An executor in reserve, with a chance proportional to its weight. */
    method PolicyWeight(down: Option<Addr>, seed: int, draw: nat)
      returns (key: Option<Addr>, ghost ready: seq<Addr>, ghost i: nat)
      requires Agrees() && (down.Some? ==> down.value in all)
      modifies `all, `active
      ensures Chosen(old(all), old(active), key, down, seed, execNum, all, active)
      ensures ready == ReadyOf(order, old(all)) && forall a :: a in ready <==> a in ReadySet(old(all))
      ensures key.Some? ==> i < |ready| && key.value == ready[i] && Total(Weights(old(all), ready)) > 0
      ensures key.Some? ==> Chooses(Weights(old(all), ready), draw % Total(Weights(old(all), ready)), i)
    {
      hide Consistent, Up, Down, Without, Iterates, HostsOf, ReadyOf, Weights, Chooses, Total;
      Facts();
      key, ready, i := ChooseByWeight(order, all, draw);
      if key == None {
        assert forall a :: a !in ReadySet(all);
        return;
      }
      assert key.value in ready;
      SwapIn(key.value, down, seed);
    }

    /** An executor in reserve on the host that needs it most: when every active executor is on a host
        of its own, on the host of the one that goes down if that host has a spare; otherwise on a
        host with the fewest active executors. */
    method PolicyHostRandom(down: Option<Addr>, seed: int, draw: nat) returns (key: Option<Addr>)
      requires Agrees() && (down.Some? ==> down.value in all)
      modifies `all, `active
      ensures Chosen(old(all), old(active), key, down, seed, execNum, all, active)
      ensures key.Some? ==>
        if down.Some? && FullySpread(old(active), execNum) && HostHasReady(old(all), down.value.host) then
          key.value.host == down.value.host && (down.value in old(active) ==> HostsOf(active) == HostsOf(old(active)))
        else LeastBusy(old(all), key.value.host)
    {
      hide Consistent, Down, Without, Iterates, LeastBusy;
      Facts();
      var usedHost := set a | a in active && active[a].status == ACTIVE :: a.host;
      assert usedHost == HostsOf(active);
      if |usedHost| == execNum {
        if down.None? { return None; }
        var ready := ReadyList(order, all);
        var spares := SparesOn(ready, down.value.host);
        if |spares| > 0 {
          var chosen := spares[draw % |spares|];
          assert chosen in spares && chosen in ReadySet(all);
          if down.value in active { SameHosts(active, chosen, Up(all, chosen, seed)[chosen], down.value); }
          SwapIn(chosen, down, seed);
          return Some(chosen);
        }
        NoSpare(ready, spares, down.value.host);
      }
      key := ChooseLeastBusy(order, all, draw);
      if key.Some? { SwapIn(key.value, down, seed); }
    }

    lemma NoSpare(ready: seq<Addr>, spares: seq<Addr>, h: Host)
      requires forall a :: a in ready <==> a in ReadySet(all)
      requires forall a :: a in spares <==> a in ready && a.host == h
      requires spares == []
      ensures !HostHasReady(all, h)
    {
      forall a | a in all && a.host == h
        ensures all[a].status != READY
      {
        assert a !in spares;
      }
    }

    /** Spawns a thread that cleans an executor. */
    method CleanExec(a: Addr)
      modifies `cleaning
      ensures cleaning == old(cleaning) + multiset{a}
    {
      cleaning := cleaning + multiset{a};
    }

    /** The thread that cleans an executor is done. */
    method CleanThreadDone(a: Addr, now: int)
      requires Valid() && a in cleaning
      modifies this
      ensures Valid() && a in old(all) && all == SetStatus(old(all), a, OFFLINE) && active == old(active)
      ensures cleaning == old(cleaning) - multiset{a} && preCleanTimes == old(preCleanTimes)[a := now]
      ensures manualDownNum == old(manualDownNum) && scheduleRule == old(scheduleRule) && mimicOn == old(mimicOn)
    {
      hide Consistent;
      Facts();
      IdleConsistent(order, all, active, cleaning, a, OFFLINE);
      all := SetStatus(all, a, OFFLINE);
      preCleanTimes := preCleanTimes[a := now];
      cleaning := cleaning - multiset{a};
    }

    lemma NoneFailed(t: Table)
      ensures CountsFailure(t, None, t)
    {
    }

    /** The tables once the failure of an executor that goes down for an error is counted. */
    ghost function Counted(t: Table, down: Option<Addr>, scheduled: bool): Table
      requires down.Some? ==> down.value in t
    {
      if scheduled || down.None? then t else Failed(t, down.value)
    }

    method RunPolicy(down: Option<Addr>, seed: int, draw: nat) returns (key: Option<Addr>)
      requires Agrees() && (down.Some? ==> down.value in all) && scheduleRule != UnknownRule
      modifies `all, `active
      ensures Chosen(old(all), old(active), key, down, seed, execNum, all, active)
    {
      hide *;
      match scheduleRule {
        case WeightRule => ghost var ready, i; key, ready, i := PolicyWeight(down, seed, draw);
        case RandomRule => key := PolicyAllRandom(down, seed, draw);
        case HostRule => key := PolicyHostRandom(down, seed, draw);
      }
    }

    /** The policy runs; whatever it finds, `down` goes and is cleaned. */
    method ChangeGuard(down: Option<Addr>, seed: int, draw: nat) returns (key: Option<Addr>)
      requires Agrees() && (down.Some? ==> down.value in active && down.value in all) && scheduleRule != UnknownRule
      modifies `all, `active, `cleaning
      ensures Agrees() && Replaced(old(all), old(active), key, down, seed, execNum, all, active)
      ensures cleaning == WithCleaner(old(cleaning), down)
      ensures key.Some? ==> key.value !in old(active)
      ensures |active| == |old(active)| + (if key.Some? then 1 else 0) - (if down.Some? then 1 else 0)
    {
      hide Consistent, Up, NoChoice;
      RetireConsistent(order, all, active, cleaning, down);
      key := RunPolicy(down, seed, draw);
      if key == None {
        if down.Some? {
          all := all[down.value := all[down.value].(status := CLEANING)];
          active := active - {down.value};
        }
      } else {
        SwapConsistent(order, old(all), old(active), old(cleaning), key.value, down, seed);
      }
      if down.Some? { CleanExec(down.value); }
    }

    /** Takes `down` out of service and puts an executor in reserve up in its place; without `down`
        only puts one up. The last active executor is never taken out. */
    method DoUpdown(down: Option<Addr>, scheduled: bool, seed: int, draw: nat) returns (key: Option<Addr>)
      requires Agrees() && (down.Some? ==> down.value in active && down.value in all)
      modifies `all, `active, `cleaning
      ensures Agrees()
      ensures down.Some? && |old(active)| == 1 ==>
        key == None && all == old(all) && active == old(active) && cleaning == old(cleaning)
      ensures !(down.Some? && |old(active)| == 1) && scheduleRule == UnknownRule ==>
        key == None && all == Counted(old(all), down, scheduled) && active == old(active) && cleaning == old(cleaning)
      ensures !(down.Some? && |old(active)| == 1) && scheduleRule != UnknownRule ==>
        Counted(old(all), down, scheduled).Keys == old(all).Keys &&
        Replaced(Counted(old(all), down, scheduled), old(active), key, down, seed, execNum, all, active) &&
        cleaning == WithCleaner(old(cleaning), down)
      ensures key.Some? ==> key.value !in old(active)
      ensures |active| == |old(active)| + (if key.Some? then 1 else 0) -
        (if down.Some? && |old(active)| > 1 && scheduleRule != UnknownRule then 1 else 0)
      ensures CountsFailure(old(all), if scheduled || |old(active)| == 1 then None else down, all)
    {
      hide Consistent, Up, Failed, Replaced, WithCleaner, CountsFailure;
      NoneFailed(all);
      key := None;
      ghost var active0 := active;
      if down.Some? && down.value in active && |active| == 1 { return; }
      if !scheduled && down.Some? {
        FailedConsistent(order, all, active, cleaning, down.value);
        NoneFailed(Failed(all, down.value));
        FailedCounts(all, down.value, Failed(all, down.value));
        all := Failed(all, down.value);
      }
      if scheduleRule == UnknownRule { return; }
      if down.Some? { NotEmpty(active, down.value); }
      ghost var counted := all;
      key := ChangeGuard(down, seed, draw);
      ReplacedCounts(counted, active0, key, down, seed, execNum, all, active);
      if !scheduled && down.Some? { FailedCounts(old(all), down.value, all); }
    }

    /** What the answer of an executor to a health check changes before the refill. */
    method Report(a: Addr, healthy: bool, now: int, seed: int, draw: nat) returns (key: Option<Addr>)
      requires Valid() && a in all
      modifies `all, `active, `cleaning
      ensures Valid() && |active| <= |old(active)| && (old(active) != map[] ==> active != map[])
      ensures Reported(old(all), old(active), old(cleaning), Paused(now, a), scheduleRule != UnknownRule, a, healthy,
                       seed, execNum, key, all, active, cleaning)
    {
      hide Consistent, Up, Replaced;
      Facts();
      key := None;
      var status := all[a].status;
      if status == ACTIVE && !healthy {
        NotEmpty(active, a);
        key := DoUpdown(Some(a), true, seed, draw);
        if |active| > 0 { assert active != map[]; }
      } else if status == READY && !healthy {
        CleanConsistent(order, all, active, cleaning, a);
        all := all[a := all[a].(status := CLEANING)];
        CleanExec(a);
      } else if status == OFFLINE && healthy {
        IdleConsistent(order, all, active, cleaning, a, READY);
        all := all[a := all[a].(status := READY)];
      } else if status == OFFLINE && !healthy && Paused(now, a) {
        CleanConsistent(order, all, active, cleaning, a);
        all := all[a := all[a].(status := CLEANING)];
        CleanExec(a);
      }
    }

    /** An offline executor is cleaned again when it never was, or a minute ago (unsigned clock). */
    predicate Paused(now: int, a: Addr)
      reads `preCleanTimes
    {
      a !in preCleanTimes || (now - preCleanTimes[a]) % WRAP >= CLEAN_PAUSE
    }

    /** Puts executors in reserve up until the places are filled or nobody is left. */
    method Refill(seed: nat -> int, draw: nat -> nat)
      requires Valid()
      modifies `all, `active, `cleaning
      ensures Valid() && cleaning == old(cleaning)
      ensures Grown(old(all), old(active), all, active, seed)
      ensures scheduleRule != UnknownRule ==> |active| + manualDownNum == execNum || ReadySet(all) == {}
    {
      hide Consistent, Grown, IsReady;
      GrownNone(all, active, seed);
      if |active| < execNum {
        var upNum := execNum - manualDownNum - |active|;
        var i := 0;
        while i < upNum
          invariant Agrees() && 0 <= i <= upNum && cleaning == old(cleaning)
          invariant |old(active)| <= |active| <= |old(active)| + i
          invariant Grown(old(all), old(active), all, active, seed)
          invariant scheduleRule != UnknownRule ==> |active| == |old(active)| + i || ReadySet(all) == {}
          decreases upNum - i
        {
          UpOne(seed, draw, i, old(all), old(active));
          i := i + 1;
        }
      }
    }

    /** One round of the refill. */
    method UpOne(seed: nat -> int, draw: nat -> nat, i: nat, ghost all0: Table, ghost active0: Table)
      requires Agrees() && |active| < execNum && Grown(all0, active0, all, active, seed)
      modifies `all, `active, `cleaning
      ensures Agrees() && cleaning == old(cleaning) && Grown(all0, active0, all, active, seed)
      ensures |old(active)| <= |active| <= |old(active)| + 1
      ensures scheduleRule != UnknownRule ==> |active| == |old(active)| + 1 || ReadySet(all) == {}
      ensures ReadySet(old(all)) == {} ==> ReadySet(all) == {}
    {
      hide Consistent, Grown, Up;
      HostsFew(active);
      var key := DoUpdown(None, true, seed(i), draw(i));
      if key.Some? {
        assert key.value in ReadySet(old(all));
        GrownOne(all0, active0, old(all), old(active), key.value, i, seed);
      }
    }

    /** A health check answered: the report, then the refill. */
    method ExecAutoReport(a: Addr, healthy: bool, now: int, seed: nat -> int, draw: nat -> nat)
      returns (ghost key: Option<Addr>, ghost table: Table, ghost reported: Table)
      requires Valid() && a in all
      modifies `all, `active, `cleaning
      ensures Valid() && (old(active) != map[] ==> active != map[])
      ensures scheduleRule != UnknownRule ==> |active| + manualDownNum == execNum || ReadySet(all) == {}
      ensures Reported(old(all), old(active), old(cleaning), Paused(now, a), scheduleRule != UnknownRule, a, healthy,
                       seed(0), execNum, key, table, reported, cleaning)
      ensures Grown(table, reported, all, active, seed)
    {
      hide Consistent, Grown, Replaced, Reported;
      key := Report(a, healthy, now, seed(0), draw(0));
      table, reported := all, active;
      Refill(seed, draw);
      if reported != map[] { GrownNotEmpty(table, reported, all, active, seed); }
    }

    /** The least time at which an active executor went up. A time of zero reads as "none yet", so the
        result is the minimum only when all times are positive; it is always somebody's time. */
    method OldestTime() returns (minTime: int)
      requires Agrees() && active != map[]
      ensures exists a :: a in active && active[a].activeTime == minTime
      ensures (forall a :: a in active ==> active[a].activeTime > 0) ==>
        forall a :: a in active ==> minTime <= active[a].activeTime
    {
      hide Consistent, Iterates;
      Facts();
      minTime := 0;
      var i := 0;
      ghost var seen := {};
      while i < |order|
        invariant 0 <= i <= |order|
        invariant forall a :: a in active && a in order[..i] ==> a in seen
        invariant forall a :: a in seen ==> a in active
        invariant if seen == {} then minTime == 0 else exists a :: a in seen && active[a].activeTime == minTime
        invariant (forall a :: a in active ==> active[a].activeTime > 0) ==>
          forall a :: a in seen ==> minTime <= active[a].activeTime
      {
        var a := order[i];
        PrefixGrows(order, all, i);
        if a in active {
          var t := active[a].activeTime;
          ghost var before := seen;
          seen := seen + {a};
          if minTime == 0 || t <= minTime {
            minTime := t;
            assert a in seen;
          } else {
            ghost var b :| b in before && active[b].activeTime == minTime;
            assert b in seen;
          }
        }
        i := i + 1;
      }
      assert order[..i] == order;
      AllIterated(order, all);
      var a :| a in active;
      assert a in seen;
    }

    /** The timer: the active executor that went up first goes down. */
    method ExecAutoSchedule(seed: int, draw: nat) returns (down: Option<Addr>, key: Option<Addr>)
      requires Valid()
      modifies `all, `active, `cleaning
      ensures Valid() && (old(active) != map[] ==> active != map[])
      ensures down == None <==> old(active) == map[]
      ensures down == None ==> key == None && all == old(all) && active == old(active) && cleaning == old(cleaning)
      ensures down.Some? ==> down.value in old(active) && down.value in old(all)
      ensures down.Some? && (forall a :: a in old(active) ==> old(active)[a].activeTime > 0) ==>
        forall a :: a in old(active) ==> old(active)[down.value].activeTime <= old(active)[a].activeTime
      ensures down.Some? && |old(active)| > 1 && scheduleRule != UnknownRule ==>
        Replaced(old(all), old(active), key, down, seed, execNum, all, active) &&
          cleaning == WithCleaner(old(cleaning), down)
      ensures down.Some? && (|old(active)| == 1 || scheduleRule == UnknownRule) ==>
        all == old(all) && active == old(active) && cleaning == old(cleaning)
      ensures |active| <= |old(active)| && (key.Some? ==> key.value !in old(active) && |active| == |old(active)|)
    {
      hide Consistent, Replaced, WithCleaner;
      if |active| == 0 {
        assert active.Keys == {};
        return None, None;
      }
      Facts();
      var minTime := OldestTime();
      var a :| a in active && active[a].activeTime == minTime;
      NotEmpty(active, a);
      key := DoUpdown(Some(a), true, seed, draw);
      if |active| > 0 { assert active != map[]; }
      return Some(a), key;
    }

    /** By hand: an executor goes up, whatever its status. The tables still agree afterwards exactly
        when no thread was cleaning it; the capacity is still respected exactly when an executor had
        been withdrawn by hand before. */
    method DoManualUp(a: Addr) returns (ok: bool)
      requires Valid()
      modifies `all, `active, `manualDownNum
      ensures ok <==> a in old(all) && |old(active)| != execNum && a !in old(active)
      ensures !ok ==> all == old(all) && active == old(active) && manualDownNum == old(manualDownNum)
      ensures ok ==> all == SetStatus(old(all), a, ACTIVE) && active == old(active)[a := all[a]]
      ensures ok ==> manualDownNum == old(manualDownNum) - 1
      ensures ok ==> (Agrees() <==> old(all)[a].status != CLEANING)
      ensures ok ==> (WithinCapacity(active, manualDownNum, execNum) <==> old(manualDownNum) > 0)
      ensures ok ==> active != map[]
    {
      hide Consistent, AgreeOn;
      if a !in all { return false; }
      if |active| == execNum { return false; }
      if a in active { return false; }
      UpByHand(order, all, active, cleaning, a);
      SizeAfter(active, a, all[a], None);
      SizeAfter(active, a, all[a].(status := ACTIVE), None);
      all := all[a := all[a].(status := ACTIVE)];
      active := active[a := all[a]];
      manualDownNum := manualDownNum - 1;
      NotEmpty(active, a);
      return true;
    }

    /** By hand: an active executor goes into reserve, unless it is the last one. */
    method DoManualDown(a: Addr) returns (ok: bool)
      requires Valid()
      modifies `all, `active, `manualDownNum
      ensures Valid() && (ok <==> a in old(active) && |old(active)| != 1)
      ensures !ok ==> all == old(all) && active == old(active) && manualDownNum == old(manualDownNum)
      ensures ok ==> a in old(all) && all == SetStatus(old(all), a, READY) && active == old(active) - {a}
      ensures ok ==> manualDownNum == old(manualDownNum) + 1
      ensures old(active) != map[] ==> active != map[]
    {
      hide Consistent;
      Facts();
      if a !in all { return false; }
      if |active| == 1 { return false; }
      if a !in active { return false; }
      Withdraw(a);
      return true;
    }

    /** One executor is withdrawn from service. */
    method Withdraw(a: Addr)
      requires Valid() && a in active && |active| > 1
      modifies `all, `active, `manualDownNum
      ensures Valid() && a in old(all) && all == SetStatus(old(all), a, READY) && active == old(active) - {a}
      ensures manualDownNum == old(manualDownNum) + 1 && |active| == |old(active)| - 1 && active != map[]
    {
      hide Consistent;
      Facts();
      IdleConsistent(order, all, active, cleaning, a, READY);
      SizeAfter(active - {a}, a, active[a], None);
      assert (active - {a})[a := active[a]] == active;
      all := all[a := all[a].(status := READY)];
      active := active - {a};
      manualDownNum := manualDownNum + 1;
    }

    /** By hand: an offline executor is cleaned. */
    method DoManualClean(a: Addr) returns (ok: bool)
      requires Valid()
      modifies `all, `cleaning
      ensures Valid() && (ok <==> a in old(all) && old(all)[a].status == OFFLINE)
      ensures !ok ==> all == old(all) && cleaning == old(cleaning)
      ensures ok ==> all == SetStatus(old(all), a, CLEANING) && cleaning == old(cleaning) + multiset{a}
    {
      hide Consistent;
      if a !in all { return false; }
      if all[a].status != OFFLINE { return false; }
      CleanConsistent(order, all, active, cleaning, a);
      all := all[a := all[a].(status := CLEANING)];
      CleanExec(a);
      return true;
    }

    /** Voters report executors that answered wrongly, and nothing comes between the items: each is
        replaced and cleaned, up to the first that is not active; only the last active one is spared. */
    method DoReportError(addrs: seq<Addr>, seed: nat -> int, draw: nat -> nat) returns (ok: bool)
      requires Valid()
      modifies `all, `active, `cleaning
      ensures Valid() && (old(active) != map[] ==> active != map[]) && |active| <= |old(active)|
      ensures old(cleaning) <= cleaning && forall a :: cleaning[a] > old(cleaning)[a] ==> a in addrs
      ensures ok && scheduleRule != UnknownRule ==> forall a :: a in addrs ==> a in cleaning || active.Keys == {a}
      ensures addrs != [] && addrs[0] !in old(active) ==>
        !ok && all == old(all) && active == old(active) && cleaning == old(cleaning)
    {
      hide Valid, ReportedIn, DealtWith;
      NoneReported(addrs, cleaning, active);
      var i := 0;
      while i < |addrs|
        invariant 0 <= i <= |addrs| && Valid()
        invariant (old(active) != map[] ==> active != map[]) && |active| <= |old(active)|
        invariant ReportedIn(old(cleaning), cleaning, addrs)
        invariant scheduleRule != UnknownRule ==> DealtWith(addrs, i, cleaning, active)
        invariant
          if i == 0 then all == old(all) && active == old(active) && cleaning == old(cleaning)
          else addrs[0] in old(active)
      {
        ghost var threads, up := cleaning, active;
        OnlyKey(active, addrs[i]);
        var found, key := ReportOne(addrs[i], seed(i), draw(i));
        if !found {
          ReportedMeans(old(cleaning), cleaning, addrs);
          return false;
        }
        OneMoreReported(addrs, i, old(cleaning), threads, up, cleaning, active);
        i := i + 1;
      }
      ReportedMeans(old(cleaning), cleaning, addrs);
      AllDealtWith(addrs, cleaning, active);
      return true;
    }

    /** One item of such a report, under the lock. */
    method ReportOne(a: Addr, seed: int, draw: nat) returns (found: bool, key: Option<Addr>)
      requires Valid()
      modifies `all, `active, `cleaning
      ensures Valid() && (old(active) != map[] ==> active != map[]) && |active| <= |old(active)|
      ensures found == (a in old(active)) && (found ==> a in old(all))
      ensures !found ==> key == None && all == old(all) && active == old(active) && cleaning == old(cleaning)
      ensures found ==>
        Ousted(old(all), old(active), old(cleaning), scheduleRule != UnknownRule, a, seed, execNum, key, all, active,
            cleaning)
      ensures CountsFailure(old(all), if found && |old(active)| > 1 then Some(a) else None, all)
    {
      hide Consistent, Replaced, Failed, CountsFailure;
      NoneFailed(all);
      if a !in active { return false, None; }
      Facts();
      NotEmpty(active, a);
      key := DoUpdown(Some(a), false, seed, draw);
      if |active| > 0 { assert active != map[]; }
      return true, key;
    }

    /** A new configuration: switching the mimic service off withdraws all active executors but one,
        switching it on forgets what was withdrawn. */
    method DoUpdateConfig(on: bool, rule: Rule, draw: nat -> nat)
      requires Valid()
      modifies `all, `active, `manualDownNum, `mimicOn, `scheduleRule
      ensures Valid() && mimicOn == on && scheduleRule == rule && (old(active) != map[] ==> active != map[])
      ensures !on && old(mimicOn) ==> |active| <= 1 && |active| + manualDownNum == |old(active)| + old(manualDownNum)
      ensures !on && old(mimicOn) ==> Withdrawn(old(all), old(active), all, active)
      ensures on && !old(mimicOn) ==> manualDownNum == 0 && active == old(active) && all == old(all)
      ensures on == old(mimicOn) ==> manualDownNum == old(manualDownNum) && active == old(active) && all == old(all)
    {
      hide Consistent, Withdrawn;
      WithdrawnNone(all, active);
      var wasOn := mimicOn;
      mimicOn, scheduleRule := on, rule;
      if !on && wasOn {
        var n := 0;
        while |active| > 1
          invariant Valid() && mimicOn == on && scheduleRule == rule && 0 <= n
          invariant old(active) != map[] ==> active != map[]
          invariant |active| + manualDownNum == |old(active)| + old(manualDownNum)
          invariant Withdrawn(old(all), old(active), all, active)
          decreases |active|
        {
          var a := PickActive(draw(n));
          ghost var table, up := all, active;
          Withdraw(a);
          WithdrawnMore(old(all), old(active), table, up, a);
          n := n + 1;
        }
      } else if on && !wasOn {
        manualDownNum := 0;
      }
    }

    /** One of the active executors, at random. */
    method PickActive(draw: nat) returns (a: Addr)
      requires Agrees() && active != map[]
      ensures a in active
    {
      hide Consistent;
      Facts();
      var keys := [];
      var i := 0;
      ghost var b :| b in active;
      ghost var at :| 0 <= at < |order| && order[at] == b;
      while i < |order|
        invariant 0 <= i <= |order| && forall x :: x in keys ==> x in active
        invariant i > at ==> keys != []
      {
        if order[i] in active { keys := keys + [order[i]]; }
        i := i + 1;
      }
      a := keys[draw % |keys|];
      assert a in keys;
    }

    lemma HostsFew(t: Table)
      ensures |HostsOf(t)| <= |t|
    {
      ImageSize(t.Keys);
      assert HostsOf(t) == set a | a in t.Keys :: a.host;
    }

    lemma {:induction false} ImageSize(s: set<Addr>)
      ensures |set a | a in s :: a.host| <= |s|
      decreases |s|
    {
      if s != {} {
        var x :| x in s;
        ImageSize(s - {x});
        assert (set a | a in s :: a.host) == (set a | a in s - {x} :: a.host) + {x.host};
      } else {
        assert (set a | a in s :: a.host) == {};
      }
    }

    lemma OnlyKey(t: Table, a: Addr)
      ensures a in t ==> (|t| == 1 <==> t.Keys == {a})
    {
      if a in t && |t| == 1 { assert |t.Keys - {a}| == 0; }
      if t.Keys == {a} { assert |t.Keys| == 1; }
    }

    lemma NotEmpty(t: Table, a: Addr)
      requires a in t
      ensures |t| > 0
    {
      assert t.Keys != {};
    }
  }
}
