/** The scheduler's tables of executors, and how the three selection policies choose from them. */
module ExecTable {
  import opened Wrappers

  const OFFLINE := -1
  const READY := 0
  const ACTIVE := 1
  const CLEANING := 2

  datatype Host = Host(ip: string)
  datatype Addr = Addr(host: Host, port: int)
  datatype Exec = Exec(addr: Addr, status: int, activeTime: int, failCount: int, scweight: int)

  type Table = map<Addr, Exec>

  predicate IsReady(all: Table, a: Addr) { a in all && all[a].status == READY }

  ghost function ReadySet(all: Table): set<Addr> { set a | a in all && all[a].status == READY }

  /** The map iterates over its keys in `order`. */
  ghost predicate Iterates(order: seq<Addr>, all: Table) {
    (forall i :: 0 <= i < |order| ==> order[i] in all) &&
    (forall a :: a in all ==> a in order) &&
    (forall i, j :: 0 <= i < j < |order| ==> order[i] != order[j])
  }

  /** The executors in reserve, in the order of iteration. */
  method ReadyList(order: seq<Addr>, all: Table) returns (ready: seq<Addr>)
    requires Iterates(order, all)
    ensures ready == ReadyOf(order, all)
    ensures forall a :: a in ready <==> a in ReadySet(all)
  {
    ready := [];
    var i := 0;
    while i < |order|
      invariant 0 <= i <= |order|
      invariant ready + ReadyOf(order[i..], all) == ReadyOf(order, all)
    {
      assert order[i..][0] == order[i] && order[i..][1..] == order[i + 1..];
      if all[order[i]].status == READY { ready := ready + [order[i]]; }
      i := i + 1;
    }
    assert order[i..] == [];
    ReadyOfIsReady(order, all);
  }

  function ReadyOf(order: seq<Addr>, all: Table): seq<Addr> {
    if order == [] then []
    else (if IsReady(all, order[0]) then [order[0]] else []) + ReadyOf(order[1..], all)
  }

  lemma {:induction false} ReadyOfIsReady(order: seq<Addr>, all: Table)
    ensures forall a :: a in ReadyOf(order, all) <==> a in order && IsReady(all, a)
  {
    if order != [] { ReadyOfIsReady(order[1..], all); }
  }

  // ----- choice by weight -----

  function Total(weights: seq<int>): int {
    if weights == [] then 0 else weights[0] + Total(weights[1..])
  }

  /** The interval of draws that choose the `i`-th weight. */
  function IntervalStart(weights: seq<int>, i: nat): int
    requires i <= |weights|
  {
    Total(weights[..i])
  }

  ghost predicate Chooses(weights: seq<int>, r: int, i: nat) {
    i < |weights| && IntervalStart(weights, i) <= r < IntervalStart(weights, i + 1)
  }

  lemma {:induction false} TotalSplit(weights: seq<int>, i: nat)
    requires i < |weights|
    ensures IntervalStart(weights, i + 1) == IntervalStart(weights, i) + weights[i]
    decreases |weights|
  {
    if i > 0 {
      TotalSplit(weights[1..], i - 1);
      assert weights[..i][1..] == weights[1..][..i - 1] && weights[..i + 1][1..] == weights[1..][..i];
    } else {
      assert weights[..1][1..] == [] && weights[..0] == [];
    }
  }

  lemma {:induction false} IntervalsAscend(weights: seq<int>, i: nat, j: nat)
    requires i <= j <= |weights| && forall k :: 0 <= k < |weights| ==> weights[k] > 0
    ensures IntervalStart(weights, i) <= IntervalStart(weights, j)
    ensures IntervalStart(weights, 0) == 0 && IntervalStart(weights, |weights|) == Total(weights)
    decreases j - i
  {
    assert weights[..|weights|] == weights && weights[..0] == [];
    if i < j {
      TotalSplit(weights, i);
      IntervalsAscend(weights, i + 1, j);
    }
  }

  /** With positive weights the intervals partition the draws: each draw below the total chooses
      exactly one weight. */
  lemma DrawChoosesOne(weights: seq<int>, r: int) returns (i: nat)
    requires 0 <= r < Total(weights) && forall k :: 0 <= k < |weights| ==> weights[k] > 0
    ensures Chooses(weights, r, i) && forall j: nat :: Chooses(weights, r, j) ==> j == i
  {
    hide Total;
    IntervalsAscend(weights, 0, |weights|);
    i := 0;
    while IntervalStart(weights, i + 1) <= r
      invariant i < |weights| && IntervalStart(weights, i) <= r
      decreases |weights| - i
    {
      i := i + 1;
    }
    forall j: nat | Chooses(weights, r, j)
      ensures j == i
    {
      if j < i { IntervalsAscend(weights, j + 1, i); }
      if i < j { IntervalsAscend(weights, i + 1, j); }
    }
  }

  /** The draws from `lo` up to `hi`. */
  ghost function Draws(lo: int, hi: int): (s: set<int>)
    ensures (lo <= hi ==> |s| == hi - lo) && forall r :: r in s <==> lo <= r < hi
    decreases hi - lo
  {
    if lo >= hi then {} else Draws(lo, hi - 1) + {hi - 1}
  }

  /** Exact proportionality: of the draws below the total, as many choose the `i`-th weight as that
      weight says. */
  lemma DrawsAreProportional(weights: seq<int>, i: nat)
    requires i < |weights| && forall k :: 0 <= k < |weights| ==> weights[k] > 0
    ensures |set r | r in Draws(0, Total(weights)) && Chooses(weights, r, i)| == weights[i]
  {
    hide Total, IntervalStart;
    TotalSplit(weights, i);
    IntervalsAscend(weights, 0, i);
    IntervalsAscend(weights, i + 1, |weights|);
    var lo, hi := IntervalStart(weights, i), IntervalStart(weights, i + 1);
    assert (set r | r in Draws(0, Total(weights)) && Chooses(weights, r, i)) == Draws(lo, hi);
  }

  datatype Range = Range(start: int, end: int, exec: Addr)

  /** Chooses from the executors in reserve with a chance proportional to their weights. */
  method ChooseByWeight(order: seq<Addr>, all: Table, draw: nat)
    returns (key: Option<Addr>, ghost ready: seq<Addr>, ghost i: nat)
    requires Iterates(order, all) && forall a :: a in all ==> all[a].scweight > 0
    ensures ready == ReadyOf(order, all) && forall a :: a in ready <==> a in ReadySet(all)
    ensures key == None <==> ready == []
    ensures key == None <==> ReadySet(all) == {}
    ensures key.Some? ==> key.value in ReadySet(all)
    ensures key.Some? ==> i < |ready| && key.value == ready[i] && Total(Weights(all, ready)) > 0
    ensures key.Some? ==> Chooses(Weights(all, ready), draw % Total(Weights(all, ready)), i)
  {
    i := 0;
    var list := ReadyList(order, all);
    ready := list;
    var ranges: seq<Range> := [];
    var start := 0;
    var n := 0;
    ghost var weights := Weights(all, ready);
    assert weights[..0] == [];
    while n < |list|
      invariant 0 <= n <= |list| && |ranges| == n && start == IntervalStart(weights, n)
      invariant forall m :: 0 <= m < n ==>
        ranges[m] == Range(IntervalStart(weights, m), IntervalStart(weights, m + 1), list[m])
    {
      TotalSplit(weights, n);
      var w := all[list[n]].scweight;
      ranges := ranges + [Range(start, start + w, list[n])];
      start := start + w;
      n := n + 1;
    }
    assert weights[..n] == weights;
    assert list != [] ==> list[0] in ReadySet(all);
    if |ranges| == 0 { return None, ready, i; }
    IntervalsAscend(weights, 1, |weights|);
    TotalSplit(weights, 0);
    var r := draw % start;
    i := DrawChoosesOne(weights, r);
    var m := 0;
    while m < |ranges|
      invariant 0 <= m <= i
    {
      if ranges[m].start <= r < ranges[m].end {
        assert Chooses(weights, r, m);
        return Some(ranges[m].exec), ready, i;
      }
      assert m != i;
      m := m + 1;
    }
    assert false;
    return None, ready, i;
  }

  ghost function Weights(all: Table, ready: seq<Addr>): seq<int>
    requires forall a :: a in ready ==> a in all
  {
    seq(|ready|, i requires 0 <= i < |ready| => all[ready[i]].scweight)
  }

  ghost predicate NoRepeats(s: seq<Addr>) {
    forall i, j :: 0 <= i < j < |s| ==> s[i] != s[j]
  }

  lemma FirstApart(s: seq<Addr>)
    requires s != [] && NoRepeats(s)
    ensures s[0] !in s[1..] && NoRepeats(s[1..])
  {
  }

  lemma PutFirst(a: Addr, s: seq<Addr>)
    requires a !in s && NoRepeats(s)
    ensures NoRepeats([a] + s)
  {
  }

  lemma {:induction false} ReadyOfDistinct(order: seq<Addr>, all: Table)
    requires NoRepeats(order)
    ensures NoRepeats(ReadyOf(order, all))
  {
    hide NoRepeats;
    if order != [] {
      FirstApart(order);
      ReadyOfDistinct(order[1..], all);
      ReadyOfIsReady(order[1..], all);
      var rest := ReadyOf(order[1..], all);
      PutFirst(order[0], rest);
      assert [] + rest == rest;
    } else {
      NoneRepeats();
    }
  }

  lemma NoneRepeats()
    ensures NoRepeats([])
  {
  }

  /** Where in the list of those in reserve an executor is. */
  lemma PlaceOf(order: seq<Addr>, all: Table, a: Addr) returns (n: nat)
    requires Iterates(order, all) && a in ReadySet(all)
    ensures var ready := ReadyOf(order, all);
      n < |ready| && ready[n] == a && forall i :: 0 <= i < |ready| && ready[i] == a ==> i == n
  {
    ReadyOfIsReady(order, all);
    ReadyOfDistinct(order, all);
    n :| 0 <= n < |ReadyOf(order, all)| && ReadyOf(order, all)[n] == a;
  }

  lemma SmallDraw(r: int, n: int)
    requires 0 <= r < n
    ensures r % n == r
  {
  }

  /** Every executor in reserve is chosen at random by exactly one of as many draws as there are. */
  lemma RandomIsFair(order: seq<Addr>, all: Table, a: Addr)
    requires Iterates(order, all) && a in ReadySet(all)
    ensures var ready := ReadyOf(order, all);
      |ready| > 0 && |set r | r in Draws(0, |ready|) && ready[r % |ready|] == a| == 1
  {
    hide ReadyOf, Iterates;
    var ready := ReadyOf(order, all);
    var n := PlaceOf(order, all, a);
    forall r | r in Draws(0, |ready|)
      ensures r % |ready| == r
    {
      SmallDraw(r, |ready|);
    }
    assert (set r | r in Draws(0, |ready|) && ready[r % |ready|] == a) == {n};
  }

  /** The draws that choose an executor by weight. */
  ghost function DrawnBy(weights: seq<int>, ready: seq<Addr>, a: Addr): set<int>
    requires |weights| == |ready|
  {
    set r | r in Draws(0, Total(weights)) && exists i: nat :: i < |ready| && ready[i] == a && Chooses(weights, r, i)
  }

  /** Every executor in reserve is chosen by weight by exactly as many draws as its weight says. */
  lemma WeightIsFair(order: seq<Addr>, all: Table, a: Addr)
    requires Iterates(order, all) && a in ReadySet(all) && forall b :: b in all ==> all[b].scweight > 0
    ensures var ready := ReadyOf(order, all);
      (forall b :: b in ready ==> b in all) &&
      |DrawnBy(Weights(all, ready), ready, a)| == all[a].scweight
  {
    hide ReadyOf, Iterates, Chooses, Total;
    InReserve(order, all);
    var ready := ReadyOf(order, all);
    var n := PlaceOf(order, all, a);
    var weights := Weights(all, ready);
    assert forall k :: 0 <= k < |ready| ==> ready[k] in ready;
    DrawsAreProportional(weights, n);
    assert DrawnBy(weights, ready, a) == set r | r in Draws(0, Total(weights)) && Chooses(weights, r, n);
  }

  lemma InReserve(order: seq<Addr>, all: Table)
    requires Iterates(order, all)
    ensures forall b :: b in ReadyOf(order, all) ==> b in all
  {
    ReadyOfIsReady(order, all);
  }

  // ----- choice by host -----

  /** The number of active executors of a host. */
  ghost function ActiveOn(all: Table, h: Host): nat {
    |set a | a in all && a.host == h && all[a].status == ACTIVE|
  }

  ghost predicate HostHasReady(all: Table, h: Host) {
    exists a :: a in all && a.host == h && all[a].status == READY
  }

  /** No host with an executor in reserve has fewer active executors. */
  ghost predicate LeastBusy(all: Table, h: Host) {
    forall h' :: HostHasReady(all, h') ==> ActiveOn(all, h) <= ActiveOn(all, h')
  }

  ghost function HostsOf(t: Table): set<Host> { set a | a in t :: a.host }

  datatype HostLoad = HostLoad(host: Host, up: nat, ready: seq<Addr>)

  ghost predicate LoadRight(all: Table, l: HostLoad) {
    l.up == ActiveOn(all, l.host) &&
    forall a :: a in l.ready <==> a in all && a.host == l.host && all[a].status == READY
  }

  /** The hosts of the executors in `some`, each once, with what `some` says of them. */
  ghost predicate LoadsUpTo(all: Table, some: seq<Addr>, loads: seq<HostLoad>) {
    (forall i :: 0 <= i < |loads| ==> LoadUpTo(all, some, loads[i])) &&
    (forall a :: a in some ==> Listed(loads, a.host)) &&
    forall i :: 0 <= i < |loads| ==> Comes(some, loads[i].host)
  }

  ghost predicate Comes(some: seq<Addr>, h: Host) {
    exists m :: 0 <= m < |some| && some[m].host == h
  }

  ghost predicate Listed(loads: seq<HostLoad>, h: Host) {
    exists i :: 0 <= i < |loads| && loads[i].host == h
  }

  /** The hosts with their numbers of active executors and their executors in reserve. */
  method Loads(order: seq<Addr>, all: Table) returns (loads: seq<HostLoad>)
    requires Iterates(order, all)
    ensures forall i :: 0 <= i < |loads| ==> LoadRight(all, loads[i])
    ensures forall a :: a in all ==> Listed(loads, a.host)
  {
    hide LoadUpTo;
    loads := [];
    for n := 0 to |order|
      invariant LoadsUpTo(all, order[..n], loads) && Distinct(loads)
    {
      loads := CountOne(order, all, n, loads);
    }
    assert order[..|order|] == order;
    forall i | 0 <= i < |loads|
      ensures LoadRight(all, loads[i])
    {
      WholeTable(order, all, loads[i]);
    }
  }

  ghost predicate Distinct(loads: seq<HostLoad>) {
    forall i, j :: 0 <= i < j < |loads| ==> loads[i].host != loads[j].host
  }

  /** Counts the next executor for its host. */
  method CountOne(order: seq<Addr>, all: Table, n: nat, loads: seq<HostLoad>) returns (loads': seq<HostLoad>)
    requires Iterates(order, all) && n < |order| && LoadsUpTo(all, order[..n], loads) && Distinct(loads)
    ensures LoadsUpTo(all, order[..n + 1], loads') && Distinct(loads')
  {
    hide LoadUpTo;
    var a := order[n];
    var at := FindLoad(loads, a.host);
    assert order[..n + 1] == order[..n] + [a];
    loads' := loads;
    if at == |loads| {
      assert forall m :: 0 <= m < n ==> order[..n][m] == order[m];
      NotListed(loads, order[..n], a);
      NewHost(all, order, n);
      loads' := loads + [HostLoad(a.host, 0, [])];
    }
    ghost var counted := loads';
    loads' := loads'[at := Counted(all, loads'[at], a)];
    forall i | 0 <= i < |loads'|
      ensures LoadUpTo(all, order[..n + 1], loads'[i])
    {
      CountNext(all, order, n, counted[i]);
    }
    assert forall i :: 0 <= i < |loads'| ==> loads'[i].host == counted[i].host;
    StillListed(loads, loads', order[..n]);
    assert Listed(loads', a.host);
    HostsFrom(order, n, loads, loads', at);
  }

  lemma NotListed(loads: seq<HostLoad>, some: seq<Addr>, a: Addr)
    requires forall i :: 0 <= i < |loads| ==> loads[i].host != a.host
    requires forall b :: b in some ==> Listed(loads, b.host)
    ensures forall m :: 0 <= m < |some| ==> some[m].host != a.host
  {
    forall m | 0 <= m < |some|
      ensures some[m].host != a.host
    {
      assert some[m] in some;
    }
  }

  lemma StillListed(loads: seq<HostLoad>, loads': seq<HostLoad>, some: seq<Addr>)
    requires |loads| <= |loads'| && forall i :: 0 <= i < |loads| ==> loads'[i].host == loads[i].host
    requires forall b :: b in some ==> Listed(loads, b.host)
    ensures forall b :: b in some ==> Listed(loads', b.host)
  {
    forall b | b in some
      ensures Listed(loads', b.host)
    {
      assert Listed(loads, b.host);
      var i :| 0 <= i < |loads| && loads[i].host == b.host;
      assert loads'[i].host == b.host;
    }
  }

  lemma HostsFrom(order: seq<Addr>, n: nat, loads: seq<HostLoad>, loads': seq<HostLoad>, at: nat)
    requires n < |order| && |loads'| == (if at == |loads| then |loads| + 1 else |loads|) && at < |loads'|
    requires forall i :: 0 <= i < |loads| ==> loads'[i].host == loads[i].host
    requires loads'[at].host == order[n].host
    requires forall i :: 0 <= i < |loads| ==> Comes(order[..n], loads[i].host)
    ensures forall i :: 0 <= i < |loads'| ==> Comes(order[..n + 1], loads'[i].host)
  {
    var some := order[..n + 1];
    assert some == order[..n] + [order[n]];
    forall i | 0 <= i < |loads'|
      ensures Comes(some, loads'[i].host)
    {
      if i < |loads| {
        assert Comes(order[..n], loads[i].host);
        var m :| 0 <= m < |order[..n]| && order[..n][m].host == loads[i].host;
        assert some[m].host == loads'[i].host;
      } else {
        assert some[n].host == loads'[i].host;
      }
    }
  }

  method FindLoad(loads: seq<HostLoad>, h: Host) returns (at: nat)
    ensures at <= |loads| && (at < |loads| ==> loads[at].host == h)
    ensures at == |loads| ==> forall i :: 0 <= i < |loads| ==> loads[i].host != h
  {
    at := 0;
    while at < |loads| && loads[at].host != h
      invariant at <= |loads| && forall i :: 0 <= i < at ==> loads[i].host != h
    {
      at := at + 1;
    }
  }

  /** The load of a host with one more of its executors counted. */
  function Counted(all: Table, l: HostLoad, a: Addr): HostLoad
    requires a in all
  {
    if all[a].status == ACTIVE then l.(up := l.up + 1)
    else if all[a].status == READY then l.(ready := l.ready + [a])
    else l
  }

  ghost function ActiveAmong(all: Table, some: seq<Addr>, h: Host): set<Addr> {
    set a | a in some && a in all && a.host == h && all[a].status == ACTIVE
  }

  ghost predicate LoadUpTo(all: Table, some: seq<Addr>, l: HostLoad) {
    l.up == |ActiveAmong(all, some, l.host)| &&
    forall a :: a in l.ready <==> a in some && a in all && a.host == l.host && all[a].status == READY
  }

  lemma NewHost(all: Table, order: seq<Addr>, n: nat)
    requires n < |order| && forall m :: 0 <= m < n ==> order[m].host != order[n].host
    ensures LoadUpTo(all, order[..n], HostLoad(order[n].host, 0, []))
  {
    assert ActiveAmong(all, order[..n], order[n].host) == {};
  }

  lemma PrefixGrows(order: seq<Addr>, all: Table, n: nat)
    requires Iterates(order, all) && n < |order|
    ensures order[n] !in order[..n] && order[n] in all
    ensures forall b :: b in order[..n + 1] <==> b in order[..n] || b == order[n]
  {
    assert order[..n + 1] == order[..n] + [order[n]];
  }

  lemma CountNext(all: Table, order: seq<Addr>, n: nat, l: HostLoad)
    requires Iterates(order, all) && n < |order| && LoadUpTo(all, order[..n], l)
    ensures LoadUpTo(all, order[..n + 1], if l.host == order[n].host then Counted(all, l, order[n]) else l)
  {
    hide Iterates;
    PrefixGrows(order, all, n);
    var a := order[n];
    assert ActiveAmong(all, order[..n + 1], l.host) == ActiveAmong(all, order[..n], l.host) +
      (if l.host == a.host && all[a].status == ACTIVE then {a} else {});
  }

  lemma WholeTable(order: seq<Addr>, all: Table, l: HostLoad)
    requires Iterates(order, all) && LoadUpTo(all, order, l)
    ensures LoadRight(all, l)
  {
    assert ActiveAmong(all, order, l.host) == set a | a in all && a.host == l.host && all[a].status == ACTIVE;
  }

  /** Sorts the hosts by their numbers of active executors; the order of equals is not specified. */
  method SortLoads(loads: seq<HostLoad>) returns (sorted: seq<HostLoad>)
    ensures forall i, j :: 0 <= i < j < |sorted| ==> sorted[i].up <= sorted[j].up
    ensures forall l :: l in sorted <==> l in loads
  {
    sorted := [];
    for n := 0 to |loads|
      invariant forall i, j :: 0 <= i < j < |sorted| ==> sorted[i].up <= sorted[j].up
      invariant forall l :: l in sorted <==> l in loads[..n]
    {
      var k := 0;
      while k < |sorted| && sorted[k].up <= loads[n].up
        invariant 0 <= k <= |sorted| && forall i :: 0 <= i < k ==> sorted[i].up <= loads[n].up
      {
        k := k + 1;
      }
      assert loads[..n + 1] == loads[..n] + [loads[n]];
      assert sorted == sorted[..k] + sorted[k..];
      sorted := sorted[..k] + [loads[n]] + sorted[k..];
    }
    assert loads[..|loads|] == loads;
  }

  /** Chooses an executor in reserve on a host with the fewest active executors. */
  method ChooseLeastBusy(order: seq<Addr>, all: Table, draw: nat) returns (key: Option<Addr>)
    requires Iterates(order, all)
    ensures key == None <==> ReadySet(all) == {}
    ensures key.Some? ==> key.value in ReadySet(all) && LeastBusy(all, key.value.host)
  {
    hide ActiveOn;
    var loads := Loads(order, all);
    var sorted := SortLoads(loads);
    var i := 0;
    while i < |sorted|
      invariant 0 <= i <= |sorted| && forall j :: 0 <= j < i ==> sorted[j].ready == []
    {
      if |sorted[i].ready| > 0 {
        var key := sorted[i].ready[draw % |sorted[i].ready|];
        FirstIsLeastBusy(all, loads, sorted, i);
        assert key in sorted[i].ready && key in ReadySet(all);
        return Some(key);
      }
      i := i + 1;
    }
    NobodyReady(all, loads, sorted);
    return None;
  }

  lemma FirstIsLeastBusy(all: Table, loads: seq<HostLoad>, sorted: seq<HostLoad>, i: nat)
    requires forall i :: 0 <= i < |loads| ==> LoadRight(all, loads[i])
    requires forall a :: a in all ==> Listed(loads, a.host)
    requires forall l :: l in sorted <==> l in loads
    requires forall i, j :: 0 <= i < j < |sorted| ==> sorted[i].up <= sorted[j].up
    requires i < |sorted| && forall j :: 0 <= j < i ==> sorted[j].ready == []
    ensures LoadRight(all, sorted[i]) && LeastBusy(all, sorted[i].host)
  {
    hide ActiveOn;
    assert sorted[i] in loads;
    forall h | HostHasReady(all, h)
      ensures ActiveOn(all, sorted[i].host) <= ActiveOn(all, h)
    {
      var a :| a in all && a.host == h && all[a].status == READY;
      assert Listed(loads, a.host);
      var m :| 0 <= m < |loads| && loads[m].host == h;
      assert a in loads[m].ready && loads[m] in sorted;
      var j :| 0 <= j < |sorted| && sorted[j] == loads[m];
    }
  }

  lemma NobodyReady(all: Table, loads: seq<HostLoad>, sorted: seq<HostLoad>)
    requires forall i :: 0 <= i < |loads| ==> LoadRight(all, loads[i])
    requires forall a :: a in all ==> Listed(loads, a.host)
    requires forall l :: l in sorted <==> l in loads
    requires forall j :: 0 <= j < |sorted| ==> sorted[j].ready == []
    ensures ReadySet(all) == {}
  {
    hide ActiveOn;
    forall a | a in all
      ensures all[a].status != READY
    {
      assert Listed(loads, a.host);
      var m :| 0 <= m < |loads| && loads[m].host == a.host;
      assert loads[m] in sorted && a !in loads[m].ready;
    }
  }
}
