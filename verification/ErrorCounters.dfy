/** The error counters with which the proxy decides when a blamed executor is reported to the
    scheduler. */
module ErrorCounters {
  ghost function Count(events: seq<string>, addr: string): nat {
    multiset(events)[addr]
  }

  /** How often an executor blamed `n` times has been reported: with a positive limit once per
      limit + 1 blames, otherwise at every blame but the first. */
  function Reports(n: nat, limit: int): nat
    decreases n
  {
    if limit <= 0 then (if n == 0 then 0 else n - 1)
    else if n <= limit then 0 else 1 + Reports(n - limit - 1, limit)
  }

  /** The value of the counter of an executor blamed `n > 0` times. */
  function Pending(n: nat, limit: int): (p: nat)
    decreases n
  {
    if limit <= 0 then (if n == 1 then 1 else 0)
    else if n <= limit then n else Pending(n - limit - 1, limit)
  }

  /** How one more blame changes the counter and the reports. */
  lemma {:induction false} NextBlame(n: nat, limit: int)
    ensures n == 0 ==> Pending(1, limit) == 1 && Reports(1, limit) == Reports(0, limit)
    ensures n > 0 && Pending(n, limit) < limit ==>
      Pending(n + 1, limit) == Pending(n, limit) + 1 && Reports(n + 1, limit) == Reports(n, limit)
    ensures n > 0 && Pending(n, limit) >= limit ==>
      Pending(n + 1, limit) == 0 && Reports(n + 1, limit) == Reports(n, limit) + 1
    decreases n
  {
    if limit > 0 && n > limit + 1 {
      NextBlame(n - limit - 1, limit);
    }
  }

  /** With a positive limit, reports and counter are quotient and remainder of the blames by limit + 1. */
  lemma {:induction false} ReportsClosed(n: nat, limit: int)
    requires limit > 0
    ensures n == Reports(n, limit) * (limit + 1) + Pending(n, limit) && Pending(n, limit) <= limit
    decreases n
  {
    if n > limit {
      ReportsClosed(n - limit - 1, limit);
      var q := Reports(n - limit - 1, limit);
      assert (1 + q) * (limit + 1) == (limit + 1) + q * (limit + 1);
    }
  }

  class Counters {
    var judgeErrNum: map<string, int>

    /** The counters stand for the blames `events` since the start. */
    ghost predicate Valid(events: seq<string>, limit: int)
      reads this
    {
      forall addr ::
        (addr in judgeErrNum <==> Count(events, addr) > 0) &&
        (addr in judgeErrNum ==> judgeErrNum[addr] == Pending(Count(events, addr), limit))
    }

    constructor ()
      ensures judgeErrNum == map[]
    {
      judgeErrNum := map[];
    }

    /** One executor is blamed: it is reported when its counter has reached the limit. */
    method Blame(addr: string, limit: int, ghost events: seq<string>) returns (report: bool)
      requires Valid(events, limit)
      modifies this
      ensures Valid(events + [addr], limit)
      ensures Reports(Count(events + [addr], addr), limit) ==
              Reports(Count(events, addr), limit) + (if report then 1 else 0)
    {
      hide Reports, Pending, Count;
      OneMore(events, addr);
      NextBlame(Count(events, addr), limit);
      report := false;
      if addr !in judgeErrNum {
        judgeErrNum := judgeErrNum[addr := 1];
      } else if judgeErrNum[addr] < limit {
        judgeErrNum := judgeErrNum[addr := judgeErrNum[addr] + 1];
      } else {
        judgeErrNum := judgeErrNum[addr := 0];
        report := true;
      }
    }
  }

  lemma NoneYet(limit: int)
    ensures forall addr :: Count([], addr) == 0
    ensures Reports(0, limit) == 0
  {
  }

  lemma OneMore(events: seq<string>, addr: string)
    ensures forall x :: Count(events + [addr], x) == Count(events, x) + (if x == addr then 1 else 0)
  {
  }

  /** Every run: with a positive limit, an executor is reported once per limit + 1 blames; otherwise
      at every blame but the first. */
  method Blames(events: seq<string>, limit: int) returns (reported: seq<string>)
    ensures forall addr :: Count(reported, addr) == Reports(Count(events, addr), limit)
  {
    hide Reports, Pending, Count;
    NoneYet(limit);
    var counters := new Counters();
    reported := [];
    for i := 0 to |events|
      invariant fresh(counters) && counters.Valid(events[..i], limit)
      invariant forall addr :: Count(reported, addr) == Reports(Count(events[..i], addr), limit)
    {
      assert events[..i + 1] == events[..i] + [events[i]];
      OneMore(events[..i], events[i]);
      OneMore(reported, events[i]);
      var report := counters.Blame(events[i], limit, events[..i]);
      if report { reported := reported + [events[i]]; }
    }
    assert events[..|events|] == events;
  }
}
