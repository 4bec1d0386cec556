/** What a verdict over groups of answers is, and what it is worth: the N-version theorem. */
module Verdicts {
  import opened Wrappers
  import opened Answers
  import opened Groups

  const GATEWAY_TIMEOUT := 504

  datatype Kind = Majority | TimeOrWeight

  /** The size that makes a group a majority: half of the executors, rounded up. */
  function Quorum(n: nat): nat { (n + 1) / 2 }

  predicate Success(a: Answer) { 200 <= a.status < 300 }

  ghost predicate HasQuorum(groups: seq<Group>, n: nat, i: int) {
    0 <= i < |groups| && |groups[i].keys| >= Quorum(n)
  }

  /** What stands in for a gateway timeout: a successful answer if a group has one, otherwise an
      answer that is not a timeout, otherwise the timeout itself. */
  ghost predicate StandIn(groups: seq<Group>, timeout: Answer, r: Answer) {
    if exists a :: a in Reps(groups) && Success(a) then r in Reps(groups) && Success(r)
    else if exists a :: a in Reps(groups) && a.status != GATEWAY_TIMEOUT then
      r in Reps(groups) && r.status != GATEWAY_TIMEOUT
    else r == timeout
  }

  ghost predicate Elected(groups: seq<Group>, data: Data, n: nat, i: int, r: Answer) {
    HasQuorum(groups, n, i) &&
    if groups[i].rep.status != GATEWAY_TIMEOUT then r == groups[i].rep
    else |data| == n && StandIn(groups, groups[i].rep, r)
  }

  ghost predicate Picked(groups: seq<Group>, data: Data, t: Key, r: Answer) {
    t in data && if data[t].status != GATEWAY_TIMEOUT then r == data[t] else StandIn(groups, data[t], r)
  }

  /** A verdict by majority comes from a group with a quorum; one by time or weight only when every
      answer has come and no group has a quorum. */
  ghost predicate VerdictOk(groups: seq<Group>, data: Data, n: nat, kind: Kind, r: Answer) {
    match kind
    case Majority => exists i :: Elected(groups, data, n, i, r)
    case TimeOrWeight => |data| == n && (forall i :: !HasQuorum(groups, n, i)) && exists t :: Picked(groups, data, t, r)
  }

  /** Without a verdict, answers are missing, and once two have come only timeouts have a quorum. */
  ghost predicate Undecided(groups: seq<Group>, data: Data, n: nat) {
    |data| < n &&
    (|data| >= 2 ==> forall i :: HasQuorum(groups, n, i) ==> groups[i].rep.status == GATEWAY_TIMEOUT)
  }

  ghost predicate State(groups: seq<Group>, data: Data, n: nat, kind: Option<Kind>, r: Option<Answer>) {
    if r.Some? then kind.Some? && VerdictOk(groups, data, n, kind.value, r.value)
    else kind.None? && Undecided(groups, data, n)
  }

  /** A class of more than half of the executors. */
  ghost predicate StrictMajority(cmp: Compare, data: Data, n: nat, c: Answer) {
    2 * |ClassOf(cmp, data, c)| > n
  }

  /** A quorum outside a strict majority cannot be. */
  lemma QuorumIsMajority(cmp: Compare, data: Data, groups: seq<Group>, n: nat, i: nat, c: Answer)
    requires Lawful(cmp) && GroupsOk(cmp, data, groups) && |data| <= n && HasQuorum(groups, n, i)
    requires StrictMajority(cmp, data, n, c)
    ensures Alike(cmp, groups[i].rep, c)
  {
    hide Lawful, Alike, GroupsOk, ClassOf;
    GroupAt(cmp, data, groups, i);
    if !Alike(cmp, groups[i].rep, c) {
      DistinctClasses(cmp, data, groups[i].rep, c);
      var a, b := ClassOf(cmp, data, groups[i].rep), ClassOf(cmp, data, c);
      ClassInData(cmp, data, groups[i].rep);
      ClassInData(cmp, data, c);
      Disjoint(a, b, data.Keys);
    }
  }

  lemma ClassInData(cmp: Compare, data: Data, a: Answer)
    ensures ClassOf(cmp, data, a) <= data.Keys && |data.Keys| == |data|
  {
  }

  lemma Disjoint(a: set<Key>, b: set<Key>, all: set<Key>)
    requires a <= all && b <= all && a !! b
    ensures |a| + |b| <= |all|
  {
    assert |a + b| == |a| + |b|;
    Subset(a + b, all);
  }

  lemma Subset(a: set<Key>, b: set<Key>)
    requires a <= b
    ensures |a| <= |b|
  {
    assert b == a + (b - a) && a !! (b - a);
  }

  /** The N-version theorem: once all answers have come, a strict majority of equal answers that are
      not timeouts has the verdict, by majority. */
  lemma MajorityPrevails(cmp: Compare, data: Data, groups: seq<Group>, n: nat, kind: Option<Kind>, r: Option<Answer>,
      c: Key)
    requires Lawful(cmp) && GroupsOk(cmp, data, groups) && |data| == n && State(groups, data, n, kind, r)
    requires c in data && data[c].status != GATEWAY_TIMEOUT && StrictMajority(cmp, data, n, data[c])
    ensures r.Some? && kind == Some(Majority) && Alike(cmp, r.value, data[c]) && r.value in Reps(groups)
  {
    hide Lawful, GroupsOk, ClassOf, KeySet, Alike;
    var i := GroupFor(cmp, data, groups, c);
    GroupAt(cmp, data, groups, i);
    SameClass(cmp, data, groups[i].rep, data[c]);
    assert HasQuorum(groups, n, i);
    if kind == Some(Majority) {
      var j :| Elected(groups, data, n, j, r.value);
      assert HasQuorum(groups, n, j);
      QuorumIsMajority(cmp, data, groups, n, j, data[c]);
      AlikeEquivalence(cmp, groups[j].rep, data[c], data[c]);
    }
  }

  /** A verdict is a gateway timeout exactly when every executor answered with one. */
  lemma TimeoutOnlyIfAll(cmp: Compare, data: Data, groups: seq<Group>, n: nat, kind: Kind, r: Answer)
    requires Lawful(cmp) && GroupsOk(cmp, data, groups) && VerdictOk(groups, data, n, kind, r)
    ensures r.status == GATEWAY_TIMEOUT <==>
      |data| == n && forall k :: k in data ==> data[k].status == GATEWAY_TIMEOUT
  {
    hide Lawful, GroupsOk;
    RepsTellAll(cmp, data, groups);
    match kind {
      case Majority =>
        var i :| Elected(groups, data, n, i, r);
        assert HasQuorum(groups, n, i) && groups[i].rep in Reps(groups);
      case TimeOrWeight =>
        var t :| Picked(groups, data, t, r);
    }
  }

  /** Once all answers have come, the verdict is by majority exactly if at least half of them are equal. */
  lemma HalfIsMajority(cmp: Compare, data: Data, groups: seq<Group>, n: nat, kind: Kind, r: Answer)
    requires Lawful(cmp) && GroupsOk(cmp, data, groups) && |data| == n && VerdictOk(groups, data, n, kind, r)
    ensures kind == Majority <==> exists k :: k in data && 2 * |ClassOf(cmp, data, data[k])| >= n
  {
    hide Lawful, GroupsOk, ClassOf, KeySet, StandIn, Alike;
    forall k | k in data && 2 * |ClassOf(cmp, data, data[k])| >= n
      ensures kind == Majority
    {
      var i := GroupFor(cmp, data, groups, k);
      GroupAt(cmp, data, groups, i);
      SameClass(cmp, data, groups[i].rep, data[k]);
      assert HasQuorum(groups, n, i);
    }
    if kind == Majority {
      var i :| Elected(groups, data, n, i, r);
      assert HasQuorum(groups, n, i);
      GroupAt(cmp, data, groups, i);
      assert data[groups[i].rep.key] == groups[i].rep;
    }
  }

  /** If some answer is a success, a verdict that is none has not been put in the place of a timeout. */
  lemma SuccessOrChosen(cmp: Compare, data: Data, groups: seq<Group>, n: nat, r: Answer, k: Key)
    requires Lawful(cmp) && GroupsOk(cmp, data, groups) && k in data && 200 <= data[k].status < 300
    requires !(200 <= r.status < 300)
    ensures VerdictOk(groups, data, n, Majority, r) ==> 2 * |ClassOf(cmp, data, r)| >= n
    ensures forall t :: Picked(groups, data, t, r) ==> t in data && r == data[t]
  {
    hide Lawful, GroupsOk, ClassOf, KeySet, Alike;
    SuccessRep(cmp, data, groups, k);
    if VerdictOk(groups, data, n, Majority, r) {
      var i :| Elected(groups, data, n, i, r);
      assert HasQuorum(groups, n, i);
      GroupAt(cmp, data, groups, i);
    }
  }

  lemma SuccessRep(cmp: Compare, data: Data, groups: seq<Group>, k: Key)
    requires Lawful(cmp) && GroupsOk(cmp, data, groups) && k in data && 200 <= data[k].status < 300
    ensures exists a :: a in Reps(groups) && Success(a)
  {
    hide Lawful, GroupsOk, ClassOf, KeySet, Alike;
    var i := GroupFor(cmp, data, groups, k);
    AlikeEquivalence(cmp, groups[i].rep, data[k], data[k]);
    assert groups[i].rep in Reps(groups) && Success(groups[i].rep);
  }

  /** Every answer is a timeout exactly when every representative is. */
  lemma RepsTellAll(cmp: Compare, data: Data, groups: seq<Group>)
    requires Lawful(cmp) && GroupsOk(cmp, data, groups)
    ensures (forall k :: k in data ==> data[k].status == GATEWAY_TIMEOUT) <==>
            (forall a :: a in Reps(groups) ==> a.status == GATEWAY_TIMEOUT)
  {
    hide Lawful, GroupsOk, ClassOf, KeySet, Alike;
    if forall a :: a in Reps(groups) ==> a.status == GATEWAY_TIMEOUT {
      forall k | k in data
        ensures data[k].status == GATEWAY_TIMEOUT
      {
        var i := GroupFor(cmp, data, groups, k);
        AlikeEquivalence(cmp, groups[i].rep, data[k], data[k]);
        assert groups[i].rep in Reps(groups);
      }
    } else {
      RepsInData(cmp, data, groups);
    }
  }

  lemma RepsInData(cmp: Compare, data: Data, groups: seq<Group>)
    requires GroupsOk(cmp, data, groups)
    ensures forall a :: a in Reps(groups) ==> a.key in data && data[a.key] == a
  {
    hide GroupsOk, ClassOf, KeySet;
    forall a | a in Reps(groups)
      ensures a.key in data && data[a.key] == a
    {
      var i :| 0 <= i < |groups| && groups[i].rep == a;
      GroupAt(cmp, data, groups, i);
    }
  }

  /** The groups only grow, and keep their representatives. */
  ghost predicate Extends(groups: seq<Group>, groups': seq<Group>) {
    forall i :: 0 <= i < |groups| ==>
      exists j :: 0 <= j < |groups'| && groups'[j].rep == groups[i].rep && |groups'[j].keys| >= |groups[i].keys|
  }

  /** A verdict by majority comes from a representative. */
  lemma MajorityIsRep(groups: seq<Group>, data: Data, n: nat, r: Answer)
    requires VerdictOk(groups, data, n, Majority, r)
    ensures r in Reps(groups)
  {
    var i :| Elected(groups, data, n, i, r);
    assert HasQuorum(groups, n, i) && groups[i].rep in Reps(groups);
  }

  /** A verdict given before the last answer stays right when another answer comes. */
  lemma VerdictStays(groups: seq<Group>, data: Data, n: nat, kind: Kind, r: Answer, groups': seq<Group>, data': Data)
    requires VerdictOk(groups, data, n, kind, r) && |data| < n
    requires Extends(groups, groups')
    ensures VerdictOk(groups', data', n, kind, r)
  {
    var i :| Elected(groups, data, n, i, r);
    assert HasQuorum(groups, n, i) && r == groups[i].rep;
    var j :| 0 <= j < |groups'| && groups'[j].rep == groups[i].rep && |groups'[j].keys| >= |groups[i].keys|;
    assert Elected(groups', data', n, j, r);
  }

  lemma StateStays(groups: seq<Group>, data: Data, n: nat, kind: Option<Kind>, r: Answer, groups': seq<Group>,
      data': Data)
    requires State(groups, data, n, kind, Some(r)) && |data| < n && Extends(groups, groups')
    ensures State(groups', data', n, kind, Some(r))
  {
    hide VerdictOk, Extends;
    VerdictStays(groups, data, n, kind.value, r, groups', data');
  }

  /** A single answer among several executors decides nothing. */
  lemma FirstAnswer(groups: seq<Group>, data: Data, n: nat)
    requires |data| == 1 < n
    ensures State(groups, data, n, None, None)
  {
  }

  lemma KindUndecided(groups: seq<Group>, data: Data, n: nat, kind: Option<Kind>)
    requires State(groups, data, n, kind, None)
    ensures kind == None && |data| < n
  {
  }
}
