/** The judge of requests that the executors send to a backend service: the requests of one session
    are collected, one of them is sent on, and the backend's response answers them all. */
module JudgeProtocol {
  import opened Wrappers

  /** The address of an executor, as the header Mimic-Host gives it. */
  datatype Addr = Addr(text: string)

  const DEFAULT_TIMEOUT := "/default_timeout"

  datatype Response = Response(status: nat, body: string)

  /** What a waiting executor is told: that there is no judgement, or what the backend said. */
  datatype Answer = NoJudge | Backend(response: Response)

  datatype Reply = Reply(sn: nat, answer: Answer)

  /** An item to be judged: a request under its serial number, or the stand-in for one that is late. */
  datatype Data = Data(execAddr: Addr, urlfull: string, sn: Option<nat>)

  datatype Request = Request(sid: string, host: Addr, servers: seq<Addr>, urlfull: string)

  /** What the surroundings decide while an item is processed: whether the comparison gives a verdict
      early, and whether the chosen request can be sent. */
  datatype Luck = Luck(verdict: bool, sent: bool)

  predicate IsTimeout(d: Data) { d.urlfull == DEFAULT_TIMEOUT }

  function StandIn(a: Addr): (d: Data)
    ensures IsTimeout(d) && d.sn == None && d.execAddr == a
  {
    Data(a, DEFAULT_TIMEOUT, None)
  }

  function GatewayTimeout(): Response { Response(504, "{\"request_msg\":\"Gateway Time Out\"}") }

  /** What request `sn` was told, in order. */
  ghost function RepliesTo(log: seq<Reply>, sn: nat): seq<Answer> {
    if log == [] then []
    else RepliesTo(log[..|log| - 1], sn) + (if log[|log| - 1].sn == sn then [log[|log| - 1].answer] else [])
  }

  lemma RepliesAfter(log: seq<Reply>, r: Reply, sn: nat)
    ensures RepliesTo(log + [r], sn) == RepliesTo(log, sn) + if r.sn == sn then [r.answer] else []
  {
    assert (log + [r])[..|log|] == log;
  }

  ghost function Hosts(list: seq<Data>): set<Addr> {
    set i | 0 <= i < |list| && list[i].sn.Some? :: list[i].execAddr
  }

  ghost predicate Holds(list: seq<Data>, sn: nat) {
    exists i :: 0 <= i < |list| && list[i].sn == Some(sn)
  }

  /** Requests of different serial numbers come from different hosts. */
  ghost predicate OneEach(list: seq<Data>) {
    forall i, j :: 0 <= i < j < |list| && list[i].sn.Some? && list[j].sn.Some? ==>
      list[i].execAddr != list[j].execAddr && list[i].sn != list[j].sn
  }

  ghost predicate Distinct(s: seq<Addr>) {
    forall i, j :: 0 <= i < j < |s| ==> s[i] != s[j]
  }

  function Addresses(list: seq<Data>): (s: seq<Addr>)
    ensures |s| == |list| && forall i :: 0 <= i < |s| ==> s[i] == list[i].execAddr
  {
    seq(|list|, i requires 0 <= i < |list| => list[i].execAddr)
  }

  // ----- the addresses that are late -----

  ghost function Missing(servers: seq<Addr>, come: seq<Addr>): seq<Addr> {
    if servers == [] then [] else
    var a := servers[|servers| - 1];
    Missing(servers[..|servers| - 1], come) + if a in come then [] else [a]
  }

  ghost function Elements(s: seq<Addr>): set<Addr> { set a | a in s }

  lemma {:induction false} DistinctSize(s: seq<Addr>)
    requires Distinct(s)
    ensures |Elements(s)| == |s|
  {
    if s != [] {
      var t := s[..|s| - 1];
      DistinctSize(t);
      assert s == t + [s[|s| - 1]];
      assert Elements(s) == Elements(t) + {s[|s| - 1]};
    }
  }

  lemma SameSize(s: set<Addr>, t: set<Addr>)
    requires s <= t && |s| == |t|
    ensures s == t
  {
    assert t == s + (t - s);
  }

  lemma {:induction false} MissingIs(servers: seq<Addr>, come: seq<Addr>)
    ensures forall a :: a in Missing(servers, come) <==> a in servers && a !in come
    ensures Distinct(servers) ==> Distinct(Missing(servers, come))
  {
    if servers != [] {
      var t, a := servers[..|servers| - 1], servers[|servers| - 1];
      MissingIs(t, come);
      assert servers == t + [a];
      if Distinct(servers) {
        assert a !in t;
        DistinctMore(Missing(t, come), if a in come then [] else [a]);
      }
    }
  }

  lemma DistinctMore(s: seq<Addr>, t: seq<Addr>)
    requires Distinct(s) && Distinct(t) && forall a :: a in s ==> a !in t
    ensures Distinct(s + t)
  {
    forall i, j | 0 <= i < j < |s + t| ensures (s + t)[i] != (s + t)[j] {
      if i < |s| <= j {
        assert s[i] in s && t[j - |s|] in t;
      }
    }
  }

  /** Different addresses, some of which have come: the late ones complete them. */
  lemma MissingCompletes(servers: seq<Addr>, come: seq<Addr>)
    requires Distinct(servers) && Distinct(come) && Elements(come) <= Elements(servers)
    ensures |come| + |Missing(servers, come)| == |servers|
  {
    var late := Missing(servers, come);
    MissingIs(servers, come);
    DistinctSize(servers);
    DistinctSize(come);
    DistinctSize(late);
    forall a ensures a in Elements(servers) <==> a in Elements(come) + Elements(late) {
      assert a in come ==> a in Elements(come);
    }
    assert Elements(servers) == Elements(come) + Elements(late);
    assert Elements(come) !! Elements(late);
  }

  // ----- what is kept for each item -----

  /** A request waits until it gets the backend's response, once; a stand-in gets nothing. */
  ghost predicate ItemOk(d: Data, ok: map<Addr, bool>, resp: Option<Response>, log: seq<Reply>) {
    if d.sn.None? then IsTimeout(d)
    else
      d.execAddr in ok && (ok[d.execAddr] ==> resp.Some? && !IsTimeout(d)) &&
      RepliesTo(log, d.sn.value) == if ok[d.execAddr] then [Backend(resp.value)] else []
  }

  ghost predicate Matches(list: seq<Data>, ok: map<Addr, bool>, resp: Option<Response>, log: seq<Reply>) {
    ok.Keys == Hosts(list) && OneEach(list) && forall i :: 0 <= i < |list| ==> ItemOk(list[i], ok, resp, log)
  }

  ghost predicate AllOk(ok: map<Addr, bool>) {
    forall h :: h in ok ==> ok[h]
  }

  /** Once the backend has responded, every request has been answered but those for the path of a stand-in. */
  ghost predicate Answered(list: seq<Data>, ok: map<Addr, bool>) {
    forall i :: 0 <= i < |list| && list[i].sn.Some? && !IsTimeout(list[i]) ==>
      list[i].execAddr in ok && ok[list[i].execAddr]
  }

  /** What the requests outside the list were told does not change. */
  ghost predicate OnlyThese(list: seq<Data>, log: seq<Reply>, log': seq<Reply>) {
    forall s :: !Holds(list, s) ==> RepliesTo(log', s) == RepliesTo(log, s)
  }

  lemma OnlyTheseNone(list: seq<Data>, log: seq<Reply>)
    ensures OnlyThese(list, log, log)
  {
  }

  lemma OnlyTheseTwice(list: seq<Data>, log: seq<Reply>, log': seq<Reply>, log'': seq<Reply>)
    requires OnlyThese(list, log, log') && OnlyThese(list, log', log'')
    ensures OnlyThese(list, log, log'')
  {
    hide RepliesTo, Holds;
  }

  /** Before the response nothing has been answered. */
  lemma Unanswered(list: seq<Data>, ok: map<Addr, bool>, response: Response, log: seq<Reply>)
    requires Matches(list, ok, None, log)
    ensures Matches(list, ok, Some(response), log)
  {
    hide RepliesTo, IsTimeout;
    forall j | 0 <= j < |list| ensures ItemOk(list[j], ok, Some(response), log) {
      assert ItemOk(list[j], ok, None, log);
    }
  }

  lemma AnswerOne(list: seq<Data>, i: nat, ok: map<Addr, bool>, resp: Option<Response>, log: seq<Reply>)
    requires Matches(list, ok, resp, log) && resp.Some? && i < |list| && list[i].sn.Some? && !IsTimeout(list[i])
    requires !ok[list[i].execAddr]
    ensures
      var d := list[i];
      var log' := log + [Reply(d.sn.value, Backend(resp.value))];
      Matches(list, ok[d.execAddr := true], resp, log') && OnlyThese(list, log, log')
  {
    hide RepliesTo, IsTimeout;
    var d := list[i];
    var r := Reply(d.sn.value, Backend(resp.value));
    forall s ensures RepliesTo(log + [r], s) == RepliesTo(log, s) + if r.sn == s then [r.answer] else [] {
      RepliesAfter(log, r, s);
    }
    forall j | 0 <= j < |list| ensures ItemOk(list[j], ok[d.execAddr := true], resp, log + [r]) {
      assert ItemOk(list[j], ok, resp, log);
    }
  }

  /** With a server list free of repetition no address has two items, and stand-ins complete the list. */
  ghost predicate Addressed(list: seq<Data>, servers: seq<Addr>, timer: bool) {
    (timer ==> list != []) && Elements(Addresses(list)) <= Elements(servers) &&
    (Distinct(servers) ==> Distinct(Addresses(list))) &&
    (Distinct(servers) && 0 < |list| < |servers| ==>
      timer && forall i :: 0 <= i < |list| ==> list[i].sn.Some?)
  }

  function StandIns(late: seq<Addr>): (list: seq<Data>)
    ensures |list| == |late| && forall i :: 0 <= i < |late| ==> list[i] == StandIn(late[i])
  {
    seq(|late|, i requires 0 <= i < |late| => StandIn(late[i]))
  }

  lemma HostsAfter(list: seq<Data>, d: Data)
    ensures Hosts(list + [d]) == Hosts(list) + if d.sn.Some? then {d.execAddr} else {}
  {
    var list' := list + [d];
    assert list'[|list|] == d;
    forall h ensures h in Hosts(list) ==> h in Hosts(list') {
      if h in Hosts(list) {
        var i :| 0 <= i < |list| && list[i].sn.Some? && list[i].execAddr == h;
        assert list'[i] == list[i];
      }
    }
  }

  /** A stand-in waits for no answer. */
  lemma StandInMatches(list: seq<Data>, a: Addr, ok: map<Addr, bool>, resp: Option<Response>, log: seq<Reply>)
    requires Matches(list, ok, resp, log)
    ensures Matches(list + [StandIn(a)], ok, resp, log)
  {
    hide RepliesTo;
    HostsAfter(list, StandIn(a));
  }

  lemma HoldsAfter(list: seq<Data>, d: Data)
    ensures forall s: nat :: Holds(list + [d], s) <==> Holds(list, s) || d.sn == Some(s)
  {
    var list' := list + [d];
    assert list'[|list|] == d;
    forall s: nat ensures Holds(list, s) ==> Holds(list', s) {
      if Holds(list, s) {
        var i :| 0 <= i < |list| && list[i].sn == Some(s);
        assert list'[i] == list[i];
      }
    }
  }

  lemma AdmitMatches(list: seq<Data>, d: Data, ok: map<Addr, bool>, resp: Option<Response>, log: seq<Reply>)
    requires Matches(list, ok, resp, log) && d.sn.Some? && d.execAddr !in ok
    requires !Holds(list, d.sn.value) && RepliesTo(log, d.sn.value) == []
    ensures Matches(list + [d], ok[d.execAddr := false], resp, log) && d.execAddr !in Hosts(list)
  {
    hide RepliesTo;
    HostsAfter(list, d);
    var list', ok' := list + [d], ok[d.execAddr := false];
    forall i | 0 <= i < |list'| ensures ItemOk(list'[i], ok', resp, log) {
      if i < |list| {
        assert ItemOk(list[i], ok, resp, log);
        if list[i].sn.Some? { assert list[i].execAddr in Hosts(list); }
      }
    }
    forall i | 0 <= i < |list| && list[i].sn.Some?
      ensures list[i].execAddr != d.execAddr && list[i].sn != d.sn
    {
      assert list[i].execAddr in Hosts(list);
    }
  }

  lemma AdmitAddressed(list: seq<Data>, d: Data, servers: seq<Addr>, timer: bool, timer': bool)
    requires Addressed(list, servers, timer) && d.sn.Some? && d.execAddr in servers && d.execAddr !in Hosts(list)
    requires |list| < |servers| && (|list| + 1 < |servers| ==> timer' == (timer || |list| == 0))
    ensures Addressed(list + [d], servers, timer')
  {
    var come := Addresses(list);
    assert Addresses(list + [d]) == come + [d.execAddr];
    assert forall a :: a in come ==> a in Elements(come);
    if Distinct(servers) {
      assert d.execAddr !in come;
      DistinctMore(come, [d.execAddr]);
    }
  }

  lemma OthersMatch(list: seq<Data>, ok: map<Addr, bool>, resp: Option<Response>, log: seq<Reply>, other: seq<Data>,
      log': seq<Reply>)
    requires Matches(list, ok, resp, log) && OnlyThese(other, log, log')
    requires forall s :: Holds(list, s) ==> !Holds(other, s)
    ensures Matches(list, ok, resp, log')
  {
    hide RepliesTo, IsTimeout;
    forall i | 0 <= i < |list| ensures ItemOk(list[i], ok, resp, log') {
      assert ItemOk(list[i], ok, resp, log);
      if list[i].sn.Some? { assert Holds(list, list[i].sn.value); }
    }
  }

  lemma NoMoreHeld(list: seq<Data>, list': seq<Data>, log: seq<Reply>, log': seq<Reply>)
    requires list <= list' && forall i :: |list| <= i < |list'| ==> list'[i].sn.None?
    requires OnlyThese(list', log, log')
    ensures OnlyThese(list, log, log')
  {
    hide RepliesTo;
    assert forall s :: Holds(list', s) ==> Holds(list, s);
  }

  lemma StillOnlyThese(list: seq<Data>, list': seq<Data>, log: seq<Reply>, log': seq<Reply>, log'': seq<Reply>)
    requires list <= list' && forall i :: |list| <= i < |list'| ==> list'[i].sn.None?
    requires OnlyThese(list, log, log') && OnlyThese(list', log', log'')
    ensures OnlyThese(list, log, log'')
  {
    hide OnlyThese;
    NoMoreHeld(list, list', log', log'');
    OnlyTheseTwice(list, log, log', log'');
  }

  lemma SameHeld(list: seq<Data>, list': seq<Data>, log: seq<Reply>, log': seq<Reply>)
    requires list <= list' && forall i :: |list| <= i < |list'| ==> list'[i].sn.None?
    requires OnlyThese(list, log, log')
    ensures OnlyThese(list', log, log') && forall s: nat :: Holds(list, s) <==> Holds(list', s)
  {
    hide RepliesTo;
    forall s: nat ensures Holds(list, s) ==> Holds(list', s) {
      if Holds(list, s) {
        var i :| 0 <= i < |list| && list[i].sn == Some(s);
        assert list'[i] == list[i];
      }
    }
  }

  lemma TimerSet(list: seq<Data>, servers: seq<Addr>)
    requires Addressed(list, servers, true)
    ensures list != []
  {
  }

  lemma TimerGone(list: seq<Data>, servers: seq<Addr>)
    requires Addressed(list, servers, true) && |list| == |servers|
    ensures Addressed(list, servers, false)
  {
  }

  lemma StandInsComplete(list: seq<Data>, servers: seq<Addr>, k: nat)
    requires Addressed(list, servers, true)
    requires
      var late := Missing(servers, Addresses(list));
      k <= |late| && (k < |late| ==> |list| + k >= |servers|)
    ensures
      var list' := list + StandIns(Missing(servers, Addresses(list))[..k]);
      Addressed(list', servers, false) && (Distinct(servers) ==> |list'| == |servers|)
  {
    var come, late := Addresses(list), Missing(servers, Addresses(list));
    MissingIs(servers, come);
    var list' := list + StandIns(late[..k]);
    assert Addresses(list') == come + late[..k];
    assert forall a :: a in come ==> a in Elements(come);
    assert forall a :: a in late[..k] ==> a in late;
    if Distinct(servers) {
      MissingCompletes(servers, come);
      assert late[..k] == late;
      DistinctMore(come, late);
    }
  }

  // ----- a session as a value -----

  datatype Session = Session(
    servers: seq<Addr>, items: seq<Data>, judged: bool, timer: bool, pending: bool, resp: Option<Response>)

  ghost function NewSession(servers: seq<Addr>): Session {
    Session(servers, [], false, false, false, None)
  }

  /** A request for the path that marks a stand-in is among the items. */
  ghost predicate AsksForStandIn(list: seq<Data>) {
    exists i :: 0 <= i < |list| && list[i].sn.Some? && IsTimeout(list[i])
  }

  /** Each place of the server list has an item, and every request can be answered. */
  ghost predicate Done(x: Session) {
    |x.items| == |x.servers| && x.resp.Some? && !AsksForStandIn(x.items)
  }

  ghost predicate Admissible(x: Session, host: Addr) {
    host in x.servers && |x.items| != |x.servers| && host !in Hosts(x.items)
  }

  /** The end of a session stops its timer. */
  ghost function Ended(x: Session): Session {
    x.(timer := x.timer && !Done(x))
  }

  /** The session with one more item, of which one is chosen to be sent to the backend. */
  ghost function Take(x: Session, d: Data, luck: Luck): Session {
    var items := x.items + [d];
    var chosen := !x.judged && (|items| == |x.servers| || (|items| > 1 && luck.verdict));
    Ended(Session(x.servers, items, x.judged || chosen, x.timer || |items| == 1,
                  if chosen then luck.sent else x.pending,
                  if chosen && !luck.sent then Some(GatewayTimeout()) else x.resp))
  }

  ghost function Fill(x: Session, late: seq<Addr>, luck: nat -> Luck): Session
    decreases |late|
  {
    if late == [] || |x.items| >= |x.servers| then x
    else Fill(Take(x, StandIn(late[0]), luck(|x.items| + 1)), late[1..], luck)
  }

  lemma FillStep(x: Session, late: seq<Addr>, i: nat, luck: nat -> Luck)
    requires i < |late|
    ensures |x.items| < |x.servers| ==>
      Fill(x, late[i..], luck) == Fill(Take(x, StandIn(late[i]), luck(|x.items| + 1)), late[i + 1..], luck)
  {
    hide Take;
    assert late[i..][1..] == late[i + 1..];
  }

  lemma FillEnd(x: Session, late: seq<Addr>, luck: nat -> Luck)
    requires late == [] || |x.items| >= |x.servers|
    ensures Fill(x, late, luck) == x
  {
  }

  ghost function Expire(x: Session, luck: nat -> Luck): Session {
    var y := x.(timer := false);
    if |x.items| == |x.servers| then y else Fill(y, Missing(x.servers, Addresses(x.items)), luck)
  }

  ghost function Responded(x: Session, response: Response): Session {
    Ended(x.(pending := false, resp := Some(response)))
  }

  /** All requests have been answered exactly when none of them was for a stand-in. */
  lemma AllOkWhen(list: seq<Data>, ok: map<Addr, bool>, resp: Option<Response>, log: seq<Reply>)
    requires Matches(list, ok, resp, log) && Answered(list, ok)
    ensures AllOk(ok) <==> !AsksForStandIn(list)
  {
    hide RepliesTo, IsTimeout;
    forall i | 0 <= i < |list| && list[i].sn.Some?
      ensures list[i].execAddr in ok && (ok[list[i].execAddr] <==> !IsTimeout(list[i]))
    {
      assert ItemOk(list[i], ok, resp, log);
    }
    forall h | h in ok
      ensures exists i :: 0 <= i < |list| && list[i].sn.Some? && list[i].execAddr == h
    {
      assert h in Hosts(list);
    }
  }

  class JudgeTask {
    const jthread: Jthread
    const sid: string
    const serverarray: seq<Addr>
    var judgeDataList: seq<Data>
    var judged: bool
    var judgeNum: nat
    var respIsOk: map<Addr, bool>
    var backendResp: Option<Response>
    var isRespStared: bool
    /** The timer is set; a request is under way to the backend; the task is out of the list. */
    var timer: bool
    var pending: bool
    ghost var released: bool

    constructor (jthread: Jthread, sid: string, serverarray: seq<Addr>)
      ensures this.jthread == jthread && this.sid == sid && this.serverarray == serverarray
      ensures judgeDataList == [] && respIsOk == map[] && judgeNum == 0 && !judged && backendResp == None
      ensures !isRespStared && !timer && !pending && !released
    {
      this.jthread, this.sid, this.serverarray := jthread, sid, serverarray;
      judgeDataList, respIsOk, judgeNum, judged, backendResp := [], map[], 0, false, None;
      isRespStared, timer, pending, released := false, false, false, false;
    }

    ghost predicate Live()
      reads this, jthread
    {
      !released && sid in jthread.taskList && jthread.taskList[sid] == this
    }

    ghost function Value(): Session
      reads this
    {
      Session(serverarray, judgeDataList, judged, timer, pending, backendResp)
    }

    lemma DoneWhenReleased(log: seq<Reply>)
      requires Flags() && judgeNum == |judgeDataList| && Matches(judgeDataList, respIsOk, backendResp, log)
      requires backendResp.Some? ==> Answered(judgeDataList, respIsOk)
      ensures released <==> Done(Value())
    {
      hide Matches, Answered, AllOk, AsksForStandIn;
      if backendResp.Some? { AllOkWhen(judgeDataList, respIsOk, backendResp, log); }
    }

    /** The flags of the protocol while an item is processed. */
    ghost predicate Course()
      reads this
    {
      (judged <==> pending || backendResp.Some?) && !(pending && backendResp.Some?) &&
      (isRespStared <==> backendResp.Some?)
    }

    /** The flags of the protocol between two events. */
    ghost predicate Flags()
      reads this
    {
      Course() && (released ==> !timer) && (0 < |judgeDataList| == |serverarray| ==> judged) &&
      (released <==> judgeNum == |serverarray| && isRespStared && AllOk(respIsOk))
    }

    ghost predicate Settled(log: seq<Reply>)
      reads this
    {
      judgeNum == |judgeDataList| <= |serverarray| && Flags() &&
      Matches(judgeDataList, respIsOk, backendResp, log) &&
      (backendResp.Some? ==> Answered(judgeDataList, respIsOk)) &&
      Addressed(judgeDataList, serverarray, timer)
    }

    /** Takes an item in: the first sets the timer, one has the verdict, and each asks for the answers. */
    method ProcessJudgeData(d: Data, luck: Luck)
      requires Live() && Course() && judgeNum == |judgeDataList| < |serverarray|
      requires Matches(judgeDataList + [d], respIsOk, backendResp, jthread.replies)
      modifies this, jthread`taskList, jthread`replies
      ensures judgeDataList == old(judgeDataList) + [d] && judgeNum == |judgeDataList| && Flags()
      ensures judged == (old(judged) || |judgeDataList| == |serverarray| || (|judgeDataList| > 1 && luck.verdict))
      ensures judged && !old(judged) ==> pending == luck.sent && (!luck.sent ==> backendResp == Some(GatewayTimeout()))
      ensures old(judged) ==> pending == old(pending) && backendResp == old(backendResp)
      ensures Matches(judgeDataList, respIsOk, backendResp, jthread.replies)
      ensures backendResp.Some? ==> Answered(judgeDataList, respIsOk)
      ensures timer == ((old(timer) || |judgeDataList| == 1) && !released) && respIsOk.Keys == old(respIsOk.Keys)
      ensures jthread.taskList == if released then old(jthread.taskList) - {sid} else old(jthread.taskList)
      ensures OnlyThese(judgeDataList, old(jthread.replies), jthread.replies)
      ensures Value() == Take(old(Value()), d, luck) && (released <==> Done(Value()))
    {
      hide Matches, Answered, AllOk, OnlyThese, RepliesTo, Holds, AsksForStandIn;
      judgeDataList := judgeDataList + [d];
      if |judgeDataList| == 1 { timer := true; }
      OnlyTheseNone(judgeDataList, jthread.replies);
      var ret := JudgeData(luck.verdict);
      if ret { SendToBackend(luck.sent); }
      ghost var log := jthread.replies;
      ResponseToFrondReq(true);
      OnlyTheseTwice(judgeDataList, old(jthread.replies), log, jthread.replies);
      DoneWhenReleased(jthread.replies);
    }

    /** The comparison gives one verdict: not on the first of several items, and no later than on the last. */
    method JudgeData(verdict: bool) returns (ret: bool)
      modifies `judged
      ensures ret <==> !old(judged) && (|judgeDataList| == |serverarray| || (|judgeDataList| > 1 && verdict))
      ensures judged == (old(judged) || ret)
    {
      ret := !judged && (|judgeDataList| == |serverarray| || (|judgeDataList| > 1 && verdict));
      judged := judged || ret;
    }

    method SendToBackend(sent: bool)
      requires Live() && Matches(judgeDataList, respIsOk, backendResp, jthread.replies)
      requires !isRespStared && backendResp.None? && !pending && judgeNum != |serverarray|
      modifies this`backendResp, this`pending, this`judgeNum, this`isRespStared, this`respIsOk, this`released,
          this`timer, jthread`taskList, jthread`replies
      ensures Live() && Matches(judgeDataList, respIsOk, backendResp, jthread.replies)
      ensures if sent then pending && backendResp == None && !isRespStared
        else !pending && backendResp == Some(GatewayTimeout()) && isRespStared
      ensures judgeNum == old(judgeNum) && timer == old(timer) && respIsOk.Keys == old(respIsOk.Keys)
      ensures jthread.taskList == old(jthread.taskList)
      ensures OnlyThese(judgeDataList, old(jthread.replies), jthread.replies)
    {
      hide Matches, Answered, AllOk, OnlyThese;
      if sent {
        pending := true;
        OnlyTheseNone(judgeDataList, jthread.replies);
      } else {
        Respond(GatewayTimeout());
      }
    }

    /** The response is there, be it the backend's or the stand-in for one that cannot be had. */
    method Respond(response: Response)
      requires Live() && Matches(judgeDataList, respIsOk, backendResp, jthread.replies) && backendResp.None?
      modifies this`backendResp, this`judgeNum, this`isRespStared, this`respIsOk, this`released, this`timer,
          jthread`taskList, jthread`replies
      ensures Matches(judgeDataList, respIsOk, backendResp, jthread.replies) && Answered(judgeDataList, respIsOk)
      ensures backendResp == Some(response) && isRespStared && judgeNum == old(judgeNum)
      ensures released <==> judgeNum == |serverarray| && AllOk(respIsOk)
      ensures timer == (old(timer) && !released) && respIsOk.Keys == old(respIsOk.Keys)
      ensures jthread.taskList == if released then old(jthread.taskList) - {sid} else old(jthread.taskList)
      ensures OnlyThese(judgeDataList, old(jthread.replies), jthread.replies)
    {
      hide Matches, Answered, AllOk, OnlyThese;
      Unanswered(judgeDataList, respIsOk, response, jthread.replies);
      backendResp := Some(response);
      ResponseToFrondReq(false);
    }

    /** The backend answers, or fails to. */
    method BackendRespCb(response: Response)
      requires Live() && Settled(jthread.replies) && pending
      modifies this, jthread`taskList, jthread`replies
      ensures Settled(jthread.replies) && !pending && backendResp == Some(response)
      ensures judgeDataList == old(judgeDataList)
      ensures jthread.taskList == if released then old(jthread.taskList) - {sid} else old(jthread.taskList)
      ensures OnlyThese(judgeDataList, old(jthread.replies), jthread.replies)
      ensures Value() == Responded(old(Value()), response) && (released <==> Done(Value()))
    {
      hide Matches, Answered, AllOk, OnlyThese, Distinct, Elements, AsksForStandIn;
      pending := false;
      Respond(response);
      DoneWhenReleased(jthread.replies);
    }

    method ProcessStandIn(a: Addr, luck: Luck)
      requires Live() && Course() && judgeNum == |judgeDataList| < |serverarray|
      requires Matches(judgeDataList, respIsOk, backendResp, jthread.replies)
      modifies this, jthread`taskList, jthread`replies
      ensures judgeDataList == old(judgeDataList) + [StandIn(a)] && judgeNum == |judgeDataList| && Flags()
      ensures Matches(judgeDataList, respIsOk, backendResp, jthread.replies)
      ensures backendResp.Some? ==> Answered(judgeDataList, respIsOk)
      ensures timer == ((old(timer) || |judgeDataList| == 1) && !released)
      ensures jthread.taskList == if released then old(jthread.taskList) - {sid} else old(jthread.taskList)
      ensures OnlyThese(old(judgeDataList), old(jthread.replies), jthread.replies)
      ensures Value() == Take(old(Value()), StandIn(a), luck) && (released <==> Done(Value()))
    {
      hide Matches, Answered, AllOk, OnlyThese, RepliesTo, Holds, Take, Done;
      StandInMatches(judgeDataList, a, respIsOk, backendResp, jthread.replies);
      ProcessJudgeData(StandIn(a), luck);
      NoMoreHeld(old(judgeDataList), judgeDataList, old(jthread.replies), jthread.replies);
    }

    /** The timer fires: each address that is late gets a stand-in. */
    method JudgeTimeoutCb(luck: nat -> Luck)
      requires Live() && Settled(jthread.replies) && timer
      modifies this, jthread`taskList, jthread`replies
      ensures Settled(jthread.replies) && !timer && old(judgeDataList) <= judgeDataList
      ensures forall i :: |old(judgeDataList)| <= i < |judgeDataList| ==> judgeDataList[i].sn.None?
      ensures Distinct(serverarray) ==> |judgeDataList| == |serverarray|
      ensures jthread.taskList == if released then old(jthread.taskList) - {sid} else old(jthread.taskList)
      ensures OnlyThese(old(judgeDataList), old(jthread.replies), jthread.replies)
      ensures Value() == Expire(old(Value()), luck) && (released <==> Done(Value()))
    {
      hide Matches, Answered, AllOk, OnlyThese, Distinct, Elements, Missing, RepliesTo, Holds, Addressed, Take, Done,
           Fill;
      TimerSet(judgeDataList, serverarray);
      timer := false;
      OnlyTheseNone(judgeDataList, jthread.replies);
      if |judgeDataList| == |serverarray| {
        TimerGone(judgeDataList, serverarray);
        DoneWhenReleased(jthread.replies);
        return;
      }
      ghost var list := judgeDataList;
      var come := Addresses(judgeDataList);
      var late := NotCome(come);
      DoneWhenReleased(jthread.replies);
      ghost var i := StandInForLate(late, luck);
      StandInsComplete(list, serverarray, i);
    }

    /** Stand-ins for the late addresses, in order, until the list is full. */
    method StandInForLate(late: seq<Addr>, luck: nat -> Luck) returns (ghost i: nat)
      requires Live() && Flags() && !timer && 0 < judgeNum == |judgeDataList| < |serverarray| && !Done(Value())
      requires Matches(judgeDataList, respIsOk, backendResp, jthread.replies)
      requires backendResp.Some? ==> Answered(judgeDataList, respIsOk)
      modifies this, jthread`taskList, jthread`replies
      ensures i <= |late| && (i < |late| ==> |judgeDataList| >= |serverarray|)
      ensures judgeDataList == old(judgeDataList) + StandIns(late[..i]) && judgeNum == |judgeDataList| <= |serverarray|
      ensures Flags() && !timer && Matches(judgeDataList, respIsOk, backendResp, jthread.replies)
      ensures backendResp.Some? ==> Answered(judgeDataList, respIsOk)
      ensures Value() == Fill(old(Value()), late, luck) && (released <==> Done(Value()))
      ensures jthread.taskList == if released then old(jthread.taskList) - {sid} else old(jthread.taskList)
      ensures OnlyThese(old(judgeDataList), old(jthread.replies), jthread.replies)
    {
      hide Matches, Answered, AllOk, OnlyThese, RepliesTo, Holds, Take, Done, Fill;
      OnlyTheseNone(judgeDataList, jthread.replies);
      var coutp := |judgeDataList|;
      var n := 0;
      assert late[0..] == late;
      while n < |late|
        invariant 0 <= n <= |late| && coutp == |old(judgeDataList)| + n < |serverarray| && Live() && Flags() && !timer
        invariant Fill(Value(), late[n..], luck) == Fill(old(Value()), late, luck) && (released <==> Done(Value()))
        invariant judgeDataList == old(judgeDataList) + StandIns(late[..n]) && judgeNum == |judgeDataList|
        invariant Matches(judgeDataList, respIsOk, backendResp, jthread.replies)
        invariant backendResp.Some? ==> Answered(judgeDataList, respIsOk)
        invariant jthread.taskList == old(jthread.taskList)
        invariant OnlyThese(old(judgeDataList), old(jthread.replies), jthread.replies)
      {
        coutp := coutp + 1;
        assert late[..n + 1] == late[..n] + [late[n]];
        ghost var log, before := jthread.replies, Value();
        ProcessStandIn(late[n], luck(coutp));
        assert StandIns(late[..n + 1]) == StandIns(late[..n]) + [StandIn(late[n])];
        StillOnlyThese(old(judgeDataList), before.items, old(jthread.replies), log, jthread.replies);
        FillStep(before, late, n, luck);
        n := n + 1;
        if coutp >= |serverarray| { break; }
      }
      FillEnd(Value(), late[n..], luck);
      i := n;
    }

    method NotCome(come: seq<Addr>) returns (late: seq<Addr>)
      ensures late == Missing(serverarray, come)
    {
      late := [];
      var i := 0;
      while i < |serverarray|
        invariant 0 <= i <= |serverarray| && late == Missing(serverarray[..i], come)
      {
        assert serverarray[..i + 1][..i] == serverarray[..i];
        if serverarray[i] !in come { late := late + [serverarray[i]]; }
        i := i + 1;
      }
      assert serverarray[..i] == serverarray;
    }

    /** Answers the requests that wait, if the backend has responded, and releases the task after the last. */
    method ResponseToFrondReq(isFromProcess: bool)
      requires Live() && Matches(judgeDataList, respIsOk, backendResp, jthread.replies)
      requires isRespStared || !isFromProcess ==> backendResp.Some?
      modifies this`judgeNum, this`isRespStared, this`respIsOk, this`released, this`timer, jthread`taskList,
          jthread`replies
      ensures Matches(judgeDataList, respIsOk, backendResp, jthread.replies)
      ensures backendResp.Some? ==> Answered(judgeDataList, respIsOk)
      ensures judgeNum == old(judgeNum) + (if isFromProcess then 1 else 0)
      ensures isRespStared == (old(isRespStared) || !isFromProcess)
      ensures released <==> judgeNum == |serverarray| && isRespStared && AllOk(respIsOk)
      ensures backendResp.None? ==> jthread.replies == old(jthread.replies)
      ensures timer == (old(timer) && !released) && respIsOk.Keys == old(respIsOk.Keys)
      ensures jthread.taskList == if released then old(jthread.taskList) - {sid} else old(jthread.taskList)
      ensures OnlyThese(judgeDataList, old(jthread.replies), jthread.replies)
    {
      hide Matches, Answered, RepliesTo;
      if isFromProcess { judgeNum := judgeNum + 1; } else { isRespStared := true; }
      if backendResp.None? { return; }
      if sid !in jthread.taskList { return; }
      AnswerAll();
      var isallresp := forall h :: h in respIsOk ==> respIsOk[h];
      if judgeNum == |serverarray| && isallresp && isRespStared {
        jthread.ClearTask(sid);
        released, timer := true, false;
      }
    }

    method AnswerAll()
      requires Matches(judgeDataList, respIsOk, backendResp, jthread.replies) && backendResp.Some?
      modifies this`respIsOk, jthread`replies
      ensures Matches(judgeDataList, respIsOk, backendResp, jthread.replies) && Answered(judgeDataList, respIsOk)
      ensures OnlyThese(judgeDataList, old(jthread.replies), jthread.replies) && respIsOk.Keys == old(respIsOk.Keys)
    {
      hide RepliesTo, Holds, OnlyThese, IsTimeout, OneEach, Hosts;
      OnlyTheseNone(judgeDataList, jthread.replies);
      var i := 0;
      while i < |judgeDataList|
        invariant 0 <= i <= |judgeDataList| && Matches(judgeDataList, respIsOk, backendResp, jthread.replies)
        invariant Answered(judgeDataList[..i], respIsOk) && respIsOk.Keys == old(respIsOk.Keys)
        invariant OnlyThese(judgeDataList, old(jthread.replies), jthread.replies)
      {
        var d := judgeDataList[i];
        if !IsTimeout(d) {
          assert ItemOk(d, respIsOk, backendResp, jthread.replies);
          if !respIsOk[d.execAddr] {
            ghost var log := jthread.replies;
            AnswerOne(judgeDataList, i, respIsOk, backendResp, log);
            jthread.replies := jthread.replies + [Reply(d.sn.value, Backend(backendResp.value))];
            respIsOk := respIsOk[d.execAddr := true];
            OnlyTheseTwice(judgeDataList, old(jthread.replies), log, jthread.replies);
          }
        }
        i := i + 1;
      }
      assert judgeDataList[..i] == judgeDataList;
    }
  }

  ghost predicate OnlyItemOf(list: seq<Data>, i: int, a: Addr) {
    0 <= i < |list| && forall j :: 0 <= j < |list| ==> (list[j].execAddr == a <==> j == i)
  }

  /** The request is for the path that marks a stand-in. */
  ghost predicate ForStandIn(t: JudgeTask, s: nat)
    reads t
  {
    exists d :: d in t.judgeDataList && d.sn == Some(s) && IsTimeout(d)
  }

  /** The session that a request joins: that of its session number, or a new one. */
  ghost function Joined(live: map<string, Session>, r: Request): Session {
    if r.sid in live then live[r.sid] else NewSession(r.servers)
  }

  /** The sessions that live after a step of one of them. */
  ghost function Settle(live: map<string, Session>, sid: string, x: Session): map<string, Session> {
    if Done(x) then live - {sid} else live[sid := x]
  }

  lemma SettleOver(live: map<string, Session>, sid: string, x: Session, y: Session)
    ensures Settle(live[sid := x], sid, y) == Settle(live, sid, y)
  {
  }

  ghost predicate Past(gone: set<Session>, x: Session, gone': set<Session>) {
    gone <= gone' && (Done(x) ==> x in gone')
  }

  class Jthread {
    var taskList: map<string, JudgeTask>
    var replies: seq<Reply>
    /** Every task there has been, and for each request the task that took it, if one did. */
    ghost var tasks: set<JudgeTask>
    ghost var home: map<nat, JudgeTask?>

    constructor ()
      ensures Valid() && taskList == map[] && replies == [] && tasks == {} && home == map[]
    {
      taskList, replies, tasks, home := map[], [], {}, map[];
    }

    /** The list has the tasks that are not released, each under its session. */
    ghost predicate Listed()
      reads this, tasks
    {
      forall sid :: sid in taskList ==> taskList[sid] in tasks && !taskList[sid].released && taskList[sid].sid == sid
    }

    ghost predicate TaskOk(t: JudgeTask)
      reads this, t
    {
      t.jthread == this && (t.released || t.Live()) && t.Settled(replies) &&
      forall s :: Holds(t.judgeDataList, s) ==> s in home && home[s] == t
    }

    /** A request that has come is with the task that took it; if none did, it got the error reply. */
    ghost predicate Placed(s: nat)
      reads this, tasks
    {
      if s in home && home[s] != null then home[s] in tasks && Holds(home[s].judgeDataList, s)
      else RepliesTo(replies, s) == if s in home then [NoJudge] else []
    }

    ghost predicate Valid()
      reads this, tasks
    {
      Listed() && (forall t :: t in tasks ==> TaskOk(t)) && forall s: nat :: Placed(s)
    }

    /** The sessions in the list, as values; those of the past; the requests that no session took. */
    ghost function Lives(): map<string, Session>
      reads this`taskList, taskList.Values
    {
      map sid | sid in taskList :: taskList[sid].Value()
    }

    ghost function Gone(): set<Session>
      reads this`tasks, tasks
    {
      set t | t in tasks && t.released :: t.Value()
    }

    ghost function Refused(): set<nat>
      reads this`home
    {
      set s | s in home && home[s] == null
    }

    method ClearTask(sid: string)
      modifies `taskList
      ensures taskList == old(taskList) - {sid}
    {
      taskList := taskList - {sid};
    }

    /** The task of a session, made at need. */
    method FindTask(r: Request) returns (task: JudgeTask)
      requires Valid()
      modifies `taskList, `tasks
      ensures Valid() && task in tasks && task.Live() && task.sid == r.sid && task.jthread == this
      ensures tasks == old(tasks) + {task} && (task in old(tasks) || fresh(task))
      ensures r.sid in old(taskList) ==> task == old(taskList)[r.sid]
      ensures r.sid !in old(taskList) ==>
        fresh(task) && task.serverarray == r.servers && task.judgeDataList == [] && task.respIsOk == map[]
      ensures Lives() == old(Lives())[r.sid := Joined(old(Lives()), r)] && task.Value() == Joined(old(Lives()), r)
      ensures Gone() == old(Gone())
    {
      hide RepliesTo, JudgeTask.Settled, JudgeTask.Flags, Holds;
      if r.sid !in taskList {
        task := NewTask(r);
      } else {
        task := taskList[r.sid];
        assert TaskOk(task);
        assert task.Value() == Lives()[r.sid];
      }
    }

    method NewTask(r: Request) returns (task: JudgeTask)
      requires Valid() && r.sid !in taskList
      modifies `taskList, `tasks
      ensures Valid() && fresh(task) && task.Live() && task.sid == r.sid && task.jthread == this
      ensures tasks == old(tasks) + {task} && task.Value() == NewSession(r.servers) && task.respIsOk == map[]
      ensures taskList == old(taskList)[r.sid := task]
      ensures Lives() == old(Lives())[r.sid := NewSession(r.servers)] && Gone() == old(Gone())
    {
      hide RepliesTo, JudgeTask.Settled, JudgeTask.Flags, Holds;
      task := new JudgeTask(this, r.sid, r.servers);
      taskList := taskList[r.sid := task];
      tasks := tasks + {task};
      NewSettled(task);
      assert TaskOk(task);
      assert forall s: nat :: old(Placed(s)) ==> Placed(s);
    }

    /** After a step of task `u` everything is as it should be. */
    twostate lemma Resettled(u: JudgeTask)
      requires old(Listed()) && old(u.Live()) && u in tasks && tasks == old(tasks) && home == old(home)
      requires forall t :: t in tasks && t != u ==> old(TaskOk(t)) && unchanged(t)
      requires u.jthread == this && u.Settled(replies) && OnlyThese(u.judgeDataList, old(replies), replies)
      requires forall s :: Holds(u.judgeDataList, s) ==> s in home && home[s] == u
      requires taskList == if u.released then old(taskList) - {u.sid} else old(taskList)
      requires forall s: nat :: old(Placed(s)) || Holds(u.judgeDataList, s)
      requires forall s :: old(Holds(u.judgeDataList, s)) ==> Holds(u.judgeDataList, s)
      ensures Valid()
    {
      hide RepliesTo, Holds, Matches, Answered, Addressed, AllOk;
      forall t | t in tasks && t != u ensures TaskOk(t) {
        assert old(TaskOk(t));
        OthersMatch(t.judgeDataList, t.respIsOk, t.backendResp, old(replies), u.judgeDataList, replies);
      }
      assert TaskOk(u);
    }

    /** What a step of task `u` does to the sessions. */
    twostate lemma Stepped(u: JudgeTask)
      requires old(Listed()) && old(u.Live()) && u.jthread == this && u in tasks && tasks == old(tasks)
      requires forall t :: t in tasks && t != u ==> unchanged(t)
      requires taskList == if u.released then old(taskList) - {u.sid} else old(taskList)
      requires u.released <==> Done(u.Value())
      ensures Lives() == Settle(old(Lives()), u.sid, u.Value()) && Past(old(Gone()), u.Value(), Gone())
    {
      hide Done;
      forall sid | sid in taskList && sid != u.sid
        ensures taskList[sid].Value() == old(taskList[sid].Value())
      {
        assert old(taskList[sid]) in tasks && old(taskList[sid].sid) == sid;
      }
      forall t | t in tasks && old(t.released)
        ensures t.Value() in Gone() && t.Value() == old(t.Value())
      {
      }
      if u.released {
        assert Lives() == old(Lives()) - {u.sid};
      } else {
        assert Lives() == old(Lives())[u.sid := u.Value()];
      }
    }

    lemma ErrorReply(sn: nat)
      ensures
        var d, log := Data(Addr(""), "", Some(sn)), replies + [Reply(sn, NoJudge)];
        (forall s: nat :: Holds([d], s) <==> s == sn) && OnlyThese([d], replies, log) &&
        RepliesTo(log, sn) == RepliesTo(replies, sn) + [NoJudge]
    {
      hide RepliesTo;
      var d, log := Data(Addr(""), "", Some(sn)), replies + [Reply(sn, NoJudge)];
      forall s: nat ensures Holds([d], s) <==> s == sn {
        assert [d][0].sn == Some(sn);
      }
      forall s: nat ensures RepliesTo(log, s) == RepliesTo(replies, s) + if s == sn then [NoJudge] else [] {
        RepliesAfter(replies, Reply(sn, NoJudge), s);
      }
    }

    /** The error reply to a request that no task takes. */
    method SendToFrontNoJudgeError(sn: nat)
      requires Valid() && sn !in home
      modifies `replies, `home
      ensures Valid() && home == old(home)[sn := null] && replies == old(replies) + [Reply(sn, NoJudge)]
    {
      hide RepliesTo, Matches, Answered, Addressed, AllOk;
      ErrorReply(sn);
      assert Placed(sn);
      replies := replies + [Reply(sn, NoJudge)];
      home := home[sn := null];
      forall t | t in tasks ensures TaskOk(t) {
        assert old(TaskOk(t));
        OthersMatch(t.judgeDataList, t.respIsOk, t.backendResp, old(replies), [Data(Addr(""), "", Some(sn))], replies);
      }
      forall s: nat ensures Placed(s) {
        assert old(Placed(s));
      }
    }

    /** The request is with the task, which is about to take it in. */
    ghost method AtHome(sn: nat, task: JudgeTask)
      requires Valid() && sn !in home && task in tasks
      modifies `home
      ensures home == old(home)[sn := task] && Listed() && RepliesTo(replies, sn) == []
      ensures !Holds(task.judgeDataList, sn) && forall t :: t in tasks ==> TaskOk(t)
      ensures forall s: nat :: s != sn ==> Placed(s)
    {
      hide RepliesTo, Holds, JudgeTask.Settled;
      assert TaskOk(task);
      assert Placed(sn);
      home := home[sn := task];
      forall t | t in tasks ensures TaskOk(t) {
        assert old(TaskOk(t));
      }
      forall s: nat | s != sn ensures Placed(s) {
        assert old(Placed(s));
      }
    }

    /** The task takes a request in. */
    method Admit(sn: nat, d: Data, task: JudgeTask, luck: Luck)
      requires Valid() && sn !in home && task in tasks && task.Live() && d.sn == Some(sn)
      requires d.execAddr in task.serverarray && d.execAddr !in task.respIsOk
      requires |task.judgeDataList| != |task.serverarray|
      modifies this, task
      ensures Valid() && home == old(home)[sn := task] && task.judgeDataList == old(task.judgeDataList) + [d]
      ensures tasks == old(tasks)
      ensures var x := Take(old(task.Value()), d, luck);
        Lives() == Settle(old(Lives()), task.sid, x) && Past(old(Gone()), x, Gone())
    {
      hide RepliesTo, Holds, Matches, Answered, Addressed, AllOk, Elements, Distinct, Take, Done, Settle, Past,
           Lives, Gone, ItemOk;
      assert TaskOk(task);
      ghost var list, timer := task.judgeDataList, task.timer;
      HoldsAfter(list, d);
      AtHome(sn, task);
      AdmitMatches(list, d, task.respIsOk, task.backendResp, replies);
      label Before:
      task.respIsOk := task.respIsOk[d.execAddr := false];
      task.ProcessJudgeData(d, luck);
      AdmitAddressed(list, d, task.serverarray, timer, task.timer);
      Resettled@Before(task);
      Stepped@Before(task);
    }

    /** A request comes: its task takes it if its host is known, the list is not full and the host has
        no request in it; otherwise it gets the error reply. */
    method DoJudge(sn: nat, r: Request, luck: Luck)
      requires Valid() && sn !in home
      modifies this, tasks
      ensures Valid() && home.Keys == old(home.Keys) + {sn} && fresh(tasks - old(tasks))
      ensures forall s :: s in old(home) ==> home[s] == old(home)[s]
      ensures var x := Joined(old(Lives()), r);
        if Admissible(x, r.host) then
          var y := Take(x, Data(r.host, r.urlfull, Some(sn)), luck);
          home[sn] != null && Lives() == Settle(old(Lives()), r.sid, y) && Past(old(Gone()), y, Gone())
        else home[sn] == null && Lives() == old(Lives())[r.sid := x] && Gone() == old(Gone())
    {
      hide Valid, JudgeTask.Settled, RepliesTo, Holds, Take, Done, Past, Lives, Gone, Settle, Joined, Hosts;
      var task := FindTask(r);
      HostsKnown(task);
      if r.host !in task.serverarray || |task.judgeDataList| == |task.serverarray| || r.host in task.respIsOk {
        SendToFrontNoJudgeError(sn);
      } else {
        SettleOver(old(Lives()), r.sid, task.Value(), Take(task.Value(), Data(r.host, r.urlfull, Some(sn)), luck));
        Admit(sn, Data(r.host, r.urlfull, Some(sn)), task, luck);
      }
    }

    method Timeout(task: JudgeTask, luck: nat -> Luck)
      requires Valid() && task in tasks && task.timer
      modifies this, task
      ensures Valid() && home == old(home) && tasks == old(tasks) && !task.timer
      ensures var x := Expire(old(task.Value()), luck);
        Lives() == Settle(old(Lives()), task.sid, x) && Past(old(Gone()), x, Gone())
    {
      hide RepliesTo, Holds, Matches, Answered, Addressed, AllOk, Elements, Distinct, OnlyThese, Expire, Done, Settle,
           Past;
      assert TaskOk(task);
      ghost var list := task.judgeDataList;
      task.JudgeTimeoutCb(luck);
      SameHeld(list, task.judgeDataList, old(replies), replies);
      Resettled(task);
      Stepped(task);
    }

    method BackendResponse(task: JudgeTask, response: Response)
      requires Valid() && task in tasks && task.pending
      modifies this, task
      ensures Valid() && home == old(home) && tasks == old(tasks)
      ensures !task.pending && task.backendResp == Some(response)
      ensures var x := Responded(old(task.Value()), response);
        Lives() == Settle(old(Lives()), task.sid, x) && Past(old(Gone()), x, Gone())
    {
      hide RepliesTo, Holds, Matches, Answered, Addressed, AllOk, Elements, Distinct, OnlyThese, Responded, Done,
           Settle, Past;
      assert TaskOk(task);
      task.BackendRespCb(response);
      Resettled(task);
      Stepped(task);
    }

    /** What a request has been told at any time of any run: nothing but the error reply if no task took
        it; otherwise the backend's response, once there is one, and once only. */
    lemma ToldOnce(s: nat)
      requires Valid() && s in home
      ensures home[s] == null ==> RepliesTo(replies, s) == [NoJudge]
      ensures home[s] != null ==>
        var t := home[s];
        RepliesTo(replies, s) ==
          (if t.backendResp.Some? && !ForStandIn(t, s) then [Backend(t.backendResp.value)] else [])
    {
      assert Placed(s);
    }

    /** A task is released exactly when each place of the server list has an item, the backend has
        responded and no request was for the path of a stand-in. */
    lemma ReleasedWhen(t: JudgeTask)
      requires Valid() && t in tasks
      ensures t.released <==>
        |t.judgeDataList| == |t.serverarray| && t.backendResp.Some? &&
        forall d :: d in t.judgeDataList && d.sn.Some? ==> !IsTimeout(d)
    {
      assert TaskOk(t);
    }

    /** Once the timer has fired, or the last request has come, each address of a server list without
        repetition has one item, and the backend has been asked. */
    lemma CompleteAfterTimer(t: JudgeTask, a: Addr)
      requires Valid() && t in tasks && t.judgeDataList != [] && !t.timer && Distinct(t.serverarray) &&
        a in t.serverarray
      ensures |t.judgeDataList| == |t.serverarray| && (t.pending || t.backendResp.Some?)
      ensures exists i :: OnlyItemOf(t.judgeDataList, i, a)
    {
      hide Matches, Answered, AllOk;
      assert TaskOk(t);
      var come := Addresses(t.judgeDataList);
      DistinctSize(come);
      DistinctSize(t.serverarray);
      SameSize(Elements(come), Elements(t.serverarray));
      assert a in Elements(t.serverarray);
      var i :| 0 <= i < |come| && come[i] == a;
      assert OnlyItemOf(t.judgeDataList, i, a);
    }

    lemma HomeOf(t: JudgeTask, s: nat)
      requires Valid() && t in tasks && Holds(t.judgeDataList, s)
      ensures s in home && home[s] == t
    {
      assert TaskOk(t);
    }

    lemma SomeServer(t: JudgeTask)
      requires Valid() && t in tasks && t.judgeDataList != []
      ensures t.serverarray != []
    {
      assert TaskOk(t);
    }

    lemma HostsKnown(t: JudgeTask)
      requires Valid() && t in tasks
      ensures t.respIsOk.Keys == Hosts(t.judgeDataList)
    {
      assert TaskOk(t);
    }

    lemma ListedTask(sid: string)
      requires Valid() && sid in taskList
      ensures taskList[sid] in tasks && taskList[sid].Live() && taskList[sid].jthread == this &&
        taskList[sid].sid == sid
    {
      assert TaskOk(taskList[sid]);
    }

    lemma AtMostOne(s: nat)
      requires Valid()
      ensures |RepliesTo(replies, s)| <= 1 && (s !in home ==> RepliesTo(replies, s) == [])
      ensures s in home && taskList == map[] ==> |RepliesTo(replies, s)| == 1
    {
      hide RepliesTo, IsTimeout;
      assert Placed(s);
      if s in home {
        ToldOnce(s);
        if taskList == map[] && home[s] != null {
          assert TaskOk(home[s]);
          ReleasedWhen(home[s]);
        }
      }
    }

    lemma NewSettled(t: JudgeTask)
      requires t.judgeDataList == [] && t.respIsOk == map[] && t.judgeNum == 0 && !t.judged && t.backendResp == None
      requires !t.isRespStared && !t.timer && !t.pending && !t.released
      ensures t.Settled(replies) && forall s :: !Holds(t.judgeDataList, s)
    {
    }
  }
}
