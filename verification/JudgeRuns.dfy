/** Runs of a judge thread: what becomes of each session is a function of the events of that session
    alone, and says what each of its requests is told. */
module JudgeRuns {
  import opened Wrappers
  import opened JudgeProtocol

  datatype Event = Arrive(request: Request, luck: Luck)
    | TimerFires(sid: string, lucks: nat -> Luck)
    | BackendResponds(sid: string, response: Response)

  function SessionOf(e: Event): string {
    match e
    case Arrive(r, _) => r.sid
    case TimerFires(sid, _) => sid
    case BackendResponds(sid, _) => sid
  }

  /** What became of one session number: the session that lives under it, those that have ended, in order,
      and the requests that none of them took. */
  datatype History = History(live: Option<Session>, past: seq<Session>, refused: set<nat>)

  ghost function Kept(h: History, x: Session): History {
    if Done(x) then h.(live := None, past := h.past + [x]) else h.(live := Some(x))
  }

  ghost function Current(h: History, r: Request): Session {
    if h.live.Some? then h.live.value else NewSession(r.servers)
  }

  /** Timers that are not set and responses that nobody waits for do not occur. */
  ghost function Next(h: History, sn: nat, e: Event): History {
    match e
    case Arrive(r, luck) =>
      var x := Current(h, r);
      if Admissible(x, r.host) then Kept(h, Take(x, Data(r.host, r.urlfull, Some(sn)), luck))
      else h.(live := Some(x), refused := h.refused + {sn})
    case TimerFires(_, lucks) =>
      if h.live.Some? && h.live.value.timer then Kept(h, Expire(h.live.value, lucks)) else h
    case BackendResponds(_, response) =>
      if h.live.Some? && h.live.value.pending then Kept(h, Responded(h.live.value, response)) else h
  }

  /** Event `i`, if it is a request, has the serial number `i`. */
  ghost function HistoryOf(events: seq<Event>, sid: string): History {
    if events == [] then History(None, [], {})
    else
      var n := |events| - 1;
      var h := HistoryOf(events[..n], sid);
      if SessionOf(events[n]) == sid then Next(h, n, events[n]) else h
  }

  ghost function Sessions(h: History): set<Session> {
    (set k | 0 <= k < |h.past| :: h.past[k]) + (if h.live.Some? then {h.live.value} else {})
  }

  /** What a request that the session took has been told. */
  ghost function Told(x: Session, s: nat): seq<Answer> {
    if x.resp.Some? && !exists i :: 0 <= i < |x.items| && x.items[i].sn == Some(s) && IsTimeout(x.items[i])
    then [Backend(x.resp.value)] else []
  }

  /** A session that has ended has told every request the same. */
  lemma ToldAtTheEnd(x: Session, s: nat)
    ensures Done(x) ==> x.resp.Some? && Told(x, s) == [Backend(x.resp.value)]
  {
    assert forall i :: 0 <= i < |x.items| && x.items[i].sn == Some(s) ==> x.items[i].sn.Some?;
  }

  /** A session that has not ended waits for its timer or for the backend; otherwise it has taken no
      request, its server list repeats an address, or a request was for the path of a stand-in. */
  ghost predicate Waits(x: Session) {
    !Done(x) &&
    (x.timer || x.pending || x.items == [] || !Distinct(x.servers) || AsksForStandIn(x.items))
  }

  /** The session numbers under which a session lives. */
  ghost function Waiting(events: seq<Event>): set<string> {
    set i | 0 <= i < |events| && HistoryOf(events, SessionOf(events[i])).live.Some? :: SessionOf(events[i])
  }

  ghost predicate SameFor(events: seq<Event>, events': seq<Event>, sid: string) {
    |events| == |events'| &&
    forall i :: 0 <= i < |events| && (SessionOf(events[i]) == sid || SessionOf(events'[i]) == sid) ==>
      events[i] == events'[i]
  }

  /** What happens to one session does not depend on the events of the others. */
  lemma {:induction false} OthersDoNotMatter(events: seq<Event>, events': seq<Event>, sid: string)
    requires SameFor(events, events', sid)
    ensures HistoryOf(events, sid) == HistoryOf(events', sid)
    decreases |events|
  {
    hide Next;
    if events != [] {
      var n := |events| - 1;
      OthersDoNotMatter(events[..n], events'[..n], sid);
      assert SessionOf(events[n]) == sid || SessionOf(events'[n]) == sid ==> events[n] == events'[n];
    }
  }

  ghost predicate TakenOrRefused(h: History, s: nat) {
    s in h.refused || exists x :: x in Sessions(h) && Holds(x.items, s)
  }

  /** Every request has been taken by a session of its number, or refused. */
  lemma {:induction false} EachTaken(events: seq<Event>, s: nat)
    requires s < |events| && events[s].Arrive?
    ensures TakenOrRefused(HistoryOf(events, SessionOf(events[s])), s)
    decreases |events|
  {
    hide Next, TakenOrRefused;
    var n := |events| - 1;
    var sid := SessionOf(events[s]);
    var h := HistoryOf(events[..n], sid);
    if s < n {
      EachTaken(events[..n], s);
      if SessionOf(events[n]) == sid { StillTaken(h, n, events[n], s); }
    } else {
      NowTaken(h, n, events[n]);
    }
  }

  lemma NowTaken(h: History, sn: nat, e: Event)
    requires e.Arrive?
    ensures TakenOrRefused(Next(h, sn, e), sn)
  {
    hide Done, Holds;
    var r := e.request;
    var x := Current(h, r);
    if Admissible(x, r.host) {
      var d := Data(r.host, r.urlfull, Some(sn));
      HoldsAfter(x.items, d);
      KeptIn(h, Take(x, d, e.luck));
    }
  }

  lemma KeptIn(h: History, x: Session)
    ensures x in Sessions(Kept(h, x)) && Kept(h, x).refused == h.refused
    ensures forall k :: 0 <= k < |h.past| ==> h.past[k] in Sessions(Kept(h, x))
  {
    hide Done;
    var h' := Kept(h, x);
    if Done(x) { assert h'.past[|h.past|] == x; }
    forall k | 0 <= k < |h.past|
      ensures h.past[k] in Sessions(h')
    {
      assert h'.past[k] == h.past[k];
    }
  }

  lemma HoldsMore(list: seq<Data>, more: seq<Data>, s: nat)
    requires list <= more && Holds(list, s)
    ensures Holds(more, s)
  {
    var i :| 0 <= i < |list| && list[i].sn == Some(s);
    assert more[i] == list[i];
  }

  lemma {:induction false} FillGrows(x: Session, late: seq<Addr>, luck: nat -> Luck)
    ensures x.items <= Fill(x, late, luck).items
    decreases |late|
  {
    hide Done;
    if late != [] && |x.items| < |x.servers| {
      FillGrows(Take(x, StandIn(late[0]), luck(|x.items| + 1)), late[1..], luck);
    }
  }

  lemma KeptTaken(h: History, x: Session, s: nat)
    requires TakenOrRefused(h, s) && (h.live.Some? ==> h.live.value.items <= x.items)
    ensures TakenOrRefused(Kept(h, x), s)
  {
    hide Done, Holds, Kept;
    KeptIn(h, x);
    if s !in h.refused {
      var y :| y in Sessions(h) && Holds(y.items, s);
      if h.live == Some(y) { HoldsMore(y.items, x.items, s); }
    }
  }

  /** A session only gets more items, and stays among the sessions. */
  lemma StillTaken(h: History, sn: nat, e: Event, s: nat)
    requires TakenOrRefused(h, s)
    ensures TakenOrRefused(Next(h, sn, e), s)
  {
    hide Done, Holds, Admissible, Kept, Fill, Missing;
    match e {
      case Arrive(r, luck) =>
        var x := Current(h, r);
        if Admissible(x, r.host) {
          KeptTaken(h, Take(x, Data(r.host, r.urlfull, Some(sn)), luck), s);
        } else {
          assert forall y :: y in Sessions(h) ==> y in Sessions(Next(h, sn, e));
        }
      case TimerFires(_, lucks) =>
        if h.live.Some? && h.live.value.timer {
          var x := h.live.value;
          FillGrows(x.(timer := false), Missing(x.servers, Addresses(x.items)), lucks);
          KeptTaken(h, Expire(x, lucks), s);
        }
      case BackendResponds(_, response) =>
        if h.live.Some? && h.live.value.pending { KeptTaken(h, Responded(h.live.value, response), s); }
    }
  }

  // ----- who is taken -----

  /** The requests of a session number, in order of arrival. */
  ghost function Requests(events: seq<Event>, sid: string): seq<Data> {
    if events == [] then []
    else
      var n := |events| - 1;
      var front := Requests(events[..n], sid);
      match events[n]
      case Arrive(r, _) => if r.sid == sid then front + [Data(r.host, r.urlfull, Some(n))] else front
      case _ => front
  }

  /** The server list that came with the first of them. */
  ghost function FirstList(events: seq<Event>, sid: string): seq<Addr> {
    if events == [] then []
    else
      var n := |events| - 1;
      match events[n]
      case Arrive(r, _) =>
        if r.sid == sid && Requests(events[..n], sid) == [] then r.servers else FirstList(events[..n], sid)
      case _ => FirstList(events[..n], sid)
  }

  ghost predicate NoTimer(events: seq<Event>, sid: string) {
    forall i :: 0 <= i < |events| ==> !(events[i].TimerFires? && events[i].sid == sid)
  }

  /** The one session has taken these requests, in order. */
  ghost predicate AllIn(h: History, servers: seq<Addr>, items: seq<Data>) {
    h.refused == {} &&
    if items == [] then h.live == None && h.past == []
    else
      exists x: Session :: x.servers == servers && x.items == items &&
        if Done(x) then h.live == None && h.past == [x] else h.live == Some(x) && h.past == []
  }

  /** If every executor of a server list without repetition sends at most one request, before the timer
      fires, none is refused: they are all in one session, in order of arrival, whatever the backend and
      the other sessions do. */
  lemma {:induction false} NoneRefused(events: seq<Event>, sid: string)
    requires NoTimer(events, sid) && Distinct(FirstList(events, sid))
    requires Distinct(Addresses(Requests(events, sid)))
    requires forall a :: a in Addresses(Requests(events, sid)) ==> a in FirstList(events, sid)
    ensures AllIn(HistoryOf(events, sid), FirstList(events, sid), Requests(events, sid))
    decreases |events|
  {
    hide Next, Distinct, AllIn;
    if events == [] {
      NobodyIn();
    } else {
      var n := |events| - 1;
      FrontToo(events, sid);
      NoneRefused(events[..n], sid);
      var h, servers, items := HistoryOf(events[..n], sid), FirstList(events[..n], sid), Requests(events[..n], sid);
      if SessionOf(events[n]) == sid {
        if events[n].Arrive? {
          var r := events[n].request;
          var d := Data(r.host, r.urlfull, Some(n));
          assert Addresses(items + [d]) == Addresses(items) + [r.host];
          if items == [] { AnyList(h, servers, FirstList(events, sid)); }
          OneMoreIn(h, n, events[n], FirstList(events, sid), items);
        } else {
          assert events[n].BackendResponds?;
          StillIn(h, n, events[n], servers, items);
        }
      }
    }
  }

  lemma AnyList(h: History, servers: seq<Addr>, servers': seq<Addr>)
    requires AllIn(h, servers, [])
    ensures AllIn(h, servers', [])
  {
  }

  lemma NobodyIn()
    ensures AllIn(History(None, [], {}), [], [])
  {
  }

  lemma FrontToo(events: seq<Event>, sid: string)
    requires events != [] && NoTimer(events, sid) && Distinct(FirstList(events, sid))
    requires Distinct(Addresses(Requests(events, sid)))
    requires forall a :: a in Addresses(Requests(events, sid)) ==> a in FirstList(events, sid)
    ensures var front := events[..|events| - 1];
      NoTimer(front, sid) && Distinct(FirstList(front, sid)) && Distinct(Addresses(Requests(front, sid))) &&
      forall a :: a in Addresses(Requests(front, sid)) ==> a in FirstList(front, sid)
  {
    var front := events[..|events| - 1];
    if Requests(front, sid) == [] { NoListYet(front, sid); }
    var few, all := Addresses(Requests(front, sid)), Addresses(Requests(events, sid));
    assert few <= all;
    forall a | a in few
      ensures a in FirstList(front, sid)
    {
      assert a in all;
    }
  }

  lemma {:induction false} NoListYet(events: seq<Event>, sid: string)
    requires Requests(events, sid) == []
    ensures FirstList(events, sid) == []
    decreases |events|
  {
    if events != [] { NoListYet(events[..|events| - 1], sid); }
  }

  /** Somebody of the list who has not come: the list is not full. */
  lemma RoomLeft(servers: seq<Addr>, come: seq<Addr>, a: Addr)
    requires Distinct(servers) && Distinct(come + [a]) && forall b :: b in come + [a] ==> b in servers
    ensures |come| < |servers|
  {
    DistinctSize(servers);
    DistinctSize(come + [a]);
    var few, all := Elements(come + [a]), Elements(servers);
    assert few <= all;
    assert all == few + (all - few);
    assert |all| == |few| + |all - few|;
  }

  lemma OneMoreIn(h: History, n: nat, e: Event, servers: seq<Addr>, items: seq<Data>)
    requires e.Arrive? && Distinct(servers) && Distinct(Addresses(items) + [e.request.host])
    requires forall a :: a in Addresses(items) + [e.request.host] ==> a in servers
    requires AllIn(h, servers, items) && (items == [] ==> e.request.servers == servers)
    ensures AllIn(Next(h, n, e), servers, items + [Data(e.request.host, e.request.urlfull, Some(n))])
  {
    hide Distinct, AsksForStandIn, Elements;
    var r := e.request;
    var d := Data(r.host, r.urlfull, Some(n));
    RoomLeft(servers, Addresses(items), r.host);
    NotAmong(items, r.host);
    assert r.host in Addresses(items) + [r.host];
    var x := Current(h, r);
    assert x.servers == servers && x.items == items && Admissible(x, r.host);
    var y := Take(x, d, e.luck);
    assert y.servers == servers && y.items == items + [d];
  }

  lemma NotAmong(items: seq<Data>, a: Addr)
    requires Distinct(Addresses(items) + [a])
    ensures a !in Hosts(items)
  {
    forall i | 0 <= i < |items|
      ensures items[i].execAddr != a
    {
      assert (Addresses(items) + [a])[i] == items[i].execAddr && (Addresses(items) + [a])[|items|] == a;
    }
  }

  lemma StillIn(h: History, n: nat, e: Event, servers: seq<Addr>, items: seq<Data>)
    requires e.BackendResponds? && AllIn(h, servers, items)
    ensures AllIn(Next(h, n, e), servers, items)
  {
    hide AsksForStandIn;
    if h.live.Some? && h.live.value.pending {
      var y := Responded(h.live.value, e.response);
      assert y.servers == servers && y.items == items;
    }
  }

  /** Exactly when a request is refused: its host is not in the server list of its session, or has a
      request in it, or each place of the list has an item. */
  lemma RefusedExactly(events: seq<Event>, n: nat)
    requires n < |events| && events[n].Arrive?
    ensures
      var r := events[n].request;
      var x := Current(HistoryOf(events[..n], r.sid), r);
      n in HistoryOf(events[..n + 1], r.sid).refused <==>
        r.host !in x.servers || |x.items| == |x.servers| ||
        exists i :: 0 <= i < |x.items| && x.items[i].sn.Some? && x.items[i].execAddr == r.host
  {
    hide Take, HistoryOf;
    var r := events[n].request;
    assert events[..n + 1][..n] == events[..n];
    LastEvent(events[..n + 1], r.sid);
    Earlier(events[..n], r.sid);
  }

  lemma LastEvent(events: seq<Event>, sid: string)
    requires events != [] && SessionOf(events[|events| - 1]) == sid
    ensures var n := |events| - 1; HistoryOf(events, sid) == Next(HistoryOf(events[..n], sid), n, events[n])
  {
  }

  lemma {:induction false} Earlier(events: seq<Event>, sid: string)
    ensures forall s :: s in HistoryOf(events, sid).refused ==> s < |events|
    decreases |events|
  {
    if events != [] { Earlier(events[..|events| - 1], sid); }
  }

  // ----- the thread refines the histories -----

  /** The sessions of a thread are those of the histories. */
  ghost predicate Tracks(
    live: map<string, Session>, gone: set<Session>, refused: set<nat>, events: seq<Event>)
  {
    forall sid :: TracksOne(live, gone, refused, HistoryOf(events, sid), sid)
  }

  ghost predicate TracksOne(
    live: map<string, Session>, gone: set<Session>, refused: set<nat>, h: History, sid: string)
  {
    (if sid in live then h.live == Some(live[sid]) else h.live == None) &&
    (forall k :: 0 <= k < |h.past| ==> h.past[k] in gone) && h.refused <= refused
  }

  lemma TracksNothing()
    ensures Tracks(map[], {}, {}, [])
  {
  }

  /** A step of session `sid` is tracked. */
  lemma TracksNext(
    events: seq<Event>, i: nat, live: map<string, Session>, gone: set<Session>, refused: set<nat>,
    live': map<string, Session>, gone': set<Session>, refused': set<nat>)
    requires i < |events| && Tracks(live, gone, refused, events[..i]) && gone <= gone' && refused <= refused'
    requires
      var sid := SessionOf(events[i]);
      TracksOne(live', gone', refused', Next(HistoryOf(events[..i], sid), i, events[i]), sid) &&
      live' - {sid} == live - {sid}
    ensures Tracks(live', gone', refused', events[..i + 1])
  {
    hide Next;
    var events' := events[..i + 1];
    assert events'[..i] == events[..i];
    forall sid
      ensures TracksOne(live', gone', refused', HistoryOf(events', sid), sid)
    {
      assert TracksOne(live, gone, refused, HistoryOf(events[..i], sid), sid);
      if sid != SessionOf(events[i]) {
        assert sid in live' <==> sid in live' - {SessionOf(events[i])};
        assert sid in live <==> sid in live - {SessionOf(events[i])};
        if sid in live { assert live'[sid] == (live' - {SessionOf(events[i])})[sid]; }
      }
    }
  }

  lemma KeptTracked(
    live: map<string, Session>, gone: set<Session>, refused: set<nat>, h: History, sid: string,
    x: Session, gone': set<Session>)
    requires TracksOne(live, gone, refused, h, sid) && Past(gone, x, gone')
    ensures TracksOne(Settle(live, sid, x), gone', refused, Kept(h, x), sid)
    ensures Settle(live, sid, x) - {sid} == live - {sid}
  {
    hide Done;
  }

  lemma Fresh(thread: Jthread)
    requires thread.taskList == map[] && thread.tasks == {} && thread.home == map[]
    ensures Tracks(thread.Lives(), thread.Gone(), thread.Refused(), [])
  {
    assert thread.Lives() == map[] && thread.Gone() == {} && thread.Refused() == {};
    TracksNothing();
  }

  ghost predicate Tracked(thread: Jthread, events: seq<Event>)
    reads thread, thread.tasks, thread.taskList.Values
  {
    thread.Valid() && Tracks(thread.Lives(), thread.Gone(), thread.Refused(), events) &&
    forall s :: s in thread.home <==> 0 <= s < |events| && events[s].Arrive?
  }

  twostate lemma RefusedGrows(thread: Jthread)
    requires forall s :: s in old(thread.home) ==> s in thread.home && thread.home[s] == old(thread.home)[s]
    ensures old(thread.Refused()) <= thread.Refused()
    ensures forall s: nat :: s in thread.home && thread.home[s] == null ==> s in thread.Refused()
  {
  }

  method ArriveAt(thread: Jthread, events: seq<Event>, i: nat)
    requires i < |events| && events[i].Arrive? && Tracked(thread, events[..i])
    modifies thread, thread.tasks
    ensures Tracked(thread, events[..i + 1]) && fresh(thread.tasks - old(thread.tasks))
  {
    hide Jthread.Valid, Jthread.Lives, Jthread.Gone, Jthread.Refused, Tracks, HistoryOf, TracksOne, Admissible, Take,
         Settle, Kept;
    var r := events[i].request;
    ghost var live, gone, refused := thread.Lives(), thread.Gone(), thread.Refused();
    ghost var h := HistoryOf(events[..i], r.sid);
    Joins(live, gone, refused, events[..i], r);
    thread.DoJudge(i, r, events[i].luck);
    RefusedGrows(thread);
    ghost var x := Current(h, r);
    if Admissible(x, r.host) {
      KeptTracked(live, gone, refused, h, r.sid, Take(x, Data(r.host, r.urlfull, Some(i)), events[i].luck),
          thread.Gone());
      MoreRefused(thread.Lives(), thread.Gone(), refused, thread.Refused(),
                  Kept(h, Take(x, Data(r.host, r.urlfull, Some(i)), events[i].luck)), r.sid);
    } else {
      RefusedTracked(live, gone, refused, thread.Refused(), h, r.sid, x, i);
    }
    TracksNext(events, i, live, gone, refused, thread.Lives(), thread.Gone(), thread.Refused());
  }

  lemma Joins(live: map<string, Session>, gone: set<Session>, refused: set<nat>, events: seq<Event>, r: Request)
    requires Tracks(live, gone, refused, events)
    ensures TracksOne(live, gone, refused, HistoryOf(events, r.sid), r.sid)
    ensures Joined(live, r) == Current(HistoryOf(events, r.sid), r)
  {
    hide HistoryOf;
    assert TracksOne(live, gone, refused, HistoryOf(events, r.sid), r.sid);
  }

  lemma MoreRefused(
    live: map<string, Session>, gone: set<Session>, refused: set<nat>, refused': set<nat>, h: History, sid: string)
    requires TracksOne(live, gone, refused, h, sid) && refused <= refused'
    ensures TracksOne(live, gone, refused', h, sid)
  {
  }

  lemma RefusedTracked(
    live: map<string, Session>, gone: set<Session>, refused: set<nat>, refused': set<nat>, h: History, sid: string,
    x: Session, sn: nat)
    requires TracksOne(live, gone, refused, h, sid) && refused <= refused' && sn in refused'
    ensures TracksOne(live[sid := x], gone, refused', h.(live := Some(x), refused := h.refused + {sn}), sid)
    ensures live[sid := x] - {sid} == live - {sid}
  {
  }

  /** A timer fires, or the backend responds. */
  method HappenAt(thread: Jthread, events: seq<Event>, i: nat)
    requires i < |events| && !events[i].Arrive? && Tracked(thread, events[..i])
    modifies thread, thread.tasks
    ensures Tracked(thread, events[..i + 1]) && thread.tasks == old(thread.tasks)
  {
    hide Jthread.Valid, Jthread.Lives, Jthread.Gone, Jthread.Refused, Tracks, HistoryOf, TracksOne, Expire, Responded,
         Settle, Kept;
    var sid := SessionOf(events[i]);
    ghost var live, gone, refused := thread.Lives(), thread.Gone(), thread.Refused();
    ghost var h := HistoryOf(events[..i], sid);
    LivesUnder(thread, events[..i], sid);
    if sid in thread.taskList {
      var task := thread.taskList[sid];
      thread.ListedTask(sid);
      ghost var x := task.Value();
      match events[i] {
        case TimerFires(_, lucks) =>
          if task.timer {
            thread.Timeout(task, lucks);
            RefusedGrows(thread);
            KeptTracked(live, gone, refused, h, sid, Expire(x, lucks), thread.Gone());
            MoreRefused(thread.Lives(), thread.Gone(), refused, thread.Refused(), Kept(h, Expire(x, lucks)), sid);
          }
        case BackendResponds(_, response) =>
          if task.pending {
            thread.BackendResponse(task, response);
            RefusedGrows(thread);
            KeptTracked(live, gone, refused, h, sid, Responded(x, response), thread.Gone());
            MoreRefused(thread.Lives(), thread.Gone(), refused, thread.Refused(), Kept(h, Responded(x, response)), sid);
          }
      }
    }
    TracksNext(events, i, live, gone, refused, thread.Lives(), thread.Gone(), thread.Refused());
  }

  lemma LivesUnder(thread: Jthread, events: seq<Event>, sid: string)
    requires Tracked(thread, events)
    ensures TracksOne(thread.Lives(), thread.Gone(), thread.Refused(), HistoryOf(events, sid), sid)
    ensures
      HistoryOf(events, sid).live == if sid in thread.taskList then Some(thread.taskList[sid].Value()) else None
  {
    hide HistoryOf, Jthread.Valid;
    assert TracksOne(thread.Lives(), thread.Gone(), thread.Refused(), HistoryOf(events, sid), sid);
  }

  // ----- what has become of everybody -----

  /** Each session of the histories is the value of a task. */
  lemma TaskOf(thread: Jthread, events: seq<Event>, sid: string, x: Session) returns (t: JudgeTask)
    requires Tracked(thread, events) && x in Sessions(HistoryOf(events, sid))
    ensures t in thread.tasks && t.Value() == x
    ensures HistoryOf(events, sid).live != Some(x) ==> t.released
  {
    hide HistoryOf, Jthread.Valid;
    LivesUnder(thread, events, sid);
    var h := HistoryOf(events, sid);
    if h.live == Some(x) {
      thread.ListedTask(sid);
      t := thread.taskList[sid];
    } else {
      var k :| 0 <= k < |h.past| && h.past[k] == x;
      assert x in thread.Gone();
      t :| t in thread.tasks && t.released && t.Value() == x;
    }
  }

  lemma ToldRight(thread: Jthread, events: seq<Event>, sid: string, x: Session, s: nat)
    requires Tracked(thread, events) && x in Sessions(HistoryOf(events, sid)) && Holds(x.items, s)
    ensures RepliesTo(thread.replies, s) == Told(x, s)
  {
    hide HistoryOf, Jthread.Valid, RepliesTo, Tracks, Sessions;
    var t := TaskOf(thread, events, sid, x);
    thread.HomeOf(t, s);
    thread.ToldOnce(s);
  }

  lemma EndedIsDone(thread: Jthread, events: seq<Event>, sid: string, x: Session)
    requires Tracked(thread, events) && x in HistoryOf(events, sid).past
    ensures Done(x) && x in Sessions(HistoryOf(events, sid))
  {
    hide HistoryOf, Jthread.Valid, Tracks;
    LivesUnder(thread, events, sid);
    assert x in thread.Gone();
    var t :| t in thread.tasks && t.released && t.Value() == x;
    thread.ReleasedWhen(t);
  }

  lemma LiveWaits(thread: Jthread, events: seq<Event>, sid: string)
    requires Tracked(thread, events) && HistoryOf(events, sid).live.Some?
    ensures Waits(HistoryOf(events, sid).live.value)
  {
    hide HistoryOf, Jthread.Valid, Tracks;
    LivesUnder(thread, events, sid);
    thread.ListedTask(sid);
    var t := thread.taskList[sid];
    thread.ReleasedWhen(t);
    if t.judgeDataList != [] && !t.timer && !t.pending && Distinct(t.serverarray) {
      thread.SomeServer(t);
      thread.CompleteAfterTimer(t, t.serverarray[0]);
    }
  }

  lemma {:induction false} LiveHasEvent(events: seq<Event>, sid: string)
    requires HistoryOf(events, sid).live.Some?
    ensures exists i :: 0 <= i < |events| && SessionOf(events[i]) == sid
    decreases |events|
  {
    if events != [] {
      var n := |events| - 1;
      if SessionOf(events[n]) != sid {
        LiveHasEvent(events[..n], sid);
        var i :| 0 <= i < n && SessionOf(events[..n][i]) == sid;
        assert events[i] == events[..n][i];
      }
    }
  }

  lemma LeftWait(thread: Jthread, events: seq<Event>)
    requires Tracked(thread, events)
    ensures thread.taskList.Keys == Waiting(events)
  {
    hide HistoryOf, Jthread.Valid, Tracks;
    forall sid
      ensures sid in thread.taskList <==> sid in Waiting(events)
    {
      LivesUnder(thread, events, sid);
      if sid in thread.taskList {
        LiveHasEvent(events, sid);
        var i :| 0 <= i < |events| && SessionOf(events[i]) == sid;
        assert HistoryOf(events, SessionOf(events[i])).live.Some?;
      }
    }
  }

  lemma RefusedToldSo(thread: Jthread, events: seq<Event>, sid: string, s: nat)
    requires Tracked(thread, events) && s in HistoryOf(events, sid).refused
    ensures RepliesTo(thread.replies, s) == [NoJudge]
  {
    hide HistoryOf, Jthread.Valid, Tracks, RepliesTo;
    LivesUnder(thread, events, sid);
    assert s in thread.Refused();
    thread.ToldOnce(s);
  }

  lemma ToldAtMostOnce(thread: Jthread, events: seq<Event>, s: nat)
    requires Tracked(thread, events)
    ensures |RepliesTo(thread.replies, s)| <= 1
    ensures s >= |events| || !events[s].Arrive? ==> RepliesTo(thread.replies, s) == []
    ensures s < |events| && events[s].Arrive? && thread.taskList == map[] ==> |RepliesTo(thread.replies, s)| == 1
  {
    hide HistoryOf, Jthread.Valid, Tracks, RepliesTo;
    thread.AtMostOne(s);
  }

  method Started() returns (thread: Jthread)
    ensures fresh(thread) && fresh(thread.tasks) && Tracked(thread, [])
  {
    hide Tracks;
    thread := new Jthread();
    Fresh(thread);
  }

  /** Any run of a judge thread: what each request is told is what its session says, whatever the other
      sessions do, and nobody is told anything twice; the tasks left are the sessions that have not ended,
      and each of those waits for something. */
  method Run(events: seq<Event>) returns (replies: seq<Reply>, left: nat)
    ensures forall sid, s: nat :: s in HistoryOf(events, sid).refused ==> RepliesTo(replies, s) == [NoJudge]
    ensures forall sid, x, s: nat :: x in Sessions(HistoryOf(events, sid)) && Holds(x.items, s) ==>
      RepliesTo(replies, s) == Told(x, s) &&
      (Done(x) ==> x.resp.Some? && RepliesTo(replies, s) == [Backend(x.resp.value)])
    ensures forall s: nat :: |RepliesTo(replies, s)| <= 1
    ensures forall s: nat :: s >= |events| || !events[s].Arrive? ==> RepliesTo(replies, s) == []
    ensures forall sid, x :: x in HistoryOf(events, sid).past ==> Done(x)
    ensures forall sid :: HistoryOf(events, sid).live.Some? ==> Waits(HistoryOf(events, sid).live.value)
    ensures left == |Waiting(events)|
    ensures left == 0 ==> forall s: nat :: s < |events| && events[s].Arrive? ==> |RepliesTo(replies, s)| == 1
  {
    hide Tracked, RepliesTo, HistoryOf, Told, Waits, Waiting, Sessions, Done;
    var thread := Started();
    var i := 0;
    assert events[..0] == [];
    while i < |events|
      invariant 0 <= i <= |events| && Tracked(thread, events[..i]) && fresh(thread) && fresh(thread.tasks)
    {
      if events[i].Arrive? { ArriveAt(thread, events, i); } else { HappenAt(thread, events, i); }
      i := i + 1;
    }
    assert events[..i] == events;
    replies, left := thread.replies, |thread.taskList|;
    forall sid, s: nat | s in HistoryOf(events, sid).refused
      ensures RepliesTo(replies, s) == [NoJudge]
    {
      RefusedToldSo(thread, events, sid, s);
    }
    forall sid, x, s: nat | x in Sessions(HistoryOf(events, sid)) && Holds(x.items, s)
      ensures RepliesTo(replies, s) == Told(x, s)
      ensures Done(x) ==> x.resp.Some? && RepliesTo(replies, s) == [Backend(x.resp.value)]
    {
      ToldRight(thread, events, sid, x, s);
      ToldAtTheEnd(x, s);
    }
    forall s: nat
      ensures |RepliesTo(replies, s)| <= 1
      ensures s >= |events| || !events[s].Arrive? ==> RepliesTo(replies, s) == []
      ensures left == 0 && s < |events| && events[s].Arrive? ==> |RepliesTo(replies, s)| == 1
    {
      ToldAtMostOnce(thread, events, s);
    }
    forall sid, x | x in HistoryOf(events, sid).past
      ensures Done(x) && x in Sessions(HistoryOf(events, sid))
    {
      EndedIsDone(thread, events, sid, x);
    }
    forall sid | HistoryOf(events, sid).live.Some?
      ensures Waits(HistoryOf(events, sid).live.value)
    {
      LiveWaits(thread, events, sid);
    }
    LeftWait(thread, events);
    assert |thread.taskList| == |thread.taskList.Keys|;
  }
}
