/** The voter of the proxy: answers of the executors arrive one by one, are grouped by comparison,
    and the first verdict that the rules allow is given. */
module ProxyVoter {
  import opened Wrappers
  import opened Answers
  import opened Comparison
  import opened Groups
  import opened Verdicts

  ghost function Addresses(data: Data): set<string> {
    set k | k in data :: k.addr
  }

  lemma AddressesGrow(data: Data, a: Answer)
    requires a.key !in data
    ensures Addresses(data[a.key := a]) == Addresses(data) + {a.key.addr}
    ensures |data[a.key := a]| == |data| + 1
  {
  }

  /** The reasons for which the answers outside the class of the verdict differ from it. */
  ghost function Blamed(cmp: Compare, data: Data, verdict: Answer): map<Key, Reason> {
    map k | k in data && !Alike(cmp, verdict, data[k]) :: cmp.difference(verdict, data[k]).value
  }

  class ProxyTask {
    const setup: Setup
    const execNum: nat
    const byWeight: bool
    const failcountList: map<string, int>
    const uptimelist: map<string, int>
    ghost const cmp: Compare
    var judgeDataList: Data
    var judgeGroup: seq<Group>
    var cmpRetRecord: Records
    var judgeResult: Option<Answer>
    var retGroupKey: Option<Key>
    var judgeType: Option<Kind>
    var analyseErrorDetailMap: map<Key, Reason>

    /** The lists of failure counts and start times have an entry for each executor asked. */
    constructor (setup: Setup, byWeight: bool, failcountList: map<string, int>, uptimelist: map<string, int>)
      requires failcountList.Keys == uptimelist.Keys && failcountList.Keys != {}
      ensures Valid() && judgeDataList == map[] && judgeResult == None && analyseErrorDetailMap == map[]
      ensures this.setup == setup && this.execNum == |failcountList| && this.failcountList == failcountList
      ensures this.uptimelist == uptimelist && this.byWeight == byWeight
      ensures cmp == Comparer(setup)
    {
      this.setup, this.byWeight, this.failcountList, this.uptimelist := setup, byWeight, failcountList, uptimelist;
      execNum := |failcountList|;
      cmp := Comparer(setup);
      judgeDataList, judgeGroup, cmpRetRecord := map[], [], map[];
      judgeResult, retGroupKey, judgeType := None, None, None;
      analyseErrorDetailMap := map[];
      new;
      ComparerIsLawful(setup);
      NothingYet(cmp, execNum);
    }

    /** The addresses that have answered. */
    ghost function Answered(): set<string>
      reads this
    {
      Addresses(judgeDataList)
    }

    ghost predicate Fixed() {
      cmp == Comparer(setup) && Lawful(cmp) && execNum == |failcountList| > 0 && failcountList.Keys == uptimelist.Keys
    }

    ghost function JudgeRule(): Rule { Rule(byWeight, failcountList, uptimelist) }

    ghost predicate Grouped()
      reads this
    {
      GroupsOk(cmp, judgeDataList, judgeGroup) && RecordsSound(cmp, judgeDataList, cmpRetRecord) &&
      RecordsComplete(judgeGroup, cmpRetRecord)
    }

    ghost predicate Valid()
      reads this
    {
      Fixed() && Answered() <= failcountList.Keys && |Answered()| == |judgeDataList| &&
      if execNum == 1 then
        judgeType == None && retGroupKey == None && judgeGroup == [] &&
        judgeDataList.Values == (if judgeResult.Some? then {judgeResult.value} else {})
      else
        Grouped() && State(judgeGroup, judgeDataList, execNum, judgeType, judgeResult) &&
        retGroupKey == if judgeResult.Some? then Some(judgeResult.value.key) else None
    }

    /** Compares an answer with the representative of a group, and records a difference. */
    method CmpJudgeData(group: Answer, com: Answer) returns (same: bool)
      requires Fixed()
      modifies `cmpRetRecord
      ensures same == Same(cmp, group, com)
      ensures same ==> cmpRetRecord == old(cmpRetRecord)
      ensures !same ==>
        var reason := cmp.difference(group, com);
        reason.Some? && cmpRetRecord == AddRecord(old(cmpRetRecord), group.key, Record(com.key, reason.value))
    {
      hide Difference, Lawful;
      var reason := CompareAnswers(setup, group, com);
      if reason.Some? {
        RecordCmpErrorRet(group.key, com.key, reason.value);
      }
      return reason.None?;
    }

    method RecordCmpErrorRet(group: Key, com: Key, reason: Reason)
      modifies `cmpRetRecord
      ensures cmpRetRecord == AddRecord(old(cmpRetRecord), group, Record(com, reason))
    {
      if group !in cmpRetRecord {
        cmpRetRecord := cmpRetRecord[group := [Record(com, reason)]];
      } else {
        cmpRetRecord := cmpRetRecord[group := cmpRetRecord[group] + [Record(com, reason)]];
      }
    }

    /** Compares an answer with the groups in turn, up to the first that it equals. */
    method FindGroup(a: Answer) returns (found: Option<nat>)
      requires Fixed() && a.key in judgeDataList && judgeDataList[a.key] == a
      requires forall i :: 0 <= i < |judgeGroup| ==>
        judgeGroup[i].rep.key in judgeDataList && judgeDataList[judgeGroup[i].rep.key] == judgeGroup[i].rep
      requires RecordsSound(cmp, judgeDataList, cmpRetRecord) && RecordsComplete(judgeGroup, cmpRetRecord)
      modifies `cmpRetRecord
      ensures RecordsSound(cmp, judgeDataList, cmpRetRecord) && RecordsComplete(judgeGroup, cmpRetRecord)
      ensures found.Some? ==> found.value < |judgeGroup| && Same(cmp, judgeGroup[found.value].rep, a)
      ensures found.None? ==> forall j :: 0 <= j < |judgeGroup| ==>
        !Same(cmp, judgeGroup[j].rep, a) && Recorded(cmpRetRecord, judgeGroup[j].rep.key, a.key)
    {
      hide Lawful, RecordsSound, RecordsComplete, Recorded, AddRecord, Same, Comparer;
      var i := 0;
      while i < |judgeGroup|
        invariant 0 <= i <= |judgeGroup|
        invariant RecordsSound(cmp, judgeDataList, cmpRetRecord) && RecordsComplete(judgeGroup, cmpRetRecord)
        invariant forall j :: 0 <= j < i ==>
          !Same(cmp, judgeGroup[j].rep, a) && Recorded(cmpRetRecord, judgeGroup[j].rep.key, a.key)
      {
        ghost var records := cmpRetRecord;
        var same := CmpJudgeData(judgeGroup[i].rep, a);
        if same { return Some(i); }
        ghost var r := Record(a.key, cmp.difference(judgeGroup[i].rep, a).value);
        AddRecordKeeps(cmp, judgeDataList, records, judgeGroup[i].rep.key, r);
        StillComplete(cmp, judgeGroup, records, judgeGroup[i].rep.key, r);
        i := i + 1;
      }
      return None;
    }

    /** Puts an answer that has just come into the group it equals, or into a group of its own at
        position `slot` of the iteration order. */
    method GroupAnswer(a: Answer, slot: nat, ghost before: Data)
      requires Fixed() && a.key !in before && judgeDataList == before[a.key := a] && slot <= |judgeGroup|
      requires GroupsOk(cmp, before, judgeGroup) && RecordsSound(cmp, before, cmpRetRecord)
      requires RecordsComplete(judgeGroup, cmpRetRecord)
      modifies `judgeGroup, `cmpRetRecord
      ensures Grouped() && Extends(old(judgeGroup), judgeGroup)
    {
      hide Lawful, GroupsOk, RecordsSound, RecordsComplete, Recorded, Same, Joined, Inserted, Comparer, Extends;
      SoundGrows(cmp, before, a, cmpRetRecord);
      ghost var groups := judgeGroup;
      RepsThere(cmp, before, groups);
      var found := FindGroup(a);
      if found.Some? {
        var i := found.value;
        JoinsGroup(cmp, before, groups, a, i);
        JoinedStillComplete(groups, i, a.key, cmpRetRecord);
        JoinedIs(groups, i, a.key);
        judgeGroup := judgeGroup[i := judgeGroup[i].(keys := judgeGroup[i].keys + [a.key])];
      } else {
        StartsGroup(cmp, before, groups, a, slot);
        InsertedIs(groups, Group(a, [a.key]), slot);
        judgeGroup := judgeGroup[..slot] + [Group(a, [a.key])] + judgeGroup[slot..];
        Supplement(a, slot, groups);
      }
    }

    /** Copies what the older groups recorded about the new one into the records of the new one. */
    method Supplement(a: Answer, slot: nat, ghost others: seq<Group>)
      requires Fixed() && slot <= |others| && judgeGroup == Inserted(others, Group(a, [a.key]), slot)
      requires GroupsOk(cmp, judgeDataList, judgeGroup) && RecordsSound(cmp, judgeDataList, cmpRetRecord)
      requires RecordsComplete(others, cmpRetRecord)
      requires forall j :: 0 <= j < |others| ==>
        others[j].rep.key != a.key && Recorded(cmpRetRecord, others[j].rep.key, a.key)
      modifies `cmpRetRecord
      ensures RecordsSound(cmp, judgeDataList, cmpRetRecord) && RecordsComplete(judgeGroup, cmpRetRecord)
    {
      hide Lawful, GroupsOk, RecordsSound, RecordsComplete, AddRecord, Same, Inserted, Comparer;
      var i := 0;
      while i < |judgeGroup|
        invariant 0 <= i <= |judgeGroup|
        invariant RecordsSound(cmp, judgeDataList, cmpRetRecord) && RecordsComplete(others, cmpRetRecord)
        invariant forall j :: 0 <= j < |others| ==> Recorded(cmpRetRecord, others[j].rep.key, a.key)
        invariant forall j :: 0 <= j < i && j != slot ==> Recorded(cmpRetRecord, a.key, judgeGroup[j].rep.key)
      {
        var rep := judgeGroup[i].rep;
        GroupAt(cmp, judgeDataList, judgeGroup, i);
        if rep.key != a.key {
          assert i != slot && rep == others[if i < slot then i else i - 1].rep;
          var n := FindRecord(cmpRetRecord[rep.key], a.key);
          ghost var records := cmpRetRecord;
          var reason := cmpRetRecord[rep.key][n].reason;
          GroupAt(cmp, judgeDataList, judgeGroup, slot);
          SoundMirrored(cmp, judgeDataList, records, rep.key, n);
          RecordCmpErrorRet(a.key, rep.key, reason);
          AddRecordKeeps(cmp, judgeDataList, records, a.key, Record(rep.key, reason));
          StillComplete(cmp, others, records, a.key, Record(rep.key, reason));
        } else {
          OnlyNewGroup(others, Group(a, [a.key]), slot);
        }
        i := i + 1;
      }
      CompleteWithNew(others, Group(a, [a.key]), slot, cmpRetRecord);
    }

    /** What stands in for a timeout: the first successful group, else the first that is no timeout. */
    method FindStandIn(timeout: Answer) returns (r: Answer)
      ensures StandIn(judgeGroup, timeout, r)
    {
      var i := 0;
      while i < |judgeGroup|
        invariant 0 <= i <= |judgeGroup|
        invariant forall j :: 0 <= j < i ==> !Success(judgeGroup[j].rep)
      {
        if Success(judgeGroup[i].rep) {
          assert judgeGroup[i].rep in Reps(judgeGroup);
          return judgeGroup[i].rep;
        }
        i := i + 1;
      }
      i := 0;
      while i < |judgeGroup|
        invariant 0 <= i <= |judgeGroup|
        invariant forall j :: 0 <= j < i ==> judgeGroup[j].rep.status == GATEWAY_TIMEOUT
      {
        if judgeGroup[i].rep.status != GATEWAY_TIMEOUT {
          assert judgeGroup[i].rep in Reps(judgeGroup);
          return judgeGroup[i].rep;
        }
        i := i + 1;
      }
      return timeout;
    }

    method Give(r: Answer, kind: Kind)
      modifies `judgeResult, `retGroupKey, `judgeType
      ensures judgeResult == Some(r) && retGroupKey == Some(r.key) && judgeType == Some(kind)
    {
      judgeResult, retGroupKey, judgeType := Some(r), Some(r.key), Some(kind);
    }

    /** The rule of the majority: the first group with a quorum wins, but a quorum of timeouts has
        to wait for all answers, and then for a stand-in. */
    method DecideByMajority() returns (decided: bool)
      requires judgeResult == None
      modifies `judgeResult, `retGroupKey, `judgeType
      ensures decided ==> judgeResult.Some? && retGroupKey == Some(judgeResult.value.key) && judgeType == Some(Majority)
      ensures decided ==> VerdictOk(judgeGroup, judgeDataList, execNum, Majority, judgeResult.value)
      ensures !decided ==> judgeResult == None && judgeType == old(judgeType) && retGroupKey == old(retGroupKey)
      ensures !decided ==> forall i :: HasQuorum(judgeGroup, execNum, i) ==>
        judgeGroup[i].rep.status == GATEWAY_TIMEOUT && |judgeDataList| != execNum
    {
      hide StandIn;
      var i := 0;
      while i < |judgeGroup|
        invariant 0 <= i <= |judgeGroup|
        invariant forall j :: 0 <= j < i && HasQuorum(judgeGroup, execNum, j) ==>
          judgeGroup[j].rep.status == GATEWAY_TIMEOUT && |judgeDataList| != execNum
      {
        var rep := judgeGroup[i].rep;
        if |judgeGroup[i].keys| >= (execNum + 1) / 2 {
          assert HasQuorum(judgeGroup, execNum, i);
          if rep.status != GATEWAY_TIMEOUT {
            Give(rep, Majority);
            assert Elected(judgeGroup, judgeDataList, execNum, i, rep);
            return true;
          }
          if |judgeDataList| == execNum {
            var r := FindStandIn(rep);
            Give(r, Majority);
            assert Elected(judgeGroup, judgeDataList, execNum, i, r);
            return true;
          }
        }
        i := i + 1;
      }
      return false;
    }

    /** Picks the answer of the executor with the least failures (if the rule is by weight) or the
        least start time; by weight, ties are broken by the start times of all executors; a tie that
        remains is broken by drawing among all answers. */
    method TimeOrWeightJudge(draw: Key) returns (t: Key)
      requires Fixed() && draw in judgeDataList && Answered() == failcountList.Keys
      ensures t in judgeDataList && Favoured(JudgeRule(), draw, t)
    {
      hide Lawful, Comparer, Least;
      if byWeight {
        var fewest := LeastKeys(failcountList);
        LeastKeysTell(failcountList, fewest);
        if |fewest| == 1 {
          var addr := Only(fewest);
          t :| t in judgeDataList && t.addr == addr;
          return;
        }
      }
      var earliest := LeastKeys(uptimelist);
      LeastKeysTell(uptimelist, earliest);
      if |earliest| == 1 {
        var addr := Only(earliest);
        t :| t in judgeDataList && t.addr == addr;
      } else {
        t := draw;
      }
    }

    /** Gives a verdict if the rules allow one. */
    method Decide(draw: Key) returns (decided: bool)
      requires Fixed() && judgeResult == None && |judgeDataList| >= 2 && |judgeDataList| <= execNum
      requires judgeType == None
      requires draw in judgeDataList && (|judgeDataList| == execNum ==> Answered() == failcountList.Keys)
      modifies `judgeResult, `retGroupKey, `judgeType
      ensures decided == judgeResult.Some?
      ensures State(judgeGroup, judgeDataList, execNum, judgeType, judgeResult)
      ensures decided ==> retGroupKey == Some(judgeResult.value.key)
      ensures !decided ==> retGroupKey == old(retGroupKey)
      ensures judgeType == Some(TimeOrWeight) ==>
        judgeResult.Some? && PickedBy(JudgeRule(), draw, judgeGroup, judgeDataList, judgeResult.value)
    {
      hide Lawful, StandIn, Comparer, Elected, Favoured;
      decided := DecideByMajority();
      if decided { return; }
      if |judgeDataList| == execNum {
        var t := TimeOrWeightJudge(draw);
        var r := judgeDataList[t];
        if r.status == GATEWAY_TIMEOUT { r := FindStandIn(r); }
        assert Picked(judgeGroup, judgeDataList, t, r);
        Give(r, TimeOrWeight);
        decided := true;
      }
    }

    /** A new answer has come: groups it, and gives the verdict if there is none and the rules allow
        one. Returns 1 when the verdict is given. */
    method JudgeData(a: Answer, slot: nat, draw: Key) returns (ret: int)
      requires Valid() && a.key !in judgeDataList && slot <= |judgeGroup|
      requires a.key.addr in failcountList && a.key.addr !in Answered()
      requires draw in judgeDataList || draw == a.key
      modifies this
      ensures Valid() && judgeDataList == old(judgeDataList)[a.key := a]
      ensures Answered() == old(Answered()) + {a.key.addr}
      ensures ret == if old(judgeResult) == None && judgeResult.Some? then 1 else 0
      ensures old(judgeResult).Some? ==> judgeResult == old(judgeResult) && judgeType == old(judgeType)
      ensures analyseErrorDetailMap == old(analyseErrorDetailMap)
      ensures judgeType == Some(TimeOrWeight) ==>
        judgeResult.Some? && PickedBy(JudgeRule(), draw, judgeGroup, judgeDataList, judgeResult.value)
    {
      hide Lawful, GroupsOk, RecordsSound, RecordsComplete, Comparer, Extends, State, Addresses, PickedBy;
      AddressesGrow(judgeDataList, a);
      if execNum > 1 && judgeResult == None { KindUndecided(judgeGroup, judgeDataList, execNum, judgeType); }
      ghost var before, groups := judgeDataList, judgeGroup;
      judgeDataList := judgeDataList[a.key := a];
      AllCome(Answered(), failcountList.Keys);
      if |judgeDataList| == 1 && execNum == 1 {
        judgeResult := Some(a);
        return 1;
      }
      GroupAnswer(a, slot, before);
      if judgeResult.Some? {
        NotByTime(groups, before, execNum, judgeType, judgeResult);
        StateStays(groups, before, execNum, judgeType, judgeResult.value, judgeGroup, judgeDataList);
        return 0;
      }
      if |judgeDataList| == 1 {
        FirstAnswer(judgeGroup, judgeDataList, execNum);
        return 0;
      }
      var decided := Decide(draw);
      return if decided then 1 else 0;
    }

    /** Reports the answers that were outvoted, each with the reason of its difference. */
    method AnalyseJudgeResult()
      requires Valid() && analyseErrorDetailMap == map[]
      modifies `analyseErrorDetailMap
      ensures judgeType == Some(Majority) ==>
        judgeResult.Some? && analyseErrorDetailMap == Blamed(cmp, judgeDataList, judgeResult.value)
      ensures judgeType == Some(TimeOrWeight) ==>
        judgeResult.Some? && analyseErrorDetailMap.Keys == OutsideGroup(judgeGroup, judgeResult.value.key) &&
        AllTold()
      ensures judgeType == None ==> analyseErrorDetailMap == map[]
    {
      hide Lawful, GroupsOk, RecordsSound, RecordsComplete, Comparer, VerdictOk, Blamed, OutsideGroup, Undecided;
      if retGroupKey == None { return; }
      if judgeType == Some(Majority) {
        BlameByMajority();
      } else {
        assert judgeType.Some? && judgeType.value == TimeOrWeight;
        BlameByTime();
      }
    }

    method BlameByMajority()
      requires Fixed() && Grouped() && analyseErrorDetailMap == map[]
      requires judgeResult.Some? && retGroupKey == Some(judgeResult.value.key)
      requires VerdictOk(judgeGroup, judgeDataList, execNum, Majority, judgeResult.value)
      modifies `analyseErrorDetailMap
      ensures analyseErrorDetailMap == Blamed(cmp, judgeDataList, judgeResult.value)
    {
      hide Lawful, GroupsOk, RecordsSound, RecordsComplete, Comparer, VerdictOk, Blamed, Reasons, Lost, BlamedIn, Reps;
      MajorityIsRep(judgeGroup, judgeDataList, execNum, judgeResult.value);
      BlamedNone(cmp, judgeDataList, judgeGroup, judgeResult.value);
      var i := 0;
      while i < |judgeGroup|
        invariant 0 <= i <= |judgeGroup|
        invariant analyseErrorDetailMap == BlamedIn(cmp, judgeDataList, judgeGroup[..i], judgeResult.value)
      {
        assert judgeGroup[..i + 1] == judgeGroup[..i] + [judgeGroup[i]];
        BlamedGroup(cmp, judgeDataList, judgeGroup, i, judgeResult.value);
        if judgeGroup[i].rep.key != judgeResult.value.key {
          LosersDiffer(cmp, judgeDataList, judgeGroup, cmpRetRecord, i, judgeResult.value);
          BlameGroup(judgeGroup[i]);
        }
        i := i + 1;
      }
      assert judgeGroup[..i] == judgeGroup;
      BlamedAll(cmp, judgeDataList, judgeGroup, judgeResult.value);
    }

    /** Reports the members of a group that lost. */
    method BlameGroup(g: Group)
      requires Fixed() && judgeResult.Some? && retGroupKey == Some(judgeResult.value.key)
      requires RecordsSound(cmp, judgeDataList, cmpRetRecord)
      requires Lost(cmp, judgeDataList, cmpRetRecord, g, judgeResult.value)
      modifies `analyseErrorDetailMap
      ensures analyseErrorDetailMap ==
        old(analyseErrorDetailMap) + Reasons(cmp, judgeDataList, g.keys, judgeResult.value)
    {
      hide Lawful, RecordsSound, Recorded, Comparer, Alike;
      var n := 0;
      assert g.keys[..n] == [];
      while n < |g.keys|
        invariant 0 <= n <= |g.keys|
        invariant analyseErrorDetailMap ==
          old(analyseErrorDetailMap) + Reasons(cmp, judgeDataList, g.keys[..n], judgeResult.value)
      {
        assert g.keys[..n + 1] == g.keys[..n] + [g.keys[n]];
        BlameMember(g.keys[n], g.rep.key);
        n := n + 1;
      }
      assert g.keys[..n] == g.keys;
    }

    /** Reports one member: what the winning group recorded about it, or else what its own group
        recorded about the winner. The search never fails. */
    method BlameMember(ele: Key, rep: Key)
      requires Fixed() && RecordsSound(cmp, judgeDataList, cmpRetRecord)
      requires judgeResult.Some? && retGroupKey == Some(judgeResult.value.key)
      requires var verdict := judgeResult.value.key;
        verdict in judgeDataList && judgeDataList[verdict] == judgeResult.value &&
        ele in judgeDataList && rep in judgeDataList && Alike(cmp, judgeDataList[rep], judgeDataList[ele]) &&
        Recorded(cmpRetRecord, rep, verdict)
      modifies `analyseErrorDetailMap
      ensures cmp.difference(judgeResult.value, judgeDataList[ele]).Some?
      ensures analyseErrorDetailMap ==
        old(analyseErrorDetailMap)[ele := cmp.difference(judgeResult.value, judgeDataList[ele]).value]
    {
      hide Lawful, RecordsSound, Comparer, Alike;
      var ret := retGroupKey.value;
      if ret in cmpRetRecord && exists m :: 0 <= m < |cmpRetRecord[ret]| && cmpRetRecord[ret][m].key == ele {
        var n := FindRecord(cmpRetRecord[ret], ele);
        SoundMirrored(cmp, judgeDataList, cmpRetRecord, ret, n);
        SymmetricReasons(cmp, judgeDataList[ret], judgeDataList[ele], judgeDataList[ele]);
        analyseErrorDetailMap := analyseErrorDetailMap[ele := cmpRetRecord[ret][n].reason];
      } else {
        var n := FindRecord(cmpRetRecord[rep], ret);
        SoundMirrored(cmp, judgeDataList, cmpRetRecord, rep, n);
        SymmetricReasons(cmp, judgeDataList[ret], judgeDataList[rep], judgeDataList[ele]);
        analyseErrorDetailMap := analyseErrorDetailMap[ele := cmpRetRecord[rep][n].reason];
      }
    }

    /** By time or weight, every member of the other groups is reported, with the last difference
        that its group recorded. */
    method BlameByTime()
      requires Fixed() && Grouped() && analyseErrorDetailMap == map[] && execNum >= 2
      requires judgeResult.Some? && retGroupKey == Some(judgeResult.value.key)
      requires VerdictOk(judgeGroup, judgeDataList, execNum, TimeOrWeight, judgeResult.value)
      modifies `analyseErrorDetailMap
      ensures analyseErrorDetailMap.Keys == OutsideGroup(judgeGroup, judgeResult.value.key)
      ensures AllTold()
    {
      hide Lawful, GroupsOk, RecordsSound, RecordsComplete, Comparer, VerdictOk, LastTold, KeySet;
      SomeOtherGroup(cmp, judgeDataList, judgeGroup, cmpRetRecord, execNum, judgeResult.value);
      var i := 0;
      while i < |judgeGroup|
        invariant 0 <= i <= |judgeGroup|
        invariant analyseErrorDetailMap.Keys == OutsideGroup(judgeGroup[..i], judgeResult.value.key)
        invariant AllTold()
      {
        var g := judgeGroup[i];
        OutsideGrows(judgeGroup[..i], g, judgeResult.value.key);
        assert judgeGroup[..i + 1] == judgeGroup[..i] + [g];
        if g.rep.key != retGroupKey.value {
          BlameAllOf(i);
        }
        i := i + 1;
      }
      assert judgeGroup[..i] == judgeGroup;
    }

    /** Every reason given is the last that the group of the one blamed has recorded. */
    ghost predicate AllTold()
      reads this
    {
      judgeResult.Some? &&
      forall k :: k in analyseErrorDetailMap ==>
        LastTold(judgeGroup, cmpRetRecord, judgeResult.value.key, k, analyseErrorDetailMap[k])
    }

    method BlameAllOf(i: nat)
      requires judgeResult.Some? && AllTold()
      requires i < |judgeGroup| && judgeGroup[i].rep.key != judgeResult.value.key
      requires judgeGroup[i].rep.key in cmpRetRecord && cmpRetRecord[judgeGroup[i].rep.key] != []
      modifies `analyseErrorDetailMap
      ensures analyseErrorDetailMap.Keys == old(analyseErrorDetailMap.Keys) + KeySet(judgeGroup[i].keys)
      ensures AllTold()
    {
      var g := judgeGroup[i];
      var records := cmpRetRecord[g.rep.key];
      var n := 0;
      assert g.keys[..n] == [];
      while n < |g.keys|
        invariant 0 <= n <= |g.keys|
        invariant analyseErrorDetailMap.Keys == old(analyseErrorDetailMap.Keys) + KeySet(g.keys[..n])
        invariant AllTold()
      {
        KeySetGrows(g.keys[..n], g.keys[n]);
        assert g.keys[..n + 1] == g.keys[..n] + [g.keys[n]];
        assert LastToldBy(judgeGroup, cmpRetRecord, judgeResult.value.key, i, g.keys[n],
                          records[|records| - 1].reason);
        analyseErrorDetailMap := analyseErrorDetailMap[g.keys[n] := records[|records| - 1].reason];
        n := n + 1;
      }
      assert g.keys[..n] == g.keys;
    }

    /** The position of the first record about `key`. */
    static method FindRecord(records: seq<Record>, key: Key) returns (n: nat)
      requires exists m :: 0 <= m < |records| && records[m].key == key
      ensures n < |records| && records[n].key == key && forall m :: 0 <= m < n ==> records[m].key != key
    {
      n := 0;
      while records[n].key != key
        invariant n < |records| && forall m :: 0 <= m < n ==> records[m].key != key
        decreases |records| - n
      {
        n := n + 1;
      }
    }
  }

  ghost predicate Least(m: map<string, int>, x: string) {
    x in m && forall y :: y in m && y != x ==> m[x] < m[y]
  }

  ghost predicate NoLeast(m: map<string, int>) {
    forall x :: !Least(m, x)
  }

  /** How the winner is found by time or weight. */
  datatype Rule = Rule(byWeight: bool, failcounts: map<string, int>, uptimes: map<string, int>)

  /** By weight the executor with the least failures, if there is one; otherwise the one with the least
      start time, if there is one; otherwise the answer drawn. */
  ghost predicate Favoured(rule: Rule, draw: Key, t: Key) {
    if rule.byWeight && !NoLeast(rule.failcounts) then Least(rule.failcounts, t.addr)
    else if !NoLeast(rule.uptimes) then Least(rule.uptimes, t.addr)
    else t == draw
  }

  ghost predicate PickedBy(rule: Rule, draw: Key, groups: seq<Group>, data: Data, r: Answer) {
    exists t :: Favoured(rule, draw, t) && Picked(groups, data, t, r)
  }

  /** Before the last answer nothing is decided by time or weight. */
  lemma NotByTime(groups: seq<Group>, data: Data, n: nat, kind: Option<Kind>, r: Option<Answer>)
    requires State(groups, data, n, kind, r) && |data| < n
    ensures kind != Some(TimeOrWeight)
  {
  }

  /** The keys with the least value. */
  method LeastKeys(m: map<string, int>) returns (least: set<string>)
    requires m != map[]
    ensures least == set x | x in m && forall y :: y in m ==> m[x] <= m[y]
    ensures least != {}
  {
    var todo := m.Keys;
    var first :| first in todo;
    var min := m[first];
    ghost var at := first;
    while todo != {}
      invariant todo <= m.Keys && at in m && m[at] == min
      invariant forall y :: y in m && y !in todo ==> min <= m[y]
      decreases todo
    {
      var x :| x in todo;
      if m[x] < min { min := m[x]; at := x; }
      todo := todo - {x};
    }
    least := set x | x in m && m[x] == min;
    assert at in least;
  }

  method Only(s: set<string>) returns (x: string)
    requires |s| == 1
    ensures s == {x}
  {
    x :| x in s;
    assert |s - {x}| == 0;
  }

  lemma LeastKeysTell(m: map<string, int>, least: set<string>)
    requires least == set x | x in m && forall y :: y in m ==> m[x] <= m[y]
    ensures forall x :: Least(m, x) <==> least == {x}
    ensures |least| != 1 ==> NoLeast(m)
  {
    forall x
      ensures Least(m, x) <==> least == {x}
    {
      if least == {x} {
        assert x in least;
        assert forall y :: y in m && y != x ==> y !in least;
      }
    }
  }

  lemma AllCome(some: set<string>, all: set<string>)
    requires some <= all
    ensures |some| == |all| ==> some == all
    ensures |some| <= |all|
  {
    assert all == some + (all - some);
    assert |all| == |some| + |all - some|;
  }

  /** The keys of the groups whose representative is not `key`. */
  ghost function OutsideGroup(groups: seq<Group>, key: Key): set<Key> {
    if groups == [] then {}
    else
      var g := groups[|groups| - 1];
      OutsideGroup(groups[..|groups| - 1], key) + (if g.rep.key != key then KeySet(g.keys) else {})
  }

  lemma OutsideGrows(groups: seq<Group>, g: Group, key: Key)
    ensures OutsideGroup(groups + [g], key) ==
            OutsideGroup(groups, key) + (if g.rep.key != key then KeySet(g.keys) else {})
  {
    assert (groups + [g])[..|groups|] == groups;
  }

  /** Group `i` lost, `k` is one of its members, and `reason` is the last difference it recorded. */
  ghost predicate LastToldBy(groups: seq<Group>, records: Records, key: Key, i: int, k: Key, reason: Reason) {
    0 <= i < |groups| && groups[i].rep.key != key && k in groups[i].keys &&
    groups[i].rep.key in records &&
    var told := records[groups[i].rep.key];
    |told| > 0 && told[|told| - 1].reason == reason
  }

  ghost predicate LastTold(groups: seq<Group>, records: Records, key: Key, k: Key, reason: Reason) {
    exists i :: LastToldBy(groups, records, key, i, k, reason)
  }

  /** Every reason told by time or weight is that of a difference between the answer and another. */
  lemma ToldIsThere(cmp: Compare, data: Data, groups: seq<Group>, records: Records, key: Key, k: Key, reason: Reason)
    requires Lawful(cmp) && GroupsOk(cmp, data, groups) && RecordsSound(cmp, data, records)
    requires LastTold(groups, records, key, k, reason)
    ensures k in data && exists o :: o in data && cmp.difference(data[o], data[k]) == Some(reason)
  {
    hide Lawful, GroupsOk, RecordsSound, Alike;
    var i: nat :| LastToldBy(groups, records, key, i, k, reason);
    GroupAt(cmp, data, groups, i);
    assert k in KeySet(groups[i].keys);
    var rep := groups[i].rep.key;
    var n := |records[rep]| - 1;
    SoundMirrored(cmp, data, records, rep, n);
    SymmetricReasons(cmp, data[records[rep][n].key], data[rep], data[k]);
  }

  lemma {:induction false} OutsideGroupMeans(groups: seq<Group>, key: Key, k: Key)
    ensures k in OutsideGroup(groups, key) <==>
            exists i :: 0 <= i < |groups| && groups[i].rep.key != key && k in groups[i].keys
    decreases |groups|
  {
    if groups != [] {
      var rest := groups[..|groups| - 1];
      OutsideGroupMeans(rest, key, k);
      assert forall i :: 0 <= i < |rest| ==> rest[i] == groups[i];
    }
  }

  /** Outside the group of the verdict are the answers that differ from it, or all answers when the
      verdict is no representative. */
  lemma OutsideIs(cmp: Compare, data: Data, groups: seq<Group>, verdict: Answer)
    requires Lawful(cmp) && GroupsOk(cmp, data, groups) && verdict in data.Values
    ensures OutsideGroup(groups, verdict.key) == Outvoted(cmp, data, groups, verdict)
  {
    hide Lawful, GroupsOk, OutsideGroup, Alike;
    forall k
      ensures k in OutsideGroup(groups, verdict.key) <==> k in Outvoted(cmp, data, groups, verdict)
    {
      OutsideGroupMeans(groups, verdict.key, k);
      if k !in data {
        NoStranger(cmp, data, groups, k);
      } else if verdict in Reps(groups) {
        LostOrAlike(cmp, data, groups, verdict, k);
      } else {
        NobodyWins(cmp, data, groups, verdict, k);
      }
    }
  }

  lemma NoStranger(cmp: Compare, data: Data, groups: seq<Group>, k: Key)
    requires GroupsOk(cmp, data, groups) && k !in data
    ensures forall i :: 0 <= i < |groups| ==> k !in groups[i].keys
  {
    hide GroupsOk;
    forall i | 0 <= i < |groups|
      ensures k !in groups[i].keys
    {
      GroupAt(cmp, data, groups, i);
      assert k !in KeySet(groups[i].keys);
    }
  }

  lemma NobodyWins(cmp: Compare, data: Data, groups: seq<Group>, verdict: Answer, k: Key)
    requires Lawful(cmp) && GroupsOk(cmp, data, groups) && verdict in data.Values && verdict !in Reps(groups)
    requires k in data
    ensures exists i :: 0 <= i < |groups| && groups[i].rep.key != verdict.key && k in groups[i].keys
  {
    hide Lawful, GroupsOk, Alike;
    var i := GroupFor(cmp, data, groups, k);
    assert k in KeySet(groups[i].keys) by { SelfInClass(cmp, data, k); }
    GroupAt(cmp, data, groups, i);
    assert groups[i].rep in Reps(groups);
    VerdictKey(cmp, data, groups, verdict);
  }

  lemma VerdictKey(cmp: Compare, data: Data, groups: seq<Group>, verdict: Answer)
    requires GroupsOk(cmp, data, groups) && verdict in data.Values
    ensures verdict.key in data && data[verdict.key] == verdict
  {
    hide GroupOk, Apart, Represented;
  }

  /** The reasons for which the answers `keys` differ from the verdict. */
  ghost function Reasons(cmp: Compare, data: Data, keys: seq<Key>, verdict: Answer): map<Key, Reason> {
    map k | k in keys && k in data && cmp.difference(verdict, data[k]).Some? :: cmp.difference(verdict, data[k]).value
  }

  ghost function BlamedIn(cmp: Compare, data: Data, groups: seq<Group>, verdict: Answer): map<Key, Reason> {
    if groups == [] then map[]
    else
      var g := groups[|groups| - 1];
      BlamedIn(cmp, data, groups[..|groups| - 1], verdict) +
      (if g.rep.key != verdict.key then Reasons(cmp, data, g.keys, verdict) else map[])
  }

  lemma BlamedNone(cmp: Compare, data: Data, groups: seq<Group>, verdict: Answer)
    ensures BlamedIn(cmp, data, groups[..0], verdict) == map[]
  {
  }

  lemma BlamedGroup(cmp: Compare, data: Data, groups: seq<Group>, i: nat, verdict: Answer)
    requires i < |groups|
    ensures BlamedIn(cmp, data, groups[..i + 1], verdict) ==
      BlamedIn(cmp, data, groups[..i], verdict) +
      (if groups[i].rep.key != verdict.key then Reasons(cmp, data, groups[i].keys, verdict) else map[])
  {
    hide Reasons;
    assert groups[..i + 1][..i] == groups[..i];
  }

  lemma {:induction false} BlamedInMeans(cmp: Compare, data: Data, groups: seq<Group>, verdict: Answer, k: Key)
    ensures k in BlamedIn(cmp, data, groups, verdict) <==>
      k in data && cmp.difference(verdict, data[k]).Some? &&
      exists i :: 0 <= i < |groups| && groups[i].rep.key != verdict.key && k in groups[i].keys
    ensures k in BlamedIn(cmp, data, groups, verdict) ==>
      BlamedIn(cmp, data, groups, verdict)[k] == cmp.difference(verdict, data[k]).value
    decreases |groups|
  {
    if groups != [] {
      var rest := groups[..|groups| - 1];
      BlamedInMeans(cmp, data, rest, verdict, k);
      assert forall i :: 0 <= i < |rest| ==> rest[i] == groups[i];
    }
  }

  /** The members of the groups that lost are exactly the answers not alike to the verdict. */
  lemma BlamedAll(cmp: Compare, data: Data, groups: seq<Group>, verdict: Answer)
    requires Lawful(cmp) && GroupsOk(cmp, data, groups) && verdict in Reps(groups)
    ensures BlamedIn(cmp, data, groups, verdict) == Blamed(cmp, data, verdict)
  {
    hide Lawful, GroupsOk, BlamedIn;
    var x, y := BlamedIn(cmp, data, groups, verdict), Blamed(cmp, data, verdict);
    forall k
      ensures k in x <==> k in y
      ensures k in x ==> x[k] == y[k]
    {
      BlamedInMeans(cmp, data, groups, verdict, k);
      if k in data { LostOrAlike(cmp, data, groups, verdict, k); }
    }
  }

  lemma LostOrAlike(cmp: Compare, data: Data, groups: seq<Group>, verdict: Answer, k: Key)
    requires Lawful(cmp) && GroupsOk(cmp, data, groups) && verdict in Reps(groups) && k in data
    ensures !Alike(cmp, verdict, data[k]) ==> cmp.difference(verdict, data[k]).Some?
    ensures !Alike(cmp, verdict, data[k]) <==>
      exists i :: 0 <= i < |groups| && groups[i].rep.key != verdict.key && k in groups[i].keys
  {
    hide Lawful, GroupsOk;
    var v :| 0 <= v < |groups| && groups[v].rep == verdict;
    GroupAt(cmp, data, groups, v);
    var i := GroupFor(cmp, data, groups, k);
    GroupAt(cmp, data, groups, i);
    assert k in KeySet(groups[i].keys) by { SelfInClass(cmp, data, k); }
    if Alike(cmp, verdict, data[k]) {
      forall j | 0 <= j < |groups| && groups[j].rep.key != verdict.key
        ensures k !in groups[j].keys
      {
        GroupAt(cmp, data, groups, j);
        RepsApart(cmp, data, groups, v, j);
        DistinctClasses(cmp, data, verdict, groups[j].rep);
        assert k in ClassOf(cmp, data, verdict);
        assert k !in KeySet(groups[j].keys);
      }
    } else {
      AlikeEquivalence(cmp, groups[i].rep, data[k], data[k]);
    }
  }

  lemma SelfInClass(cmp: Compare, data: Data, k: Key)
    requires k in data
    ensures k in ClassOf(cmp, data, data[k])
  {
  }

  lemma RepsApart(cmp: Compare, data: Data, groups: seq<Group>, i: nat, j: nat)
    requires Lawful(cmp) && GroupsOk(cmp, data, groups) && i < |groups| && j < |groups| && i != j
    ensures !Alike(cmp, groups[i].rep, groups[j].rep)
  {
    hide Lawful, Alike, GroupOk, Represented, KeysMatch;
    AlikeEquivalence(cmp, groups[i].rep, groups[j].rep, groups[i].rep);
  }

  /** A group that lost: it has recorded the winner, and its members equal its representative. */
  ghost predicate Lost(cmp: Compare, data: Data, records: Records, g: Group, verdict: Answer) {
    verdict.key in data && data[verdict.key] == verdict &&
    g.rep.key in data && Recorded(records, g.rep.key, verdict.key) &&
    forall k :: k in g.keys ==> k in data && Alike(cmp, data[g.rep.key], data[k])
  }

  lemma LosersDiffer(cmp: Compare, data: Data, groups: seq<Group>, records: Records, i: nat, verdict: Answer)
    requires Lawful(cmp) && GroupsOk(cmp, data, groups) && RecordsComplete(groups, records)
    requires verdict in Reps(groups) && i < |groups| && groups[i].rep.key != verdict.key
    ensures Lost(cmp, data, records, groups[i], verdict)
  {
    hide Lawful, GroupsOk, Recorded;
    var v :| 0 <= v < |groups| && groups[v].rep == verdict;
    GroupAt(cmp, data, groups, v);
    GroupAt(cmp, data, groups, i);
    forall k | k in groups[i].keys
      ensures k in data && Alike(cmp, data[groups[i].rep.key], data[k])
    {
      assert k in KeySet(groups[i].keys);
    }
  }

  lemma SymmetricReasons(cmp: Compare, a: Answer, b: Answer, c: Answer)
    requires Lawful(cmp) && Alike(cmp, b, c)
    ensures cmp.difference(a, b) == cmp.difference(b, a) == cmp.difference(a, c)
  {
  }

  /** Without a quorum there are at least two groups, so every group has recorded something. */
  lemma SomeOtherGroup(cmp: Compare, data: Data, groups: seq<Group>, records: Records, n: nat, r: Answer)
    requires Lawful(cmp) && GroupsOk(cmp, data, groups) && RecordsComplete(groups, records) && n >= 2
    requires VerdictOk(groups, data, n, TimeOrWeight, r)
    ensures forall i :: 0 <= i < |groups| ==> groups[i].rep.key in records && records[groups[i].rep.key] != []
  {
    hide Lawful, GroupsOk, ClassOf, KeySet;
    if |groups| == 1 {
      OnlyGroupHasQuorum(cmp, data, groups, n);
    }
    forall i | 0 <= i < |groups|
      ensures groups[i].rep.key in records && records[groups[i].rep.key] != []
    {
      var j := if i == 0 then 1 else 0;
      assert Recorded(records, groups[i].rep.key, groups[j].rep.key);
    }
  }

  lemma OnlyGroupHasQuorum(cmp: Compare, data: Data, groups: seq<Group>, n: nat)
    requires Lawful(cmp) && GroupsOk(cmp, data, groups) && |groups| == 1 && |data| == n
    ensures HasQuorum(groups, n, 0)
  {
    hide Lawful, GroupsOk, KeySet, Alike;
    GroupAt(cmp, data, groups, 0);
    forall k | k in data
      ensures k in ClassOf(cmp, data, groups[0].rep)
    {
      var i := GroupFor(cmp, data, groups, k);
    }
    assert ClassOf(cmp, data, groups[0].rep) == data.Keys;
  }

  lemma NothingYet(cmp: Compare, n: nat)
    ensures GroupsOk(cmp, map[], []) && RecordsSound(cmp, map[], map[]) && RecordsComplete([], map[])
    ensures n > 0 ==> State([], map[], n, None, None)
  {
  }

  lemma SoundGrows(cmp: Compare, data: Data, a: Answer, records: Records)
    requires RecordsSound(cmp, data, records) && a.key !in data
    ensures RecordsSound(cmp, data[a.key := a], records)
  {
  }

  lemma JoinedIs(groups: seq<Group>, i: nat, k: Key)
    requires i < |groups|
    ensures Joined(groups, i, k) == groups[i := groups[i].(keys := groups[i].keys + [k])]
    ensures Extends(groups, Joined(groups, i, k))
  {
    forall j | 0 <= j < |groups|
      ensures exists m :: 0 <= m < |groups| && Joined(groups, i, k)[m].rep == groups[j].rep &&
                          |Joined(groups, i, k)[m].keys| >= |groups[j].keys|
    {
      assert Joined(groups, i, k)[j].rep == groups[j].rep;
    }
  }

  lemma InsertedIs(groups: seq<Group>, g: Group, slot: nat)
    requires slot <= |groups|
    ensures Inserted(groups, g, slot) == groups[..slot] + [g] + groups[slot..]
    ensures Extends(groups, Inserted(groups, g, slot))
  {
    forall j | 0 <= j < |groups|
      ensures exists m :: 0 <= m < |groups| + 1 && Inserted(groups, g, slot)[m].rep == groups[j].rep &&
                          |Inserted(groups, g, slot)[m].keys| >= |groups[j].keys|
    {
      assert Inserted(groups, g, slot)[if j < slot then j else j + 1] == groups[j];
    }
  }

  lemma JoinedStillComplete(groups: seq<Group>, i: nat, k: Key, records: Records)
    requires i < |groups| && RecordsComplete(groups, records)
    ensures RecordsComplete(Joined(groups, i, k), records)
  {
    hide Recorded;
  }

  lemma StillComplete(cmp: Compare, groups: seq<Group>, records: Records, key: Key, r: Record)
    requires RecordsComplete(groups, records)
    ensures RecordsComplete(groups, AddRecord(records, key, r))
  {
    hide Recorded, AddRecord;
    AddRecordKeeps(cmp, map[], records, key, r);
  }

  /** What one side recorded holds for the other side too. */
  lemma SoundMirrored(cmp: Compare, data: Data, records: Records, key: Key, n: nat)
    requires Lawful(cmp) && RecordsSound(cmp, data, records) && key in records && n < |records[key]|
    ensures var r := records[key][n];
      key in data && r.key in data && cmp.difference(data[r.key], data[key]) == Some(r.reason)
  {
    assert cmp.difference(data[records[key][n].key], data[key]) == cmp.difference(data[key], data[records[key][n].key]);
  }

  lemma OnlyNewGroup(others: seq<Group>, g: Group, slot: nat)
    requires slot <= |others|
    requires forall j :: 0 <= j < |others| ==> others[j].rep.key != g.rep.key
    ensures forall i :: 0 <= i <= |others| && i != slot ==> Inserted(others, g, slot)[i].rep.key != g.rep.key
  {
  }

  lemma RepsThere(cmp: Compare, data: Data, groups: seq<Group>)
    requires GroupsOk(cmp, data, groups)
    ensures forall i :: 0 <= i < |groups| ==> groups[i].rep.key in data && data[groups[i].rep.key] == groups[i].rep
  {
    hide ClassOf, KeySet, Alike, Represented;
  }

  lemma CompleteWithNew(others: seq<Group>, g: Group, slot: nat, records: Records)
    requires slot <= |others| && RecordsComplete(others, records)
    requires forall j :: 0 <= j < |others| ==> Recorded(records, others[j].rep.key, g.rep.key)
    requires var groups := Inserted(others, g, slot);
      forall j :: 0 <= j < |groups| && j != slot ==> Recorded(records, g.rep.key, groups[j].rep.key)
    ensures RecordsComplete(Inserted(others, g, slot), records)
  {
    hide Recorded;
    var groups := Inserted(others, g, slot);
    forall i, j | 0 <= i < |groups| && 0 <= j < |groups| && i != j
      ensures Recorded(records, groups[i].rep.key, groups[j].rep.key)
    {
      var i', j' := if i < slot then i else i - 1, if j < slot then j else j - 1;
      if i != slot { assert groups[i] == others[i']; }
      if j != slot { assert groups[j] == others[j']; }
    }
  }

  /** What a program can see of a vote: the values that `JudgeData` returned, the verdict and how it
      was found, the groups, and the executors that are blamed. */
  datatype Outcome = Outcome(
    calls: seq<int>, verdict: Answer, kind: Option<Kind>, groups: seq<Group>, blamed: map<Key, Reason>)

  ghost function DataOf(answers: seq<Answer>): Data {
    if answers == [] then map[]
    else
      var last := answers[|answers| - 1];
      DataOf(answers[..|answers| - 1])[last.key := last]
  }

  ghost function AddressesOf(answers: seq<Answer>): set<string> {
    set i | 0 <= i < |answers| :: answers[i].key.addr
  }

  /** Every executor answers once. */
  ghost predicate OneEach(answers: seq<Answer>, failcounts: map<string, int>) {
    |answers| == |failcounts| &&
    (forall i :: 0 <= i < |answers| ==> answers[i].key.addr in failcounts) &&
    forall i, j :: 0 <= i < j < |answers| ==> answers[i].key.addr != answers[j].key.addr
  }

  /** The verdict is given at exactly one arrival, the one numbered `at`. */
  predicate GivenAt(calls: seq<int>, at: nat) {
    at < |calls| && forall j :: 0 <= j < |calls| ==> calls[j] == if j == at then 1 else 0
  }

  /** Those that a verdict by time or weight blames: the answers that differ from the verdict, or all
      answers when the verdict is not the answer its group started with. */
  ghost function Outvoted(cmp: Compare, data: Data, groups: seq<Group>, verdict: Answer): set<Key> {
    if verdict in Reps(groups) then data.Keys - ClassOf(cmp, data, verdict) else data.Keys
  }

  /** A verdict by time or weight: the winner is the one the rule favours, and every reason given is
      that of a difference between the blamed answer and another. */
  ghost predicate ByTime(cmp: Compare, data: Data, rule: Rule, draw: Key, out: Outcome) {
    PickedBy(rule, draw, out.groups, data, out.verdict) && RuleKept(data, rule, out.verdict) &&
    out.blamed.Keys == Outvoted(cmp, data, out.groups, out.verdict) &&
    forall k :: k in out.blamed ==>
      k in data && exists o :: o in data && cmp.difference(data[o], data[k]) == Some(out.blamed[k])
  }

  /** Who wins by time or weight, if it is no timeout: with weights the executor that has failed less often
      than any other, without them the one that started before any other. */
  ghost predicate RuleKept(data: Data, rule: Rule, r: Answer) {
    var counts := if rule.byWeight then rule.failcounts else rule.uptimes;
    forall x :: x in counts && (forall y :: y in counts && y != x ==> counts[x] < counts[y]) &&
                (forall k :: k in data && k.addr == x ==> data[k].status != 504) ==>
      r.key.addr == x
  }

  /** A success is preferred: if there is one, a verdict that is none has won by itself. */
  ghost predicate SuccessPreferred(cmp: Compare, data: Data, rule: Rule, draw: Key, out: Outcome) {
    (exists k :: k in data && 200 <= data[k].status < 300) && !(200 <= out.verdict.status < 300) ==>
      if out.kind == Some(Majority) then 2 * |ClassOf(cmp, data, out.verdict)| >= |data|
      else Favoured(rule, draw, out.verdict.key)
  }

  /** What a vote among several owes its callers: the groups are the classes of the answers, a majority
      decides if there is one and time or weight otherwise, and exactly the outvoted are blamed. */
  ghost predicate FairAmong(cmp: Compare, data: Data, rule: Rule, draw: Key, out: Outcome) {
    Partition(out.groups) == Classes(cmp, data) &&
    out.kind.Some? && VerdictOk(out.groups, data, |data|, out.kind.value, out.verdict) &&
    (out.kind.value == Majority <==> exists k :: k in data && 2 * |ClassOf(cmp, data, data[k])| >= |data|) &&
    SuccessPreferred(cmp, data, rule, draw, out) &&
    match out.kind.value
    case Majority => out.blamed == Blamed(cmp, data, out.verdict)
    case TimeOrWeight => ByTime(cmp, data, rule, draw, out)
  }

  /** What a vote owes its callers, in terms of the answers, the rule and the draw: the verdict is one of
      the answers, it is a timeout only if all are, and a strict majority that is no timeout wins. */
  ghost predicate Fair(cmp: Compare, data: Data, rule: Rule, draw: Key, out: Outcome) {
    out.verdict in data.Values &&
    (out.verdict.status == GATEWAY_TIMEOUT <==> forall k :: k in data ==> data[k].status == GATEWAY_TIMEOUT) &&
    (if |data| == 1 then out.kind == None && out.blamed == map[] else FairAmong(cmp, data, rule, draw, out)) &&
    forall c :: c in data && |data| > 1 && data[c].status != GATEWAY_TIMEOUT &&
                StrictMajority(cmp, data, |data|, data[c]) ==>
      out.kind == Some(Majority) && Alike(cmp, out.verdict, data[c]) &&
      out.blamed.Keys == data.Keys - ClassOf(cmp, data, data[c])
  }

  /** A verdict is one of the answers. */
  lemma VerdictIsAnswer(cmp: Compare, data: Data, groups: seq<Group>, n: nat, kind: Kind, r: Answer)
    requires GroupsOk(cmp, data, groups) && VerdictOk(groups, data, n, kind, r)
    ensures r in data.Values
  {
    hide GroupsOk;
    RepsInData(cmp, data, groups);
    match kind {
      case Majority =>
        var i :| Elected(groups, data, n, i, r);
        assert HasQuorum(groups, n, i) && groups[i].rep in Reps(groups);
      case TimeOrWeight =>
        var t :| Picked(groups, data, t, r);
    }
  }

  lemma {:induction false} DataOfKeys(answers: seq<Answer>, k: Key)
    requires k in DataOf(answers)
    ensures exists i :: 0 <= i < |answers| && answers[i].key == k && DataOf(answers)[k].key == k
    decreases |answers|
  {
    var n := |answers| - 1;
    if k == answers[n].key {
      assert answers[n].key == k;
    } else {
      DataOfKeys(answers[..n], k);
    }
  }

  lemma {:induction false} DataHasKey(answers: seq<Answer>, i: nat)
    requires i < |answers|
    ensures answers[i].key in DataOf(answers)
    decreases |answers|
  {
    if i < |answers| - 1 { DataHasKey(answers[..|answers| - 1], i); }
  }

  lemma BlamedKeys(cmp: Compare, data: Data, verdict: Answer, c: Answer)
    requires Lawful(cmp) && Alike(cmp, verdict, c)
    ensures Blamed(cmp, data, verdict).Keys == data.Keys - ClassOf(cmp, data, c)
  {
    hide Lawful, Alike;
    SameClass(cmp, data, verdict, c);
    assert Blamed(cmp, data, verdict).Keys == data.Keys - ClassOf(cmp, data, verdict);
  }

  lemma PreferenceKept(cmp: Compare, data: Data, n: nat, r: Answer, rule: Rule, draw: Key, out: Outcome)
    requires Lawful(cmp) && n == |data| > 1 && GroupsOk(cmp, data, out.groups)
    requires State(out.groups, data, n, out.kind, Some(r)) && out.verdict == r
    requires out.kind == Some(TimeOrWeight) ==> PickedBy(rule, draw, out.groups, data, r)
    ensures SuccessPreferred(cmp, data, rule, draw, out)
  {
    hide Lawful, GroupsOk, ClassOf, VerdictOk, Picked, Favoured;
    forall k | k in data && 200 <= data[k].status < 300 && !(200 <= r.status < 300)
      ensures SuccessPreferred(cmp, data, rule, draw, out)
    {
      SuccessOrChosen(cmp, data, out.groups, n, r, k);
      KeysRight(cmp, data, out.groups);
      if out.kind == Some(TimeOrWeight) {
        var t :| Favoured(rule, draw, t) && Picked(out.groups, data, t, r);
        assert r == data[t] && t == r.key;
      } else {
        assert out.kind.Some? && out.kind.value.Majority?;
      }
    }
  }

  lemma KeysRight(cmp: Compare, data: Data, groups: seq<Group>)
    requires GroupsOk(cmp, data, groups)
    ensures forall k :: k in data ==> data[k].key == k
  {
    hide GroupOk, Apart, Represented;
  }

  lemma RuleIsKept(cmp: Compare, data: Data, groups: seq<Group>, r: Answer, rule: Rule, draw: Key)
    requires GroupsOk(cmp, data, groups) && PickedBy(rule, draw, groups, data, r)
    ensures RuleKept(data, rule, r)
  {
    hide GroupsOk, StandIn;
    KeysRight(cmp, data, groups);
    var t :| Favoured(rule, draw, t) && Picked(groups, data, t, r);
    var counts := if rule.byWeight then rule.failcounts else rule.uptimes;
    forall x | x in counts && (forall y :: y in counts && y != x ==> counts[x] < counts[y]) &&
               (forall k :: k in data && k.addr == x ==> data[k].status != 504)
      ensures r.key.addr == x
    {
      assert Least(counts, x);
      assert !NoLeast(counts) && Least(counts, t.addr);
      assert t.addr == x;
    }
  }

  /** The N-version theorem, blame included. */
  lemma VoteIsFair(cmp: Compare, data: Data, n: nat, r: Answer, rule: Rule, draw: Key, records: Records, out: Outcome)
    requires Lawful(cmp) && n == |data| > 1 && GroupsOk(cmp, data, out.groups)
    requires State(out.groups, data, n, out.kind, Some(r)) && out.verdict == r
    requires out.kind == Some(Majority) ==> out.blamed == Blamed(cmp, data, r)
    requires RecordsSound(cmp, data, records)
    requires out.kind == Some(TimeOrWeight) ==>
      PickedBy(rule, draw, out.groups, data, r) && out.blamed.Keys == OutsideGroup(out.groups, r.key) &&
      forall k :: k in out.blamed ==> LastTold(out.groups, records, r.key, k, out.blamed[k])
    ensures Fair(cmp, data, rule, draw, out)
  {
    hide Lawful, GroupsOk, Blamed, ClassOf, Partition, Classes, VerdictOk, Alike, PickedBy, RecordsSound, OutsideGroup,
         Outvoted, LastTold, SuccessPreferred, RuleKept;
    HalfIsMajority(cmp, data, out.groups, n, out.kind.value, r);
    PreferenceKept(cmp, data, n, r, rule, draw, out);
    if out.kind == Some(TimeOrWeight) { RuleIsKept(cmp, data, out.groups, r, rule, draw); }
    VerdictIsAnswer(cmp, data, out.groups, n, out.kind.value, r);
    OutsideIs(cmp, data, out.groups, r);
    if out.kind == Some(TimeOrWeight) {
      forall k | k in out.blamed
        ensures k in data && exists o :: o in data && cmp.difference(data[o], data[k]) == Some(out.blamed[k])
      {
        ToldIsThere(cmp, data, out.groups, records, r.key, k, out.blamed[k]);
      }
    }
    GroupsAreClasses(cmp, data, out.groups);
    TimeoutOnlyIfAll(cmp, data, out.groups, n, out.kind.value, r);
    forall c | c in data && data[c].status != GATEWAY_TIMEOUT && StrictMajority(cmp, data, n, data[c])
      ensures out.kind == Some(Majority) && Alike(cmp, r, data[c])
      ensures out.blamed.Keys == data.Keys - ClassOf(cmp, data, data[c])
    {
      MajorityPrevails(cmp, data, out.groups, n, out.kind, Some(r), c);
      BlamedKeys(cmp, data, r, data[c]);
    }
  }

  /** The answer drawn at arrival `i`, among those that have come. */
  function Drawn(answers: seq<Answer>, draws: seq<nat>, i: nat): Key
    requires i < |answers| == |draws|
  {
    answers[draws[i] % (i + 1)].key
  }

  function LastDraw(answers: seq<Answer>, draws: seq<nat>): Key
    requires answers != [] && |answers| == |draws|
  {
    Drawn(answers, draws, |answers| - 1)
  }

  /** The answers arrive, in order. */
  method Arrivals(task: ProxyTask, answers: seq<Answer>, slots: seq<nat>, draws: seq<nat>)
    returns (calls: seq<int>, at: nat)
    requires task.Valid() && task.judgeDataList == map[] && task.judgeResult == None
    requires OneEach(answers, task.failcountList) && |slots| == |answers| && |draws| == |answers|
    modifies task
    ensures task.Valid() && task.judgeDataList == DataOf(answers) && |task.judgeDataList| == |answers|
    ensures |calls| == |answers| && (task.judgeResult.Some? ==> GivenAt(calls, at))
    ensures task.analyseErrorDetailMap == old(task.analyseErrorDetailMap)
    ensures task.judgeType == Some(TimeOrWeight) ==>
      answers != [] && task.judgeResult.Some? &&
      PickedBy(task.JudgeRule(), LastDraw(answers, draws), task.judgeGroup, task.judgeDataList, task.judgeResult.value)
  {
    hide ProxyTask.Valid, ProxyTask.Grouped, ProxyTask.Fixed, Comparer, Lawful, GroupsOk, RecordsSound,
         RecordsComplete, State, DataOf, AddressesOf, Addresses, OneEach, PickedBy;
    calls, at := [], 0;
    var i := 0;
    DataOfNothing(answers);
    NoKindYet(task);
    while i < |answers|
      invariant 0 <= i <= |answers| && |calls| == i && task.Valid()
      invariant task.judgeDataList == DataOf(answers[..i]) && task.Answered() == AddressesOf(answers[..i])
      invariant |task.judgeDataList| == i
      invariant task.judgeResult == None ==> forall j :: 0 <= j < i ==> calls[j] == 0
      invariant task.judgeResult.Some? ==> GivenAt(calls, at)
      invariant task.analyseErrorDetailMap == old(task.analyseErrorDetailMap)
      invariant task.judgeType == Some(TimeOrWeight) ==>
        i > 0 && task.judgeResult.Some? &&
        PickedBy(task.JudgeRule(), Drawn(answers, draws, i - 1), task.judgeGroup, task.judgeDataList,
                 task.judgeResult.value)
    {
      NextAnswer(answers, task.failcountList, i);
      var slot := slots[i] % (|task.judgeGroup| + 1);
      var draw := Drawn(answers, draws, i);
      DrawnHasCome(answers, i, draws[i] % (i + 1));
      var ret := task.JudgeData(answers[i], slot, draw);
      if ret == 1 { at := i; }
      calls := calls + [ret];
      i := i + 1;
    }
    assert answers[..i] == answers;
  }

  lemma DrawnHasCome(answers: seq<Answer>, i: nat, d: nat)
    requires d <= i < |answers|
    ensures answers[d].key in DataOf(answers[..i + 1])
  {
    DataHasKey(answers[..i + 1], d);
  }

  /** Every vote: whatever the order of arrival, the addresses at which groups are kept and the luck
      of the draw, the verdict is given exactly once, it is one of the answers, and it is fair. */
  method Vote(setup: Setup, byWeight: bool, failcounts: map<string, int>, uptimes: map<string, int>,
              answers: seq<Answer>, slots: seq<nat>, draws: seq<nat>)
    returns (out: Outcome, at: nat)
    requires failcounts.Keys == uptimes.Keys && failcounts.Keys != {} && OneEach(answers, failcounts)
    requires |slots| == |answers| && |draws| == |answers|
    ensures |out.calls| == |answers| && GivenAt(out.calls, at)
    ensures answers != [] &&
      Fair(Comparer(setup), DataOf(answers), Rule(byWeight, failcounts, uptimes), LastDraw(answers, draws), out)
    ensures |answers| > 1 ==> GroupedByMatch(setup, DataOf(answers), out.groups)
  {
    hide Comparer, Lawful, GroupsOk, RecordsSound, RecordsComplete, State, Blamed, Fair, DataOf, PickedBy, LastTold,
         OutsideGroup, GroupedByMatch;
    var task := new ProxyTask(setup, byWeight, failcounts, uptimes);
    var calls;
    calls, at := Arrivals(task, answers, slots, draws);
    Decided(task);
    task.AnalyseJudgeResult();
    out := Outcome(calls, task.judgeResult.value, task.judgeType, task.judgeGroup, task.analyseErrorDetailMap);
    if task.execNum == 1 {
      SoleVoteIsFair(task.cmp, task.judgeDataList, task.JudgeRule(), LastDraw(answers, draws), out);
    } else {
      Conclude(setup, task, LastDraw(answers, draws), out);
    }
  }

  lemma DataOfNothing(answers: seq<Answer>)
    ensures DataOf(answers[..0]) == map[] && AddressesOf(answers[..0]) == {} == Addresses(map[])
  {
  }

  /** The next answer is a new one. */
  lemma NextAnswer(answers: seq<Answer>, failcounts: map<string, int>, i: nat)
    requires OneEach(answers, failcounts) && i < |answers|
    ensures answers[i].key !in DataOf(answers[..i]) && answers[i].key.addr !in AddressesOf(answers[..i])
    ensures answers[i].key.addr in failcounts
    ensures DataOf(answers[..i + 1]) == DataOf(answers[..i])[answers[i].key := answers[i]]
    ensures AddressesOf(answers[..i + 1]) == AddressesOf(answers[..i]) + {answers[i].key.addr}
    ensures forall k :: k in DataOf(answers[..i + 1]) ==> k in DataOf(answers[..i]) || k == answers[i].key
  {
    assert answers[..i + 1][..i] == answers[..i];
    if answers[i].key in DataOf(answers[..i]) { DataOfKeys(answers[..i], answers[i].key); }
  }

  lemma NoKindYet(task: ProxyTask)
    requires task.Valid() && task.judgeResult == None
    ensures task.judgeType == None
  {
    hide Comparer, Lawful, GroupsOk, RecordsSound, RecordsComplete;
  }

  lemma Decided(task: ProxyTask)
    requires task.Valid() && |task.judgeDataList| == task.execNum
    ensures task.judgeResult.Some?
  {
    hide Comparer, Lawful, VerdictOk, GroupsOk, RecordsSound, RecordsComplete;
    if task.execNum == 1 {
      assert task.judgeDataList.Keys != {};
      var k :| k in task.judgeDataList;
      assert task.judgeDataList[k] in task.judgeDataList.Values;
    }
  }

  /** Two answers are members of one group. */
  ghost predicate Together(groups: seq<Group>, k: Key, l: Key) {
    exists i :: 0 <= i < |groups| && k in groups[i].keys && l in groups[i].keys
  }

  /** Exactly the answers that match are in one group. */
  ghost predicate GroupedByMatch(setup: Setup, data: Data, groups: seq<Group>) {
    forall k, l :: k in data && l in data && k != l ==> (Together(groups, k, l) <==> Matching(setup, data[k], data[l]))
  }

  lemma TogetherMeans(setup: Setup, cmp: Compare, data: Data, groups: seq<Group>, k: Key, l: Key)
    requires cmp == Comparer(setup) && Lawful(cmp) && GroupsOk(cmp, data, groups) && k in data && l in data && k != l
    ensures Together(groups, k, l) <==> Matching(setup, data[k], data[l])
  {
    hide Lawful, GroupsOk, Matching, Difference, ClassOf;
    DifferenceRight(setup, data[k], data[l]);
    KeysApart(cmp, data, groups, k, l);
    if Together(groups, k, l) {
      var i :| 0 <= i < |groups| && k in groups[i].keys && l in groups[i].keys;
      GroupAt(cmp, data, groups, i);
      assert k in KeySet(groups[i].keys) && l in KeySet(groups[i].keys);
      InClass(cmp, data, groups[i].rep, k);
      InClass(cmp, data, groups[i].rep, l);
      AlikeBoth(cmp, groups[i].rep, data[k], data[l]);
    } else {
      var i := GroupFor(cmp, data, groups, k);
      SelfInClass(cmp, data, k);
      assert k in KeySet(groups[i].keys);
      if Alike(cmp, data[k], data[l]) {
        InClass(cmp, data, data[k], l);
        assert l in KeySet(groups[i].keys);
      }
    }
  }

  lemma KeysApart(cmp: Compare, data: Data, groups: seq<Group>, k: Key, l: Key)
    requires GroupsOk(cmp, data, groups) && k in data && l in data && k != l
    ensures data[k] != data[l]
  {
    hide GroupOk, Apart, Represented;
  }

  lemma InClass(cmp: Compare, data: Data, a: Answer, k: Key)
    requires k in data
    ensures k in ClassOf(cmp, data, a) <==> Alike(cmp, a, data[k])
  {
  }

  lemma AlikeBoth(cmp: Compare, a: Answer, b: Answer, c: Answer)
    requires Lawful(cmp) && Alike(cmp, a, b) && Alike(cmp, a, c)
    ensures Alike(cmp, b, c)
  {
    hide Lawful, Alike;
    AlikeEquivalence(cmp, a, b, c);
    AlikeEquivalence(cmp, b, a, c);
  }

  lemma Conclude(setup: Setup, task: ProxyTask, draw: Key, out: Outcome)
    requires task.Valid() && task.execNum > 1 && |task.judgeDataList| == task.execNum && task.judgeResult.Some?
    requires out == Outcome(out.calls, task.judgeResult.value, task.judgeType, task.judgeGroup,
        task.analyseErrorDetailMap)
    requires task.judgeType == Some(Majority) ==>
      task.analyseErrorDetailMap == Blamed(task.cmp, task.judgeDataList, task.judgeResult.value)
    requires task.judgeType == Some(TimeOrWeight) ==>
      var verdict := task.judgeResult.value;
      PickedBy(task.JudgeRule(), draw, task.judgeGroup, task.judgeDataList, verdict) &&
      task.analyseErrorDetailMap.Keys == OutsideGroup(task.judgeGroup, verdict.key) && task.AllTold()
    requires task.cmp == Comparer(setup)
    ensures Fair(task.cmp, task.judgeDataList, task.JudgeRule(), draw, out)
    ensures GroupedByMatch(setup, task.judgeDataList, out.groups)
  {
    hide Together, Matching, Comparer, Lawful, State, Blamed, Fair, GroupsOk, RecordsSound, RecordsComplete, PickedBy,
        OutsideGroup,
         LastTold;
    VoteIsFair(task.cmp, task.judgeDataList, task.execNum, task.judgeResult.value, task.JudgeRule(), draw,
               task.cmpRetRecord, out);
    forall k, l | k in task.judgeDataList && l in task.judgeDataList && k != l
      ensures Together(out.groups, k, l) <==> Matching(setup, task.judgeDataList[k], task.judgeDataList[l])
    {
      TogetherMeans(setup, task.cmp, task.judgeDataList, out.groups, k, l);
    }
  }

  lemma SoleVoteIsFair(cmp: Compare, data: Data, rule: Rule, draw: Key, out: Outcome)
    requires data.Values == {out.verdict} && |data| == 1 && out.kind == None && out.blamed == map[]
    ensures Fair(cmp, data, rule, draw, out)
  {
    var k :| k in data && data[k] == out.verdict;
    assert |data.Keys - {k}| == 0;
    assert data.Keys == {k};
  }
}
