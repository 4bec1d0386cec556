/** The explicit task stack of the hiredis reader, related to the recursive-descent grammar.

    `Frames` is what a stack stands for: the aggregates that are open, outermost first, each with
    the replies it already holds. `Meaning` resumes recursive descent from such a point. The reply
    objects themselves live in an allocation-ordered store, in which a child is linked into its
    parent when it is created, before its own children exist. */
module RespStack {
  import opened Wrappers
  import opened RespGrammar

  /** An aggregate that has been opened and still waits for elements. */
  datatype Frame = Frame(ty: Type, count: nat, done: seq<Reply>)

  ghost predicate Waiting(frames: seq<Frame>) {
    forall i :: 0 <= i < |frames| ==> |frames[i].done| < frames[i].count
  }

  predicate InPush(frames: seq<Frame>) {
    frames != [] && frames[|frames| - 1].ty.PushType?
  }

  /** The outcome for the root, given the outcome of the innermost item. */
  ghost function Unwind(cfg: Config, frames: seq<Frame>, out: Outcome): Outcome
    requires Waiting(frames)
    decreases |frames|
  {
    if frames == [] || !out.Done? then out
    else
      var outer, top := frames[..|frames| - 1], frames[|frames| - 1];
      var done := top.done + [out.reply];
      match ParseMany(cfg, top.count - |done|, top.ty.PushType?, out.rest)
      case ManyIncomplete => Incomplete
      case ManyBad(fault) => Bad(fault)
      case ManyDone(replies, rest) => Unwind(cfg, outer, Done(Aggregate(top.ty, done + replies), rest))
  }

  /** Recursive descent resumed on `s`, the type byte of the innermost item read or not. */
  ghost function Meaning(cfg: Config, frames: seq<Frame>, current: Option<Type>, s: string): Outcome
    requires Waiting(frames)
  {
    Unwind(cfg, frames,
           if current.Some? then ParseTyped(cfg, current.value, InPush(frames), s)
           else ParseReply(cfg, InPush(frames), s))
  }

  /** Where the stack goes when its innermost item has become `reply`: full aggregates close. */
  datatype Settled = Closed(root: Reply) | StillOpen(frames: seq<Frame>)

  ghost function Settle(frames: seq<Frame>, reply: Reply): (r: Settled)
    requires Waiting(frames)
    ensures r.StillOpen? ==> r.frames != [] && Waiting(r.frames)
    decreases |frames|
  {
    if frames == [] then Closed(reply)
    else
      var outer, top := frames[..|frames| - 1], frames[|frames| - 1];
      if |top.done| + 1 == top.count then Settle(outer, Aggregate(top.ty, top.done + [reply]))
      else StillOpen(outer + [top.(done := top.done + [reply])])
  }

  /** Opening an aggregate is what recursive descent does when it starts on the elements. */
  lemma OpenMeaning(cfg: Config, frames: seq<Frame>, f: Frame, s: string)
    requires Waiting(frames) && |f.done| < f.count
    ensures var inner := frames + [f];
      Waiting(inner) &&
      Meaning(cfg, inner, None, s) ==
      match ParseMany(cfg, f.count - |f.done|, f.ty.PushType?, s)
      case ManyIncomplete => Incomplete
      case ManyBad(fault) => Bad(fault)
      case ManyDone(replies, rest) => Unwind(cfg, frames, Done(Aggregate(f.ty, f.done + replies), rest))
  {
    hide ReadItem, ParseTyped;
    var inner := frames + [f];
    assert inner[..|inner| - 1] == frames;
    var out := ParseReply(cfg, f.ty.PushType?, s);
    if out.Done? {
      var many := ParseMany(cfg, f.count - |f.done| - 1, f.ty.PushType?, out.rest);
      if many.ManyDone? {
        assert f.done + ([out.reply] + many.replies) == f.done + [out.reply] + many.replies;
      }
    }
  }

  /** Closing the aggregates that are full does not change what the input means. */
  lemma {:induction false} SettleMeaning(cfg: Config, frames: seq<Frame>, reply: Reply, s: string)
    requires Waiting(frames)
    ensures Unwind(cfg, frames, Done(reply, s)) ==
            match Settle(frames, reply)
            case Closed(root) => Done(root, s)
            case StillOpen(inner) => Meaning(cfg, inner, None, s)
    decreases |frames|
  {
    hide ParseReply, ParseTyped;
    if frames != [] {
      var outer, top := frames[..|frames| - 1], frames[|frames| - 1];
      var done := top.done + [reply];
      if |done| == top.count {
        SettleMeaning(cfg, outer, Aggregate(top.ty, done), s);
        assert done + [] == done;
      } else {
        OpenMeaning(cfg, outer, top.(done := done), s);
      }
    }
  }

  // ----- what a position in the input promises about every continuation of the input -----

  /** The bytes `base` since the last reply mean what the stack and the unread `rest` mean. */
  ghost predicate Tracks(cfg: Config, base: string, frames: seq<Frame>, current: Option<Type>, rest: string) {
    Waiting(frames) &&
    forall more: string :: ParseReply(cfg, false, base + more) == Meaning(cfg, frames, current, rest + more)
  }

  ghost predicate Finished(cfg: Config, base: string, reply: Reply, rest: string) {
    forall more: string :: ParseReply(cfg, false, base + more) == Done(reply, rest + more)
  }

  ghost predicate Rejects(cfg: Config, base: string, fault: Fault) {
    forall more: string :: ParseReply(cfg, false, base + more) == Bad(fault)
  }

  lemma TracksFromStart(cfg: Config, base: string)
    ensures Tracks(cfg, base, [], None, base)
  {
  }

  lemma TypeByteRead(cfg: Config, base: string, frames: seq<Frame>, rest: string)
    requires rest != "" && Tracks(cfg, base, frames, None, rest)
    ensures TypeOf(rest[0]).Some? ==> Tracks(cfg, base, frames, TypeOf(rest[0]), rest[1..])
    ensures TypeOf(rest[0]).None? ==> Rejects(cfg, base, UnknownType(rest[0]))
  {
    forall more: string
      ensures ParseReply(cfg, false, base + more) ==
        if TypeOf(rest[0]).Some? then Meaning(cfg, frames, TypeOf(rest[0]), rest[1..] + more)
        else Bad(UnknownType(rest[0]))
    {
      assert (rest + more)[1..] == rest[1..] + more;
    }
  }

  lemma WholeItemRead(cfg: Config, base: string, frames: seq<Frame>, ty: Type, rest: string, reply: Reply, size: nat)
    requires Tracks(cfg, base, frames, Some(ty), rest)
    requires ReadItem(cfg, ty, InPush(frames), rest) == Whole(reply, size)
    ensures match Settle(frames, reply)
            case Closed(root) => Finished(cfg, base, root, rest[size..])
            case StillOpen(inner) => Tracks(cfg, base, inner, None, rest[size..])
  {
    hide ReadItem, Settle;
    forall more: string
      ensures ParseReply(cfg, false, base + more) ==
        match Settle(frames, reply)
        case Closed(root) => Done(root, rest[size..] + more)
        case StillOpen(inner) => Meaning(cfg, inner, None, rest[size..] + more)
    {
      ReadItemExtends(cfg, ty, InPush(frames), rest, more);
      assert (rest + more)[size..] == rest[size..] + more;
      SettleMeaning(cfg, frames, reply, rest[size..] + more);
    }
  }

  lemma HeaderRead(cfg: Config, base: string, frames: seq<Frame>, ty: Type, rest: string, count: nat, size: nat)
    requires Tracks(cfg, base, frames, Some(ty), rest)
    requires ReadItem(cfg, ty, InPush(frames), rest) == Header(count, size)
    ensures Tracks(cfg, base, frames + [Frame(ty, count, [])], None, rest[size..])
  {
    hide ReadItem;
    var inner := frames + [Frame(ty, count, [])];
    forall more: string
      ensures ParseReply(cfg, false, base + more) == Meaning(cfg, inner, None, rest[size..] + more)
    {
      ReadItemExtends(cfg, ty, InPush(frames), rest, more);
      assert (rest + more)[size..] == rest[size..] + more;
      OpenMeaning(cfg, frames, Frame(ty, count, []), rest[size..] + more);
      var many := ParseMany(cfg, count, ty.PushType?, rest[size..] + more);
      if many.ManyDone? { assert [] + many.replies == many.replies; }
    }
  }

  lemma FaultRead(cfg: Config, base: string, frames: seq<Frame>, ty: Type, rest: string, fault: RespGrammar.Fault)
    requires Tracks(cfg, base, frames, Some(ty), rest)
    requires ReadItem(cfg, ty, InPush(frames), rest) == Item.Fault(fault)
    ensures Rejects(cfg, base, fault)
  {
    hide ReadItem, ParseMany;
    forall more: string
      ensures ParseReply(cfg, false, base + more) == Bad(fault)
    {
      ReadItemExtends(cfg, ty, InPush(frames), rest, more);
    }
  }

  lemma BytesMissing(cfg: Config, base: string, frames: seq<Frame>, current: Option<Type>, rest: string)
    requires Tracks(cfg, base, frames, current, rest)
    requires match current
             case None => rest == ""
             case Some(ty) => ReadItem(cfg, ty, InPush(frames), rest) == More
    ensures ParseReply(cfg, false, base) == Incomplete
  {
    hide ReadItem, ParseMany;
    assert base + "" == base && rest + "" == rest;
  }

  /** Bytes fed to the reader extend what it has and what it has left to read alike. */
  lemma TracksFed(cfg: Config, base: string, frames: seq<Frame>, current: Option<Type>, rest: string, fed: string)
    requires Tracks(cfg, base, frames, current, rest)
    ensures Tracks(cfg, base + fed, frames, current, rest + fed)
  {
    hide ParseReply, Meaning;
    forall more: string
      ensures ParseReply(cfg, false, base + fed + more) == Meaning(cfg, frames, current, rest + fed + more)
    {
      assert base + fed + more == base + (fed + more) && rest + fed + more == rest + (fed + more);
    }
  }

  /** After the replies `emitted`, the stream goes on like `base`. */
  ghost predicate OnStream(cfg: Config, stream: string, emitted: seq<Reply>, base: string) {
    forall more: string :: ParseAll(cfg, stream + more) == ParseAll(cfg, base + more).After(emitted)
  }

  lemma OnStreamFed(cfg: Config, stream: string, emitted: seq<Reply>, base: string, fed: string)
    requires OnStream(cfg, stream, emitted, base)
    ensures OnStream(cfg, stream + fed, emitted, base + fed)
  {
    hide ParseAll;
    forall more: string
      ensures ParseAll(cfg, stream + fed + more) == ParseAll(cfg, base + fed + more).After(emitted)
    {
      assert stream + fed + more == stream + (fed + more) && base + fed + more == base + (fed + more);
    }
  }

  lemma OnStreamEmit(cfg: Config, stream: string, emitted: seq<Reply>, base: string, reply: Reply, rest: string)
    requires OnStream(cfg, stream, emitted, base) && Finished(cfg, base, reply, rest)
    ensures OnStream(cfg, stream, emitted + [reply], rest)
  {
    hide ParseReply;
    forall more: string
      ensures ParseAll(cfg, stream + more) == ParseAll(cfg, rest + more).After(emitted + [reply])
    {
      var tail := ParseAll(cfg, rest + more);
      assert emitted + ([reply] + tail.replies) == emitted + [reply] + tail.replies;
    }
  }

  /** Where the stream stands when no whole reply is left to emit. */
  lemma OnStreamEnd(cfg: Config, stream: string, emitted: seq<Reply>, base: string)
    requires OnStream(cfg, stream, emitted, base)
    ensures ParseReply(cfg, false, base) == Incomplete ==> ParseAll(cfg, stream) == Reading(emitted, None, base)
    ensures forall fault :: Rejects(cfg, base, fault) ==> ParseAll(cfg, stream) == Reading(emitted, Some(fault), "")
    ensures emitted <= ParseAll(cfg, stream).replies
  {
    hide ParseReply;
    assert stream + "" == stream && base + "" == base;
    assert ParseAll(cfg, stream) == ParseAll(cfg, base).After(emitted);
    assert emitted + [] == emitted;
    forall fault | Rejects(cfg, base, fault)
      ensures ParseAll(cfg, stream) == Reading(emitted, Some(fault), "")
    {
      assert ParseReply(cfg, false, base + "") == Bad(fault);
    }
  }

  // ----- reply objects -----

  /** A reply object: a finished scalar, or an aggregate whose element slots hold object numbers
      (-1 for a slot not filled yet). */
  datatype Obj = Scalar(reply: Reply) | Container(ty: Type, element: seq<int>)

  datatype Task = Task(ty: Option<Type>, elements: int, idx: int, obj: int)

  /** Every slot below object `id` is filled with younger objects numbered below `limit`. */
  ghost predicate Built(store: seq<Obj>, id: int, limit: int)
    decreases limit - id
  {
    0 <= id < limit <= |store| &&
    match store[id]
    case Scalar(_) => true
    case Container(_, element) =>
      forall k :: 0 <= k < |element| ==> id < element[k] && Built(store, element[k], limit)
  }

  /** The reply tree an object is the root of. */
  function Tree(store: seq<Obj>, id: int, ghost limit: int): Reply
    requires Built(store, id, limit)
    decreases limit - id
  {
    match store[id]
    case Scalar(reply) => reply
    case Container(ty, element) =>
      Aggregate(ty, seq(|element|, k requires 0 <= k < |element| => Tree(store, element[k], limit)))
  }

  /** A tree depends only on the objects from its root up to the limit. */
  lemma {:induction false} TreeStable(store: seq<Obj>, store': seq<Obj>, id: int, limit: int, limit': int)
    requires Built(store, id, limit) && limit <= limit' <= |store'|
    requires forall j :: id <= j < limit ==> store'[j] == store[j]
    ensures Built(store', id, limit') && Tree(store', id, limit') == Tree(store, id, limit)
    decreases limit - id
  {
    match store[id]
    case Scalar(_) =>
    case Container(ty, element) =>
      forall k | 0 <= k < |element|
        ensures Built(store', element[k], limit') && Tree(store', element[k], limit') == Tree(store, element[k], limit)
      {
        TreeStable(store, store', element[k], limit, limit');
      }
  }

  /** The first object number not used by the elements of the aggregate at level `i`. */
  ghost function Limit(store: seq<Obj>, tasks: seq<Task>, i: nat): int {
    if i + 2 < |tasks| then tasks[i + 1].obj else |store|
  }

  ghost predicate LevelOk(store: seq<Obj>, tasks: seq<Task>, i: nat)
    requires i + 1 < |tasks|
  {
    var t := tasks[i];
    t.ty.Some? && t.ty.value.Aggregate() && 0 <= tasks[i + 1].idx < t.elements &&
    0 <= t.obj < |store| && store[t.obj].Container? &&
    store[t.obj].ty == t.ty.value && |store[t.obj].element| == t.elements &&
    forall k :: 0 <= k < tasks[i + 1].idx ==>
      t.obj < store[t.obj].element[k] && Built(store, store[t.obj].element[k], Limit(store, tasks, i))
  }

  /** The aggregate at level `i + 1` sits in its slot of the aggregate at level `i`. */
  ghost predicate LinkOk(store: seq<Obj>, tasks: seq<Task>, i: nat)
    requires i + 2 < |tasks| && LevelOk(store, tasks, i)
  {
    tasks[i].obj < tasks[i + 1].obj && store[tasks[i].obj].element[tasks[i + 1].idx] == tasks[i + 1].obj
  }

  /** Every task but the last is an open aggregate, linked into the one below it. */
  ghost predicate Linked(store: seq<Obj>, tasks: seq<Task>)
    ensures Linked(store, tasks) ==> CanCreate(store, tasks)
  {
    tasks != [] &&
    (forall i :: 0 <= i < |tasks| - 1 ==> LevelOk(store, tasks, i)) &&
    (forall i :: 0 <= i < |tasks| - 2 ==> LinkOk(store, tasks, i)) &&
    (|tasks| > 1 ==> LevelOk(store, tasks, |tasks| - 2))
  }

  ghost function FrameOf(store: seq<Obj>, tasks: seq<Task>, i: nat): Frame
    requires i + 1 < |tasks| && LevelOk(store, tasks, i)
  {
    var t := tasks[i];
    Frame(t.ty.value, t.elements,
          seq(tasks[i + 1].idx, k requires 0 <= k < tasks[i + 1].idx =>
                Tree(store, store[t.obj].element[k], Limit(store, tasks, i))))
  }

  ghost function Frames(store: seq<Obj>, tasks: seq<Task>): (frames: seq<Frame>)
    requires Linked(store, tasks)
    ensures Waiting(frames) && |frames| == |tasks| - 1
  {
    var frames := seq(|tasks| - 1, i requires 0 <= i < |tasks| - 1 => FrameOf(store, tasks, i));
    assert forall i :: 0 <= i < |frames| ==> LevelOk(store, tasks, i) && frames[i] == FrameOf(store, tasks, i);
    frames
  }

  /** The object of the innermost item exists, complete, and is linked into its parent. */
  ghost predicate Placed(store: seq<Obj>, tasks: seq<Task>, id: int) {
    Linked(store, tasks) && Built(store, id, |store|) &&
    (|tasks| > 1 ==>
       var parent := tasks[|tasks| - 2];
       parent.obj < id && store[parent.obj].element[tasks[|tasks| - 1].idx] == id)
  }

  /** There is a slot for the object of the innermost task. */
  predicate CanCreate(store: seq<Obj>, tasks: seq<Task>) {
    tasks != [] &&
    (|tasks| > 1 ==>
       var parent := tasks[|tasks| - 2].obj;
       0 <= parent < |store| && store[parent].Container? && 0 <= tasks[|tasks| - 1].idx < |store[parent].element|)
  }

  /** Allocates an object for the innermost task and links it into its parent's slot. */
  function Create(store: seq<Obj>, tasks: seq<Task>, obj: Obj): (store': seq<Obj>)
    requires CanCreate(store, tasks)
    ensures |store'| == |store| + 1 && store'[|store|] == obj
  {
    if |tasks| == 1 then store + [obj]
    else
      var parent, slot := tasks[|tasks| - 2].obj, tasks[|tasks| - 1].idx;
      store[parent := store[parent].(element := store[parent].element[slot := |store|])] + [obj]
  }

  lemma CreateKeeps(store: seq<Obj>, tasks: seq<Task>, obj: Obj)
    requires Linked(store, tasks)
    ensures var store' := Create(store, tasks, obj);
      Linked(store', tasks) && Frames(store', tasks) == Frames(store, tasks) &&
      (|tasks| > 1 ==>
         var parent := tasks[|tasks| - 2].obj;
         parent < |store| && store'[parent].element[tasks[|tasks| - 1].idx] == |store|)
  {
    var store' := Create(store, tasks, obj);
    var n := |tasks|;
    Ascending(store, tasks);
    forall i | 0 <= i < n - 1
      ensures LevelOk(store', tasks, i) && FrameOf(store', tasks, i) == FrameOf(store, tasks, i)
    {
      assert LevelOk(store, tasks, i);
      var t := tasks[i];
      forall k | 0 <= k < tasks[i + 1].idx
        ensures store'[t.obj].element[k] == store[t.obj].element[k]
        ensures Built(store', store[t.obj].element[k], Limit(store', tasks, i))
        ensures Tree(store', store[t.obj].element[k], Limit(store', tasks, i)) ==
                Tree(store, store[t.obj].element[k], Limit(store, tasks, i))
      {
        var c := store[t.obj].element[k];
        var limit := Limit(store, tasks, i);
        forall j | c <= j < limit
          ensures store'[j] == store[j]
        {
          if i + 2 < n { assert tasks[i + 1].obj <= tasks[n - 2].obj; }
        }
        TreeStable(store, store', c, limit, Limit(store', tasks, i));
      }
    }
    forall i | 0 <= i < n - 2
      ensures LinkOk(store', tasks, i)
    {
      assert LinkOk(store, tasks, i);
    }
  }

  lemma {:induction false} Ascending(store: seq<Obj>, tasks: seq<Task>)
    requires Linked(store, tasks)
    ensures forall i, j :: 0 <= i < j < |tasks| - 1 ==> tasks[i].obj < tasks[j].obj
  {
    forall i, j | 0 <= i < j < |tasks| - 1
      ensures tasks[i].obj < tasks[j].obj
    {
      AscendingFrom(store, tasks, i, j);
    }
  }

  lemma {:induction false} AscendingFrom(store: seq<Obj>, tasks: seq<Task>, i: nat, j: nat)
    requires Linked(store, tasks) && i < j < |tasks| - 1
    ensures tasks[i].obj < tasks[j].obj
    decreases j
  {
    if i < j - 1 { AscendingFrom(store, tasks, i, j - 1); }
    assert LinkOk(store, tasks, j - 1);
  }

  /** A finished scalar (or empty aggregate) for the innermost task. */
  lemma CreateFinished(store: seq<Obj>, tasks: seq<Task>, obj: Obj)
    requires Linked(store, tasks) && (obj.Container? ==> obj.element == [])
    ensures var store' := Create(store, tasks, obj);
      Placed(store', tasks, |store|) && Frames(store', tasks) == Frames(store, tasks) &&
      Tree(store', |store|, |store'|) == (if obj.Scalar? then obj.reply else Aggregate(obj.ty, []))
  {
    CreateKeeps(store, tasks, obj);
  }

  /** Opening an aggregate with empty slots: one more level, with nothing in it. */
  lemma CreateOpen(store: seq<Obj>, tasks: seq<Task>, ty: Type, count: nat, child: Task)
    requires Linked(store, tasks) && ty.Aggregate() && count > 0 && child.idx == 0
    requires tasks[|tasks| - 1].ty == Some(ty)
    ensures var store' := Create(store, tasks, Container(ty, seq(count, _ => -1)));
      var cur := tasks[|tasks| - 1].(elements := count, obj := |store|);
      var tasks' := tasks[..|tasks| - 1] + [cur, child];
      Linked(store', tasks') && Frames(store', tasks') == Frames(store, tasks) + [Frame(ty, count, [])]
  {
    var n := |tasks|;
    var obj := Container(ty, seq(count, _ => -1));
    CreateKeeps(store, tasks, obj);
    var store' := Create(store, tasks, obj);
    var cur := tasks[n - 1].(elements := count, obj := |store|);
    var tasks' := tasks[..n - 1] + [cur, child];
    forall i | 0 <= i < n - 1
      ensures LevelOk(store', tasks', i) && FrameOf(store', tasks', i) == FrameOf(store', tasks, i)
    {
      assert LevelOk(store', tasks, i) && LevelOk(store, tasks, i);
      if i == n - 2 {
        forall k | 0 <= k < tasks[i + 1].idx
          ensures Built(store', store'[tasks[i].obj].element[k], |store|)
          ensures Tree(store', store'[tasks[i].obj].element[k], |store|) ==
                  Tree(store', store'[tasks[i].obj].element[k], |store'|)
        {
          var c := store[tasks[i].obj].element[k];
          TreeStable(store, store', c, |store|, |store|);
          TreeStable(store', store', c, |store|, |store'|);
        }
      }
    }
    forall i | 0 <= i < n - 1
      ensures LinkOk(store', tasks', i)
    {
      if i < n - 2 { assert LinkOk(store', tasks, i); }
    }
  }

  /** The innermost item is done and its parent is full: the parent becomes the innermost item. */
  lemma CloseLevel(store: seq<Obj>, tasks: seq<Task>, id: int)
    requires Placed(store, tasks, id) && |tasks| > 1
    requires tasks[|tasks| - 1].idx == tasks[|tasks| - 2].elements - 1
    ensures var outer, parent := tasks[..|tasks| - 1], tasks[|tasks| - 2];
      Placed(store, outer, parent.obj) &&
      Frames(store, outer) == Frames(store, tasks)[..|tasks| - 2] &&
      var top := Frames(store, tasks)[|tasks| - 2];
      Tree(store, parent.obj, |store|) == Aggregate(top.ty, top.done + [Tree(store, id, |store|)]) &&
      |top.done| + 1 == top.count
  {
    var n := |tasks|;
    var outer, parent := tasks[..n - 1], tasks[n - 2];
    assert LevelOk(store, tasks, n - 2);
    var top := Frames(store, tasks)[n - 2];
    assert top == FrameOf(store, tasks, n - 2);
    assert Tree(store, parent.obj, |store|).elements == top.done + [Tree(store, id, |store|)];
    forall i | 0 <= i < n - 2
      ensures LevelOk(store, outer, i) && FrameOf(store, outer, i) == FrameOf(store, tasks, i)
    {
      assert LevelOk(store, tasks, i);
      if i == n - 3 {
        forall k | 0 <= k < tasks[i + 1].idx
          ensures Built(store, store[tasks[i].obj].element[k], |store|)
          ensures Tree(store, store[tasks[i].obj].element[k], |store|) ==
                  Tree(store, store[tasks[i].obj].element[k], tasks[i + 1].obj)
        {
          TreeStable(store, store, store[tasks[i].obj].element[k], tasks[i + 1].obj, |store|);
        }
      }
    }
    forall i | 0 <= i < n - 2
      ensures LinkOk(store, tasks, i)
      ensures i < n - 3 ==> LinkOk(store, outer, i)
    {
      assert LinkOk(store, tasks, i);
    }
    if n > 2 { assert LinkOk(store, tasks, n - 3); }
  }

  /** The innermost item is done and its parent is not full: the next item starts. */
  lemma NextItem(store: seq<Obj>, tasks: seq<Task>, id: int)
    requires Placed(store, tasks, id) && |tasks| > 1
    requires tasks[|tasks| - 1].idx < tasks[|tasks| - 2].elements - 1
    ensures var cur := tasks[|tasks| - 1];
      var tasks' := tasks[..|tasks| - 1] + [cur.(ty := None, elements := -1, idx := cur.idx + 1)];
      var frames := Frames(store, tasks);
      var top := frames[|frames| - 1];
      |top.done| + 1 < top.count && Linked(store, tasks') &&
      Frames(store, tasks') == frames[..|frames| - 1] + [top.(done := top.done + [Tree(store, id, |store|)])]
  {
    var n := |tasks|;
    var cur := tasks[n - 1];
    var tasks' := tasks[..n - 1] + [cur.(ty := None, elements := -1, idx := cur.idx + 1)];
    forall i | 0 <= i < n - 1
      ensures LevelOk(store, tasks', i)
      ensures i < n - 2 ==> FrameOf(store, tasks', i) == FrameOf(store, tasks, i)
    {
      assert LevelOk(store, tasks, i);
    }
    forall i | 0 <= i < n - 2
      ensures LinkOk(store, tasks', i)
    {
      assert LinkOk(store, tasks, i);
    }
    var top := FrameOf(store, tasks, n - 2);
    assert Frames(store, tasks)[n - 2] == top;
    assert FrameOf(store, tasks', n - 2).done == top.done + [Tree(store, id, |store|)];
  }

  /** So closing or going on is what the specification does at the top of its stack. */
  lemma LevelSettles(store: seq<Obj>, tasks: seq<Task>, id: int)
    requires Placed(store, tasks, id)
    ensures |tasks| == 1 ==> Settle(Frames(store, tasks), Tree(store, id, |store|)) == Closed(Tree(store, id, |store|))
    ensures |tasks| > 1 && tasks[|tasks| - 1].idx == tasks[|tasks| - 2].elements - 1 ==>
      var outer, parent := tasks[..|tasks| - 1], tasks[|tasks| - 2].obj;
      Placed(store, outer, parent) &&
      Settle(Frames(store, tasks), Tree(store, id, |store|)) ==
        Settle(Frames(store, outer), Tree(store, parent, |store|))
    ensures |tasks| > 1 && tasks[|tasks| - 1].idx < tasks[|tasks| - 2].elements - 1 ==>
      var cur := tasks[|tasks| - 1];
      var tasks' := tasks[..|tasks| - 1] + [cur.(ty := None, elements := -1, idx := cur.idx + 1)];
      Linked(store, tasks') &&
      Settle(Frames(store, tasks), Tree(store, id, |store|)) == StillOpen(Frames(store, tasks'))
  {
    hide Linked, Tree, Placed;
    FrameCount(store, tasks, id);
    if |tasks| > 1 {
      if tasks[|tasks| - 1].idx == tasks[|tasks| - 2].elements - 1 {
        CloseLevel(store, tasks, id);
      } else if tasks[|tasks| - 1].idx < tasks[|tasks| - 2].elements - 1 {
        NextItem(store, tasks, id);
      }
    }
  }

  lemma FrameCount(store: seq<Obj>, tasks: seq<Task>, id: int)
    requires Placed(store, tasks, id)
    ensures Linked(store, tasks) && |Frames(store, tasks)| == |tasks| - 1
  {
  }
}
