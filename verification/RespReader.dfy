/** The resumable reader of hiredis: bytes are fed in arbitrary pieces, whole replies come out.

    The contracts say that the reader, whatever the pieces, computes what the recursive-descent
    grammar computes on the whole stream. Three ghost fields name the stream fed so far, the
    replies emitted so far and the bytes of the reply in progress. */
module RespReader {
  import opened Wrappers
  import opened Decimal
  import opened RespGrammar
  import opened RespStack

  const STACK_SIZE := 9
  const IDLE_TASK := Task(None, 0, 0, -1)

  /** What `GetReply` hands its caller: an error, or OK with or without a reply. */
  datatype Answer = Failed(fault: RespGrammar.Fault) | Ok(reply: Option<Reply>)

  /** The first CRLF, found by skipping from one CR to the next. */
  method SeekNewline(s: string) returns (at: Option<nat>)
    ensures at == FindCrlf(s)
  {
    var pos: nat, last := 0, |s| - 1;
    while pos < last
      invariant pos <= |s|
      invariant forall j :: 0 <= j < pos ==> !CrlfAt(s, j)
    {
      while pos < last && s[pos] != '\r'
        invariant pos <= last
        invariant forall j :: 0 <= j < pos ==> !CrlfAt(s, j)
      {
        pos := pos + 1;
      }
      if pos == last { return None; }
      if s[pos + 1] == '\n' {
        assert CrlfAt(s, pos);
        return Some(pos);
      }
      pos := pos + 1;
    }
    return None;
  }

  /** Reads a line of a simple type: errors, statuses, integers, doubles, nils and booleans. */
  method DecodeLine(cfg: Config, ty: Type, inPush: bool, s: string) returns (item: Item)
    ensures item == LineItem(cfg, ty, inPush, s)
  {
    hide ParseLL, FindCrlf;
    var at := SeekNewline(s);
    if at.None? { return More; }
    var line, size := s[..at.value], at.value + 2;
    match ty {
      case IntegerType =>
        var v := String2ll(line);
        return if v.None? then Fault(BadInteger) else Whole(Integer(v.value), size);
      case DoubleType =>
        if at.value >= 326 { return Fault(DoubleTooLarge); }
        if !cfg.isDouble(line) { return Fault(BadDouble); }
        return CreateChecked(inPush, Double(line), size);
      case NilType =>
        return CreateChecked(inPush, Nil, size);
      case BoolType =>
        return CreateChecked(inPush, Bool(s[0] == 't' || s[0] == 'T'), size);
      case _ =>
        return Whole(Reply.Text(ty, line), size);
    }
  }

  /** Nil, boolean and double objects assert that their parent is not a push. */
  function CreateChecked(inPush: bool, reply: Reply, size: nat): Item
    requires reply.Nil? || reply.Bool? || reply.Double?
  {
    if inPush then Fault(Unlinkable) else Whole(reply, size)
  }

  /** Reads a bulk or verbatim string, once the whole payload and its line end are there. */
  method DecodeBulk(ty: Type, inPush: bool, s: string) returns (item: Item)
    ensures item == BulkItem(ty, inPush, s)
  {
    hide ParseLL, FindCrlf;
    var at := SeekNewline(s);
    if at.None? { return More; }
    var byteLen := at.value + 2;
    var length := String2ll(s[..at.value]);
    if length.None? { return Fault(BadBulkLength); }
    var n := length.value;
    if n < -1 { return Fault(BulkLengthRange); }
    if n == -1 { return CreateChecked(inPush, Nil, byteLen); }
    var payload := byteLen;
    byteLen := byteLen + n + 2;
    if byteLen > |s| { return More; }
    if ty.VerbType? {
      if n < 4 || s[payload + 3] != ':' { return Fault(BadVerbatim); }
      assert s[payload..payload + n][..3] == s[payload..payload + 3];
      assert s[payload..payload + n][4..] == s[payload + 4..payload + n];
      return Whole(Verbatim(s[payload..payload + 3], s[payload + 4..payload + n]), byteLen);
    }
    return Whole(Reply.Text(ty, s[payload..payload + n]), byteLen);
  }

  /** Reads the header of an array, map, set or push; a map counts its keys and values. */
  method DecodeHeader(cfg: Config, ty: Type, inPush: bool, s: string) returns (item: Item)
    ensures item == AggregateItem(cfg, ty, inPush, s)
  {
    hide ParseLL, FindCrlf;
    var at := SeekNewline(s);
    if at.None? { return More; }
    var size := at.value + 2;
    var parsed := String2ll(s[..at.value]);
    if parsed.None? { return Fault(BadCount); }
    var elements := parsed.value;
    if elements < -1 || (cfg.maxElements > 0 && elements > cfg.maxElements) { return Fault(CountRange); }
    if elements == -1 { return CreateChecked(inPush, Nil, size); }
    if ty.MapType? { elements := elements * 2; }
    return if elements > 0 then Header(elements, size) else Whole(Aggregate(ty, []), size);
  }

  class Reader {
    const cfg: Config
    var err: Option<RespGrammar.Fault>
    var buf: string
    var pos: nat
    var len: nat
    var task: seq<Task>
    var tasks: nat
    var ridx: int
    var reply: int
    var store: seq<Obj>
    ghost var stream: string
    ghost var emitted: seq<Reply>
    ghost var base: string

    constructor (cfg: Config)
      ensures Valid() && this.cfg == cfg && err == None && stream == "" && emitted == []
    {
      this.cfg := cfg;
      err, buf, pos, len := None, "", 0, 0;
      task, tasks := seq(STACK_SIZE, _ => IDLE_TASK), STACK_SIZE;
      ridx, reply, store := -1, -1, [];
      stream, emitted, base := "", [], "";
    }

    ghost function Unread(): string
      reads this
      requires pos <= |buf|
    {
      buf[pos..]
    }

    ghost function Active(): seq<Task>
      reads this
      requires -1 <= ridx < |task|
    {
      task[..ridx + 1]
    }

    ghost predicate Shape()
      reads this
    {
      len == |buf| && pos <= len && tasks == |task| && tasks > 0 && -1 <= ridx < tasks
    }

    /** In the middle of a reply: the stack and the unread bytes continue the bytes in `base`. */
    ghost predicate InItem()
      reads this
    {
      Shape() && err == None && ridx >= 0 &&
      Linked(store, Active()) && (ridx > 0 ==> reply == task[0].obj) &&
      Tracks(cfg, base, Frames(store, Active()), task[ridx].ty, Unread())
    }

    /** The last item of a reply has been read. */
    ghost predicate ReplyReady()
      reads this
    {
      Shape() && err == None && ridx == -1 && Built(store, reply, |store|) &&
      Finished(cfg, base, Tree(store, reply, |store|), Unread())
    }

    /** Between calls: in the middle of a reply, or about to start one, or stopped by an error. */
    ghost predicate Valid()
      reads this
    {
      Shape() &&
      match err
      case None => OnStream(cfg, stream, emitted, base) && (if ridx == -1 then base == Unread() else InItem())
      case Some(fault) =>
        (forall more: string ::
          ParseAll(cfg, stream + more) == Reading(emitted, Some(fault), ""))
    }

    /** Appends bytes to the buffer; a reader that has failed ignores them. */
    method Feed(bytes: string) returns (ok: bool)
      requires Valid()
      modifies this
      ensures Valid() && ok == old(err.None?) && err == old(err) && emitted == old(emitted)
      ensures stream == old(stream) + bytes
    {
      hide ParseAll, ParseReply, ParseTyped, Meaning, Unwind, Linked, Frames, Tracks, OnStream;
      stream := stream + bytes;
      if err.Some? {
        forall more: string
          ensures ParseAll(cfg, stream + more) == Reading(emitted, Some(err.value), "")
        {
          assert stream + more == old(stream) + (bytes + more);
        }
        return false;
      }
      OnStreamFed(cfg, old(stream), emitted, base, bytes);
      if ridx >= 0 {
        TracksFed(cfg, base, Frames(store, Active()), task[ridx].ty, Unread(), bytes);
      }
      assert buf[pos..] + bytes == (buf + bytes)[pos..];
      base := base + bytes;
      if |bytes| >= 1 {
        buf := buf + bytes;
        len := |buf|;
      } else {
        assert buf[pos..] + bytes == buf[pos..];
      }
      return true;
    }

    method SetError(fault: RespGrammar.Fault)
      requires Shape()
      modifies this
      ensures Shape() && err == Some(fault)
      ensures stream == old(stream) && emitted == old(emitted) && base == old(base)
    {
      reply := -1;
      buf, pos, len := "", 0, 0;
      ridx := -1;
      err := Some(fault);
    }

    /** The innermost item, object `id`, is complete: closes the aggregates it fills. */
    method MoveToNextTask(ghost id: int) returns (ghost root: int)
      requires Shape() && ridx >= 0 && Placed(store, Active(), id)
      modifies `ridx, `task
      ensures Shape()
      ensures match Settle(old(Frames(store, Active())), old(Tree(store, id, |store|)))
              case Closed(r) =>
                ridx == -1 && Built(store, root, |store|) && Tree(store, root, |store|) == r &&
                root == (if old(ridx) == 0 then id else old(task[0].obj))
              case StillOpen(frames) =>
                ridx >= 0 && Linked(store, Active()) && Frames(store, Active()) == frames &&
                task[ridx].ty == None && (ridx > 0 ==> old(ridx) > 0 && task[0].obj == old(task[0].obj))
    {
      hide Built, Tree, Linked, Frames, Settle;
      root := id;
      ghost var settled := Settle(Frames(store, Active()), Tree(store, id, |store|));
      while ridx >= 0
        invariant Shape() && task == old(task) && ridx <= old(ridx)
        invariant ridx >= 0 && Placed(store, Active(), root)
        invariant settled == Settle(Frames(store, Active()), Tree(store, root, |store|))
        invariant root == if ridx == old(ridx) then id else old(task)[ridx].obj
        decreases ridx
      {
        LevelSettles(store, Active(), root);
        if ridx == 0 {
          ridx := ridx - 1;
          return;
        }
        ghost var active := Active();
        TopLevel(store, active);
        var cur, prv := task[ridx], task[ridx - 1];
        if cur.idx == prv.elements - 1 {
          assert task[..ridx] == active[..|active| - 1];
          root := prv.obj;
          ridx := ridx - 1;
        } else {
          task := task[ridx := cur.(ty := None, elements := -1, idx := cur.idx + 1)];
          assert Active() == active[..|active| - 1] + [task[ridx]];
          return;
        }
      }
    }

    /** Creates the finished object of the innermost item, whose last `size` bytes are consumed, and moves on. */
    method CompleteItem(ty: Type, r: Reply, size: nat)
      requires Shape() && err == None && ridx >= 0 && Linked(store, Active())
      requires ridx > 0 ==> reply == task[0].obj
      requires size <= pos && task[ridx].ty == Some(ty) && (r.Aggregate? ==> r.elements == [])
      requires var frames := Frames(store, Active());
        Tracks(cfg, base, frames, Some(ty), buf[pos - size..]) &&
        ReadItem(cfg, ty, InPush(frames), buf[pos - size..]) == Whole(r, size)
      modifies `store, `reply, `ridx, `task
      ensures if ridx >= 0 then InItem() else ReplyReady()
    {
      hide Tracks, Finished, ParseReply, ReadItem, Linked, Frames, Built, Tree, Placed, Settle;
      ghost var frames := Frames(store, Active());
      WholeItemRead(cfg, base, frames, ty, buf[pos - size..], r, size);
      assert buf[pos - size..][size..] == Unread();
      var obj := if r.Aggregate? then Container(r.ty, []) else Scalar(r);
      CreateFinished(store, Active(), obj);
      var id := |store|;
      var isRoot := ridx == 0;
      store := Create(store, task[..ridx + 1], obj);
      if isRoot { reply := id; }
      ghost var root := MoveToNextTask(id);
    }

    /** Nil, boolean and double objects assert that their parent is not a push. */
    predicate ParentIsPush()
      reads this
      requires Shape()
    {
      ridx > 0 && task[ridx - 1].ty == Some(PushType)
    }

    lemma ParentIsTopFrame()
      requires Shape() && ridx >= 0 && Linked(store, Active())
      ensures ParentIsPush() == InPush(Frames(store, Active()))
    {
      if ridx > 0 {
        assert LevelOk(store, Active(), ridx - 1);
        assert Frames(store, Active())[ridx - 1] == FrameOf(store, Active(), ridx - 1);
      }
    }

    /** Makes room for one more level. */
    method Grow()
      requires Shape()
      modifies `task, `tasks
      ensures Shape() && old(task) <= task && tasks > old(tasks)
    {
      task := task + seq(STACK_SIZE, _ => IDLE_TASK);
      tasks := tasks + STACK_SIZE;
    }

    /** Acts on the innermost item as decoded: waits, fails, completes it or opens an aggregate. */
    method Accept(ty: Type, item: Item) returns (ok: bool)
      requires InItem() && task[ridx].ty == Some(ty) && (ty.Aggregate() ==> ridx < tasks - 1)
      requires item == ReadItem(cfg, ty, InPush(Frames(store, Active())), Unread())
      modifies this
      ensures ItemOutcome(old(pos), old(len), ok)
      ensures stream == old(stream) && emitted == old(emitted) && base == old(base)
    {
      hide Tracks, Rejects, Finished, ReadItem, ParseReply, Linked, Frames, Built, Tree;
      ghost var s, frames := Unread(), Frames(store, Active());
      EmptyAggregate(cfg, ty, InPush(frames), s);
      match item {
        case More =>
          BytesMissing(cfg, base, frames, Some(ty), s);
          return false;
        case Fault(fault) =>
          FaultRead(cfg, base, frames, ty, s, fault);
          SetError(fault);
          return false;
        case Whole(r, size) =>
          pos := pos + size;
          assert buf[pos - size..] == s;
          CompleteItem(ty, r, size);
          return true;
        case Header(count, size) =>
          pos := pos + size;
          HeaderRead(cfg, base, frames, ty, s, count, size);
          assert s[size..] == Unread();
          OpenAggregate(ty, count);
          return true;
      }
    }

    /** Creates an aggregate with empty slots and makes its first element the innermost item. */
    method OpenAggregate(ty: Type, count: nat)
      requires Shape() && err == None && 0 <= ridx < tasks - 1 && Linked(store, Active())
      requires ridx > 0 ==> reply == task[0].obj
      requires task[ridx].ty == Some(ty) && ty.Aggregate() && count > 0
      modifies `store, `reply, `ridx, `task
      ensures Shape() && ridx == old(ridx) + 1 && reply == task[0].obj && task[ridx].ty == None
      ensures Linked(store, Active()) &&
        Frames(store, Active()) == old(Frames(store, Active())) + [Frame(ty, count, [])]
    {
      hide Linked, Frames;
      ghost var active := Active();
      var child := Task(None, -1, 0, -1);
      CreateOpen(store, active, ty, count, child);
      var id := |store|;
      var isRoot := ridx == 0;
      store := Create(store, task[..ridx + 1], Container(ty, seq(count, _ => -1)));
      task := task[ridx := task[ridx].(elements := count, obj := id)];
      ridx := ridx + 1;
      task := task[ridx := child];
      if isRoot { reply := id; }
      assert Active() == active[..|active| - 1] + [task[ridx - 1], child];
    }

    /** After an item: moved on and nearer the end of the buffer, or waiting for bytes that the
        grammar misses too, or stopped by an error that the grammar finds too. */
    ghost predicate ItemOutcome(oldPos: nat, oldLen: nat, ok: bool)
      reads this
    {
      if ok then len == oldLen && oldPos < pos <= len && (if ridx >= 0 then InItem() else ReplyReady())
      else Shape() && match err
        case None => InItem() && ParseReply(cfg, false, base) == Incomplete
        case Some(fault) => Rejects(cfg, base, fault)
    }

    /** Reads the type byte of the innermost item. */
    method ReadType() returns (ok: bool)
      requires InItem() && task[ridx].ty.None?
      modifies this
      ensures ok ==> InItem() && task[ridx].ty.Some? && pos == old(pos) + 1 && len == old(len)
      ensures !ok ==> ItemOutcome(old(pos), old(len), false)
      ensures stream == old(stream) && emitted == old(emitted) && base == old(base)
    {
      hide Tracks, Rejects, ParseReply, Linked, Frames;
      ghost var frames := Frames(store, Active());
      if pos == len {
        BytesMissing(cfg, base, frames, None, Unread());
        return false;
      }
      TypeByteRead(cfg, base, frames, Unread());
      var ty := TypeOf(buf[pos]);
      if ty.None? {
        SetError(UnknownType(buf[pos]));
        return false;
      }
      assert buf[pos..][1..] == buf[pos + 1..];
      ghost var active := Active();
      pos := pos + 1;
      task := task[ridx := task[ridx].(ty := ty)];
      SameFrames(store, active, Active());
      return true;
    }

    method ProcessItem() returns (ok: bool)
      requires InItem()
      modifies this
      ensures ItemOutcome(old(pos), old(len), ok)
      ensures stream == old(stream) && emitted == old(emitted) && base == old(base)
    {
      hide Tracks, Rejects, Finished, ParseReply, LineItem, BulkItem, AggregateItem, Linked, Frames, Built, Tree;
      if task[ridx].ty.None? {
        ok := ReadType();
        if !ok { return; }
      }
      var ty := task[ridx].ty.value;
      if ty.Aggregate() && ridx == tasks - 1 {
        ghost var active := Active();
        Grow();
        assert Active() == active;
      }
      ParentIsTopFrame();
      var item: Item;
      if ty.Aggregate() {
        item := DecodeHeader(cfg, ty, ParentIsPush(), buf[pos..]);
      } else if ty.StringType? || ty.VerbType? {
        item := DecodeBulk(ty, ParentIsPush(), buf[pos..]);
      } else {
        item := DecodeLine(cfg, ty, ParentIsPush(), buf[pos..]);
      }
      ok := Accept(ty, item);
    }

    /** Processes items until the reply is complete, bytes are missing or the input is wrong. */
    method ProcessItems()
      requires InItem()
      modifies this
      ensures Shape() && stream == old(stream) && emitted == old(emitted) && base == old(base)
      ensures match err
              case None => if ridx >= 0 then InItem() && ParseReply(cfg, false, base) == Incomplete else ReplyReady()
              case Some(fault) => Rejects(cfg, base, fault)
    {
      hide Tracks, Rejects, Finished, ParseReply, Linked, Frames, Built, Tree;
      var ok := true;
      while ridx >= 0 && ok
        invariant Shape() && stream == old(stream) && emitted == old(emitted) && base == old(base)
        invariant ok ==> if ridx >= 0 then InItem() else ReplyReady()
        invariant !ok ==> ItemOutcome(0, 0, false)
        decreases ok, len - pos
      {
        ok := ProcessItem();
      }
    }

    /** Takes the next whole reply out of the buffer, if there is one. */
    method GetReply() returns (answer: Answer)
      requires Valid()
      modifies this
      ensures Valid() && stream == old(stream)
      ensures match answer
              case Failed(fault) =>
                err == Some(fault) && emitted == old(emitted) &&
                  ParseAll(cfg, stream) == Reading(emitted, Some(fault), "")
              case Ok(None) =>
                err == None && emitted == old(emitted) && ParseAll(cfg, stream) == Reading(emitted, None, base)
              case Ok(Some(r)) =>
                err == None && emitted == old(emitted) + [r] && emitted <= ParseAll(cfg, stream).replies
    {
      hide Tracks, Rejects, Finished, OnStream, ParseReply, ParseAll, Linked, Frames, Built, Tree;
      if err.Some? {
        assert stream + "" == stream;
        return Failed(err.value);
      }
      OnStreamEnd(cfg, stream, emitted, base);
      if len == 0 {
        assert ridx == -1 ==> base == "";
        if ridx >= 0 { NothingToRead(); } else { NothingYet(cfg); }
        return Ok(None);
      }
      if ridx == -1 {
        TracksFromStart(cfg, base);
        task := task[0 := Task(None, -1, -1, -1)];
        ridx := 0;
        OneTask(store, Active());
      }
      ProcessItems();
      if err.Some? {
        OnStreamRejected(err.value);
        return Failed(err.value);
      }
      if pos >= 1024 {
        Discard();
      }
      if ridx == -1 {
        var r := Tree(store, reply, |store|);
        OnStreamEmit(cfg, stream, emitted, base, r, Unread());
        emitted := emitted + [r];
        base := Unread();
        OnStreamEnd(cfg, stream, emitted, base);
        reply := -1;
        return Ok(Some(r));
      }
      return Ok(None);
    }

    /** Drops the bytes already consumed. */
    method Discard()
      requires Shape()
      modifies `buf, `pos, `len
      ensures Shape() && pos == 0 && Unread() == old(Unread())
    {
      buf := buf[pos..];
      pos := 0;
      len := |buf|;
    }

    lemma NothingToRead()
      requires InItem() && len == 0
      ensures ParseReply(cfg, false, base) == Incomplete
    {
      BytesMissing(cfg, base, Frames(store, Active()), task[ridx].ty, Unread());
    }

    lemma OnStreamRejected(fault: RespGrammar.Fault)
      requires OnStream(cfg, stream, emitted, base) && Rejects(cfg, base, fault)
      ensures forall more: string :: ParseAll(cfg, stream + more) == Reading(emitted, Some(fault), "")
    {
      forall more: string
        ensures ParseAll(cfg, stream + more) == Reading(emitted, Some(fault), "")
      {
        assert ParseReply(cfg, false, base + more) == Bad(fault);
        assert emitted + [] == emitted;
      }
    }
  }

  lemma TopLevel(store: seq<Obj>, tasks: seq<Task>)
    requires Linked(store, tasks) && |tasks| > 1
    ensures LevelOk(store, tasks, |tasks| - 2)
  {
  }

  lemma OneTask(store: seq<Obj>, tasks: seq<Task>)
    requires |tasks| == 1
    ensures Linked(store, tasks) && Frames(store, tasks) == []
  {
  }

  /** The only aggregate that is whole at once is the empty one. */
  lemma EmptyAggregate(cfg: Config, ty: Type, inPush: bool, s: string)
    ensures var item := ReadItem(cfg, ty, inPush, s);
      item.Whole? ==> 0 < item.size && (item.reply.Aggregate? ==> item.reply.elements == [])
  {
    hide ParseLL, FindCrlf;
  }

  lemma NothingYet(cfg: Config)
    ensures ParseReply(cfg, false, "") == Incomplete
  {
  }

  lemma SameFrames(store: seq<Obj>, tasks: seq<Task>, tasks': seq<Task>)
    requires Linked(store, tasks) && |tasks'| == |tasks|
    requires tasks'[..|tasks| - 1] == tasks[..|tasks| - 1]
    requires tasks'[|tasks| - 1].idx == tasks[|tasks| - 1].idx
    ensures Linked(store, tasks') && Frames(store, tasks') == Frames(store, tasks)
  {
    var n := |tasks|;
    assert forall i :: 0 <= i < n - 1 ==> tasks'[i] == tasks'[..n - 1][i] == tasks[..n - 1][i] == tasks[i];
    forall i | 0 <= i < n - 1
      ensures LevelOk(store, tasks', i) && FrameOf(store, tasks', i) == FrameOf(store, tasks, i)
      ensures i < n - 2 ==> LinkOk(store, tasks', i)
    {
      assert LevelOk(store, tasks, i);
      if i < n - 2 { assert LinkOk(store, tasks, i); }
    }
  }

  /** One call of a program that uses the reader. */
  datatype Call = FeedBytes(bytes: string) | AskReply

  ghost function Fed(calls: seq<Call>): string {
    if calls == [] then ""
    else
      var earlier, last := Fed(calls[..|calls| - 1]), calls[|calls| - 1];
      if last.FeedBytes? then earlier + last.bytes else earlier
  }

  /** How many replies have been handed out: each time one is asked for, one more, if the bytes so far
      make more than have been handed out. */
  ghost function Handed(cfg: Config, calls: seq<Call>): nat {
    if calls == [] then 0
    else
      var earlier := Handed(cfg, calls[..|calls| - 1]);
      if calls[|calls| - 1].AskReply? && earlier < |ParseAll(cfg, Fed(calls)).replies| then earlier + 1 else earlier
  }

  /** Every run: however the stream is cut into pieces and whenever replies are asked for, the
      replies handed out are the first ones of the whole stream, one whenever there is one; a refusal
      is the error that ends the stream; and "no reply yet" means that the stream holds no further
      whole reply. */
  method Drive(cfg: Config, calls: seq<Call>) returns (replies: seq<Reply>, last: Option<Answer>)
    ensures replies <= ParseAll(cfg, Fed(calls)).replies && |replies| == Handed(cfg, calls)
    ensures last.Some? <==> calls != [] && calls[|calls| - 1].AskReply?
    ensures last.Some? ==>
      match last.value
      case Failed(fault) => ParseAll(cfg, Fed(calls)) == Reading(replies, Some(fault), "")
      case Ok(None) => var reading := ParseAll(cfg, Fed(calls)); reading.replies == replies && reading.fault == None
      case Ok(Some(r)) => replies != [] && replies[|replies| - 1] == r
  {
    hide ParseAll, ParseReply, Tracks, OnStream, Linked, Frames;
    var reader := new Reader(cfg);
    replies, last := [], None;
    var i := 0;
    assert Fed(calls[..0]) == "";
    while i < |calls|
      invariant i <= |calls| && fresh(reader) && reader.Valid() && reader.cfg == cfg
      invariant reader.stream == Fed(calls[..i]) && replies == reader.emitted && |replies| == Handed(cfg, calls[..i])
      invariant last.Some? <==> i > 0 && calls[i - 1].AskReply?
      invariant last.Some? ==>
        match last.value
        case Failed(fault) => ParseAll(cfg, reader.stream) == Reading(replies, Some(fault), "")
        case Ok(None) =>
          var reading := ParseAll(cfg, reader.stream);
          reading.replies == replies && reading.fault == None
        case Ok(Some(r)) => replies != [] && replies[|replies| - 1] == r
    {
      assert calls[..i + 1][..i] == calls[..i];
      match calls[i] {
        case FeedBytes(bytes) =>
          var ok := reader.Feed(bytes);
          last := None;
        case AskReply =>
          var answer := reader.GetReply();
          if answer.Ok? && answer.reply.Some? { replies := replies + [answer.reply.value]; }
          last := Some(answer);
      }
      i := i + 1;
    }
    assert calls[..i] == calls;
    assert reader.stream + "" == reader.stream;
    if reader.err.None? {
      OnStreamEnd(cfg, reader.stream, reader.emitted, reader.base);
    }
  }
}
