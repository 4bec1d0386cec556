/** The parser of message bodies, fed with whatever pieces the network delivers, and the sender of
    chunked replies. */
module HttpBody {
  import opened Wrappers
  import opened BodyFraming

  /** The calls of the hooks, with a call for each byte of a body. */
  ghost function Flat(hooks: seq<Hook>): seq<Hook> {
    if hooks == [] then [] else
    var h := hooks[|hooks| - 1];
    Flat(hooks[..|hooks| - 1]) + if h.Body? then Each(h.data) else [h]
  }

  lemma FlatMore(hooks: seq<Hook>, h: Hook)
    ensures Flat(hooks + [h]) == Flat(hooks) + if h.Body? then Each(h.data) else [h]
  {
    assert (hooks + [h])[..|hooks|] == hooks;
  }

  /** The bytes that the body hook was given. */
  function Delivered(hooks: seq<Hook>): Bytes {
    if hooks == [] then [] else (if hooks[0].Body? then hooks[0].data else []) + Delivered(hooks[1..])
  }

  ghost function Concat(pieces: seq<Bytes>): Bytes {
    if pieces == [] then [] else pieces[0] + Concat(pieces[1..])
  }

  /** The next `k` bytes behind position `i` are fed. */
  lemma Onwards(data: Bytes, msgType: int, all: Fed, i: nat, since: seq<Hook>, p: Parser, k: nat)
    requires Ok(p) && i + k <= |data| && all == Later(i, since, Feed(p, data[i..], msgType))
    ensures
      var r := Feed(p, data[i..i + k], msgType);
      all == if Stops(r.parser) then Later(i, since, r)
        else Later(i + k, since + r.hooks, Feed(r.parser, data[i + k..], msgType))
  {
    hide Feed;
    assert data[i..] == data[i..i + k] + data[i + k..];
    FeedConcat(p, data[i..i + k], data[i + k..], msgType);
    var r := Feed(p, data[i..i + k], msgType);
    if !Stops(r.parser) {
      var t := Feed(r.parser, data[i + k..], msgType);
      assert since + (r.hooks + t.hooks) == since + r.hooks + t.hooks;
    }
  }

  class Htparser {
    var state: State
    var contentLen: nat
    var origContentLen: nat
    var chunked: bool
    var trailing: bool
    var error: Error
    /** The hooks that have been called, all of which agree to go on. */
    var hooks: seq<Hook>

    /** At the last line feed of the header lines. */
    constructor (contentLen: nat, chunked: bool)
      ensures Value() == Parser(HdrlineAlmostDone, contentLen, contentLen, chunked, false, NoError) && hooks == []
    {
      state, error, hooks := HdrlineAlmostDone, NoError, [];
      this.contentLen, origContentLen, this.chunked, trailing := contentLen, contentLen, chunked, false;
    }

    function Value(): Parser
      reads this
    {
      Parser(state, contentLen, origContentLen, chunked, trailing, error)
    }

    method Call(h: Hook)
      modifies `hooks
      ensures hooks == old(hooks) + [h] && Flat(hooks) == Flat(old(hooks)) + if h.Body? then Each(h.data) else [h]
    {
      FlatMore(hooks, h);
      hooks := hooks + [h];
    }

    /** The states that take one byte at a time. */
    method RunByte(ch: byte, msgType: int)
      requires !Stops(Value()) && Ok(Value()) && !state.ChunkData? && !state.BodyRead?
      modifies this
      ensures Value() == Step(old(Value()), ch, msgType).0 && Ok(Value())
      ensures Flat(hooks) == Flat(old(hooks)) + Step(old(Value()), ch, msgType).1
    {
      hide Flat;
      match state {
        case HdrlineAlmostDone =>
          if ch != LF { error := InvalidHeader; return; }
          Call(HeadersComplete);
          if trailing {
            Call(MessageComplete);
            state := Start;
          } else if chunked {
            state := ChunkSizeStart;
          } else if msgType == 1 {
            Call(MessageComplete);
            state := Start;
          } else if contentLen > 0 {
            state := BodyRead;
          } else {
            Call(MessageComplete);
            state := Start;
          }
        case HdrlineStart =>
          state := if ch == CR then HdrlineHdrAlmostDone else HeaderLine;
        case HdrlineHdrAlmostDone =>
          if ch != LF { error := InvalidHeader; return; }
          if trailing {
            Call(MessageComplete);
            state := Start;
          } else {
            state := HeaderLine;
          }
        case ChunkSizeStart =>
          var c := Unhex(ch);
          if c == -1 { error := InvalidChunkSize; return; }
          contentLen := c;
          state := ChunkSize;
        case ChunkSize =>
          if ch == CR { state := ChunkSizeAlmostDone; return; }
          var c := Unhex(ch);
          if c == -1 { error := InvalidChunkSize; return; }
          contentLen := (contentLen * 16 + c) % TWO_TO_THE_64;
        case ChunkSizeAlmostDone =>
          if ch != LF { error := InvalidChunkSize; return; }
          origContentLen := contentLen;
          if contentLen == 0 {
            Call(ChunksComplete);
            trailing := true;
            state := HdrlineStart;
          } else {
            Call(NewChunk);
            state := ChunkData;
          }
        case ChunkDataAlmostDone =>
          if ch != CR { error := InvalidChunk; return; }
          state := ChunkDataDone;
        case ChunkDataDone =>
          if ch != LF { error := InvalidChunk; return; }
          origContentLen := 0;
          state := ChunkSizeStart;
          Call(ChunkComplete);
        case _ =>
      }
    }

    /** The states that take as many body bytes as there are. */
    method RunBody(data: Bytes, i: nat, msgType: int) returns (toRead: nat)
      requires !Stops(Value()) && Ok(Value()) && i < |data| && (state.ChunkData? || state.BodyRead?)
      modifies this
      ensures 0 < toRead <= |data| - i && Ok(Value())
      ensures Feed(old(Value()), data[i..i + toRead], msgType).parser == Value()
      ensures Feed(old(Value()), data[i..i + toRead], msgType).read == toRead
      ensures Flat(hooks) == Flat(old(hooks)) + Feed(old(Value()), data[i..i + toRead], msgType).hooks
    {
      hide Flat, Feed, Each;
      toRead := if |data| - i < contentLen then |data| - i else contentLen;
      ghost var bytes := data[i..i + toRead];
      if state.ChunkData? {
        FeedChunkData(Value(), bytes, msgType);
        Call(Body(data[i..i + toRead]));
        if toRead == contentLen { state := ChunkDataAlmostDone; }
        contentLen := contentLen - toRead;
      } else {
        FeedBody(Value(), bytes, msgType);
        assert bytes[..toRead] == bytes;
        Call(Body(data[i..i + toRead]));
        contentLen := contentLen - toRead;
        if contentLen == 0 {
          Call(MessageComplete);
          state := Start;
        }
      }
    }

    /** One round of the loop. */
    method RunSome(data: Bytes, i: nat, msgType: int) returns (k: nat)
      requires !Stops(Value()) && Ok(Value()) && i < |data|
      modifies this
      ensures 0 < k <= |data| - i && Ok(Value())
      ensures
        var fed := Feed(old(Value()), data[i..i + k], msgType);
        fed.parser == Value() && fed.read == k && Flat(hooks) == Flat(old(hooks)) + fed.hooks
    {
      hide Flat, Feed, Step;
      if state.ChunkData? || state.BodyRead? {
        k := RunBody(data, i, msgType);
      } else {
        OneByte(Value(), data[i], msgType);
        assert data[i..i + 1] == [data[i]];
        RunByte(data[i], msgType);
        k := 1;
      }
    }

    /** Reads a piece of the stream, up to the end of the message or the first error, and gives the
        number of bytes read. */
    method Run(data: Bytes, msgType: int) returns (n: nat)
      requires Ok(Value()) && !state.Start? && !state.HeaderLine?
      modifies this
      ensures Ok(Value())
      ensures
        var fed := Feed(old(Value()).(error := NoError), data, msgType);
        Value() == fed.parser && n == fed.read && Flat(hooks) == Flat(old(hooks)) + fed.hooks
    {
      hide Flat, Feed, Step;
      error := NoError;
      ghost var all, since := Feed(Value(), data, msgType), [];
      assert data[0..] == data && since + all.hooks == all.hooks && Flat(hooks) + since == Flat(hooks);
      var i := 0;
      while i < |data|
        invariant 0 <= i <= |data| && !Stops(Value()) && Ok(Value())
        invariant all == Later(i, since, Feed(Value(), data[i..], msgType))
        invariant Flat(hooks) == Flat(old(hooks)) + since
      {
        ghost var p := Value();
        var k := RunSome(data, i, msgType);
        ghost var more := Feed(p, data[i..i + k], msgType).hooks;
        Onwards(data, msgType, all, i, since, p, k);
        assert Flat(old(hooks)) + since + more == Flat(old(hooks)) + (since + more);
        since := since + more;
        i := i + k;
        if error != NoError || state.Start? || state.HeaderLine? { return i; }
      }
      AtEnd(Value(), msgType, since);
      assert data[i..] == [];
      return i;
    }

    /** Reads a stream that arrives in pieces, each of at least one byte: the pieces make no difference. */
    method RunPieces(stream: Bytes, pieces: nat -> nat, msgType: int) returns (n: nat)
      requires Ok(Value()) && !Stops(Value()) && hooks == []
      modifies this
      ensures
        var fed := Feed(old(Value()), stream, msgType);
        Value() == fed.parser && n == fed.read && Flat(hooks) == fed.hooks
    {
      hide Feed, Step;
      ghost var all := Feed(Value(), stream, msgType);
      assert stream[0..] == stream && [] + all.hooks == all.hooks;
      n := 0;
      var i := 0;
      while n < |stream|
        invariant 0 <= n <= |stream| && !Stops(Value()) && Ok(Value()) && i >= 0
        invariant all == Later(n, Flat(hooks), Feed(Value(), stream[n..], msgType))
      {
        ghost var p, since := Value(), Flat(hooks);
        var k := if pieces(i) < |stream| - n then pieces(i) else |stream| - n;
        if k == 0 { k := 1; }
        Onwards(stream, msgType, all, n, since, p, k);
        var read := Run(stream[n..n + k], msgType);
        n := n + read;
        i := i + 1;
        if error != NoError || state.Start? || state.HeaderLine? { return; }
      }
      AtEnd(Value(), msgType, Flat(hooks));
      assert stream[n..] == [];
    }

    lemma AtEnd(p: Parser, msgType: int, since: seq<Hook>)
      requires Ok(p)
      ensures Feed(p, [], msgType) == Fed(p, 0, []) && since + [] == since
    {
    }
  }

  /** The sender of a reply, which may be chunked. */
  class Reply {
    const chunked: bool
    var output: Bytes

    constructor (chunked: bool)
      ensures this.chunked == chunked && output == []
    {
      this.chunked, output := chunked, [];
    }

    method SendReplyChunk(buf: Bytes)
      modifies this
      ensures output == old(output) + if chunked then SendChunk(buf) else buf
    {
      if |buf| == 0 { return; }
      if chunked { output := output + (Hex(|buf| % TWO_TO_THE_32) + [CR, LF]); }
      output := output + buf;
      if chunked { output := output + [CR, LF]; }
    }

    method SendReplyChunkEnd()
      modifies this
      ensures output == old(output) + if chunked then CHUNK_END else []
    {
      if chunked { output := output + CHUNK_END; }
    }
  }

  // ----- what was delivered -----

  lemma {:induction false} DeliveredConcat(a: seq<Hook>, b: seq<Hook>)
    ensures Delivered(a + b) == Delivered(a) + Delivered(b)
  {
    if a == [] {
      assert a + b == b;
    } else {
      assert (a + b)[1..] == a[1..] + b;
      DeliveredConcat(a[1..], b);
    }
  }

  lemma {:induction false} DeliveredEach(data: Bytes)
    ensures Delivered(Each(data)) == data
  {
    if data != [] {
      assert Each(data)[1..] == Each(data[1..]);
      DeliveredEach(data[1..]);
    }
  }

  /** Flattening keeps the bytes. */
  lemma {:induction false} DeliveredFlat(hooks: seq<Hook>)
    ensures Delivered(Flat(hooks)) == Delivered(hooks)
  {
    if hooks != [] {
      var before, h := hooks[..|hooks| - 1], hooks[|hooks| - 1];
      DeliveredFlat(before);
      assert hooks == before + [h];
      DeliveredConcat(before, [h]);
      DeliveredConcat(Flat(before), if h.Body? then Each(h.data) else [h]);
      if h.Body? { DeliveredEach(h.data); }
    }
  }

  lemma {:induction false} DeliveredChunks(chunks: seq<Bytes>)
    ensures Delivered(AllChunkHooks(chunks)) == Concat(chunks)
  {
    if chunks != [] {
      var c := chunks[0];
      DeliveredChunks(chunks[1..]);
      if c == [] {
        assert [] + AllChunkHooks(chunks[1..]) == AllChunkHooks(chunks[1..]);
      } else {
        DeliveredConcat([NewChunk], Each(c));
        DeliveredConcat([NewChunk] + Each(c), [ChunkComplete]);
        DeliveredConcat(ChunkHooks(c), AllChunkHooks(chunks[1..]));
        DeliveredEach(c);
        assert Delivered([NewChunk]) == [] && Delivered([ChunkComplete]) == [];
        assert Delivered(ChunkHooks(c)) == c;
      }
    } else {
      DeliveredConcat([ChunksComplete], [MessageComplete]);
      assert [ChunksComplete] + [MessageComplete] == [ChunksComplete, MessageComplete];
      assert Delivered([ChunksComplete]) == [] && Delivered([MessageComplete]) == [];
    }
  }

  // ----- whole transfers -----

  /** Sends chunks, and reads the stream back in any pieces: the hooks are told of the end of the header
      lines, of each chunk that is not empty with its bytes, its start and its end, and once of the end
      of the message; the body is what was sent, and the bytes of the next message are not read. */
  method TransferChunks(chunks: seq<Bytes>, next: Bytes, pieces: nat -> nat, msgType: int)
    returns (hooks: seq<Hook>, unread: Bytes)
    requires forall i :: 0 <= i < |chunks| ==> |chunks[i]| < TWO_TO_THE_32
    ensures Delivered(hooks) == Concat(chunks) && unread == next
    ensures Flat(hooks) == [HeadersComplete] + AllChunkHooks(chunks)
  {
    hide Feed, Step, SendChunk, Flat;
    var reply := new Reply(true);
    var i := 0;
    while i < |chunks|
      invariant 0 <= i <= |chunks| && reply.output + SendChunks(chunks[i..]) == SendChunks(chunks)
    {
      assert chunks[i..][1..] == chunks[i + 1..];
      assert reply.output + (SendChunk(chunks[i]) + SendChunks(chunks[i + 1..])) ==
        (reply.output + SendChunk(chunks[i])) + SendChunks(chunks[i + 1..]);
      reply.SendReplyChunk(chunks[i]);
      i := i + 1;
    }
    reply.SendReplyChunkEnd();
    assert reply.output == SendChunks(chunks) + CHUNK_END;
    var stream := [LF] + (reply.output + next);
    var parser := new Htparser(0, true);
    var n := parser.RunPieces(stream, pieces, msgType);
    ChunkedStream(chunks, next, msgType);
    DeliveredFlat(parser.hooks);
    hooks, unread := parser.hooks, stream[n..];
  }

  lemma ChunkedStream(chunks: seq<Bytes>, next: Bytes, msgType: int)
    requires forall i :: 0 <= i < |chunks| ==> |chunks[i]| < TWO_TO_THE_32
    ensures
      var p := Parser(HdrlineAlmostDone, 0, 0, true, false, NoError);
      var fed := Feed(p, [LF] + (SendChunks(chunks) + CHUNK_END + next), msgType);
      fed.read == 1 + |SendChunks(chunks)| + 5 && fed.hooks == [HeadersComplete] + AllChunkHooks(chunks) &&
      Delivered(fed.hooks) == Concat(chunks) && fed.parser.state == Start
  {
    hide Feed, SendChunk;
    var p := Parser(HdrlineAlmostDone, 0, 0, true, false, NoError);
    var q := p.(state := ChunkSizeStart);
    OneByte(p, LF, msgType);
    Then(p, [LF], q, [HeadersComplete], SendChunks(chunks) + CHUNK_END + next, msgType);
    DecodeChunks(q, chunks, next, msgType);
    DeliveredConcat([HeadersComplete], AllChunkHooks(chunks));
    DeliveredChunks(chunks);
  }

  /** Reads a body of the length that the headers gave, in any pieces: its bytes, and one end. */
  method TransferBody(sent: Bytes, next: Bytes, pieces: nat -> nat) returns (hooks: seq<Hook>, unread: Bytes)
    ensures Delivered(hooks) == sent && unread == next
    ensures Flat(hooks) == [HeadersComplete] + (Each(sent) + [MessageComplete])
  {
    hide Feed, Step, Flat, Each;
    var stream := [LF] + (sent + next);
    var parser := new Htparser(|sent|, false);
    var n := parser.RunPieces(stream, pieces, 0);
    KnownLength(sent, next);
    DeliveredFlat(parser.hooks);
    hooks, unread := parser.hooks, stream[n..];
  }

  lemma KnownLength(sent: Bytes, next: Bytes)
    ensures
      var p := Parser(HdrlineAlmostDone, |sent|, |sent|, false, false, NoError);
      var fed := Feed(p, [LF] + (sent + next), 0);
      fed.read == 1 + |sent| && fed.hooks == [HeadersComplete] + (Each(sent) + [MessageComplete]) &&
      Delivered(fed.hooks) == sent && fed.parser.state == Start
  {
    hide Feed, Each;
    var p := Parser(HdrlineAlmostDone, |sent|, |sent|, false, false, NoError);
    OneByte(p, LF, 0);
    FeedConcat(p, [LF], sent + next, 0);
    EachNone();
    if sent != [] {
      FeedBody(p.(state := BodyRead), sent + next, 0);
      assert (sent + next)[..|sent|] == sent;
    }
    DeliveredConcat([HeadersComplete], Each(sent) + [MessageComplete]);
    DeliveredConcat(Each(sent), [MessageComplete]);
    DeliveredEach(sent);
  }
}
