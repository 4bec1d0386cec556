/** Framing of HTTP message bodies: what the parser does with each byte of a body, and what the
    sender of a chunked reply writes. */
module BodyFraming {
  import opened Wrappers
  import Sds

  const CR: byte := '\r'
  const LF: byte := '\n'
  const TWO_TO_THE_32 := 0x1_0000_0000
  const TWO_TO_THE_64 := 0x1_0000_0000_0000_0000

  /** The states from the end of the header lines on. `Start` is the start of the next message; in
      `HeaderLine` the parser reads the text of a header, which is not part of this model. */
  datatype State = Start | HeaderLine
    | HdrlineAlmostDone | HdrlineStart | HdrlineHdrAlmostDone
    | ChunkSizeStart | ChunkSize | ChunkSizeAlmostDone
    | ChunkData | ChunkDataAlmostDone | ChunkDataDone | BodyRead

  datatype Error = NoError | InvalidHeader | InvalidChunkSize | InvalidChunk

  datatype Parser = Parser(
    state: State, contentLen: nat, origContentLen: nat, chunked: bool, trailing: bool, error: Error)

  /** A call of a hook. */
  datatype Hook = HeadersComplete | NewChunk | Body(data: Bytes) | ChunkComplete | ChunksComplete | MessageComplete

  /** The table of hexadecimal digits has 128 entries given; the compiler makes the others 0. */
  function Unhex(c: byte): (d: int)
    ensures -1 <= d < 16
  {
    if '0' <= c <= '9' then c as int - '0' as int
    else if 'a' <= c <= 'f' then c as int - 'a' as int + 10
    else if 'A' <= c <= 'F' then c as int - 'A' as int + 10
    else if c as int < 128 then -1
    else 0
  }

  /** There is something to be read in the states that read a body. */
  predicate Ok(p: Parser) {
    p.state.ChunkData? || p.state.BodyRead? ==> 0 < p.contentLen
  }

  predicate Stops(p: Parser) {
    p.state.Start? || p.state.HeaderLine? || p.error != NoError
  }

  /** One byte; a run of body bytes counts as a call of the hook for each. */
  function Step(p: Parser, ch: byte, msgType: int): (r: (Parser, seq<Hook>))
    requires !Stops(p) && Ok(p)
    ensures Ok(r.0)
  {
    match p.state
    case HdrlineAlmostDone =>
      if ch != LF then (p.(error := InvalidHeader), [])
      else if p.trailing then (p.(state := Start), [HeadersComplete, MessageComplete])
      else if p.chunked then (p.(state := ChunkSizeStart), [HeadersComplete])
      else if msgType != 1 && p.contentLen > 0 then (p.(state := BodyRead), [HeadersComplete])
      else (p.(state := Start), [HeadersComplete, MessageComplete])
    case HdrlineStart =>
      (p.(state := if ch == CR then HdrlineHdrAlmostDone else HeaderLine), [])
    case HdrlineHdrAlmostDone =>
      if ch != LF then (p.(error := InvalidHeader), [])
      else if p.trailing then (p.(state := Start), [MessageComplete])
      else (p.(state := HeaderLine), [])
    case ChunkSizeStart =>
      var c := Unhex(ch);
      if c == -1 then (p.(error := InvalidChunkSize), []) else (p.(contentLen := c, state := ChunkSize), [])
    case ChunkSize =>
      var c := Unhex(ch);
      if ch == CR then (p.(state := ChunkSizeAlmostDone), [])
      else if c == -1 then (p.(error := InvalidChunkSize), [])
      else (p.(contentLen := (p.contentLen * 16 + c) % TWO_TO_THE_64), [])
    case ChunkSizeAlmostDone =>
      if ch != LF then (p.(error := InvalidChunkSize), [])
      else if p.contentLen == 0 then
        (p.(origContentLen := 0, trailing := true, state := HdrlineStart), [ChunksComplete])
      else (p.(origContentLen := p.contentLen, state := ChunkData), [NewChunk])
    case ChunkData =>
      (p.(contentLen := p.contentLen - 1, state := if p.contentLen == 1 then ChunkDataAlmostDone else ChunkData),
          [Body([ch])])
    case ChunkDataAlmostDone =>
      if ch != CR then (p.(error := InvalidChunk), []) else (p.(state := ChunkDataDone), [])
    case ChunkDataDone =>
      if ch != LF then (p.(error := InvalidChunk), [])
      else (p.(origContentLen := 0, state := ChunkSizeStart), [ChunkComplete])
    case BodyRead =>
      if p.contentLen == 1 then (p.(contentLen := 0, state := Start), [Body([ch]), MessageComplete])
      else (p.(contentLen := p.contentLen - 1), [Body([ch])])
  }

  datatype Fed = Fed(parser: Parser, read: nat, hooks: seq<Hook>)

  /** The bytes one by one, up to the end of the message or the first error. */
  function Feed(p: Parser, data: Bytes, msgType: int): (r: Fed)
    requires Ok(p)
    ensures Ok(r.parser) && r.read <= |data| && (!Stops(r.parser) ==> r.read == |data|)
    decreases |data|
  {
    if data == [] || Stops(p) then Fed(p, 0, []) else
    var s := Step(p, data[0], msgType);
    var r := Feed(s.0, data[1..], msgType);
    Fed(r.parser, 1 + r.read, s.1 + r.hooks)
  }

  /** What comes after `n` bytes that called these hooks. */
  function Later(n: nat, hooks: seq<Hook>, r: Fed): Fed { Fed(r.parser, n + r.read, hooks + r.hooks) }

  /** Two parts of the data have the effect of the whole: where the cut is makes no difference. */
  lemma {:induction false} FeedConcat(p: Parser, a: Bytes, b: Bytes, msgType: int)
    requires Ok(p)
    ensures Feed(p, a + b, msgType) ==
      var r := Feed(p, a, msgType); if Stops(r.parser) then r else Later(r.read, r.hooks, Feed(r.parser, b, msgType))
    decreases |a|
  {
    if a == [] || Stops(p) {
      assert a == [] ==> a + b == b;
      var r := Feed(p, b, msgType);
      assert [] + r.hooks == r.hooks;
    } else {
      var s := Step(p, a[0], msgType);
      assert (a + b)[1..] == a[1..] + b;
      FeedConcat(s.0, a[1..], b, msgType);
      var r := Feed(s.0, a[1..], msgType);
      if !Stops(r.parser) {
        var t := Feed(r.parser, b, msgType);
        assert s.1 + (r.hooks + t.hooks) == (s.1 + r.hooks) + t.hooks;
      }
    }
  }

  lemma Then(p: Parser, a: Bytes, q: Parser, hooks: seq<Hook>, b: Bytes, msgType: int)
    requires Ok(p) && Feed(p, a, msgType) == Fed(q, |a|, hooks) && !Stops(q)
    ensures Feed(p, a + b, msgType) == Later(|a|, hooks, Feed(q, b, msgType))
  {
    FeedConcat(p, a, b, msgType);
  }

  lemma OneByte(p: Parser, ch: byte, msgType: int)
    requires Ok(p) && !Stops(p)
    ensures Feed(p, [ch], msgType) == Fed(Step(p, ch, msgType).0, 1, Step(p, ch, msgType).1)
  {
    hide Step;
    var s := Step(p, ch, msgType);
    assert Feed(s.0, [], msgType) == Fed(s.0, 0, []);
    assert s.1 + [] == s.1;
  }

  // ----- body bytes -----

  /** The body bytes, each as a call of its own. */
  ghost function Each(data: Bytes): (hooks: seq<Hook>)
    ensures |hooks| == |data| && forall i :: 0 <= i < |data| ==> hooks[i] == Body([data[i]])
  {
    seq(|data|, i requires 0 <= i < |data| => Body([data[i]]))
  }

  /** Body bytes up to the end of a chunk go to the hook. */
  lemma {:induction false} FeedChunkData(p: Parser, data: Bytes, msgType: int)
    requires p.state.ChunkData? && p.error == NoError && |data| <= p.contentLen && 0 < p.contentLen
    ensures
      var left := p.contentLen - |data|;
      Feed(p, data, msgType) ==
        Fed(p.(contentLen := left, state := if left == 0 then ChunkDataAlmostDone else ChunkData), |data|, Each(data))
    decreases |data|
  {
    if data == [] {
      assert Each(data) == [];
    } else {
      var q := p.(contentLen := p.contentLen - 1);
      assert Each(data) == [Body([data[0]])] + Each(data[1..]);
      if p.contentLen > 1 { FeedChunkData(q, data[1..], msgType); }
    }
  }

  /** A body of known length ends the message with its last byte; what follows is not read. */
  lemma {:induction false} FeedBody(p: Parser, data: Bytes, msgType: int)
    requires p.state.BodyRead? && p.error == NoError && 0 < p.contentLen
    ensures Feed(p, data, msgType) ==
      if |data| < p.contentLen then Fed(p.(contentLen := p.contentLen - |data|), |data|, Each(data))
      else Fed(p.(contentLen := 0, state := Start), p.contentLen, Each(data[..p.contentLen]) + [MessageComplete])
    decreases |data|
  {
    hide Step, Each;
    var n := p.contentLen;
    if data == [] {
      EachNone();
    } else if n == 1 {
      LastByte(p, data[0], msgType);
      FeedConcat(p, [data[0]], data[1..], msgType);
      assert [data[0]] + data[1..] == data && data[..1] == [data[0]];
    } else {
      BodyByte(p, data[0], msgType);
      EachFirst(data);
      FeedBody(p.(contentLen := n - 1), data[1..], msgType);
      if n <= |data| {
        EachFirst(data[..n]);
        assert data[..n][1..] == data[1..][..n - 1];
        assert [Body([data[0]])] + (Each(data[1..][..n - 1]) + [MessageComplete]) ==
          Each(data[..n]) + [MessageComplete];
      }
    }
  }

  lemma LastByte(p: Parser, ch: byte, msgType: int)
    requires p.state.BodyRead? && p.error == NoError && p.contentLen == 1
    ensures Feed(p, [ch], msgType) == Fed(p.(contentLen := 0, state := Start), 1, Each([ch]) + [MessageComplete])
  {
    OneByte(p, ch, msgType);
    assert Each([ch]) + [MessageComplete] == [Body([ch]), MessageComplete];
  }

  lemma BodyByte(p: Parser, ch: byte, msgType: int)
    requires p.state.BodyRead? && p.error == NoError && p.contentLen > 1
    ensures Step(p, ch, msgType) == (p.(contentLen := p.contentLen - 1), [Body([ch])])
  {
  }

  lemma EachNone()
    ensures Each([]) == []
  {
  }

  lemma EachFirst(data: Bytes)
    requires data != []
    ensures Each(data) == [Body([data[0]])] + Each(data[1..])
  {
  }

  // ----- the sender -----

  /** The format %x. */
  function Hex(n: nat): (s: Bytes)
    ensures s != []
  {
    if n < 16 then [Sds.HexDigit(n)] else Hex(n / 16) + [Sds.HexDigit(n % 16)]
  }

  /** A buffer is sent as a chunk unless it is empty; its length is printed as an unsigned int. */
  function SendChunk(c: Bytes): Bytes {
    if c == [] then [] else Hex(|c| % TWO_TO_THE_32) + [CR, LF] + c + [CR, LF]
  }

  function SendChunks(chunks: seq<Bytes>): Bytes {
    if chunks == [] then [] else SendChunk(chunks[0]) + SendChunks(chunks[1..])
  }

  const CHUNK_END: Bytes := ['0', CR, LF, CR, LF]

  // ----- size lines -----

  predicate IsHexDigit(c: byte) { Sds.IsHexDigit(c) }

  /** The bytes that the table of digits does not refuse. */
  predicate Passes(c: byte) { IsHexDigit(c) || c as int >= 128 }

  ghost predicate AllPass(line: Bytes) { forall c :: c in line ==> Passes(c) }

  ghost predicate AllHex(line: Bytes) { forall c :: c in line ==> IsHexDigit(c) }

  /** The number that a line denotes; a byte that is no digit counts as a digit 0. */
  function HexValue(line: Bytes): nat {
    if line == [] then 0 else 16 * HexValue(line[..|line| - 1]) + Sds.HexDigitToInt(line[|line| - 1])
  }

  /** The parser in the middle of a size line of which `line` has been read. */
  function InLine(p: Parser, line: Bytes): Parser {
    p.(contentLen := HexValue(line) % TWO_TO_THE_64, state := ChunkSize)
  }

  lemma PassesMeans(c: byte)
    ensures Passes(c) <==> Unhex(c) != -1
    ensures Passes(c) ==> Unhex(c) == Sds.HexDigitToInt(c) && c != CR
  {
  }

  /** A line is read on as long as its bytes pass, and the number is kept modulo 2 to the 64. */
  lemma {:induction false} FeedDigits(p: Parser, line: Bytes, msgType: int)
    requires p.state.ChunkSizeStart? && p.error == NoError && line != [] && AllPass(line)
    ensures Feed(p, line, msgType) == Fed(InLine(p, line), |line|, [])
    decreases |line|
  {
    hide Step, Feed, Passes;
    var n := |line| - 1;
    var init, c := line[..n], line[n];
    assert line == init + [c] && c in line;
    if init == [] {
      FirstDigit(p, c, msgType);
    } else {
      assert forall d :: d in init ==> d in line;
      FeedDigits(p, init, msgType);
      NextDigit(InLine(p, init), c, msgType);
      Then(p, init, InLine(p, init), [], [c], msgType);
      ModAgain(HexValue(init), Sds.HexDigitToInt(c));
    }
  }

  lemma ModAgain(v: nat, d: nat)
    ensures (v % TWO_TO_THE_64 * 16 + d) % TWO_TO_THE_64 == (16 * v + d) % TWO_TO_THE_64
  {
    var q := v / TWO_TO_THE_64;
    assert 16 * v + d == (v % TWO_TO_THE_64 * 16 + d) + 16 * q * TWO_TO_THE_64;
  }

  lemma FirstDigit(p: Parser, c: byte, msgType: int)
    requires p.state.ChunkSizeStart? && p.error == NoError && Passes(c)
    ensures Feed(p, [c], msgType) == Fed(InLine(p, [c]), 1, [])
  {
    PassesMeans(c);
    OneByte(p, c, msgType);
    assert [c][..0] == [];
    assert HexValue([c]) == Sds.HexDigitToInt(c);
  }

  lemma NextDigit(q: Parser, c: byte, msgType: int)
    requires q.state.ChunkSize? && q.error == NoError && Passes(c)
    ensures Feed(q, [c], msgType) ==
      Fed(q.(contentLen := (q.contentLen * 16 + Sds.HexDigitToInt(c)) % TWO_TO_THE_64), 1, [])
  {
    PassesMeans(c);
    OneByte(q, c, msgType);
  }

  /** A printed size denotes the size. */
  lemma {:induction false} HexDenotes(n: nat)
    ensures AllHex(Hex(n)) && HexValue(Hex(n)) == n
  {
    if n < 16 {
      assert [Sds.HexDigit(n)][..0] == [];
      assert HexValue([Sds.HexDigit(n)]) == Sds.HexDigitToInt(Sds.HexDigit(n));
    } else {
      HexDenotes(n / 16);
      var init, c := Hex(n / 16), Sds.HexDigit(n % 16);
      assert (init + [c])[..|init|] == init;
    }
  }

  lemma FeedHex(p: Parser, n: nat, msgType: int)
    requires p.state.ChunkSizeStart? && p.error == NoError && n < TWO_TO_THE_64
    ensures Feed(p, Hex(n), msgType) == Fed(p.(contentLen := n, state := ChunkSize), |Hex(n)|, [])
  {
    hide Hex, Step, Feed, HexValue;
    HexDenotes(n);
    FeedDigits(p, Hex(n), msgType);
  }

  /** The first byte that does not pass ends the parse. */
  lemma {:induction false} FeedStray(p: Parser, line: Bytes, rest: Bytes, msgType: int)
    requires (p.state.ChunkSizeStart? || p.state.ChunkSize?) && p.error == NoError && CR !in line && !AllPass(line)
    ensures Feed(p, line + rest, msgType).parser.error == InvalidChunkSize
    decreases |line|
  {
    hide Passes;
    var c := line[0];
    PassesMeans(c);
    assert (line + rest)[0] == c && (line + rest)[1..] == line[1..] + rest;
    assert c in line;
    if Passes(c) {
      assert forall d :: d in line ==> d == c || d in line[1..];
      var q := Step(p, c, msgType).0;
      FeedStray(q, line[1..], rest, msgType);
    }
  }

  /** After the line, with its line end, comes the data of a chunk, or the end. */
  predicate Taken(p: Parser, line: Bytes, msgType: int)
    requires p.state.ChunkSizeStart?
  {
    var q := Feed(p, line + [CR, LF], msgType).parser;
    q.error == NoError && (q.state.ChunkData? || q.state.HdrlineStart?)
  }

  /** Exactly which size lines are taken, and for which numbers: those of digits, and of bytes above 127
      that count as digits 0, modulo 2 to the 64. */
  lemma SizeLineTaken(p: Parser, line: Bytes, msgType: int)
    requires p.state.ChunkSizeStart? && p.error == NoError && CR !in line
    ensures Taken(p, line, msgType) <==> line != [] && AllPass(line)
    ensures !AllHex(line) ==>
      (Taken(p, line, msgType) <==> AllPass(line) && exists i :: 0 <= i < |line| && line[i] as int >= 128)
    ensures Taken(p, line, msgType) ==>
      var q := Feed(p, line + [CR, LF], msgType).parser;
      q.contentLen == HexValue(line) % TWO_TO_THE_64 && (q.state.HdrlineStart? <==> q.contentLen == 0)
  {
    hide Step, Feed, HexValue, Taken, IsHexDigit;
    PlainTaken(p, line, msgType);
    if AllPass(line) && !AllHex(line) {
      var i :| 0 <= i < |line| && !IsHexDigit(line[i]);
      assert Passes(line[i]);
    }
    if line == [] {
      assert AllHex(line);
    }
  }

  lemma PlainTaken(p: Parser, line: Bytes, msgType: int)
    requires p.state.ChunkSizeStart? && p.error == NoError && CR !in line
    ensures Taken(p, line, msgType) <==> line != [] && AllPass(line)
    ensures Taken(p, line, msgType) ==>
      var q := Feed(p, line + [CR, LF], msgType).parser;
      q.contentLen == HexValue(line) % TWO_TO_THE_64 && (q.state.HdrlineStart? <==> q.contentLen == 0)
  {
    hide Step, Feed, Passes, HexValue;
    if line == [] {
      EmptySize(p, msgType);
      assert line + [CR, LF] == [CR] + [LF];
    } else if AllPass(line) {
      FeedDigits(p, line, msgType);
      SizeLineEnd(InLine(p, line), msgType);
      Then(p, line, InLine(p, line), [], [CR, LF], msgType);
    } else {
      FeedStray(p, line, [CR, LF], msgType);
    }
  }

  lemma EmptySize(p: Parser, msgType: int)
    requires p.state.ChunkSizeStart? && p.error == NoError
    ensures Feed(p, [CR] + [LF], msgType).parser.error == InvalidChunkSize
  {
    OneByte(p, CR, msgType);
    FeedConcat(p, [CR], [LF], msgType);
  }

  /** A size line is to be taken if it consists of digits, and then for the number that it denotes. It
      is so treated exactly if no byte above 127 passes in it, and its number is below 2 to the 64. */
  lemma SizeLineRight(p: Parser, line: Bytes, msgType: int)
    requires p.state.ChunkSizeStart? && p.error == NoError && CR !in line
    ensures
      (Taken(p, line, msgType) <==> line != [] && AllHex(line)) &&
      (Taken(p, line, msgType) ==> Feed(p, line + [CR, LF], msgType).parser.contentLen == HexValue(line))
      <==>
      (AllPass(line) ==> AllHex(line) && HexValue(line) < TWO_TO_THE_64)
  {
    hide Feed, HexValue, Taken;
    SizeLineTaken(p, line, msgType);
    if line == [] { EmptyValue(); }
    assert AllHex(line) ==> AllPass(line);
  }

  lemma EmptyValue()
    ensures HexValue([]) == 0
  {
  }

  /** One line that is taken although it is no number: a byte 128, which reads as a size of 0. */
  lemma HighByteTaken(p: Parser, msgType: int)
    requires p.state.ChunkSizeStart? && p.error == NoError
    ensures
      var line: Bytes := [128 as char];
      !AllHex(line) && Taken(p, line, msgType) && Feed(p, line + [CR, LF], msgType).parser.state.HdrlineStart?
  {
    hide Feed;
    var line: Bytes := [128 as char];
    SizeLineTaken(p, line, msgType);
    assert line[0] in line && line[..0] == [];
    assert HexValue(line) == 0;
  }

  /** A size line. */
  lemma FeedSizeLine(p: Parser, n: nat, msgType: int)
    requires p.state.ChunkSizeStart? && p.error == NoError && n < TWO_TO_THE_64
    ensures Feed(p, Hex(n) + [CR, LF], msgType) == Fed(
      if n == 0 then p.(contentLen := 0, origContentLen := 0, trailing := true, state := HdrlineStart)
      else p.(contentLen := n, origContentLen := n, state := ChunkData),
      |Hex(n)| + 2, if n == 0 then [ChunksComplete] else [NewChunk])
  {
    hide Hex, Step, Feed;
    var q := p.(contentLen := n, state := ChunkSize);
    FeedHex(p, n, msgType);
    SizeLineEnd(q, msgType);
    Then(p, Hex(n), q, [], [CR, LF], msgType);
  }

  lemma SizeLineEnd(q: Parser, msgType: int)
    requires q.state.ChunkSize? && q.error == NoError
    ensures Feed(q, [CR, LF], msgType) ==
      if q.contentLen == 0 then
        Fed(q.(origContentLen := 0, trailing := true, state := HdrlineStart), 2, [ChunksComplete])
      else Fed(q.(origContentLen := q.contentLen, state := ChunkData), 2, [NewChunk])
  {
    hide Feed;
    var r := q.(state := ChunkSizeAlmostDone);
    assert [CR] + [LF] == [CR, LF];
    OneByte(q, CR, msgType);
    OneByte(r, LF, msgType);
    Then(q, [CR], r, [], [LF], msgType);
  }

  /** What the hooks are told of a chunk. */
  ghost function ChunkHooks(c: Bytes): seq<Hook> { [NewChunk] + Each(c) + [ChunkComplete] }

  lemma FeedChunk(p: Parser, c: Bytes, msgType: int)
    requires p.state.ChunkSizeStart? && p.error == NoError && 0 < |c| < TWO_TO_THE_32
    ensures Feed(p, SendChunk(c), msgType) ==
      Fed(p.(contentLen := 0, origContentLen := 0), |SendChunk(c)|, ChunkHooks(c))
  {
    hide Hex, Step, Each, Feed;
    var n := |c|;
    var line := Hex(n) + [CR, LF];
    var q := p.(contentLen := n, origContentLen := n, state := ChunkData);
    var r := q.(contentLen := 0, state := ChunkDataAlmostDone);
    FeedSizeLine(p, n, msgType);
    FeedChunkData(q, c, msgType);
    FeedChunkEnd(r, msgType);
    Then(q, c, r, Each(c), [CR, LF], msgType);
    Then(p, line, q, [NewChunk], c + [CR, LF], msgType);
    assert SendChunk(c) == line + (c + [CR, LF]);
    assert [NewChunk] + (Each(c) + [ChunkComplete]) == ChunkHooks(c);
  }

  lemma FeedChunkEnd(p: Parser, msgType: int)
    requires p.state.ChunkDataAlmostDone? && p.error == NoError
    ensures Feed(p, [CR, LF], msgType) == Fed(p.(origContentLen := 0, state := ChunkSizeStart), 2, [ChunkComplete])
  {
    var q := p.(state := ChunkDataDone);
    OneByte(p, CR, msgType);
    OneByte(q, LF, msgType);
    assert [CR] + [LF] == [CR, LF];
    Then(p, [CR], q, [], [LF], msgType);
  }

  ghost function AllChunkHooks(chunks: seq<Bytes>): seq<Hook> {
    if chunks == [] then [ChunksComplete, MessageComplete]
    else (if chunks[0] == [] then [] else ChunkHooks(chunks[0])) + AllChunkHooks(chunks[1..])
  }

  lemma FeedEnd(p: Parser, rest: Bytes, msgType: int)
    requires p.state.ChunkSizeStart? && p.error == NoError
    ensures Feed(p, CHUNK_END + rest, msgType) ==
      Fed(p.(contentLen := 0, origContentLen := 0, trailing := true, state := Start), 5,
          [ChunksComplete, MessageComplete])
  {
    hide Step, Feed;
    var q := p.(contentLen := 0, origContentLen := 0, trailing := true, state := HdrlineStart);
    var line := Hex(0) + [CR, LF];
    assert CHUNK_END + rest == line + ([CR] + ([LF] + rest));
    FeedSizeLine(p, 0, msgType);
    Then(p, line, q, [ChunksComplete], [CR] + ([LF] + rest), msgType);
    FeedEmptyLine(q, rest, msgType);
  }

  lemma FeedEmptyLine(q: Parser, rest: Bytes, msgType: int)
    requires q.state.HdrlineStart? && q.error == NoError && q.trailing
    ensures Feed(q, [CR] + ([LF] + rest), msgType) == Fed(q.(state := Start), 2, [MessageComplete])
  {
    hide Feed;
    var r := q.(state := HdrlineHdrAlmostDone);
    OneByte(q, CR, msgType);
    Then(q, [CR], r, [], [LF] + rest, msgType);
    OneByte(r, LF, msgType);
    FeedConcat(r, [LF], rest, msgType);
  }

  /** The decoder undoes the encoder: for chunks shorter than 2 to the 32 the hooks are told each
      chunk's bytes, one end for each chunk and one for the message; what follows is not read. */
  lemma {:induction false} DecodeChunks(p: Parser, chunks: seq<Bytes>, rest: Bytes, msgType: int)
    requires p.state.ChunkSizeStart? && p.error == NoError
    requires forall i :: 0 <= i < |chunks| ==> |chunks[i]| < TWO_TO_THE_32
    ensures Feed(p, SendChunks(chunks) + CHUNK_END + rest, msgType) ==
      Fed(p.(contentLen := 0, origContentLen := 0, trailing := true, state := Start),
          |SendChunks(chunks)| + 5, AllChunkHooks(chunks))
    decreases |chunks|
  {
    hide SendChunk, Step, Feed;
    if chunks == [] {
      FeedEnd(p, rest, msgType);
      assert SendChunks(chunks) + CHUNK_END + rest == CHUNK_END + rest;
    } else {
      var c, tail := chunks[0], SendChunks(chunks[1..]) + CHUNK_END + rest;
      assert SendChunks(chunks) + CHUNK_END + rest == SendChunk(c) + tail;
      if c == [] {
        NoChunk();
        DecodeChunks(p, chunks[1..], rest, msgType);
        assert SendChunk(c) + tail == tail;
        assert [] + AllChunkHooks(chunks[1..]) == AllChunkHooks(chunks[1..]);
      } else {
        var q := p.(contentLen := 0, origContentLen := 0);
        FeedChunk(p, c, msgType);
        Then(p, SendChunk(c), q, ChunkHooks(c), tail, msgType);
        DecodeChunks(q, chunks[1..], rest, msgType);
      }
    }
  }

  lemma NoChunk()
    ensures SendChunk([]) == []
  {
  }

  // ----- longer chunks -----

  lemma NoBodyYet(q: Parser, data: Bytes, msgType: int)
    requires q.state.ChunkDataAlmostDone? && q.error == NoError
    ensures var hooks := Feed(q, data, msgType).hooks; hooks == [] || hooks[0] == ChunkComplete
  {
    if data != [] {
      FirstStep(q, data, msgType);
      if data[0] == CR && data[1..] != [] { FirstStep(q.(state := ChunkDataDone), data[1..], msgType); }
    }
  }

  lemma FirstStep(p: Parser, data: Bytes, msgType: int)
    requires Ok(p) && !Stops(p) && data != []
    ensures
      var s := Step(p, data[0], msgType);
      Feed(p, data, msgType).hooks == s.1 + (if Stops(s.0) then [] else Feed(s.0, data[1..], msgType).hooks)
  {
  }

  /** The size that is printed is taken for the size, and the chunk is over after so many bytes. */
  lemma FeedLongChunk(p: Parser, c: Bytes, tail: Bytes, msgType: int)
    requires p.state.ChunkSizeStart? && p.error == NoError && |c| >= TWO_TO_THE_32
    ensures
      var n := |c| % TWO_TO_THE_32;
      var hooks := Feed(p, SendChunk(c) + tail, msgType).hooks;
      (n == 0 ==> hooks != [] && hooks[0] == ChunksComplete) &&
        (n > 0 ==> |hooks| <= n + 1 || hooks[n + 1] == ChunkComplete)
  {
    hide Hex, Step, Each, Feed;
    var n := |c| % TWO_TO_THE_32;
    var line := Hex(n) + [CR, LF];
    FeedSizeLine(p, n, msgType);
    var behind := c[n..] + [CR, LF] + tail;
    assert c == c[..n] + c[n..];
    assert SendChunk(c) + tail == line + (c[..n] + behind);
    if n == 0 {
      Then(p, line, p.(contentLen := 0, origContentLen := 0, trailing := true, state := HdrlineStart),
          [ChunksComplete], c[..n] + behind, msgType);
    } else {
      var q := p.(contentLen := n, origContentLen := n, state := ChunkData);
      var r := q.(contentLen := 0, state := ChunkDataAlmostDone);
      Then(p, line, q, [NewChunk], c[..n] + behind, msgType);
      FeedChunkData(q, c[..n], msgType);
      Then(q, c[..n], r, Each(c[..n]), behind, msgType);
      NoBodyYet(r, behind, msgType);
    }
  }

  /** The hooks are told what was sent exactly if every chunk is shorter than 2 to the 32. */
  lemma {:induction false} DecodeExactly(p: Parser, chunks: seq<Bytes>, rest: Bytes, msgType: int)
    requires p.state.ChunkSizeStart? && p.error == NoError
    ensures Feed(p, SendChunks(chunks) + CHUNK_END + rest, msgType).hooks == AllChunkHooks(chunks) <==>
      forall i :: 0 <= i < |chunks| ==> |chunks[i]| < TWO_TO_THE_32
    decreases |chunks|
  {
    hide SendChunk, Step, Feed, Each;
    if forall i :: 0 <= i < |chunks| ==> |chunks[i]| < TWO_TO_THE_32 {
      DecodeChunks(p, chunks, rest, msgType);
    } else {
      DecodeFails(p, chunks, rest, msgType);
    }
  }

  lemma {:induction false} DecodeFails(p: Parser, chunks: seq<Bytes>, rest: Bytes, msgType: int)
    requires p.state.ChunkSizeStart? && p.error == NoError
    requires exists i :: 0 <= i < |chunks| && |chunks[i]| >= TWO_TO_THE_32
    ensures Feed(p, SendChunks(chunks) + CHUNK_END + rest, msgType).hooks != AllChunkHooks(chunks)
    decreases |chunks|
  {
    hide SendChunk, Step, Feed, Each;
    var c, tail, more := chunks[0], SendChunks(chunks[1..]) + CHUNK_END + rest, AllChunkHooks(chunks[1..]);
    assert SendChunks(chunks) + CHUNK_END + rest == SendChunk(c) + tail;
    if |c| >= TWO_TO_THE_32 {
      FeedLongChunk(p, c, tail, msgType);
      BodyInside(c, more, |c| % TWO_TO_THE_32);
    } else if c == [] {
      NoChunk();
      assert SendChunk(c) + tail == tail && [] + more == more;
      DecodeFails(p, chunks[1..], rest, msgType);
    } else {
      var q := p.(contentLen := 0, origContentLen := 0);
      FeedChunk(p, c, msgType);
      Then(p, SendChunk(c), q, ChunkHooks(c), tail, msgType);
      DecodeFails(q, chunks[1..], rest, msgType);
      SamePrefix(ChunkHooks(c), Feed(q, tail, msgType).hooks, more);
    }
  }

  lemma SamePrefix(prefix: seq<Hook>, a: seq<Hook>, b: seq<Hook>)
    ensures prefix + a == prefix + b ==> a == b
  {
    assert (prefix + a)[|prefix|..] == a && (prefix + b)[|prefix|..] == b;
  }

  lemma BodyInside(c: Bytes, more: seq<Hook>, n: nat)
    requires n < |c|
    ensures |ChunkHooks(c) + more| > n + 1 && (ChunkHooks(c) + more)[0] == NewChunk &&
      (ChunkHooks(c) + more)[n + 1].Body?
  {
  }
}
