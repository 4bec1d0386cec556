/** The grammar of the Redis serialization protocol as a recursive-descent parser: the reference
    that the resumable reader of hiredis is compared with. Bytes are characters; a parse consumes
    a prefix of its input and hands back the rest. */
module RespGrammar {
  import opened Wrappers
  import opened Decimal

  datatype Type =
    | ErrorType | StatusType | IntegerType | DoubleType | NilType | BoolType
    | StringType | VerbType
    | ArrayType | MapType | SetType | PushType
  {
    predicate Aggregate() { ArrayType? || MapType? || SetType? || PushType? }
  }

  /** A reply tree. `Text` carries errors, statuses and bulk strings; `Verbatim` its three-byte
      format beside the payload; `Aggregate` the elements of arrays, maps, sets and pushes. */
  datatype Reply =
    | Text(ty: Type, text: string)
    | Verbatim(format: string, text: string)
    | Integer(value: int)
    | Double(text: string)
    | Nil
    | Bool(flag: bool)
    | Aggregate(ty: Type, elements: seq<Reply>)

  /** Protocol errors; `Unlinkable` is the failed assertion of the constructors of nil, boolean and
      double objects, which do not expect a push as their parent. */
  datatype Fault =
    | UnknownType(byte: char)
    | BadInteger | BadDouble | DoubleTooLarge
    | BadBulkLength | BulkLengthRange
    | BadVerbatim
    | BadCount | CountRange
    | Unlinkable

  /** What the reader is configured with: the limit on elements (none if not positive) and which
      texts the C library's strtod takes for a number. */
  datatype Config = Config(maxElements: int, isDouble: string -> bool)

  /** The outcome of parsing one reply from a prefix of the input. */
  datatype Outcome =
    | Incomplete
    | Bad(fault: Fault)
    | Done(reply: Reply, rest: string)

  datatype ManyOutcome =
    | ManyIncomplete
    | ManyBad(fault: Fault)
    | ManyDone(replies: seq<Reply>, rest: string)

  /** What a typed item starts with: too few bytes, an error, a whole reply of `size` bytes,
      or the header of an aggregate of `count` replies, of `size` bytes. */
  datatype Item =
    | More
    | Fault(fault: Fault)
    | Whole(reply: Reply, size: nat)
    | Header(count: nat, size: nat)

  function TypeOf(c: char): Option<Type> {
    match c
    case '-' => Some(ErrorType)
    case '+' => Some(StatusType)
    case ':' => Some(IntegerType)
    case ',' => Some(DoubleType)
    case '_' => Some(NilType)
    case '$' => Some(StringType)
    case '*' => Some(ArrayType)
    case '%' => Some(MapType)
    case '~' => Some(SetType)
    case '#' => Some(BoolType)
    case '=' => Some(VerbType)
    case '>' => Some(PushType)
    case _ => None
  }

  predicate CrlfAt(s: string, i: int) {
    0 <= i < |s| - 1 && s[i] == '\r' && s[i + 1] == '\n'
  }

  /** The position of the first CRLF. */
  function FindCrlf(s: string): (at: Option<nat>)
    ensures at.Some? ==> CrlfAt(s, at.value) && forall j :: 0 <= j < at.value ==> !CrlfAt(s, j)
    ensures at.None? ==> forall j :: !CrlfAt(s, j)
  {
    if |s| < 2 then None
    else if CrlfAt(s, 0) then Some(0)
    else
      var at := FindCrlf(s[1..]);
      assert forall j :: j > 0 ==> CrlfAt(s, j) == CrlfAt(s[1..], j - 1);
      if at.None? then None else Some(at.value + 1)
  }

  /** Nil, boolean and double objects refuse a push as their parent. */
  function Link(inPush: bool, reply: Reply, size: nat): Item {
    if inPush && (reply.Nil? || reply.Bool? || reply.Double?) then Fault(Unlinkable) else Whole(reply, size)
  }

  function LineItem(cfg: Config, ty: Type, inPush: bool, s: string): Item {
    match FindCrlf(s)
    case None => More
    case Some(n) =>
      var line := s[..n];
      match ty
      case IntegerType =>
        (match ParseLL(line)
         case None => Fault(BadInteger)
         case Some(v) => Whole(Integer(v), n + 2))
      case DoubleType =>
        if n >= 326 then Fault(DoubleTooLarge)
        else if !cfg.isDouble(line) then Fault(BadDouble)
        else Link(inPush, Double(line), n + 2)
      case NilType => Link(inPush, Nil, n + 2)
      case BoolType => Link(inPush, Bool(s[0] == 't' || s[0] == 'T'), n + 2)
      case _ => Whole(Text(ty, line), n + 2)
  }

  function BulkItem(ty: Type, inPush: bool, s: string): Item {
    match FindCrlf(s)
    case None => More
    case Some(n) =>
      match ParseLL(s[..n])
      case None => Fault(BadBulkLength)
      case Some(len) =>
        if len < -1 then Fault(BulkLengthRange)
        else if len == -1 then Link(inPush, Nil, n + 2)
        else if |s| < n + 2 + len + 2 then More
        else
          var payload := s[n + 2..n + 2 + len];
          if ty.VerbType? then
            if len < 4 || payload[3] != ':' then Fault(BadVerbatim)
            else Whole(Verbatim(payload[..3], payload[4..]), n + 2 + len + 2)
          else Whole(Text(ty, payload), n + 2 + len + 2)
  }

  function AggregateItem(cfg: Config, ty: Type, inPush: bool, s: string): Item {
    match FindCrlf(s)
    case None => More
    case Some(n) =>
      match ParseLL(s[..n])
      case None => Fault(BadCount)
      case Some(k) =>
        if k < -1 || (cfg.maxElements > 0 && k > cfg.maxElements) then Fault(CountRange)
        else if k == -1 then Link(inPush, Nil, n + 2)
        else if k == 0 then Whole(Aggregate(ty, []), n + 2)
        else Header(if ty.MapType? then 2 * k else k, n + 2)
  }

  /** What the bytes after a type byte start with. */
  function ReadItem(cfg: Config, ty: Type, inPush: bool, s: string): (item: Item)
    ensures item.Whole? || item.Header? ==> 0 < item.size <= |s|
    ensures item.Header? ==> item.count > 0 && ty.Aggregate()
  {
    if ty.Aggregate() then AggregateItem(cfg, ty, inPush, s)
    else if ty.StringType? || ty.VerbType? then BulkItem(ty, inPush, s)
    else LineItem(cfg, ty, inPush, s)
  }

  /** One reply, by recursive descent, its type byte already read. */
  function ParseTyped(cfg: Config, ty: Type, inPush: bool, s: string): (out: Outcome)
    ensures out.Done? ==> |out.rest| < |s|
    decreases |s|, 0
  {
    match ReadItem(cfg, ty, inPush, s)
    case More => Incomplete
    case Fault(fault) => Bad(fault)
    case Whole(reply, size) => Done(reply, s[size..])
    case Header(count, size) =>
      match ParseMany(cfg, count, ty.PushType?, s[size..])
      case ManyIncomplete => Incomplete
      case ManyBad(fault) => Bad(fault)
      case ManyDone(replies, rest) => Done(Aggregate(ty, replies), rest)
  }

  /** One reply, by recursive descent. */
  function ParseReply(cfg: Config, inPush: bool, s: string): (out: Outcome)
    ensures out.Done? ==> |out.rest| < |s|
    decreases |s|, 1
  {
    if s == "" then Incomplete
    else match TypeOf(s[0])
    case None => Bad(UnknownType(s[0]))
    case Some(ty) => ParseTyped(cfg, ty, inPush, s[1..])
  }

  /** `count` replies in a row. */
  function ParseMany(cfg: Config, count: nat, inPush: bool, s: string): (out: ManyOutcome)
    ensures out.ManyDone? ==> |out.rest| <= |s| && |out.replies| == count
    decreases |s|, 2, count
  {
    if count == 0 then ManyDone([], s)
    else match ParseReply(cfg, inPush, s)
    case Incomplete => ManyIncomplete
    case Bad(fault) => ManyBad(fault)
    case Done(reply, rest) =>
      match ParseMany(cfg, count - 1, inPush, rest)
      case ManyIncomplete => ManyIncomplete
      case ManyBad(fault) => ManyBad(fault)
      case ManyDone(replies, rest') => ManyDone([reply] + replies, rest')
  }

  /** Everything a stream says: its replies, the protocol error that ends it if there is one,
      and the bytes of an unfinished reply. */
  datatype Reading = Reading(replies: seq<Reply>, fault: Option<Fault>, unfinished: string)
  {
    function After(earlier: seq<Reply>): Reading { this.(replies := earlier + replies) }
  }

  function ParseAll(cfg: Config, s: string): Reading
    decreases |s|
  {
    match ParseReply(cfg, false, s)
    case Incomplete => Reading([], None, s)
    case Bad(fault) => Reading([], Some(fault), "")
    case Done(reply, rest) => ParseAll(cfg, rest).After([reply])
  }

  lemma FindCrlfExtends(s: string, more: string)
    requires FindCrlf(s).Some?
    ensures FindCrlf(s + more) == FindCrlf(s)
  {
    var n, m := FindCrlf(s), FindCrlf(s + more);
    assert CrlfAt(s + more, n.value);
    if m.value < n.value { assert CrlfAt(s, m.value); }
  }

  lemma LineItemExtends(cfg: Config, ty: Type, inPush: bool, s: string, more: string)
    requires LineItem(cfg, ty, inPush, s) != More
    ensures LineItem(cfg, ty, inPush, s + more) == LineItem(cfg, ty, inPush, s)
  {
    FindCrlfExtends(s, more);
    var n := FindCrlf(s).value;
    assert (s + more)[..n] == s[..n] && (s + more)[0] == s[0];
  }

  lemma BulkItemExtends(ty: Type, inPush: bool, s: string, more: string)
    requires BulkItem(ty, inPush, s) != More
    ensures BulkItem(ty, inPush, s + more) == BulkItem(ty, inPush, s)
  {
    FindCrlfExtends(s, more);
    var n := FindCrlf(s).value;
    assert (s + more)[..n] == s[..n];
    var len := ParseLL(s[..n]);
    if len.Some? && len.value >= 0 {
      assert (s + more)[n + 2..n + 2 + len.value] == s[n + 2..n + 2 + len.value];
    }
  }

  lemma AggregateItemExtends(cfg: Config, ty: Type, inPush: bool, s: string, more: string)
    requires AggregateItem(cfg, ty, inPush, s) != More
    ensures AggregateItem(cfg, ty, inPush, s + more) == AggregateItem(cfg, ty, inPush, s)
  {
    FindCrlfExtends(s, more);
    var n := FindCrlf(s).value;
    assert (s + more)[..n] == s[..n];
  }

  /** An item that does not wait for more bytes is the same whatever bytes follow. */
  lemma ReadItemExtends(cfg: Config, ty: Type, inPush: bool, s: string, more: string)
    requires ReadItem(cfg, ty, inPush, s) != More
    ensures ReadItem(cfg, ty, inPush, s + more) == ReadItem(cfg, ty, inPush, s)
  {
    if ty.Aggregate() {
      AggregateItemExtends(cfg, ty, inPush, s, more);
    } else if ty.StringType? || ty.VerbType? {
      BulkItemExtends(ty, inPush, s, more);
    } else {
      LineItemExtends(cfg, ty, inPush, s, more);
    }
  }
}
