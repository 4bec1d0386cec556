/** A printer of reply trees, type byte by type byte, and the reader as its inverse: what the protocol's
    bytes mean, what is refused, and that a printed tree without its end is waited for. */
module RespPrinter {
  import opened Wrappers
  import opened Decimal
  import opened RespGrammar
  import opened RespReader

  const CRLF := "\r\n"

  function Counted(first: string, text: string): string {
    first + Digits(|text|) + CRLF + text + CRLF
  }

  /** A reply tree on the wire. */
  function Print(r: Reply): string
    decreases r, 0
  {
    match r
    case Text(ty, text) =>
      (match ty
       case ErrorType => "-" + text + CRLF
       case StatusType => "+" + text + CRLF
       case _ => Counted("$", text))
    case Verbatim(format, text) => Counted("=", format + ":" + text)
    case Integer(value) => ":" + Decimal.Text(value) + CRLF
    case Double(text) => "," + text + CRLF
    case Nil => "_" + CRLF
    case Bool(flag) => (if flag then "#t" else "#f") + CRLF
    case Aggregate(ty, elements) =>
      (match ty
       case MapType => "%" + Digits(|elements| / 2)
       case SetType => "~" + Digits(|elements|)
       case PushType => ">" + Digits(|elements|)
       case _ => "*" + Digits(|elements|))
      + CRLF + PrintAll(elements)
  }

  function PrintAll(rs: seq<Reply>): string
    decreases rs, 1
  {
    if rs == [] then "" else Print(rs[0]) + PrintAll(rs[1..])
  }

  /** The text has no line end in it. */
  predicate OneLine(s: string) { forall i :: 0 <= i < |s| ==> !CrlfAt(s, i) }

  /** The trees of the protocol: simple texts on one line, 64-bit integers and lengths, doubles that the
      reader takes, maps with a value for each key, no more elements than configured; and directly in a
      push neither nil nor booleans nor doubles. */
  predicate WellFormed(cfg: Config, inPush: bool, r: Reply)
    decreases r
  {
    match r
    case Text(ty, text) =>
      ((ty.ErrorType? || ty.StatusType?) && OneLine(text)) || (ty.StringType? && |text| <= LL_MAX)
    case Verbatim(format, text) => |format| == 3 && |text| + 4 <= LL_MAX
    case Integer(value) => LL_MIN <= value <= LL_MAX
    case Double(text) => !inPush && OneLine(text) && |text| < 326 && cfg.isDouble(text)
    case Nil => !inPush
    case Bool(_) => !inPush
    case Aggregate(ty, elements) =>
      ty.Aggregate() && (ty.MapType? ==> |elements| % 2 == 0) &&
      var count := if ty.MapType? then |elements| / 2 else |elements|;
      count <= LL_MAX && (cfg.maxElements > 0 ==> count <= cfg.maxElements) &&
      forall i :: 0 <= i < |elements| ==> WellFormed(cfg, ty.PushType?, elements[i])
  }

  lemma LineReads(line: string, rest: string)
    requires OneLine(line)
    ensures FindCrlf(line + CRLF + rest) == Some(|line|)
    ensures (line + CRLF + rest)[..|line|] == line && (line + CRLF + rest)[|line| + 2..] == rest
  {
    var s := line + CRLF + rest;
    assert CrlfAt(s, |line|);
    forall j | 0 <= j < |line|
      ensures !CrlfAt(s, j)
    {
      assert s[j] == line[j];
      if j < |line| - 1 { assert !CrlfAt(line, j) && s[j + 1] == line[j + 1]; }
    }
  }

  lemma NumberOneLine(v: int)
    ensures OneLine(Decimal.Text(v))
  {
    hide Digits;
    var n := if v < 0 then -v else v;
    assert AllDigits(Digits(n));
  }

  lemma IntegerReads(v: int, rest: string)
    requires LL_MIN <= v <= LL_MAX
    ensures var s := Decimal.Text(v) + CRLF + rest;
      var n := |Decimal.Text(v)|;
      FindCrlf(s) == Some(n) && s[..n] == Decimal.Text(v) && ParseLL(s[..n]) == Some(v) && s[n + 2..] == rest
  {
    hide ParseLL, FindCrlf, OneLine;
    NumberOneLine(v);
    LineReads(Decimal.Text(v), rest);
    ParseLLMeaning(Decimal.Text(v), v);
  }

  /** A length line. */
  lemma LengthLineReads(n: nat, rest: string)
    requires n <= LL_MAX
    ensures var s := Digits(n) + CRLF + rest;
      FindCrlf(s) == Some(|Digits(n)|) && ParseLL(s[..|Digits(n)|]) == Some(n) && s[|Digits(n)| + 2..] == rest
  {
    hide FindCrlf, ParseLL, Digits;
    IntegerReads(n, rest);
  }

  /** What is read behind a type byte. */
  lemma TypedReads(cfg: Config, inPush: bool, c: char, ty: Type, body: string, reply: Reply, size: nat)
    requires TypeOf(c) == Some(ty) && ReadItem(cfg, ty, inPush, body) == Whole(reply, size)
    ensures ParseReply(cfg, inPush, [c] + body) == Done(reply, body[size..])
  {
    hide ReadItem, TypeOf;
    assert ([c] + body)[1..] == body;
  }

  lemma SimpleReads(cfg: Config, inPush: bool, c: char, ty: Type, line: string, rest: string, reply: Reply)
    requires TypeOf(c) == Some(ty) && !ty.Aggregate() && !ty.StringType? && !ty.VerbType? && OneLine(line)
    requires LineItem(cfg, ty, inPush, line + CRLF + rest) == Whole(reply, |line| + 2)
    ensures ParseReply(cfg, inPush, [c] + line + CRLF + rest) == Done(reply, rest)
  {
    hide LineItem, TypeOf, ParseReply, FindCrlf, OneLine;
    LineReads(line, rest);
    TypedReads(cfg, inPush, c, ty, line + CRLF + rest, reply, |line| + 2);
    assert [c] + line + CRLF + rest == [c] + (line + CRLF + rest);
  }

  lemma BulkReads(cfg: Config, inPush: bool, c: char, ty: Type, text: string, rest: string, reply: Reply)
    requires TypeOf(c) == Some(ty) && |text| <= LL_MAX
    requires (ty.StringType? && reply == Reply.Text(StringType, text)) ||
             (ty.VerbType? && |text| >= 4 && text[3] == ':' && reply == Verbatim(text[..3], text[4..]))
    ensures ParseReply(cfg, inPush, Counted([c], text) + rest) == Done(reply, rest)
  {
    hide ParseLL, Digits, FindCrlf, TypeOf, ParseReply, Counted;
    var body, n := CountedBody([c], text, rest);
    assert ReadItem(cfg, ty, inPush, body) == Whole(reply, n + 2 + |text| + 2);
    TypedReads(cfg, inPush, c, ty, body, reply, n + 2 + |text| + 2);
  }

  /** Text with its length in front. */
  lemma CountedBody(first: string, text: string, rest: string) returns (body: string, n: nat)
    requires |text| <= LL_MAX
    ensures FindCrlf(body) == Some(n) && n + 2 + |text| + 2 <= |body| && ParseLL(body[..n]) == Some(|text|)
    ensures body[n + 2..n + 2 + |text|] == text && body[n + 2 + |text| + 2..] == rest
    ensures Counted(first, text) + rest == first + body
  {
    hide ParseLL, Digits, FindCrlf;
    n := |Digits(|text|)|;
    var behind := text + CRLF + rest;
    body := Digits(|text|) + CRLF + behind;
    LengthLineReads(|text|, behind);
    InFrontOf(body, n + 2, behind, text, rest);
    assert Counted(first, text) + rest == first + body;
  }

  lemma InFrontOf(body: string, p: nat, behind: string, text: string, rest: string)
    requires p <= |body| && body[p..] == behind == text + CRLF + rest
    ensures p + |text| + 2 <= |body| && body[p..p + |text|] == text && body[p + |text| + 2..] == rest
  {
    assert body[p..p + |text|] == behind[..|text|] && body[p + |text| + 2..] == behind[|text| + 2..];
  }

  lemma HeaderReads(cfg: Config, inPush: bool, c: char, ty: Type, elements: seq<Reply>, rest: string)
    requires TypeOf(c) == Some(ty) && WellFormed(cfg, inPush, Aggregate(ty, elements))
    requires ParseMany(cfg, |elements|, ty.PushType?, PrintAll(elements) + rest) == ManyDone(elements, rest)
    ensures var count := if ty.MapType? then |elements| / 2 else |elements|;
      ParseReply(cfg, inPush, [c] + Digits(count) + CRLF + PrintAll(elements) + rest) ==
        Done(Aggregate(ty, elements), rest)
  {
    hide ParseLL, Digits, FindCrlf, TypeOf, ParseMany, PrintAll;
    var count := if ty.MapType? then |elements| / 2 else |elements|;
    var behind := PrintAll(elements) + rest;
    var body := Digits(count) + CRLF + behind;
    var n := |Digits(count)|;
    LengthLineReads(count, behind);
    assert [c] + Digits(count) + CRLF + PrintAll(elements) + rest == [c] + body;
    assert ([c] + body)[1..] == body;
    if count == 0 {
      NothingPrinted(elements);
      assert behind == rest;
      assert ReadItem(cfg, ty, inPush, body) == Whole(Aggregate(ty, []), n + 2);
    } else {
      assert ReadItem(cfg, ty, inPush, body) == Header(|elements|, n + 2);
    }
  }

  lemma NothingPrinted(rs: seq<Reply>)
    ensures rs == [] ==> PrintAll(rs) == ""
  {
  }

  lemma PrintedLineReads(cfg: Config, inPush: bool, r: Reply, rest: string)
    requires WellFormed(cfg, inPush, r) && (r.Nil? || r.Bool? || r.Double? || r.Integer?)
    ensures ParseReply(cfg, inPush, Print(r) + rest) == Done(r, rest)
  {
    hide ParseReply, Digits, FindCrlf, ParseLL;
    match r {
      case Integer(value) =>
        NumberOneLine(value);
        IntegerReads(value, rest);
        SimpleReads(cfg, inPush, ':', IntegerType, Decimal.Text(value), rest, r);
      case Double(text) =>
        LineReads(text, rest);
        SimpleReads(cfg, inPush, ',', DoubleType, text, rest, r);
      case Nil =>
        LineReads("", rest);
        SimpleReads(cfg, inPush, '_', NilType, "", rest, r);
        assert ['_'] + "" + CRLF + rest == Print(r) + rest;
      case Bool(flag) =>
        var line := if flag then "t" else "f";
        LineReads(line, rest);
        SimpleReads(cfg, inPush, '#', BoolType, line, rest, r);
        assert ['#'] + line + CRLF + rest == Print(r) + rest;
    }
  }

  lemma PrintedTextReads(cfg: Config, inPush: bool, r: Reply, rest: string)
    requires WellFormed(cfg, inPush, r) && (r.Text? || r.Verbatim?)
    ensures ParseReply(cfg, inPush, Print(r) + rest) == Done(r, rest)
  {
    hide ParseReply, Digits, FindCrlf, ParseLL, Counted;
    match r {
      case Text(ty, text) =>
        if ty.ErrorType? {
          LineReads(text, rest);
          SimpleReads(cfg, inPush, '-', ErrorType, text, rest, r);
        } else if ty.StatusType? {
          LineReads(text, rest);
          SimpleReads(cfg, inPush, '+', StatusType, text, rest, r);
        } else {
          BulkReads(cfg, inPush, '$', StringType, text, rest, r);
        }
      case Verbatim(format, text) =>
        var payload := format + ":" + text;
        assert payload[..3] == format && payload[3] == ':' && payload[4..] == text;
        BulkReads(cfg, inPush, '=', VerbType, payload, rest, r);
    }
  }

  /** The round trip of the protocol: whatever bytes follow, a printed tree is read back as it was. */
  lemma {:induction false} PrintReads(cfg: Config, inPush: bool, r: Reply, rest: string)
    requires WellFormed(cfg, inPush, r)
    ensures ParseReply(cfg, inPush, Print(r) + rest) == Done(r, rest)
    decreases r, 0
  {
    hide ParseReply, Digits, ParseMany, PrintAll;
    match r {
      case Text(_, _) => PrintedTextReads(cfg, inPush, r, rest);
      case Verbatim(_, _) => PrintedTextReads(cfg, inPush, r, rest);
      case Aggregate(ty, elements) =>
        PrintAllReads(cfg, ty.PushType?, elements, rest);
        var c := if ty.MapType? then '%' else if ty.SetType? then '~' else if ty.PushType? then '>' else '*';
        HeaderReads(cfg, inPush, c, ty, elements, rest);
      case _ => PrintedLineReads(cfg, inPush, r, rest);
    }
  }

  lemma {:induction false} PrintAllReads(cfg: Config, inPush: bool, rs: seq<Reply>, rest: string)
    requires forall i :: 0 <= i < |rs| ==> WellFormed(cfg, inPush, rs[i])
    ensures ParseMany(cfg, |rs|, inPush, PrintAll(rs) + rest) == ManyDone(rs, rest)
    decreases rs, 1
  {
    hide ParseReply, Print, WellFormed, PrintAll;
    PrintAllParts(rs, rest);
    if rs != [] {
      PrintReads(cfg, inPush, rs[0], PrintAll(rs[1..]) + rest);
      PrintAllReads(cfg, inPush, rs[1..], rest);
    }
  }

  lemma PrintAllParts(rs: seq<Reply>, rest: string)
    ensures rs == [] ==> PrintAll(rs) + rest == rest
    ensures rs != [] ==>
      rs == [rs[0]] + rs[1..] && PrintAll(rs) + rest == Print(rs[0]) + (PrintAll(rs[1..]) + rest)
  {
    hide Print;
  }

  // ----- streams -----

  lemma {:induction false} StreamReads(cfg: Config, rs: seq<Reply>)
    requires forall i :: 0 <= i < |rs| ==> WellFormed(cfg, false, rs[i])
    ensures ParseAll(cfg, PrintAll(rs)) == Reading(rs, None, "")
  {
    hide ParseReply, Print, WellFormed;
    if rs == [] {
      NothingYet(cfg);
    } else {
      PrintReads(cfg, false, rs[0], PrintAll(rs[1..]));
      StreamReads(cfg, rs[1..]);
      assert rs == [rs[0]] + rs[1..];
    }
  }

  /** Printed trees, sent through the reader in pieces of any size, come out as they went in: in order,
      none lost or made up, and all of them once the reader says that it has no more. */
  method PrintAndReceive(cfg: Config, trees: seq<Reply>, calls: seq<Call>)
    returns (replies: seq<Reply>, last: Option<Answer>)
    requires forall i :: 0 <= i < |trees| ==> WellFormed(cfg, false, trees[i])
    requires Fed(calls) == PrintAll(trees)
    ensures replies <= trees && |replies| == Handed(cfg, calls)
    ensures last.Some? ==> last.value.Ok? && (last.value.reply == None ==> replies == trees)
  {
    hide ParseAll, Fed, PrintAll, WellFormed, Handed;
    StreamReads(cfg, trees);
    replies, last := Drive(cfg, calls);
  }

  // ----- the end is waited for -----

  /** A reply, or an error, does not depend on the bytes behind it. */
  lemma {:induction false} ReplyExtends(cfg: Config, inPush: bool, s: string, more: string)
    ensures match ParseReply(cfg, inPush, s)
            case Incomplete => true
            case Bad(fault) => ParseReply(cfg, inPush, s + more) == Bad(fault)
            case Done(r, rest) => ParseReply(cfg, inPush, s + more) == Done(r, rest + more)
    decreases |s|, 1
  {
    hide ReadItem, TypeOf;
    if s != "" && TypeOf(s[0]).Some? {
      var ty, body := TypeOf(s[0]).value, s[1..];
      assert (s + more)[0] == s[0] && (s + more)[1..] == body + more;
      var item := ReadItem(cfg, ty, inPush, body);
      if item != More {
        ReadItemExtends(cfg, ty, inPush, body, more);
        if item.Whole? {
          assert (body + more)[item.size..] == body[item.size..] + more;
        } else if item.Header? {
          assert (body + more)[item.size..] == body[item.size..] + more;
          ManyExtends(cfg, item.count, ty.PushType?, body[item.size..], more);
        }
      }
    } else if s != "" {
      assert (s + more)[0] == s[0];
    }
  }

  lemma {:induction false} ManyExtends(cfg: Config, count: nat, inPush: bool, s: string, more: string)
    ensures match ParseMany(cfg, count, inPush, s)
            case ManyIncomplete => true
            case ManyBad(fault) => ParseMany(cfg, count, inPush, s + more) == ManyBad(fault)
            case ManyDone(rs, rest) => ParseMany(cfg, count, inPush, s + more) == ManyDone(rs, rest + more)
    decreases |s|, 2, count
  {
    hide ParseReply;
    if count > 0 {
      ReplyExtends(cfg, inPush, s, more);
      var first := ParseReply(cfg, inPush, s);
      if first.Done? { ManyExtends(cfg, count - 1, inPush, first.rest, more); }
    }
  }

  /** A printed tree without its end is neither a reply nor an error. */
  lemma PrefixWaits(cfg: Config, r: Reply, n: nat)
    requires WellFormed(cfg, false, r) && n < |Print(r)|
    ensures ParseReply(cfg, false, Print(r)[..n]) == Incomplete
  {
    hide ParseReply, Print, WellFormed;
    var s, more := Print(r)[..n], Print(r)[n..];
    PrintReads(cfg, false, r, "");
    assert s + more == Print(r) + "" && |more| > 0;
    ReplyExtends(cfg, false, s, more);
  }

  // ----- what is refused -----

  /** Twelve bytes begin a reply, and no other does. */
  lemma OtherBytesRefused(cfg: Config, inPush: bool, s: string)
    requires s != ""
    ensures s[0] !in {'-', '+', ':', ',', '_', '#', '$', '=', '*', '%', '~', '>'} ==>
      ParseReply(cfg, inPush, s) == Bad(UnknownType(s[0]))
  {
  }

  ghost predicate NotANumber(line: string) {
    OneLine(line) && forall v :: LL_MIN <= v <= LL_MAX ==> line != Decimal.Text(v)
  }

  lemma NotRead(line: string, rest: string)
    requires NotANumber(line)
    ensures var s := line + CRLF + rest; FindCrlf(s) == Some(|line|) && ParseLL(s[..|line|]) == None
  {
    hide ParseLL, FindCrlf, OneLine;
    LineReads(line, rest);
    if ParseLL(line).Some? { ParseLLMeaning(line, ParseLL(line).value); }
  }

  /** A reply whose first item is an error. */
  lemma ItemRefused(cfg: Config, inPush: bool, c: char, ty: Type, body: string, fault: RespGrammar.Fault)
    requires TypeOf(c) == Some(ty) && ReadItem(cfg, ty, inPush, body) == RespGrammar.Fault(fault)
    ensures ParseReply(cfg, inPush, [c] + body) == Bad(fault)
  {
    hide ReadItem, TypeOf;
    assert ([c] + body)[1..] == body;
  }

  /** Where a number is due, anything but the decimal of a 64-bit integer is refused. */
  lemma NumbersRefused(cfg: Config, inPush: bool, c: char, line: string, rest: string)
    requires NotANumber(line) && c in {':', '$', '=', '*', '%', '~', '>'}
    ensures ParseReply(cfg, inPush, [c] + (line + CRLF + rest)) ==
      Bad(if c == ':' then BadInteger else if c in {'$', '='} then BadBulkLength else BadCount)
  {
    hide ParseReply, FindCrlf, ParseLL, NotANumber;
    NotRead(line, rest);
    var ty := TypeOf(c).value;
    var fault := if c == ':' then BadInteger else if c in {'$', '='} then BadBulkLength else BadCount;
    ItemRefused(cfg, inPush, c, ty, line + CRLF + rest, fault);
  }

  /** A length or count out of range is refused; -1 stands for nil, and a count of 0 for an aggregate
      without elements. */
  lemma OddLengths(cfg: Config, inPush: bool, c: char, ty: Type, v: int, rest: string)
    requires c in {'$', '=', '*', '%', '~', '>'} && TypeOf(c) == Some(ty) && LL_MIN <= v <= LL_MAX
    requires v < 0 || (ty.Aggregate() && (v == 0 || (cfg.maxElements > 0 && v > cfg.maxElements)))
    ensures ParseReply(cfg, inPush, [c] + (Decimal.Text(v) + CRLF + rest)) ==
      if v == -1 then if inPush then Bad(Unlinkable) else Done(Nil, rest)
      else if v == 0 then Done(Aggregate(ty, []), rest)
      else Bad(if ty.Aggregate() then CountRange else BulkLengthRange)
  {
    hide ParseReply, FindCrlf, ParseLL, OneLine, Digits;
    var body := Decimal.Text(v) + CRLF + rest;
    var n := |Decimal.Text(v)|;
    IntegerReads(v, rest);
    if v == -1 && !inPush {
      TypedReads(cfg, inPush, c, ty, body, Nil, n + 2);
    } else if v == 0 {
      TypedReads(cfg, inPush, c, ty, body, Aggregate(ty, []), n + 2);
    } else {
      var fault := if v == -1 then Unlinkable else if ty.Aggregate() then CountRange else BulkLengthRange;
      ItemRefused(cfg, inPush, c, ty, body, fault);
    }
  }

  /** A double that is too long or no number to the C library is refused. */
  lemma DoublesRefused(cfg: Config, inPush: bool, line: string, rest: string)
    requires OneLine(line) && (|line| >= 326 || !cfg.isDouble(line))
    ensures ParseReply(cfg, inPush, "," + (line + CRLF + rest)) ==
      Bad(if |line| >= 326 then DoubleTooLarge else BadDouble)
  {
    hide ParseReply, FindCrlf, OneLine;
    LineReads(line, rest);
    ItemRefused(cfg, inPush, ',', DoubleType, line + CRLF + rest, if |line| >= 326 then DoubleTooLarge else BadDouble);
  }

  /** A verbatim string without its format in front is refused. */
  lemma VerbatimRefused(cfg: Config, inPush: bool, text: string, rest: string)
    requires |text| <= LL_MAX && (|text| < 4 || text[3] != ':')
    ensures ParseReply(cfg, inPush, Counted("=", text) + rest) == Bad(BadVerbatim)
  {
    hide ParseReply, FindCrlf, ParseLL, Digits, Counted;
    var body, n := CountedBody("=", text, rest);
    ItemRefused(cfg, inPush, '=', VerbType, body, BadVerbatim);
  }

  /** Nil, booleans and doubles are refused directly in a push. */
  lemma PushRefuses(cfg: Config, r: Reply, rest: string)
    requires WellFormed(cfg, false, r) && (r.Nil? || r.Bool? || r.Double?)
    ensures ParseReply(cfg, true, Print(r) + rest) == Bad(Unlinkable)
  {
    hide ParseReply, FindCrlf;
    var line := if r.Nil? then "" else if r.Double? then r.text else if r.flag then "t" else "f";
    var c := if r.Nil? then '_' else if r.Double? then ',' else '#';
    LineReads(line, rest);
    ItemRefused(cfg, true, c, TypeOf(c).value, line + CRLF + rest, Unlinkable);
    assert Print(r) + rest == [c] + (line + CRLF + rest);
  }
}
