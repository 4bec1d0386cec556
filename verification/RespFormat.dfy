/** The command formatters of hiredis, and what the reader makes of their output. */
module RespFormat {
  import opened Wrappers
  import opened Decimal
  import opened RespGrammar
  import opened RespPrinter
  import opened RespReader

  /** One argument on the wire. */
  function Bulk(arg: string): string {
    "$" + Digits(|arg|) + CRLF + arg + CRLF
  }

  function Bulks(args: seq<string>): string {
    if args == [] then "" else Bulks(args[..|args| - 1]) + Bulk(args[|args| - 1])
  }

  /** A command on the wire. */
  function Command(args: seq<string>): string {
    "*" + Digits(|args|) + CRLF + Bulks(args)
  }

  /** The predicted size of an argument on the wire. */
  method BulkLen(len: nat) returns (size: nat)
    ensures forall arg: string :: |arg| == len ==> size == |Bulk(arg)|
  {
    var digits := CountDigits(len);
    return 1 + digits + 2 + len + 2;
  }

  /** The predicted size of a command on the wire. */
  method TotalLength(args: seq<string>) returns (total: nat)
    ensures total == |Command(args)|
  {
    var digits := CountDigits(|args|);
    total := 1 + digits + 2;
    var j := 0;
    while j < |args|
      invariant 0 <= j <= |args|
      invariant total == 1 + |Digits(|args|)| + 2 + |Bulks(args[..j])|
    {
      var size := BulkLen(|args[j]|);
      assert args[..j + 1][..j] == args[..j] && size == |Bulk(args[j])|;
      total := total + size;
      j := j + 1;
    }
    assert args[..j] == args;
  }

  /** Copies `text` into `buf` from `pos` on. */
  method Put(buf: array<char>, pos: nat, text: string) returns (next: nat)
    requires pos + |text| <= buf.Length
    modifies buf
    ensures next == pos + |text| && buf[..next] == old(buf[..pos]) + text
  {
    for i := 0 to |text|
      invariant buf[..pos + i] == old(buf[..pos]) + text[..i]
    {
      buf[pos + i] := text[i];
      assert buf[..pos + i + 1] == buf[..pos + i] + [text[i]];
      assert text[..i + 1] == text[..i] + [text[i]];
    }
    assert text[..|text|] == text;
    next := pos + |text|;
  }

  /** The command up to its `j`-th argument. */
  ghost function Written(args: seq<string>, j: nat): string
    requires j <= |args|
  {
    "*" + Digits(|args|) + CRLF + Bulks(args[..j])
  }

  lemma WrittenGrows(args: seq<string>, j: nat)
    requires j <= |args|
    ensures |Written(args, j)| <= |Command(args)| && (j == |args| ==> Written(args, j) == Command(args))
    ensures j < |args| ==>
      Written(args, j + 1) == Written(args, j) + ("$" + Digits(|args[j]|) + CRLF) + args[j] + CRLF
  {
    hide Digits;
    BulksGrow(args, j);
    assert j == |args| ==> args[..j] == args;
  }

  /** Formats into a buffer allocated for the predicted size: the prediction is exact, and the
      buffer holds the command and a terminating NUL. */
  method FormatCommandArgv(args: seq<string>) returns (cmd: array<char>, total: nat)
    ensures fresh(cmd) && cmd.Length == total + 1
    ensures total == |Command(args)| && cmd[..total] == Command(args) && cmd[total] == '\0'
  {
    hide Digits, Written, Command;
    total := TotalLength(args);
    cmd := new char[total + 1];
    WrittenNothing(args);
    WrittenGrows(args, 0);
    assert cmd[..0] == "";
    var pos: nat := Put(cmd, 0, "*" + Digits(|args|) + CRLF);
    var j := 0;
    while j < |args|
      invariant 0 <= j <= |args| && fresh(cmd) && pos <= cmd.Length
      invariant cmd[..pos] == Written(args, j)
    {
      WrittenGrows(args, j);
      WrittenGrows(args, j + 1);
      pos := Put(cmd, pos, "$" + Digits(|args[j]|) + CRLF);
      pos := Put(cmd, pos, args[j]);
      pos := Put(cmd, pos, CRLF);
      j := j + 1;
    }
    WrittenGrows(args, j);
    assert pos == total;
    cmd[pos] := '\0';
  }

  lemma WrittenNothing(args: seq<string>)
    ensures Written(args, 0) == "*" + Digits(|args|) + CRLF
  {
    hide Digits;
    assert args[..0] == [];
  }

  lemma {:induction false} BulksGrow(args: seq<string>, j: nat)
    requires j <= |args|
    ensures |Bulks(args[..j])| <= |Bulks(args)|
    ensures j < |args| ==> Bulks(args[..j + 1]) == Bulks(args[..j]) + Bulk(args[j])
    decreases |args| - j
  {
    if j < |args| {
      assert args[..j + 1][..j] == args[..j];
      BulksGrow(args, j + 1);
    } else {
      assert args[..j] == args;
    }
  }

  /** Formats by appending to a growing string; `%u` prints lengths modulo 2^32. */
  method FormatSdsCommandArgv(args: seq<string>) returns (cmd: string, total: nat)
    requires forall i :: 0 <= i < |args| ==> |args[i]| < 0x1_0000_0000
    ensures cmd == Command(args) && total == |cmd|
  {
    hide Digits, Written, Command;
    total := TotalLength(args);
    cmd := "*" + Digits(|args|) + CRLF;
    WrittenNothing(args);
    var j := 0;
    while j < |args|
      invariant 0 <= j <= |args| && cmd == Written(args, j)
    {
      WrittenGrows(args, j);
      cmd := cmd + ("$" + Digits(|args[j]| % 0x1_0000_0000) + CRLF);
      cmd := cmd + args[j];
      cmd := cmd + CRLF;
      j := j + 1;
    }
    WrittenGrows(args, j);
  }

  /** The reply tree a command should come back as. */
  function AsReply(args: seq<string>): Reply {
    Aggregate(ArrayType, AsReplies(args))
  }

  function AsReplies(args: seq<string>): seq<Reply> {
    seq(|args|, i requires 0 <= i < |args| => Reply.Text(StringType, args[i]))
  }

  /** The sizes that the reader takes: 64-bit lengths, and no more elements than it is configured for. */
  predicate Readable(cfg: Config, args: seq<string>) {
    |args| <= LL_MAX && (cfg.maxElements > 0 ==> |args| <= cfg.maxElements) &&
    forall i :: 0 <= i < |args| ==> |args[i]| <= LL_MAX
  }

  /** A command on the wire is its tree on the wire. */
  lemma {:induction false} BulksPrinted(args: seq<string>)
    ensures Bulks(args) == PrintAll(AsReplies(args))
    decreases |args|
  {
    if args != [] {
      BulksFromFront(args);
      BulksPrinted(args[1..]);
      assert AsReplies(args) == [Reply.Text(StringType, args[0])] + AsReplies(args[1..]);
    }
  }

  lemma {:induction false} BulksFromFront(args: seq<string>)
    requires args != []
    ensures Bulks(args) == Bulk(args[0]) + Bulks(args[1..])
    decreases |args|
  {
    hide Bulk;
    var init := args[..|args| - 1];
    if |args| > 1 {
      var last := Bulk(args[|args| - 1]);
      BulksFromFront(init);
      assert init[1..] == args[1..][..|args| - 2];
      assert Bulks(args[1..]) == Bulks(init[1..]) + last;
      assert Bulk(args[0]) + Bulks(init[1..]) + last == Bulk(args[0]) + (Bulks(init[1..]) + last);
    } else {
      assert init == [] && args[1..] == [];
    }
  }

  /** Formatting then reading is the identity: whatever bytes follow a command, the grammar reads
      one array of strings equal to the arguments and leaves exactly those bytes. */
  lemma FormatThenRead(cfg: Config, args: seq<string>, rest: string)
    requires Readable(cfg, args)
    ensures ParseReply(cfg, false, Command(args) + rest) == Done(AsReply(args), rest)
  {
    hide ParseReply, Digits;
    BulksPrinted(args);
    PrintReads(cfg, false, AsReply(args), rest);
  }

  /** A stream of formatted commands. */
  function Commands(pipeline: seq<seq<string>>): string {
    if pipeline == [] then "" else Command(pipeline[0]) + Commands(pipeline[1..])
  }

  lemma {:induction false} CommandsRead(cfg: Config, pipeline: seq<seq<string>>)
    requires forall i :: 0 <= i < |pipeline| ==> Readable(cfg, pipeline[i])
    ensures ParseAll(cfg, Commands(pipeline)) ==
            Reading(seq(|pipeline|, i requires 0 <= i < |pipeline| => AsReply(pipeline[i])), None, "")
  {
    hide AsReply, Command, Readable, ParseReply;
    if pipeline == [] {
      NothingYet(cfg);
    } else {
      var rest := pipeline[1..];
      FormatThenRead(cfg, pipeline[0], Commands(rest));
      CommandsRead(cfg, rest);
      assert seq(|pipeline|, i requires 0 <= i < |pipeline| => AsReply(pipeline[i])) ==
             [AsReply(pipeline[0])] + seq(|rest|, i requires 0 <= i < |rest| => AsReply(rest[i]));
    }
  }

  /** Commands sent through the reader in pieces of any size come out as they went in: never an
      error, never out of order, and all of them once the reader says that it has no more. */
  method SendAndReceive(cfg: Config, pipeline: seq<seq<string>>, calls: seq<Call>)
    returns (replies: seq<Reply>, last: Option<Answer>)
    requires forall i :: 0 <= i < |pipeline| ==> Readable(cfg, pipeline[i])
    requires Fed(calls) == Commands(pipeline)
    ensures |replies| == Handed(cfg, calls) <= |pipeline|
    ensures forall i :: 0 <= i < |replies| ==> replies[i] == AsReply(pipeline[i])
    ensures last.Some? ==> last.value.Ok? && (last.value.reply == None ==> |replies| == |pipeline|)
  {
    hide ParseAll, AsReply, Fed, Commands, Readable;
    CommandsRead(cfg, pipeline);
    replies, last := Drive(cfg, calls);
    assert replies <= seq(|pipeline|, i requires 0 <= i < |pipeline| => AsReply(pipeline[i]));
  }
}
