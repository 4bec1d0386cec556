/** The string library: a printer that quotes and a parser of quoted arguments, a splitter and a joiner. */
module Sds {
  import opened Wrappers

  // ----- characters, in the C locale -----

  predicate IsSpace(c: byte) { c == ' ' || 9 <= c as int <= 13 }

  predicate IsPrint(c: byte) { 32 <= c as int < 127 }

  predicate IsHexDigit(c: byte) { '0' <= c <= '9' || 'a' <= c <= 'f' || 'A' <= c <= 'F' }

  const BELL: byte := 7 as char
  const BACKSPACE: byte := 8 as char
  const NUL: byte := 0 as char

  /** A digit of the format %02x. */
  function HexDigit(n: nat): (c: byte)
    requires n < 16
    ensures IsHexDigit(c) && HexDigitToInt(c) == n
  {
    if n < 10 then ('0' as int + n) as char else ('a' as int + n - 10) as char
  }

  function HexDigitToInt(c: byte): (n: nat)
    ensures n < 16
  {
    if '0' <= c <= '9' then c as int - '0' as int
    else if 'a' <= c <= 'f' then c as int - 'a' as int + 10
    else if 'A' <= c <= 'F' then c as int - 'A' as int + 10
    else 0
  }

  // ----- the printer -----

  function Escape(c: byte): (e: Bytes)
    ensures e != [] && NUL !in e
  {
    if c == '\\' || c == '"' then ['\\', c]
    else if c == '\n' then ['\\', 'n']
    else if c == '\r' then ['\\', 'r']
    else if c == '\t' then ['\\', 't']
    else if c == BELL then ['\\', 'a']
    else if c == BACKSPACE then ['\\', 'b']
    else if IsPrint(c) then [c]
    else ['\\', 'x', HexDigit(c as int / 16), HexDigit(c as int % 16)]
  }

  function Escapes(s: Bytes): (e: Bytes)
    ensures NUL !in e
  {
    if s == [] then [] else Escape(s[0]) + Escapes(s[1..])
  }

  function Repr(s: Bytes): (e: Bytes)
    ensures NUL !in e
  {
    ['"'] + Escapes(s) + ['"']
  }

  method CatRepr(s: Bytes, p: Bytes) returns (r: Bytes)
    ensures r == s + Repr(p)
  {
    hide Escape;
    r := s + ['"'];
    var i := 0;
    while i < |p|
      invariant 0 <= i <= |p| && r + Escapes(p[i..]) == s + ['"'] + Escapes(p)
    {
      assert p[i..][1..] == p[i + 1..];
      assert r + (Escape(p[i]) + Escapes(p[i + 1..])) == (r + Escape(p[i])) + Escapes(p[i + 1..]);
      r := CatEscape(r, p[i]);
      i := i + 1;
    }
    assert r + Escapes(p[i..]) == r;
    r := r + ['"'];
  }

  method CatEscape(s: Bytes, c: byte) returns (r: Bytes)
    ensures r == s + Escape(c)
  {
    match c {
      case '\\' => r := s + ['\\', c];
      case '"' => r := s + ['\\', c];
      case '\n' => r := s + ['\\', 'n'];
      case '\r' => r := s + ['\\', 'r'];
      case '\t' => r := s + ['\\', 't'];
      case _ =>
        if c == BELL {
          r := s + ['\\', 'a'];
        } else if c == BACKSPACE {
          r := s + ['\\', 'b'];
        } else if IsPrint(c) {
          r := s + [c];
        } else {
          r := s + ['\\', 'x', HexDigit(c as int / 16), HexDigit(c as int % 16)];
        }
    }
  }

  // ----- the parser -----

  datatype Mode = Plain | Quoted | SingleQuoted

  /** A line up to its terminator. */
  ghost predicate CString(line: Bytes) { NUL !in line }

  /** The character at `p`; reading past the terminator is not allowed. */
  function At(line: Bytes, p: nat): (c: byte)
    requires p <= |line|
  {
    if p < |line| then line[p] else NUL
  }

  predicate EndsPlain(c: byte) { c == ' ' || c == '\n' || c == '\r' || c == '\t' || c == NUL }

  predicate IsHexEscape(line: Bytes, p: nat)
    requires CString(line) && p <= |line|
  {
    At(line, p) == '\\' && At(line, p + 1) == 'x' && IsHexDigit(At(line, p + 2)) && IsHexDigit(At(line, p + 3))
  }

  function Unescape(c: byte): byte {
    if c == 'n' then '\n' else if c == 'r' then '\r' else if c == 't' then '\t'
    else if c == 'b' then BACKSPACE else if c == 'a' then BELL else c
  }

  predicate MayFollowQuote(c: byte) { c == NUL || IsSpace(c) }

  /** The token that goes on at `p`, of which `current` has been read, and the position behind it;
      none if a quote is not closed or its end is not followed by a space. */
  function Scan(line: Bytes, p: nat, mode: Mode, current: Bytes): (r: Option<(Bytes, nat)>)
    requires CString(line) && p <= |line|
    ensures r.Some? ==> p <= r.value.1 <= |line| && (p < |line| ==> p < r.value.1)
    decreases |line| - p
  {
    var c := At(line, p);
    match mode
    case Plain =>
      if EndsPlain(c) then Some((current, if c == NUL then p else p + 1))
      else Scan(line, p + 1, if c == '"' then Quoted else if c == '\'' then SingleQuoted else Plain,
        if c == '"' || c == '\'' then current else current + [c])
    case Quoted =>
      if c == NUL then None
      else if IsHexEscape(line, p) then
        var b := 16 * HexDigitToInt(At(line, p + 2)) + HexDigitToInt(At(line, p + 3));
        Scan(line, p + 4, Quoted, current + [b as char])
      else if c == '\\' && At(line, p + 1) != NUL then
        Scan(line, p + 2, Quoted, current + [Unescape(At(line, p + 1))])
      else if c == '"' then if MayFollowQuote(At(line, p + 1)) then Some((current, p + 1)) else None
      else Scan(line, p + 1, Quoted, current + [c])
    case SingleQuoted =>
      if c == NUL then None
      else if c == '\\' && At(line, p + 1) == '\'' then Scan(line, p + 2, SingleQuoted, current + ['\''])
      else if c == '\'' then if MayFollowQuote(At(line, p + 1)) then Some((current, p + 1)) else None
      else Scan(line, p + 1, SingleQuoted, current + [c])
  }

  function SkipBlanks(line: Bytes, p: nat): (q: nat)
    requires p <= |line|
    ensures p <= q <= |line| && (q < |line| ==> !IsSpace(line[q]))
    decreases |line| - p
  {
    if p < |line| && IsSpace(line[p]) then SkipBlanks(line, p + 1) else p
  }

  /** The arguments from position `p` on. */
  function Args(line: Bytes, p: nat): (r: Option<seq<Bytes>>)
    requires CString(line) && p <= |line|
    decreases |line| - p
  {
    var q := SkipBlanks(line, p);
    if q == |line| then Some([]) else
    var token := Scan(line, q, Plain, []);
    if token.None? then None else
    var rest := Args(line, token.value.1);
    if rest.None? then None else Some([token.value.0] + rest.value)
  }

  /** What is read behind `vector`. */
  ghost function Behind(vector: seq<Bytes>, rest: Option<seq<Bytes>>): Option<seq<Bytes>> {
    if rest.None? then None else Some(vector + rest.value)
  }

  /** Splits a line into arguments; the cursor never moves past the terminator. */
  method SplitArgs(line: Bytes) returns (r: Option<seq<Bytes>>)
    requires CString(line)
    ensures r == Args(line, 0)
  {
    hide Scan, CString, Args, Behind;
    var p: nat := 0;
    var vector: seq<Bytes> := [];
    BehindNothing(Args(line, 0));
    while true
      invariant p <= |line| && Args(line, 0) == Behind(vector, Args(line, p))
      decreases |line| - p
    {
      ghost var start := p;
      while At(line, p) != NUL && IsSpace(At(line, p))
        invariant start <= p <= |line| && SkipBlanks(line, p) == SkipBlanks(line, start)
        decreases |line| - p
      {
        p := p + 1;
      }
      NoNul(line, p);
      ArgsStep(line, start, vector);
      if At(line, p) == NUL { return Some(vector); }
      var token := GetToken(line, p);
      if token.None? { return None; }
      vector, p := vector + [token.value.0], token.value.1;
    }
  }

  lemma BehindNothing(rest: Option<seq<Bytes>>)
    ensures Behind([], rest) == rest
  {
    if rest.Some? { assert [] + rest.value == rest.value; }
  }

  lemma ArgsStep(line: Bytes, start: nat, vector: seq<Bytes>)
    requires CString(line) && start <= |line|
    ensures
      var p, all := SkipBlanks(line, start), Behind(vector, Args(line, start));
      if p == |line| then all == Some(vector) else
      var token := Scan(line, p, Plain, []);
      all == if token.None? then None else Behind(vector + [token.value.0], Args(line, token.value.1))
  {
    hide Scan;
    var p := SkipBlanks(line, start);
    if p < |line| {
      var token := Scan(line, p, Plain, []);
      if token.Some? {
        var rest := Args(line, token.value.1);
        if rest.Some? {
          assert vector + ([token.value.0] + rest.value) == vector + [token.value.0] + rest.value;
        }
      }
    } else {
      assert vector + [] == vector;
    }
  }

  lemma NoNul(line: Bytes, p: nat)
    requires CString(line) && p <= |line|
    ensures At(line, p) == NUL <==> p == |line|
  {
  }

  /** The loop over the characters of a token, which keeps the kind of quotes it is in by two flags. */
  method GetToken(line: Bytes, start: nat) returns (r: Option<(Bytes, nat)>)
    requires CString(line) && start < |line|
    ensures r == Scan(line, start, Plain, [])
  {
    var p := start;
    var current: Bytes := [];
    var inq, insq, done := false, false, false;
    while !done
      invariant p <= |line| && !(inq && insq)
      invariant Scan(line, start, Plain, []) ==
        if done then Some((current, p))
        else Scan(line, p, if inq then Quoted else if insq then SingleQuoted else Plain, current)
      decreases !done, |line| - p
    {
      if inq {
        if IsHexEscape(line, p) {
          var b := HexDigitToInt(At(line, p + 2)) * 16 + HexDigitToInt(At(line, p + 3));
          current := current + [b as char];
          p := p + 3;
        } else if At(line, p) == '\\' && At(line, p + 1) != NUL {
          p := p + 1;
          current := current + [Unescape(At(line, p))];
        } else if At(line, p) == '"' {
          if At(line, p + 1) != NUL && !IsSpace(At(line, p + 1)) { return None; }
          done := true;
        } else if At(line, p) == NUL {
          return None;
        } else {
          current := current + [At(line, p)];
        }
      } else if insq {
        if At(line, p) == '\\' && At(line, p + 1) == '\'' {
          p := p + 1;
          current := current + ['\''];
        } else if At(line, p) == '\'' {
          if At(line, p + 1) != NUL && !IsSpace(At(line, p + 1)) { return None; }
          done := true;
        } else if At(line, p) == NUL {
          return None;
        } else {
          current := current + [At(line, p)];
        }
      } else {
        if EndsPlain(At(line, p)) {
          done := true;
        } else if At(line, p) == '"' {
          inq := true;
        } else if At(line, p) == '\'' {
          insq := true;
        } else {
          current := current + [At(line, p)];
        }
      }
      if At(line, p) != NUL { p := p + 1; }
    }
    return Some((current, p));
  }
}
