/** What the parser of arguments makes of every kind of word: bare ones, quoted ones, and bare ones that
    end in a quoted part; and so that it undoes the printer. */
module SdsWords {
  import opened Wrappers
  import opened Sds

  // ----- characters -----

  /** The digits of both readings. */
  lemma HexDigits(n: nat)
    requires n < 16
    ensures HexDigit(n) == "0123456789abcdef"[n]
    ensures HexDigitToInt("0123456789abcdef"[n]) == n == HexDigitToInt("0123456789ABCDEF"[n])
    ensures IsHexDigit("0123456789abcdef"[n]) && IsHexDigit("0123456789ABCDEF"[n])
  {
  }

  /** A printed byte: quotes and backslashes with a backslash in front, and what is printable as itself. */
  lemma ReprPrintable(c: byte)
    ensures c in {'"', '\\'} ==> Repr([c]) == ['"', '\\', c, '"']
    ensures 32 <= c as int < 127 && c !in {'"', '\\'} ==> Repr([c]) == ['"', c, '"']
  {
    hide Repr;
    ReprOne(c);
  }

  /** Five controls are printed as letters. */
  lemma ReprLetters()
    ensures Repr(['\n']) == ['"', '\\', 'n', '"'] && Repr(['\r']) == ['"', '\\', 'r', '"']
    ensures Repr(['\t']) == ['"', '\\', 't', '"']
    ensures Repr([7 as char]) == ['"', '\\', 'a', '"'] && Repr([8 as char]) == ['"', '\\', 'b', '"']
  {
    hide Repr;
    ReprOne('\n');
    ReprOne('\r');
    ReprOne('\t');
    ReprOne(7 as char);
    ReprOne(8 as char);
  }

  /** Anything else is printed by its two hexadecimal digits. */
  lemma ReprHexPair(c: byte)
    requires (c as int < 32 || c as int >= 127) && c as int !in {7, 8, 9, 10, 13}
    ensures Repr([c]) ==
      ['"', '\\', 'x', "0123456789abcdef"[c as int / 16], "0123456789abcdef"[c as int % 16], '"']
  {
    hide Repr, HexDigit;
    ReprOne(c);
    HexDigits(c as int / 16);
    HexDigits(c as int % 16);
  }

  lemma ReprOne(c: byte)
    ensures Repr([c]) == ['"'] + Escape(c) + ['"']
  {
    assert [c][1..] == [];
    assert Escapes([c]) == Escape(c) + [];
  }

  /** A printed string is its printed bytes one after the other. */
  lemma {:induction false} ReprConcat(a: Bytes, b: Bytes)
    ensures Escapes(a + b) == Escapes(a) + Escapes(b)
  {
    hide Escape;
    if a == [] {
      assert a + b == b;
    } else {
      assert (a + b)[0] == a[0] && (a + b)[1..] == a[1..] + b;
      ReprConcat(a[1..], b);
    }
  }

  predicate IsBlank(c: byte) { c as int in {9, 10, 11, 12, 13, 32} }

  predicate EndsWord(c: byte) { c as int in {9, 10, 13, 32} }

  // ----- words -----

  /** A piece of what stands in double quotes: a byte for itself, a backslash and a letter, or a backslash,
      an x and two hexadecimal digits. */
  datatype Piece = Self(c: byte) | Letter(c: byte) | HexPair(a: byte, b: byte)

  function Spelled(p: Piece): Bytes {
    match p
    case Self(c) => [c]
    case Letter(c) => ['\\', c]
    case HexPair(a, b) => ['\\', 'x', a, b]
  }

  function HexValue(c: byte): nat {
    if '0' <= c <= '9' then c as int - 48
    else if 'a' <= c <= 'f' then c as int - 97 + 10
    else if 'A' <= c <= 'F' then c as int - 65 + 10
    else 0
  }

  function Meaning(p: Piece): byte {
    match p
    case Self(c) => c
    case Letter(c) =>
      if c == 'n' then 10 as char else if c == 'r' then 13 as char else if c == 't' then 9 as char
      else if c == 'b' then 8 as char else if c == 'a' then 7 as char else c
    case HexPair(a, b) => if HexValue(a) < 16 && HexValue(b) < 16 then (16 * HexValue(a) + HexValue(b)) as char else NUL
  }

  /** A backslash and an x that no two hexadecimal digits follow are not treated here. */
  predicate PieceOk(p: Piece) {
    match p
    case Self(c) => c !in {'"', '\\', NUL}
    case Letter(c) => c !in {'x', NUL}
    case HexPair(a, b) => IsHexDigit(a) && IsHexDigit(b)
  }

  function SpelledAll(ps: seq<Piece>): Bytes {
    if ps == [] then [] else Spelled(ps[0]) + SpelledAll(ps[1..])
  }

  function Meanings(ps: seq<Piece>): Bytes {
    if ps == [] then [] else [Meaning(ps[0])] + Meanings(ps[1..])
  }

  /** In single quotes only the single quote has a backslash in front. */
  function SingleSpelled(s: Bytes): Bytes {
    if s == [] then [] else (if s[0] == '\'' then ['\\', '\''] else [s[0]]) + SingleSpelled(s[1..])
  }

  /** A word: a bare part, and a part in double or single quotes, if there is one. */
  datatype Word = Bare(bare: Bytes) | Double(bare: Bytes, pieces: seq<Piece>) | Single(bare: Bytes, text: Bytes)

  function Inside(w: Word): Bytes {
    match w
    case Bare(_) => []
    case Double(_, pieces) => ['"'] + SpelledAll(pieces) + ['"']
    case Single(_, text) => ['\''] + SingleSpelled(text) + ['\'']
  }

  function Spell(w: Word): Bytes { w.bare + Inside(w) }

  function Value(w: Word): Bytes {
    match w
    case Bare(bare) => bare
    case Double(bare, pieces) => bare + Meanings(pieces)
    case Single(bare, text) => bare + text
  }

  predicate BareOk(s: Bytes) {
    (forall c :: c in s ==> !EndsWord(c) && c !in {'"', '\'', NUL}) && (s != [] ==> !IsBlank(s[0]))
  }

  predicate InsideOk(w: Word) {
    match w
    case Bare(bare) => bare != []
    case Double(_, pieces) => forall i :: 0 <= i < |pieces| ==> PieceOk(pieces[i])
    case Single(_, text) => NUL !in text && (text != [] ==> text[|text| - 1] != '\\')
  }

  /** The words of the language: bare parts without blanks and quotes; pieces that stand for a byte each; and
      in single quotes no backslash at the end, which would take the closing quote for its own. */
  predicate WordOk(w: Word) { BareOk(w.bare) && InsideOk(w) }

  /** What may stand behind a word: nothing, or a blank; a bare word is not ended by a vertical tab or a
      form feed. */
  predicate MayFollow(w: Word, rest: Bytes) {
    rest != [] ==> if w.Bare? then EndsWord(rest[0]) else IsBlank(rest[0])
  }

  lemma Drop(line: Bytes, p: nat, a: Bytes, b: Bytes)
    requires p <= |line| && line[p..] == a + b
    ensures p + |a| <= |line| && line[p..p + |a|] == a && line[p + |a|..] == b
    ensures forall i :: 0 <= i < |a| ==> line[p + i] == a[i]
  {
    assert line[p..][..|a|] == a && line[p..][|a|..] == b;
    forall i | 0 <= i < |a|
      ensures line[p + i] == a[i]
    {
      assert line[p..p + |a|][i] == a[i];
    }
  }

  lemma {:induction false} ScanBare(line: Bytes, p: nat, s: Bytes, rest: Bytes, current: Bytes)
    requires CString(line) && p <= |line| && line[p..] == s + rest
    requires forall c :: c in s ==> !EndsWord(c) && c !in {'"', '\'', NUL}
    ensures p + |s| <= |line| && line[p + |s|..] == rest
    ensures Scan(line, p, Plain, current) == Scan(line, p + |s|, Plain, current + s)
    decreases |s|
  {
    hide CString;
    Drop(line, p, s, rest);
    if s == [] {
      assert current + s == current;
    } else {
      assert s + rest == [s[0]] + (s[1..] + rest);
      Drop(line, p, [s[0]], s[1..] + rest);
      assert s[0] in s && At(line, p) == s[0] && !EndsPlain(s[0]);
      ScanBare(line, p + 1, s[1..], rest, current + [s[0]]);
      assert current + [s[0]] + s[1..] == current + s;
    }
  }

  /** A bare word ends at a blank, which is read with it, or with the line. */
  lemma BareEnds(line: Bytes, p: nat, rest: Bytes, current: Bytes)
    requires CString(line) && p <= |line| && line[p..] == rest && (rest != [] ==> EndsWord(rest[0]))
    ensures Scan(line, p, Plain, current) == Some((current, if rest == [] then p else p + 1))
  {
    if rest != [] { assert line[p] == rest[0]; }
  }

  lemma ScanPiece(line: Bytes, p: nat, e: Piece, rest: Bytes, current: Bytes)
    requires CString(line) && p <= |line| && line[p..] == Spelled(e) + rest && PieceOk(e)
    ensures p + |Spelled(e)| <= |line| && line[p + |Spelled(e)|..] == rest
    ensures Scan(line, p, Quoted, current) == Scan(line, p + |Spelled(e)|, Quoted, current + [Meaning(e)])
  {
    hide IsHexDigit, HexDigitToInt, HexValue;
    Drop(line, p, Spelled(e), rest);
    assert forall i :: 0 <= i < |Spelled(e)| ==> At(line, p + i) == Spelled(e)[i];
    assert At(line, p) == Spelled(e)[0];
    match e {
      case Self(c) =>
      case Letter(c) => assert At(line, p + 1) == c;
      case HexPair(a, b) =>
        assert At(line, p + 1) == 'x' && At(line, p + 2) == a && At(line, p + 3) == b;
        SameHex(a);
        SameHex(b);
    }
  }

  lemma SameHex(c: byte)
    requires IsHexDigit(c)
    ensures HexDigitToInt(c) == HexValue(c) < 16
  {
  }

  lemma {:induction false} ScanPieces(line: Bytes, p: nat, ps: seq<Piece>, rest: Bytes, current: Bytes)
    requires CString(line) && p <= |line| && line[p..] == SpelledAll(ps) + rest
    requires forall i :: 0 <= i < |ps| ==> PieceOk(ps[i])
    ensures p + |SpelledAll(ps)| <= |line| && line[p + |SpelledAll(ps)|..] == rest
    ensures Scan(line, p, Quoted, current) == Scan(line, p + |SpelledAll(ps)|, Quoted, current + Meanings(ps))
    decreases |ps|
  {
    hide CString, Scan, Spelled, Meaning, PieceOk;
    if ps == [] {
      assert SpelledAll(ps) + rest == rest && current + Meanings(ps) == current;
    } else {
      var behind := SpelledAll(ps[1..]) + rest;
      assert SpelledAll(ps) + rest == Spelled(ps[0]) + behind;
      ScanPiece(line, p, ps[0], behind, current);
      ScanPieces(line, p + |Spelled(ps[0])|, ps[1..], rest, current + [Meaning(ps[0])]);
      assert current + [Meaning(ps[0])] + Meanings(ps[1..]) == current + Meanings(ps);
    }
  }

  lemma {:induction false} ScanSingles(line: Bytes, p: nat, s: Bytes, rest: Bytes, current: Bytes)
    requires CString(line) && p <= |line| && line[p..] == SingleSpelled(s) + rest && NUL !in s
    requires rest != [] && rest[0] == '\'' ==> s == [] || s[|s| - 1] != '\\'
    ensures p + |SingleSpelled(s)| <= |line| && line[p + |SingleSpelled(s)|..] == rest
    ensures Scan(line, p, SingleQuoted, current) == Scan(line, p + |SingleSpelled(s)|, SingleQuoted, current + s)
    decreases |s|
  {
    hide CString, Scan;
    if s == [] {
      assert SingleSpelled(s) + rest == rest && current + s == current;
    } else {
      var n := SingleStep(line, p, s, rest, current);
      ScanSingles(line, p + n, s[1..], rest, current + [s[0]]);
      assert current + [s[0]] + s[1..] == current + s;
    }
  }

  lemma SingleStep(line: Bytes, p: nat, s: Bytes, rest: Bytes, current: Bytes) returns (n: nat)
    requires CString(line) && p <= |line| && s != [] && line[p..] == SingleSpelled(s) + rest && NUL !in s
    requires rest != [] && rest[0] == '\'' ==> s[|s| - 1] != '\\'
    ensures p + n <= |line| && |SingleSpelled(s)| == n + |SingleSpelled(s[1..])|
    ensures line[p + n..] == SingleSpelled(s[1..]) + rest
    ensures Scan(line, p, SingleQuoted, current) == Scan(line, p + n, SingleQuoted, current + [s[0]])
  {
    n := SinglePlace(line, p, s, rest);
    hide SingleSpelled;
    assert s[0] in s;
  }

  lemma SinglePlace(line: Bytes, p: nat, s: Bytes, rest: Bytes) returns (n: nat)
    requires CString(line) && p <= |line| && s != [] && line[p..] == SingleSpelled(s) + rest
    requires rest != [] && rest[0] == '\'' ==> s[|s| - 1] != '\\'
    ensures n == (if s[0] == '\'' then 2 else 1) && p + n <= |line|
    ensures |SingleSpelled(s)| == n + |SingleSpelled(s[1..])| && line[p + n..] == SingleSpelled(s[1..]) + rest
    ensures At(line, p) == if s[0] == '\'' then '\\' else s[0]
    ensures s[0] == '\'' ==> At(line, p + 1) == '\''
    ensures s[0] == '\\' ==> At(line, p + 1) != '\''
  {
    hide CString;
    n := if s[0] == '\'' then 2 else 1;
    var e := if s[0] == '\'' then ['\\', '\''] else [s[0]];
    var behind := SingleSpelled(s[1..]) + rest;
    assert SingleSpelled(s) + rest == e + behind;
    Drop(line, p, e, behind);
    assert At(line, p) == e[0];
    if s[0] == '\\' {
      assert behind == [] || behind[0] != '\'' by {
        if |s| > 1 { assert SingleSpelled(s[1..])[0] != '\''; } else { assert behind == rest; }
      }
      assert At(line, p + 1) == if behind == [] then NUL else behind[0];
    }
  }

  /** A closing quote with nothing or a blank behind it ends the word; with anything else behind it the
      line is refused. */
  lemma QuoteCloses(line: Bytes, p: nat, mode: Mode, rest: Bytes, current: Bytes)
    requires CString(line) && p <= |line| && mode != Plain
    requires line[p..] == [if mode == Quoted then '"' else '\''] + rest
    ensures p + 1 <= |line| && line[p + 1..] == rest
    ensures Scan(line, p, mode, current) ==
      if rest == [] || IsBlank(rest[0]) then Some((current, p + 1)) else None
  {
    var q := if mode == Quoted then '"' else '\'';
    Drop(line, p, [q], rest);
    assert At(line, p) == q;
    if rest != [] { assert line[p + 1] == line[p + 1..][0] == rest[0]; }
  }

  lemma QuoteOpens(line: Bytes, p: nat, q: byte, rest: Bytes, current: Bytes)
    requires CString(line) && p <= |line| && line[p..] == [q] + rest && q in {'"', '\''}
    ensures p + 1 <= |line| && line[p + 1..] == rest
    ensures Scan(line, p, Plain, current) == Scan(line, p + 1, if q == '"' then Quoted else SingleQuoted, current)
  {
    Drop(line, p, [q], rest);
  }

  /** The scan up to the end of a word, or to its closing quote. */
  lemma ScanInside(line: Bytes, p: nat, w: Word, rest: Bytes)
    requires CString(line) && p <= |line| && line[p..] == Spell(w) + rest && WordOk(w) && !w.Bare?
    ensures var q := p + |Spell(w)|;
      q <= |line| && line[q..] == rest &&
      Scan(line, p, Plain, []) == if rest == [] || IsBlank(rest[0]) then Some((Value(w), q)) else None
  {
    hide CString, Scan, Spell, IsBlank, EndsWord, Inner, Value;
    var q, inner := Inner(w).0, Inner(w).1;
    SpellParts(w, rest);
    QuoteIs(w);
    ScanUpTo(line, p, w, [q] + rest);
    var end := p + |w.bare| + 1 + |inner|;
    QuoteCloses(line, end, if w.Double? then Quoted else SingleQuoted, rest, Value(w));
  }

  /** The quote of a quoted word, and what stands between its quotes. */
  ghost function Inner(w: Word): (byte, Bytes)
    requires !w.Bare?
  {
    if w.Double? then ('"', SpelledAll(w.pieces)) else ('\'', SingleSpelled(w.text))
  }

  lemma SpellParts(w: Word, rest: Bytes)
    requires !w.Bare?
    ensures var q, inner := Inner(w).0, Inner(w).1;
      Spell(w) + rest == w.bare + ([q] + (inner + ([q] + rest))) && |Spell(w)| == |w.bare| + 1 + |inner| + 1 &&
      Spell(w)[..|Spell(w)| - 1] == w.bare + ([q] + (inner + []))
  {
    hide SpelledAll, SingleSpelled;
    var q, inner := Inner(w).0, Inner(w).1;
    var r: Bytes := [q] + inner + [q];
    assert Spell(w) == w.bare + r;
    assert r + rest == [q] + (inner + ([q] + rest));
    assert w.bare + r + rest == w.bare + (r + rest);
    assert Spell(w)[..|Spell(w)| - 1] == w.bare + [q] + inner;
  }

  /** The scan up to the closing quote, or to where it should be. */
  lemma ScanUpTo(line: Bytes, p: nat, w: Word, rest: Bytes)
    requires CString(line) && p <= |line| && WordOk(w) && !w.Bare?
    requires line[p..] == w.bare + ([Inner(w).0] + (Inner(w).1 + rest))
    ensures var end := p + |w.bare| + 1 + |Inner(w).1|;
      end <= |line| && line[end..] == rest &&
      Scan(line, p, Plain, []) == Scan(line, end, if w.Double? then Quoted else SingleQuoted, Value(w))
  {
    hide CString, Scan, SpelledAll, SingleSpelled, Meanings, PieceOk, EndsWord, BareOk;
    var start := p + |w.bare| + 1;
    ScanToQuote(line, p, w, Inner(w).1 + rest);
    if w.Double? {
      ScanPieces(line, start, w.pieces, rest, w.bare);
    } else {
      ScanSingles(line, start, w.text, rest, w.bare);
    }
  }

  lemma ScanToQuote(line: Bytes, p: nat, w: Word, rest: Bytes)
    requires CString(line) && p <= |line| && BareOk(w.bare) && !w.Bare? && line[p..] == w.bare + ([Inner(w).0] + rest)
    ensures var start := p + |w.bare| + 1;
      start <= |line| && line[start..] == rest &&
      Scan(line, p, Plain, []) == Scan(line, start, if w.Double? then Quoted else SingleQuoted, w.bare)
  {
    hide CString, Scan, EndsWord, Inner;
    QuoteIs(w);
    var q := Inner(w).0;
    ScanBare(line, p, w.bare, [q] + rest, []);
    assert [] + w.bare == w.bare;
    QuoteOpens(line, p + |w.bare|, q, rest, w.bare);
  }

  /** A word is one token. */
  lemma ScanWord(line: Bytes, p: nat, w: Word, rest: Bytes) returns (q: nat)
    requires CString(line) && p <= |line| && line[p..] == Spell(w) + rest && WordOk(w) && MayFollow(w, rest)
    ensures p + |Spell(w)| <= q <= |line| && q <= p + |Spell(w)| + 1 && line[p + |Spell(w)|..] == rest
    ensures q == p + |Spell(w)| || (rest != [] && IsBlank(rest[0]))
    ensures Scan(line, p, Plain, []) == Some((Value(w), q))
  {
    hide CString, Scan;
    if w.Bare? {
      assert Spell(w) + rest == w.bare + rest && |Spell(w)| == |w.bare|;
      ScanBare(line, p, w.bare, rest, []);
      assert [] + w.bare == w.bare;
      BareEnds(line, p + |w.bare|, rest, w.bare);
      q := if rest == [] then p + |w.bare| else p + |w.bare| + 1;
      assert rest != [] ==> |line[p + |w.bare|..]| > 0;
    } else {
      ScanInside(line, p, w, rest);
      q := p + |Spell(w)|;
    }
  }

  // ----- lines of words -----

  ghost predicate Blank(gap: Bytes) { forall c :: c in gap ==> IsBlank(c) }

  /** Words with blanks behind each. */
  ghost function Laid(words: seq<Word>, gaps: seq<Bytes>): Bytes
    requires |gaps| == |words|
  {
    if words == [] then [] else Spell(words[0]) + gaps[0] + Laid(words[1..], gaps[1..])
  }

  function Values(words: seq<Word>): seq<Bytes> {
    if words == [] then [] else [Value(words[0])] + Values(words[1..])
  }

  lemma {:induction false} SkipGap(line: Bytes, p: nat, gap: Bytes, rest: Bytes)
    requires p <= |line| && line[p..] == gap + rest && Blank(gap)
    ensures p + |gap| <= |line| && line[p + |gap|..] == rest
    ensures SkipBlanks(line, p) == SkipBlanks(line, p + |gap|)
    decreases |gap|
  {
    Drop(line, p, gap, rest);
    if gap != [] {
      assert gap + rest == [gap[0]] + (gap[1..] + rest);
      Drop(line, p, [gap[0]], gap[1..] + rest);
      assert gap[0] in gap && line[p] == gap[0];
      SkipGap(line, p + 1, gap[1..], rest);
    }
  }

  lemma SameArgs(line: Bytes, p: nat, q: nat)
    requires CString(line) && p <= |line| && q <= |line| && SkipBlanks(line, p) == SkipBlanks(line, q)
    ensures Args(line, p) == Args(line, q)
  {
  }

  lemma TokenFirst(line: Bytes, p: nat, a: Bytes, q: nat)
    requires CString(line) && p < |line| && SkipBlanks(line, p) == p && q <= |line|
    requires Scan(line, p, Plain, []) == Some((a, q))
    ensures Args(line, p) == Behind([a], Args(line, q))
  {
  }

  lemma NotBlankFirst(line: Bytes, p: nat, w: Word, rest: Bytes)
    requires p <= |line| && line[p..] == Spell(w) + rest && WordOk(w)
    ensures p < |line| && SkipBlanks(line, p) == p
  {
    assert Spell(w) != [];
    assert line[p] == line[p..][0] == Spell(w)[0];
  }

  /** A word and the blanks behind it are one argument. */
  lemma NextWord(line: Bytes, p: nat, w: Word, gap: Bytes, rest: Bytes) returns (q: nat)
    requires CString(line) && p <= |line| && line[p..] == Spell(w) + (gap + rest)
    requires WordOk(w) && Blank(gap) && MayFollow(w, gap) && (gap == [] ==> rest == [])
    ensures p < q <= |line| && line[q..] == rest && Args(line, p) == Behind([Value(w)], Args(line, q))
  {
    hide CString, Scan, Spell, Value, WordOk, SkipBlanks, Args, Blank;
    var end := p + |Spell(w)|;
    var t := ScanWord(line, p, w, gap + rest);
    NotBlankFirst(line, p, w, gap + rest);
    TokenFirst(line, p, Value(w), t);
    SkipGap(line, end, gap, rest);
    q := end + |gap|;
    if t == end {
      SameArgs(line, t, q);
    } else {
      SkipOne(line, end, gap + rest);
      SameArgs(line, t, q);
    }
    SpellNotEmpty(w);
  }

  lemma SpellNotEmpty(w: Word)
    requires WordOk(w)
    ensures |Spell(w)| > 0
  {
  }

  lemma SkipOne(line: Bytes, p: nat, rest: Bytes)
    requires p <= |line| && line[p..] == rest && rest != [] && IsBlank(rest[0])
    ensures p < |line| && SkipBlanks(line, p) == SkipBlanks(line, p + 1)
  {
    assert line[p] == line[p..][0];
  }

  /** Blanks stand behind the words, and between two words there is one at least. */
  ghost predicate GapsOk(words: seq<Word>, gaps: seq<Bytes>, rest: Bytes)
    requires |gaps| == |words|
  {
    forall i :: 0 <= i < |gaps| ==>
      Blank(gaps[i]) && MayFollow(words[i], gaps[i]) && (gaps[i] == [] ==> i == |gaps| - 1 && rest == [])
  }

  lemma {:induction false} WordsThen(line: Bytes, p: nat, words: seq<Word>, gaps: seq<Bytes>, rest: Bytes)
    returns (q: nat)
    requires CString(line) && p <= |line| && |gaps| == |words| && line[p..] == Laid(words, gaps) + rest
    requires (forall i :: 0 <= i < |words| ==> WordOk(words[i])) && GapsOk(words, gaps, rest)
    ensures p <= q <= |line| && line[q..] == rest && Args(line, p) == Behind(Values(words), Args(line, q))
    decreases |words|
  {
    hide CString, Args, Spell, Value, WordOk, MayFollow, Blank;
    if words == [] {
      assert Laid(words, gaps) + rest == rest;
      BehindNothing(Args(line, p));
      q := p;
    } else {
      var behind := Laid(words[1..], gaps[1..]) + rest;
      assert Laid(words, gaps) + rest == Spell(words[0]) + (gaps[0] + behind);
      assert gaps[0] == [] ==> behind == [] by { if gaps[0] == [] { assert words[1..] == [] && gaps[1..] == []; } }
      var p' := NextWord(line, p, words[0], gaps[0], behind);
      q := WordsThen(line, p', words[1..], gaps[1..], rest);
      BehindTwice([Value(words[0])], Values(words[1..]), Args(line, q));
    }
  }

  lemma BehindTwice(a: seq<Bytes>, b: seq<Bytes>, rest: Option<seq<Bytes>>)
    ensures Behind(a, Behind(b, rest)) == Behind(a + b, rest)
  {
    if rest.Some? { assert a + (b + rest.value) == a + b + rest.value; }
  }

  lemma LineEnds(line: Bytes)
    requires CString(line)
    ensures Args(line, |line|) == Some([])
  {
  }

  /** Every line of words splits into the values of the words, whatever blanks are in front, between and
      behind. */
  lemma SplitWords(line: Bytes, lead: Bytes, words: seq<Word>, gaps: seq<Bytes>)
    requires CString(line) && |gaps| == |words| && Blank(lead) && line == lead + Laid(words, gaps)
    requires (forall i :: 0 <= i < |words| ==> WordOk(words[i])) && GapsOk(words, gaps, [])
    ensures Args(line, 0) == Some(Values(words))
  {
    hide CString, Args, WordOk, GapsOk, Laid, Values, Blank, SkipBlanks;
    assert line[0..] == line;
    SkipGap(line, 0, lead, Laid(words, gaps));
    SameArgs(line, 0, |lead|);
    assert Laid(words, gaps) + [] == Laid(words, gaps);
    var q := WordsThen(line, |lead|, words, gaps, []);
    assert q == |line|;
    LineEnds(line);
    assert Values(words) + [] == Values(words);
  }

  // ----- lines that are refused -----

  lemma TokenRefused(line: Bytes, p: nat)
    requires CString(line) && p < |line| && SkipBlanks(line, p) == p && Scan(line, p, Plain, []) == None
    ensures Args(line, p) == None
  {
  }

  /** A quoted word with something else than a blank behind its closing quote makes the line refused. */
  lemma ClosedTooEarly(line: Bytes, lead: Bytes, words: seq<Word>, gaps: seq<Bytes>, w: Word, rest: Bytes)
    requires CString(line) && |gaps| == |words| && Blank(lead)
    requires line == lead + (Laid(words, gaps) + (Spell(w) + rest))
    requires (forall i :: 0 <= i < |words| ==> WordOk(words[i])) && GapsOk(words, gaps, Spell(w) + rest)
    requires WordOk(w) && !w.Bare? && rest != [] && !IsBlank(rest[0])
    ensures Args(line, 0) == None
  {
    hide CString, Args, WordOk, GapsOk, Laid, Values, Blank, SkipBlanks, Scan, Spell;
    assert line[0..] == line;
    SkipGap(line, 0, lead, Laid(words, gaps) + (Spell(w) + rest));
    SameArgs(line, 0, |lead|);
    var q := WordsThen(line, |lead|, words, gaps, Spell(w) + rest);
    NotBlankFirst(line, q, w, rest);
    ScanInside(line, q, w, rest);
    TokenRefused(line, q);
  }

  /** So does a quote that is never closed. */
  lemma NeverClosed(line: Bytes, lead: Bytes, words: seq<Word>, gaps: seq<Bytes>, w: Word)
    requires CString(line) && |gaps| == |words| && Blank(lead) && WordOk(w) && !w.Bare?
    requires line == lead + (Laid(words, gaps) + Spell(w)[..|Spell(w)| - 1])
    requires (forall i :: 0 <= i < |words| ==> WordOk(words[i])) && GapsOk(words, gaps, Spell(w))
    ensures Args(line, 0) == None
  {
    hide CString, Args, WordOk, GapsOk, Laid, Values, Blank, SkipBlanks, Scan, Spell;
    SpellNotEmpty(w);
    var open := Spell(w)[..|Spell(w)| - 1];
    assert line[0..] == line;
    SkipGap(line, 0, lead, Laid(words, gaps) + open);
    SameArgs(line, 0, |lead|);
    GapsBefore(words, gaps, Spell(w), open, w);
    var q := WordsThen(line, |lead|, words, gaps, open);
    ScanOpen(line, q, w);
    TokenRefused(line, q);
  }

  lemma GapsBefore(words: seq<Word>, gaps: seq<Bytes>, rest: Bytes, rest': Bytes, w: Word)
    requires |gaps| == |words| && GapsOk(words, gaps, rest) && rest == Spell(w) && WordOk(w)
    ensures GapsOk(words, gaps, rest')
  {
    assert rest != [];
  }

  lemma ScanOpen(line: Bytes, p: nat, w: Word)
    requires CString(line) && p <= |line| && WordOk(w) && !w.Bare? && line[p..] == Spell(w)[..|Spell(w)| - 1]
    ensures p < |line| && SkipBlanks(line, p) == p && Scan(line, p, Plain, []) == None
  {
    hide CString, Scan, Spell, EndsWord, Inner, Value;
    var q, inner := Inner(w).0, Inner(w).1;
    SpellParts(w, []);
    QuoteIs(w);
    FirstOfWord(line, p, w, [q] + (inner + []));
    ScanUpTo(line, p, w, []);
    AtTheEnd(line, p + |w.bare| + 1 + |inner|, if w.Double? then Quoted else SingleQuoted, Value(w));
  }

  lemma QuoteIs(w: Word)
    requires !w.Bare?
    ensures Inner(w).0 == if w.Double? then '"' else '\''
  {
  }

  lemma FirstOfWord(line: Bytes, p: nat, w: Word, rest: Bytes)
    requires p <= |line| && line[p..] == w.bare + rest && rest != [] && rest[0] in {'"', '\''} && WordOk(w)
    ensures p < |line| && SkipBlanks(line, p) == p
  {
    assert line[p] == line[p..][0] == (w.bare + rest)[0];
  }

  lemma AtTheEnd(line: Bytes, p: nat, mode: Mode, current: Bytes)
    requires CString(line) && p <= |line| && line[p..] == [] && mode != Plain
    ensures Scan(line, p, mode, current) == None
  {
    assert p == |line|;
  }

  // ----- the parser undoes the printer -----

  function PieceOf(c: byte): Piece {
    if c == '\\' || c == '"' then Letter(c)
    else if c == '\n' then Letter('n')
    else if c == '\r' then Letter('r')
    else if c == '\t' then Letter('t')
    else if c == BELL then Letter('a')
    else if c == BACKSPACE then Letter('b')
    else if IsPrint(c) then Self(c)
    else HexPair(HexDigit(c as int / 16), HexDigit(c as int % 16))
  }

  function Pieces(s: Bytes): (ps: seq<Piece>)
    ensures |ps| == |s|
  {
    if s == [] then [] else [PieceOf(s[0])] + Pieces(s[1..])
  }

  lemma PieceRight(c: byte)
    ensures PieceOk(PieceOf(c)) && Spelled(PieceOf(c)) == Escape(c) && Meaning(PieceOf(c)) == c
  {
    if PieceOf(c).HexPair? {
      SameHex(HexDigit(c as int / 16));
      SameHex(HexDigit(c as int % 16));
    }
  }

  lemma {:induction false} PiecesRight(s: Bytes)
    ensures SpelledAll(Pieces(s)) == Escapes(s) && Meanings(Pieces(s)) == s
    ensures forall i :: 0 <= i < |s| ==> PieceOk(Pieces(s)[i])
  {
    hide PieceOf, Escape, Spelled, Meaning, PieceOk;
    if s != [] {
      PieceRight(s[0]);
      PiecesRight(s[1..]);
      assert [s[0]] + s[1..] == s;
    }
  }

  /** A printed string is a word of the language, whose value is the string. */
  lemma ReprIsWord(s: Bytes)
    ensures var w := Double([], Pieces(s)); WordOk(w) && Spell(w) == Repr(s) && Value(w) == s
  {
    hide PieceOk;
    PiecesRight(s);
    assert [] + Repr(s) == Repr(s) && [] + s == s;
  }

  function Printed(args: seq<Bytes>): (words: seq<Word>)
    ensures |words| == |args| && forall i :: 0 <= i < |args| ==> words[i] == Double([], Pieces(args[i]))
  {
    seq(|args|, i requires 0 <= i < |args| => Double([], Pieces(args[i])))
  }

  ghost function Spaces(n: nat): (gaps: seq<Bytes>)
    ensures |gaps| == n && forall i :: 0 <= i < n ==> gaps[i] == if i < n - 1 then [' '] else []
  {
    if n == 0 then [] else if n == 1 then [[]] else [[' ']] + Spaces(n - 1)
  }

  /** The printed strings, with a space between. */
  ghost function ReprLine(args: seq<Bytes>): (line: Bytes)
    ensures NUL !in line
  {
    if args == [] then []
    else if |args| == 1 then Repr(args[0])
    else Repr(args[0]) + [' '] + ReprLine(args[1..])
  }

  lemma {:induction false} LaidPrinted(args: seq<Bytes>)
    ensures Laid(Printed(args), Spaces(|args|)) == ReprLine(args) && Values(Printed(args)) == args
    decreases |args|
  {
    hide Spell, Value, Repr;
    if args != [] {
      ReprIsWord(args[0]);
      LaidPrinted(args[1..]);
      assert Printed(args)[1..] == Printed(args[1..]);
      assert Spaces(|args|)[1..] == Spaces(|args| - 1);
      assert [args[0]] + args[1..] == args;
      if |args| == 1 { assert Repr(args[0]) + [] + [] == Repr(args[0]); }
    }
  }

  /** Splitting the printed strings, with a space between, gives back any list of byte strings. */
  lemma SplitUndoesRepr(args: seq<Bytes>)
    ensures CString(ReprLine(args)) && Args(ReprLine(args), 0) == Some(args)
  {
    hide Repr, Laid, Args, Spell, Value;
    LaidPrinted(args);
    forall i | 0 <= i < |args| ensures WordOk(Printed(args)[i]) {
      ReprIsWord(args[i]);
    }
    assert [] + ReprLine(args) == ReprLine(args);
    SplitWords(ReprLine(args), [], Printed(args), Spaces(|args|));
  }

  /** Prints each string quoted, with a space between, and splits the line again. */
  method QuoteAndSplit(args: seq<Bytes>) returns (r: Option<seq<Bytes>>)
    ensures r == Some(args)
  {
    hide Repr, Args, CString;
    var line: Bytes := [];
    var i := 0;
    assert args[0..] == args;
    while i < |args|
      invariant 0 <= i <= |args| && line + ReprLine(args[i..]) == ReprLine(args)
    {
      ghost var rest := ReprLine(args[i + 1..]);
      assert args[i..][1..] == args[i + 1..];
      assert line + (Repr(args[i]) + [' '] + rest) == line + Repr(args[i]) + [' '] + rest;
      line := CatRepr(line, args[i]);
      if i != |args| - 1 { line := line + [' ']; }
      i := i + 1;
    }
    SplitUndoesRepr(args);
    assert line == ReprLine(args);
    r := SplitArgs(line);
  }
}
