/** Decimal text of integers: the codecs that hiredis and evhtp use on the wire.

    `Text` is the meaning: the canonical decimal numeral of an integer. Each loop of the
    original (a parser that accumulates, a printer that emits digits backwards and then
    reverses the buffer in place, a digit counter) is a method proved against it. */
module Decimal {
  import opened Wrappers

  const LL_MAX := 0x7FFF_FFFF_FFFF_FFFF
  const LL_MIN := -0x8000_0000_0000_0000
  const ULL_MAX := 0xFFFF_FFFF_FFFF_FFFF

  predicate IsDigit(c: char) { '0' <= c <= '9' }

  predicate AllDigits(s: string) { forall i :: 0 <= i < |s| ==> IsDigit(s[i]) }

  function DigitValue(c: char): nat
    requires IsDigit(c)
  {
    c as int - '0' as int
  }

  function DigitChar(d: nat): (c: char)
    requires d < 10
    ensures IsDigit(c) && DigitValue(c) == d
  {
    ('0' as int + d) as char
  }

  /** The ten digits, and what each stands for. */
  lemma TheDigits(d: nat)
    requires d < 10
    ensures DigitChar(d) == "0123456789"[d] && DigitValue("0123456789"[d]) == d
  {
  }

  /** The canonical decimal numeral of a natural number. */
  function Digits(n: nat): (s: string)
    ensures |s| > 0 && AllDigits(s)
  {
    if n < 10 then [DigitChar(n)] else Digits(n / 10) + [DigitChar(n % 10)]
  }

  /** The number a string of digits denotes, leading zeroes allowed. */
  function Value(s: string): nat
    requires AllDigits(s)
  {
    if s == "" then 0 else 10 * Value(s[..|s| - 1]) + DigitValue(s[|s| - 1])
  }

  /** The canonical decimal numeral of an integer. */
  function Text(v: int): string {
    if v < 0 then "-" + Digits(-v) else Digits(v)
  }

  predicate Canonical(s: string) {
    s != "" && AllDigits(s) && (s[0] == '0' ==> |s| == 1)
  }

  /** What a strict reader of 64-bit signed integers should make of `s`. */
  function ParseLL(s: string): Option<int> {
    if s != "" && s[0] == '-' then
      if Canonical(s[1..]) && s[1] != '0' && Value(s[1..]) <= -LL_MIN then
        var magnitude: int := Value(s[1..]);
        Some(-magnitude)
      else None
    else
      if Canonical(s) && Value(s) <= LL_MAX then Some(Value(s)) else None
  }

  lemma {:induction false} DigitsDenote(n: nat)
    ensures Canonical(Digits(n)) && Value(Digits(n)) == n
    ensures Digits(n)[0] == '0' <==> n == 0
  {
    if n >= 10 {
      DigitsDenote(n / 10);
      var s := Digits(n);
      assert s[..|s| - 1] == Digits(n / 10);
      assert s[0] == Digits(n / 10)[0];
    } else {
      assert Digits(n)[..0] == "";
    }
  }

  lemma {:induction false} CanonicalIsDigits(s: string)
    requires Canonical(s)
    ensures Digits(Value(s)) == s
  {
    if |s| == 1 {
      assert s[..0] == "";
    } else {
      var t := s[..|s| - 1];
      assert t[0] == s[0];
      CanonicalIsDigits(t);
      NonzeroLead(t);
      assert s == t + [s[|s| - 1]];
    }
  }

  lemma {:induction false} NonzeroLead(s: string)
    requires Canonical(s) && s[0] != '0'
    ensures Value(s) > 0
  {
    if |s| == 1 {
      assert s[..0] == "";
    } else {
      assert s[..|s| - 1][0] == s[0];
      NonzeroLead(s[..|s| - 1]);
    }
  }

  /** `ParseLL` accepts exactly the canonical numerals of the 64-bit range, with the right value. */
  lemma ParseLLMeaning(s: string, v: int)
    ensures ParseLL(s) == Some(v) <==> LL_MIN <= v <= LL_MAX && s == Text(v)
  {
    DigitsDenote(if v < 0 then -v else v);
    if ParseLL(s) == Some(v) {
      if s[0] == '-' {
        NonzeroLead(s[1..]);
        CanonicalIsDigits(s[1..]);
        assert s == "-" + s[1..];
      } else {
        CanonicalIsDigits(s);
      }
    } else if s == Text(v) && v < 0 {
      assert s[1..] == Digits(-v);
    }
  }

  lemma {:induction false} ValuePrefixMonotone(s: string, k: nat)
    requires AllDigits(s) && k <= |s|
    ensures Value(s[..k]) <= Value(s)
  {
    if k == |s| {
      assert s[..k] == s;
    } else {
      ValuePrefixMonotone(s[..|s| - 1], k);
      assert s[..|s| - 1][..k] == s[..k];
    }
  }

  /** Where the digits of a numeral start. */
  function DigitsFrom(s: string): nat {
    if s != "" && s[0] == '-' then 1 else 0
  }

  lemma DigitStep(s: string, start: nat, p: nat)
    requires start <= p < |s| && AllDigits(s[start..p]) && IsDigit(s[p])
    ensures AllDigits(s[start..p + 1])
    ensures Value(s[start..p + 1]) == 10 * Value(s[start..p]) + DigitValue(s[p])
  {
    var next := s[start..p + 1];
    assert next == s[start..p] + [s[p]];
    assert next[..|next| - 1] == s[start..p];
  }

  lemma OneDigit(s: string)
    requires |s| == 1 && IsDigit(s[0])
    ensures AllDigits(s) && Value(s) == DigitValue(s[0])
  {
    assert s[..0] == "";
  }

  lemma OverflowRejects(s: string, p: nat)
    requires DigitsFrom(s) < p <= |s| && AllDigits(s[DigitsFrom(s)..p])
    requires Value(s[DigitsFrom(s)..p]) > ULL_MAX
    ensures ParseLL(s) == None
  {
    var digits := s[DigitsFrom(s)..];
    if AllDigits(digits) {
      assert digits[..p - DigitsFrom(s)] == s[DigitsFrom(s)..p];
      ValuePrefixMonotone(digits, p - DigitsFrom(s));
      assert DigitsFrom(s) == 0 ==> digits == s;
    } else {
      assert DigitsFrom(s) == 0 ==> digits == s;
    }
  }

  lemma StrayRejects(s: string, p: nat)
    requires DigitsFrom(s) <= p < |s| && !IsDigit(s[p])
    ensures ParseLL(s) == None
  {
    assert DigitsFrom(s) == 1 ==> s[1..][p - 1] == s[p];
  }

  lemma AllRead(s: string)
    requires DigitsFrom(s) < |s| && AllDigits(s[DigitsFrom(s)..]) && s[DigitsFrom(s)] != '0'
    ensures var v: int := Value(s[DigitsFrom(s)..]);
      ParseLL(s) == if DigitsFrom(s) == 1 then (if v <= -LL_MIN then Some(-v) else None)
                    else if v <= LL_MAX then Some(v) else None
  {
    assert DigitsFrom(s) == 0 ==> s[DigitsFrom(s)..] == s;
  }

  /** Reads a signed 64-bit integer, unsigned arithmetic guarded against wrap-around as in C. */
  method String2ll(s: string) returns (value: Option<int>)
    ensures value == ParseLL(s)
  {
    hide AllDigits, Value;
    var p, negative := 0, false;
    if |s| == 0 { return None; }
    if |s| == 1 && s[0] == '0' {
      DigitsDenote(0);
      assert Canonical("0") && s == Digits(0);
      return Some(0);
    }
    if s[0] == '-' {
      negative := true;
      p := 1;
      if p == |s| { return None; }
    }
    ghost var start := DigitsFrom(s);
    assert p == start;
    if !('1' <= s[p] <= '9') {
      if !IsDigit(s[p]) { StrayRejects(s, p); }
      return None;
    }
    var v: int := DigitValue(s[p]);
    p := p + 1;
    assert AllDigits(s[start..p]) && Value(s[start..p]) == v by { OneDigit(s[start..p]); }
    while p < |s| && IsDigit(s[p])
      invariant start < p <= |s|
      invariant AllDigits(s[start..p]) && v == Value(s[start..p]) <= ULL_MAX
    {
      DigitStep(s, start, p);
      if v > ULL_MAX / 10 {
        OverflowRejects(s, p + 1);
        return None;
      }
      v := v * 10;
      if v > ULL_MAX - DigitValue(s[p]) {
        OverflowRejects(s, p + 1);
        return None;
      }
      v := v + DigitValue(s[p]);
      p := p + 1;
    }
    if p < |s| {
      StrayRejects(s, p);
      return None;
    }
    assert s[start..p] == s[start..];
    AllRead(s);
    if negative {
      if v > -(LL_MIN + 1) + 1 { return None; }
      return Some(-v);
    }
    if v > LL_MAX { return None; }
    return Some(v);
  }

  /** `s` read backwards. */
  function Reversed(s: string): (r: string)
    ensures |r| == |s| && forall k :: 0 <= k < |s| ==> r[k] == s[|s| - 1 - k]
  {
    if s == "" then "" else [s[|s| - 1]] + Reversed(s[..|s| - 1])
  }

  function Pow10(k: nat): nat {
    if k == 0 then 1 else 10 * Pow10(k - 1)
  }

  /** The number of digits is the least power of ten above the number. */
  lemma {:induction false} DigitsLength(n: nat, k: nat)
    requires k > 0
    ensures n < Pow10(k) <==> |Digits(n)| <= k
  {
    if n >= 10 {
      if k > 1 {
        DigitsLength(n / 10, k - 1);
      } else {
        assert Pow10(1) == 10;
      }
    } else {
      PowersGrow(k);
    }
  }

  lemma {:induction false} PowersGrow(k: nat)
    requires k > 0
    ensures Pow10(k) >= 10
  {
    if k > 1 { PowersGrow(k - 1); }
  }

  /** Reverses `buf[..n]` in place, swapping from both ends. */
  method ReverseInPlace(buf: array<char>, n: nat)
    requires n <= buf.Length
    modifies buf
    ensures buf[..n] == Reversed(old(buf[..n]))
    ensures forall k :: n <= k < buf.Length ==> buf[k] == old(buf[k])
  {
    var s, p := 0, n - 1;
    while s < p
      invariant 0 <= s <= p + 2 && s + p == n - 1
      invariant forall k :: 0 <= k < s || p < k < n ==> buf[k] == old(buf[n - 1 - k])
      invariant forall k :: s <= k <= p ==> buf[k] == old(buf[k])
      invariant forall k :: n <= k < buf.Length ==> buf[k] == old(buf[k])
    {
      buf[s], buf[p] := buf[p], buf[s];
      s := s + 1;
      p := p - 1;
    }
  }

  lemma ReversedAppend(c: char, s: string)
    ensures Reversed([c] + s) == Reversed(s) + [c]
  {
  }

  lemma EmitStep(v: nat, done: string)
    ensures Digits(v) + done == (if v < 10 then [] else Digits(v / 10)) + ([DigitChar(v % 10)] + done)
  {
  }

  /** Emits the digits of `n`, least significant first, into the start of `buf`. */
  method EmitReversed(buf: array<char>, n: nat) returns (p: nat)
    requires |Digits(n)| <= buf.Length
    modifies buf
    ensures p == |Digits(n)| && buf[..p] == Reversed(Digits(n))
    ensures forall k :: p <= k < buf.Length ==> buf[k] == old(buf[k])
  {
    hide Digits, Reversed, DigitChar;
    var v: nat := n;
    p := 0;
    ghost var done := "";
    assert buf[..p] == Reversed(done);
    while true
      invariant Digits(n) == Digits(v) + done
      invariant p == |done| && p + |Digits(v)| == |Digits(n)|
      invariant buf[..p] == Reversed(done)
      invariant forall k :: p <= k < buf.Length ==> buf[k] == old(buf[k])
      decreases v
    {
      var c := DigitChar(v % 10);
      EmitStep(v, done);
      buf[p] := c;
      ReversedAppend(c, done);
      assert buf[..p + 1] == Reversed([c] + done);
      done := [c] + done;
      p := p + 1;
      v := v / 10;
      if v == 0 { return; }
    }
  }

  /** Prints a signed 64-bit integer; the smallest one is excluded, since C cannot negate it. */
  method Sdsll2str(buf: array<char>, value: int) returns (l: nat)
    requires LL_MIN < value <= LL_MAX && buf.Length >= 21
    modifies buf
    ensures l == |Text(value)| && l < buf.Length && buf[..l] == Text(value) && buf[l] == '\0'
    ensures forall k :: l < k < buf.Length ==> buf[k] == old(buf[k])
  {
    hide Digits, Reversed, Pow10, AllDigits;
    var v := if value < 0 then -value else value;
    NineteenDigits();
    DigitsLength(v, 19);
    l := EmitReversed(buf, v);
    ghost var emitted := Digits(v);
    if value < 0 {
      buf[l] := '-';
      l := l + 1;
      emitted := "-" + emitted;
    }
    assert forall k :: 0 <= k < l ==> buf[k] == emitted[l - 1 - k];
    buf[l] := '\0';
    ReverseInPlace(buf, l);
    assert buf[..l] == Text(value);
  }

  lemma NineteenDigits()
    ensures LL_MAX < Pow10(19) < ULL_MAX < Pow10(20)
  {
    assert Pow10(4) == 10_000;
    assert Pow10(8) == 1_0000_0000;
    assert Pow10(12) == 1_0000_0000_0000;
    assert Pow10(16) == 1_0000_0000_0000_0000;
  }

  /** The string reader inverts the printer on everything the printer may be given. */
  lemma PrintThenRead(value: int)
    requires LL_MIN <= value <= LL_MAX
    ensures ParseLL(Text(value)) == Some(value)
  {
    ParseLLMeaning(Text(value), value);
  }

  /** evhtp's printer of unsigned 64-bit integers. */
  method ModpU64toa(value: nat, str: array<char>) returns (l: nat)
    requires value <= ULL_MAX && str.Length >= 21
    modifies str
    ensures l == |Digits(value)| && l < str.Length && str[..l] == Digits(value) && str[l] == '\0'
  {
    hide Digits, Reversed, Pow10, AllDigits;
    NineteenDigits();
    DigitsLength(value, 20);
    l := EmitReversed(str, value);
    str[l] := '\0';
    ReverseInPlace(str, l);
  }

  lemma FewDecades(v: nat)
    ensures v < 10 <==> |Digits(v)| <= 1
    ensures v < 100 <==> |Digits(v)| <= 2
    ensures v < 1000 <==> |Digits(v)| <= 3
    ensures v < 10000 <==> |Digits(v)| <= 4
  {
    DigitsLength(v, 1);
    DigitsLength(v, 2);
    DigitsLength(v, 3);
    DigitsLength(v, 4);
    assert Pow10(2) == 100;
    assert Pow10(3) == 1000;
    assert Pow10(4) == 10000;
  }

  lemma FourDecades(v: nat)
    requires v >= 10000
    ensures |Digits(v)| == 4 + |Digits(v / 10000)|
  {
    assert v / 10 / 10 / 10 / 10 == v / 10000;
    assert |Digits(v)| == 1 + |Digits(v / 10)|;
    assert |Digits(v / 10)| == 1 + |Digits(v / 10 / 10)|;
    assert |Digits(v / 10 / 10)| == 1 + |Digits(v / 10 / 10 / 10)|;
    assert |Digits(v / 10 / 10 / 10)| == 1 + |Digits(v / 10 / 10 / 10 / 10)|;
  }

  /** The digit count, four decades at a time. */
  method CountDigits(v: nat) returns (result: nat)
    ensures result == |Digits(v)|
  {
    var rest: nat := v;
    result := 1;
    while true
      invariant result - 1 + |Digits(rest)| == |Digits(v)|
      decreases rest
    {
      ghost var d := |Digits(rest)|;
      FewDecades(rest);
      if rest < 10 { return result; }
      if rest < 100 { return result + 1; }
      if rest < 1000 { return result + 2; }
      if rest < 10000 { return result + 3; }
      assert d == 4 + |Digits(rest / 10000)| by { FourDecades(rest); }
      rest := rest / 10000;
      result := result + 4;
    }
  }

  predicate IsBlank(c: char) { c == ' ' || c == '\t' }

  /** `s` without the blanks at its end. */
  function TrimRight(s: string): (r: string)
    ensures r <= s
  {
    if s != "" && IsBlank(s[|s| - 1]) then TrimRight(s[..|s| - 1]) else s
  }

  /** The twentieth digit is the only one that can wrap; the reader notices when the wrapped
      value does not exceed the value before it. */
  predicate WrapNoticed(s: string)
    requires AllDigits(s)
  {
    |s| == 20 &&
    var before := Value(s[..19]);
    before > 0 && Value(s) % (ULL_MAX + 1) <= before
  }

  /** evhtp's reading of a string without blanks at its end. */
  function ReadUnsigned(t: string): Option<nat> {
    if |t| <= 20 && AllDigits(t) && !WrapNoticed(t) then Some(Value(t) % (ULL_MAX + 1)) else None
  }

  method TrimmedLength(s: string) returns (n: nat)
    ensures n <= |s| && s[..n] == TrimRight(s)
  {
    n := |s|;
    assert s[..n] == s;
    while n > 0 && IsBlank(s[n - 1])
      invariant n <= |s| && TrimRight(s[..n]) == TrimRight(s)
    {
      assert s[..n][..n - 1] == s[..n - 1];
      n := n - 1;
    }
  }

  lemma NoDigits(s: string)
    requires s == ""
    ensures AllDigits(s) && Value(s) == 0
  {
  }

  lemma StrayDigit(s: string, i: nat)
    requires i < |s| && !IsDigit(s[i])
    ensures !AllDigits(s)
  {
  }

  /** Reads an unsigned 64-bit integer as evhtp does for a Content-Length: exactly the strings of at
      most twenty digits whose last step does not visibly wrap are accepted, modulo 2^64. */
  method StrToUint64(s: string) returns (value: Option<nat>)
    ensures value == ReadUnsigned(TrimRight(s))
  {
    hide TrimRight, Pow10, AllDigits, Value;
    var n := TrimmedLength(s);
    ghost var t := TrimRight(s);
    if n > 20 { return None; }
    assert AllDigits(t[0..0]) && Value(t[0..0]) == 0 by { NoDigits(t[0..0]); }
    var v: nat, i: nat := 0, 0;
    while i < n
      invariant i <= n && AllDigits(t[0..i])
      invariant i <= 19 ==> v == Value(t[0..i])
      invariant i == 20 ==> v == Value(t[0..i]) % (ULL_MAX + 1) && !WrapNoticed(t[0..i])
    {
      assert t[i] == s[i];
      if !IsDigit(s[i]) {
        StrayDigit(t, i);
        return None;
      }
      DigitStep(t, 0, i);
      NineteenFit(t[0..i]);
      if i < 19 { NineteenFit(t[0..i + 1]); }
      assert t[0..i + 1][..i] == t[0..i];
      var check := (v * 10 + DigitValue(s[i])) % (ULL_MAX + 1);
      if v > 0 && check <= v {
        assert i == 19 && t[0..i + 1] == t;
        return None;
      }
      v := check;
      i := i + 1;
    }
    assert t[0..i] == t;
    if n <= 19 { NineteenFit(t); }
    return Some(v);
  }

  lemma NineteenFit(s: string)
    requires AllDigits(s) && |s| <= 19
    ensures Value(s) <= ULL_MAX
  {
    SmallValue(s);
    PowMonotone(|s|, 19);
    NineteenDigits();
  }

  lemma {:induction false} SmallValue(s: string)
    requires AllDigits(s)
    ensures Value(s) < Pow10(|s|)
  {
    if s != "" { SmallValue(s[..|s| - 1]); }
  }

  lemma {:induction false} PowMonotone(i: nat, j: nat)
    requires i <= j
    ensures Pow10(i) <= Pow10(j)
  {
    if i < j { PowMonotone(i, j - 1); }
  }

  /** evhtp's reader inverts evhtp's printer on all of [0, 2^64), blanks at the end included. */
  lemma PrintThenReadUnsigned(value: nat, blanks: string)
    requires value <= ULL_MAX && forall i :: 0 <= i < |blanks| ==> IsBlank(blanks[i])
    ensures ReadUnsigned(TrimRight(Digits(value) + blanks)) == Some(value)
  {
    hide Digits, TrimRight, Pow10, ReadUnsigned;
    var t := Digits(value);
    TrimBlanks(t, blanks);
    DigitsDenote(value);
    NineteenDigits();
    DigitsLength(value, 20);
    ReadsDigits(t);
  }

  /** The values above 2^64 - 1 of twenty digits at which the last step wraps, but to a number greater
      than the one before it. */
  predicate Misread(v: nat) {
    20496382304121724018 <= v <= 36893488147419103231 || 40992764608243448036 <= v <= 55340232221128654847 ||
    61489146912365172054 <= v <= 73786976294838206463 || 81985529216486896072 <= v <= 92233720368547758079
  }

  /** What becomes of the value that a string of digits denotes. */
  lemma ReadsDigits(t: string)
    requires AllDigits(t) && |t| <= 20
    ensures Value(t) <= ULL_MAX ==> ReadUnsigned(t) == Some(Value(t))
    ensures Value(t) > ULL_MAX ==> (ReadUnsigned(t) == None <==> !Misread(Value(t)))
  {
    hide AllDigits, Pow10;
    if |t| == 20 {
      TwentyDigits(t);
      LastStep(Value(t[..19]), DigitValue(t[19]));
    } else {
      NineteenFit(t);
    }
  }

  lemma TwentyDigits(t: string)
    requires AllDigits(t) && |t| == 20
    ensures AllDigits(t[..19]) && IsDigit(t[19]) && Value(t) == 10 * Value(t[..19]) + DigitValue(t[19])
    ensures Value(t[..19]) < 10000000000000000000
  {
    hide Pow10;
    SmallValue(t[..19]);
    TenToThe19();
  }

  lemma TenToThe19()
    ensures Pow10(19) == 10000000000000000000
  {
    assert Pow10(4) == 10000;
    assert Pow10(8) == 10000 * Pow10(4) && Pow10(12) == 10000 * Pow10(8) && Pow10(16) == 10000 * Pow10(12);
    assert Pow10(19) == 1000 * Pow10(16);
  }

  lemma LastStep(before: nat, d: nat)
    requires before < 10000000000000000000 && d < 10
    ensures
      var v := 10 * before + d;
      var noticed := before > 0 && v % (ULL_MAX + 1) <= before;
      (v <= ULL_MAX ==> !noticed && v % (ULL_MAX + 1) == v) && (v > ULL_MAX ==> (noticed <==> !Misread(v)))
  {
  }

  /** A numeral is read rightly if its value is given when it is below 2^64, and it is refused otherwise.
      Exactly the numerals of more than twenty digits for small values, and those of the misread values,
      are not. */
  lemma ReadRightly(t: string)
    requires AllDigits(t)
    ensures ReadUnsigned(t) == (if Value(t) <= ULL_MAX then Some(Value(t)) else None) <==>
      if |t| > 20 then Value(t) > ULL_MAX else !Misread(Value(t))
  {
    hide AllDigits, Value;
    if |t| <= 20 { ReadsDigits(t); }
  }

  lemma {:induction false} TrimBlanks(s: string, blanks: string)
    requires s != "" && AllDigits(s) && forall i :: 0 <= i < |blanks| ==> IsBlank(blanks[i])
    ensures TrimRight(s + blanks) == s
  {
    if blanks == "" {
      assert s + blanks == s;
    } else {
      var t := s + blanks;
      assert t[..|t| - 1] == s + blanks[..|blanks| - 1];
      TrimBlanks(s, blanks[..|blanks| - 1]);
    }
  }

  /** One numeral that is read as another number. */
  lemma WrapUnnoticed()
    ensures ReadUnsigned("50000000000000000000") == Some(50000000000000000000 % (ULL_MAX + 1))
  {
    hide ReadUnsigned;
    var s := "50000000000000000000";
    FiveZeros(20, s);
    TenToThe19();
    ReadsDigits(s);
    ReadMeans(s);
  }

  lemma ReadMeans(t: string)
    ensures ReadUnsigned(t).Some? ==> AllDigits(t) && ReadUnsigned(t).value == Value(t) % (ULL_MAX + 1)
  {
  }

  lemma {:induction false} FiveZeros(k: nat, s: string)
    requires |s| == k > 0 && s[0] == '5' && forall i :: 1 <= i < k ==> s[i] == '0'
    ensures AllDigits(s) && Value(s) == 5 * Pow10(k - 1)
  {
    if k == 1 {
      assert s[..0] == "";
    } else {
      FiveZeros(k - 1, s[..k - 1]);
    }
  }
}
