/** Splitting a string at a separator, and joining the tokens again. */
module SdsSplit {
  import opened Wrappers

  /** The separator stands at position `k`. */
  predicate Occurs(s: Bytes, sep: Bytes, k: nat) {
    k + |sep| <= |s| && s[k..k + |sep|] == sep
  }

  /** The tokens from `start` on; no separator begins before `j`. */
  ghost function Tokens(s: Bytes, sep: Bytes, start: nat, j: nat): (tokens: seq<Bytes>)
    requires start <= j && sep != []
    requires start <= |s|
    ensures tokens != []
    decreases |s| - j
  {
    if j + |sep| > |s| then [s[start..]]
    else if Occurs(s, sep, j) then [s[start..j]] + Tokens(s, sep, j + |sep|, j + |sep|)
    else Tokens(s, sep, start, j + 1)
  }

  ghost function Split(s: Bytes, sep: Bytes): seq<Bytes>
    requires sep != []
  {
    if s == [] then [] else Tokens(s, sep, 0, 0)
  }

  function Join(tokens: seq<Bytes>, sep: Bytes): Bytes {
    if tokens == [] then []
    else if |tokens| == 1 then tokens[0]
    else tokens[0] + sep + Join(tokens[1..], sep)
  }

  /** The separator begins nowhere in the token, nor, if one follows, across its end. */
  ghost predicate Clean(token: Bytes, sep: Bytes, last: bool) {
    if last then forall k: nat :: !Occurs(token, sep, k)
    else forall k: nat :: k < |token| ==> !Occurs(token + sep, sep, k)
  }

  ghost predicate AllClean(tokens: seq<Bytes>, sep: Bytes) {
    forall i :: 0 <= i < |tokens| ==> Clean(tokens[i], sep, i == |tokens| - 1)
  }

  method SplitLen(s: Bytes, len: int, sep: Bytes, seplen: int) returns (tokens: array?<Bytes>, count: nat)
    requires len <= |s| && seplen <= |sep|
    ensures tokens == null <==> seplen < 1 || len < 0
    ensures tokens != null ==> count <= tokens.Length && tokens[..count] == Split(s[..len], sep[..seplen])
  {
    if seplen < 1 || len < 0 { return null, 0; }
    tokens, count := FillTokens(s[..len], sep[..seplen]);
  }

  /** The array of tokens grows before it is full, so that each token and the last have a place. */
  method FillTokens(s: Bytes, sep: Bytes) returns (tokens: array<Bytes>, count: nat)
    requires sep != []
    ensures count <= tokens.Length && tokens[..count] == Split(s, sep)
  {
    hide Tokens, Occurs;
    var len, seplen := |s|, |sep|;
    var slots, elements, start, j := 5, 0, 0, 0;
    tokens := new Bytes[slots];
    if len == 0 { return tokens, 0; }
    ghost var found: seq<Bytes> := [];
    assert found + Tokens(s, sep, 0, 0) == Tokens(s, sep, 0, 0);
    while j < len - (seplen - 1)
      invariant 0 <= start <= j && start <= len && fresh(tokens) && 0 <= elements < slots == tokens.Length && slots >= 5
      invariant tokens[..elements] == found && found + Tokens(s, sep, start, j) == Split(s, sep)
    {
      if slots < elements + 2 {
        slots := slots * 2;
        tokens := Grow(tokens, elements, slots);
      }
      NextTokens(found, s, sep, start, j);
      if s[j..j + seplen] == sep {
        tokens[elements] := s[start..j];
        found := found + [s[start..j]];
        elements := elements + 1;
        start := j + seplen;
        j := j + seplen - 1;
      }
      j := j + 1;
    }
    NextTokens(found, s, sep, start, j);
    tokens[elements] := s[start..];
    count := elements + 1;
    assert tokens[..count] == found + [s[start..]];
  }

  lemma NextTokens(found: seq<Bytes>, s: Bytes, sep: Bytes, start: nat, j: nat)
    requires start <= j && sep != [] && start <= |s|
    ensures found + Tokens(s, sep, start, j) ==
      if j + |sep| > |s| then found + [s[start..]]
      else if s[j..j + |sep|] == sep then (found + [s[start..j]]) + Tokens(s, sep, j + |sep|, j + |sep|)
      else found + Tokens(s, sep, start, j + 1)
  {
    if j + |sep| <= |s| && Occurs(s, sep, j) {
      var rest := Tokens(s, sep, j + |sep|, j + |sep|);
      assert found + ([s[start..j]] + rest) == (found + [s[start..j]]) + rest;
    }
  }

  method Grow(a: array<Bytes>, elements: nat, slots: nat) returns (b: array<Bytes>)
    requires elements <= a.Length && elements <= slots
    ensures fresh(b) && b.Length == slots && b[..elements] == a[..elements]
  {
    b := new Bytes[slots];
    forall k | 0 <= k < elements { b[k] := a[k]; }
  }

  method JoinSds(argv: seq<Bytes>, sep: Bytes) returns (join: Bytes)
    ensures join == Join(argv, sep)
  {
    join := [];
    var j := 0;
    while j < |argv|
      invariant 0 <= j <= |argv| && join + Join(argv[j..], sep) == Join(argv, sep)
    {
      ghost var rest := Join(argv[j + 1..], sep);
      assert argv[j..][1..] == argv[j + 1..];
      assert join + (argv[j] + sep + rest) == join + argv[j] + sep + rest;
      join := join + argv[j];
      if j != |argv| - 1 { join := join + sep; }
      j := j + 1;
    }
  }

  lemma {:induction false} JoinTokens(s: Bytes, sep: Bytes, start: nat, j: nat)
    requires start <= j && sep != [] && start <= |s|
    ensures Join(Tokens(s, sep, start, j), sep) == s[start..]
    decreases |s| - j
  {
    if j + |sep| > |s| {
    } else if Occurs(s, sep, j) {
      var rest := Tokens(s, sep, j + |sep|, j + |sep|);
      JoinTokens(s, sep, j + |sep|, j + |sep|);
      assert ([s[start..j]] + rest)[1..] == rest;
      assert s[start..] == s[start..j] + s[j..j + |sep|] + s[j + |sep|..];
    } else {
      JoinTokens(s, sep, start, j + 1);
    }
  }

  lemma OccursWithin(s: Bytes, lo: nat, hi: nat, sep: Bytes, k: nat)
    requires lo <= hi <= |s|
    ensures Occurs(s[lo..hi], sep, k) <==> lo + k + |sep| <= hi && Occurs(s, sep, lo + k)
  {
    if lo + k + |sep| <= hi {
      var x, y := s[lo..hi][k..k + |sep|], s[lo + k..lo + k + |sep|];
      assert forall i :: 0 <= i < |sep| ==> x[i] == s[lo + k + i] && y[i] == s[lo + k + i];
      assert x == y;
    }
  }

  lemma {:induction false} TokensClean(s: Bytes, sep: Bytes, start: nat, j: nat)
    requires start <= j && sep != [] && start <= |s|
    requires forall k: nat :: start <= k < j ==> !Occurs(s, sep, k)
    ensures AllClean(Tokens(s, sep, start, j), sep)
    decreases |s| - j
  {
    if j + |sep| > |s| {
      LastClean(s, sep, start, j);
    } else if Occurs(s, sep, j) {
      NoneYet(s, sep, j + |sep|);
      TokensClean(s, sep, j + |sep|, j + |sep|);
      InnerClean(s, sep, start, j);
    } else {
      TokensClean(s, sep, start, j + 1);
    }
  }

  lemma NoneYet(s: Bytes, sep: Bytes, start: nat)
    ensures forall k: nat :: start <= k < start ==> !Occurs(s, sep, k)
  {
  }

  lemma LastClean(s: Bytes, sep: Bytes, start: nat, j: nat)
    requires start <= j && start <= |s| && j + |sep| > |s|
    requires forall k: nat :: start <= k < j ==> !Occurs(s, sep, k)
    ensures Clean(s[start..], sep, true)
  {
    forall k: nat ensures !Occurs(s[start..], sep, k) {
      OccursWithin(s, start, |s|, sep, k);
    }
  }

  lemma InnerClean(s: Bytes, sep: Bytes, start: nat, j: nat)
    requires start <= j && Occurs(s, sep, j)
    requires forall k: nat :: start <= k < j ==> !Occurs(s, sep, k)
    ensures Clean(s[start..j], sep, false)
  {
    var t := s[start..j];
    assert t + sep == s[start..j + |sep|];
    forall k: nat | k < |t| ensures !Occurs(t + sep, sep, k) {
      OccursWithin(s, start, j + |sep|, sep, k);
    }
  }

  /** Clean tokens are found again in their text. */
  lemma {:induction false} TokensOfJoin(s: Bytes, sep: Bytes, start: nat, j: nat, tokens: seq<Bytes>)
    requires sep != [] && start <= j <= |s| && tokens != [] && AllClean(tokens, sep) && s[start..] == Join(tokens, sep)
    requires |tokens| > 1 ==> j <= start + |tokens[0]|
    ensures Tokens(s, sep, start, j) == tokens
    decreases |s| - j
  {
    hide Occurs, AllClean, Clean;
    var t := tokens[0];
    Cleans(tokens, sep);
    if |tokens| == 1 {
      assert tokens == [t];
      LastToken(s, sep, start, j);
    } else {
      var rest := Join(tokens[1..], sep);
      var next := start + |t| + |sep|;
      Pieces(s, start, t, sep, rest);
      if j == start + |t| {
        TokensOfJoin(s, sep, next, next, tokens[1..]);
        assert tokens == [t] + tokens[1..];
      } else {
        NotInside(s, start, t, sep, j);
        TokensOfJoin(s, sep, start, j + 1, tokens);
      }
    }
  }

  lemma Cleans(tokens: seq<Bytes>, sep: Bytes)
    requires AllClean(tokens, sep) && tokens != []
    ensures Clean(tokens[0], sep, |tokens| == 1) && AllClean(tokens[1..], sep)
  {
    hide Clean;
  }

  lemma NotInside(s: Bytes, start: nat, t: Bytes, sep: Bytes, j: nat)
    requires Clean(t, sep, false) && start + |t| + |sep| <= |s| && s[start..start + |t| + |sep|] == t + sep
    requires start <= j < start + |t|
    ensures !Occurs(s, sep, j)
  {
    OccursWithin(s, start, start + |t| + |sep|, sep, j - start);
  }

  lemma {:induction false} LastToken(s: Bytes, sep: Bytes, start: nat, j: nat)
    requires sep != [] && start <= j && start <= |s| && Clean(s[start..], sep, true)
    ensures Tokens(s, sep, start, j) == [s[start..]]
    decreases |s| - j
  {
    if j + |sep| <= |s| {
      assert s[start..|s|] == s[start..];
      OccursWithin(s, start, |s|, sep, j - start);
      LastToken(s, sep, start, j + 1);
    }
  }

  lemma Pieces(s: Bytes, start: nat, t: Bytes, sep: Bytes, rest: Bytes)
    requires start <= |s| && s[start..] == t + sep + rest
    ensures start + |t| + |sep| <= |s| && s[start..start + |t|] == t && Occurs(s, sep, start + |t|)
    ensures s[start..start + |t| + |sep|] == t + sep && s[start + |t| + |sep|..] == rest
  {
    var u := s[start..];
    assert u[..|t|] == t && u[|t|..|t| + |sep|] == sep && u[|t| + |sep|..] == rest && u[..|t| + |sep|] == t + sep;
  }

  /** Joining the tokens of a string gives the string back. No token has the separator in it. */
  lemma JoinUndoesSplit(s: Bytes, sep: Bytes)
    requires sep != []
    ensures Join(Split(s, sep), sep) == s && AllClean(Split(s, sep), sep)
    ensures forall i, k: nat :: 0 <= i < |Split(s, sep)| ==> !Occurs(Split(s, sep)[i], sep, k)
  {
    if s != [] {
      JoinTokens(s, sep, 0, 0);
      TokensClean(s, sep, 0, 0);
      assert s[0..] == s;
      forall i, k: nat | 0 <= i < |Split(s, sep)| ensures !Occurs(Split(s, sep)[i], sep, k) {
        CleanInside(Split(s, sep)[i], sep, i == |Split(s, sep)| - 1, k);
      }
    }
  }

  lemma CleanInside(token: Bytes, sep: Bytes, last: bool, k: nat)
    requires sep != [] && Clean(token, sep, last)
    ensures !Occurs(token, sep, k)
  {
    if !last && k < |token| {
      assert token == (token + sep)[0..|token|];
      OccursWithin(token + sep, 0, |token|, sep, k);
    }
  }

  /** Splitting a joined list gives the list back exactly when it is empty, or its text is not and each
      token is clean of the separator. */
  lemma SplitUndoesJoin(tokens: seq<Bytes>, sep: Bytes)
    requires sep != []
    ensures Split(Join(tokens, sep), sep) == tokens <==>
      tokens == [] || (Join(tokens, sep) != [] && AllClean(tokens, sep))
  {
    var s := Join(tokens, sep);
    JoinUndoesSplit(s, sep);
    if tokens != [] && s != [] && AllClean(tokens, sep) {
      assert s[0..] == s;
      TokensOfJoin(s, sep, 0, 0, tokens);
    }
  }
}
