/** Sorting and sorted difference of lists of strings, the library algorithms with which the voters
    compare two flattened bodies. */
module StringBags {
  /** The lexicographic order of strings. */
  predicate Less(a: string, b: string) {
    if b == "" then false
    else if a == "" then true
    else if a[0] != b[0] then a[0] < b[0]
    else Less(a[1..], b[1..])
  }

  lemma {:induction false} LessTotal(a: string, b: string)
    ensures Less(a, b) ==> !Less(b, a)
    ensures !Less(a, b) && !Less(b, a) ==> a == b
    ensures !Less(a, a)
  {
    if a != "" { LessTotal(a[1..], a[1..]); }
    if a != "" && b != "" {
      LessTotal(a[1..], b[1..]);
      if a[0] == b[0] && a[1..] == b[1..] {
        assert a == [a[0]] + a[1..] && b == [b[0]] + b[1..];
      }
    }
  }

  lemma {:induction false} LessTransitive(a: string, b: string, c: string)
    requires Less(a, b) && !Less(c, b)
    ensures Less(a, c)
  {
    if a != "" && b != "" && c != "" && a[0] == b[0] == c[0] {
      LessTransitive(a[1..], b[1..], c[1..]);
    }
  }

  ghost predicate Sorted(s: seq<string>) {
    forall i, j :: 0 <= i < j < |s| ==> !Less(s[j], s[i])
  }

  /** Sorts a list; only the order of the result is specified, as for the library's sort. */
  method Sort(list: seq<string>) returns (sorted: seq<string>)
    ensures Sorted(sorted) && multiset(sorted) == multiset(list)
  {
    sorted := [];
    for n := 0 to |list|
      invariant Sorted(sorted) && multiset(sorted) == multiset(list[..n])
    {
      assert list[..n + 1] == list[..n] + [list[n]];
      sorted := Insert(list[n], sorted);
    }
    assert list[..|list|] == list;
  }

  method Insert(x: string, s: seq<string>) returns (r: seq<string>)
    requires Sorted(s)
    ensures Sorted(r) && multiset(r) == multiset(s) + multiset{x}
  {
    hide Sorted, Less;
    var k := 0;
    while k < |s| && Less(s[k], x)
      invariant 0 <= k <= |s|
      invariant k > 0 ==> Less(s[k - 1], x)
    {
      k := k + 1;
    }
    r := s[..k] + [x] + s[k..];
    InsertSorted(x, s, k);
    assert s == s[..k] + s[k..];
  }

  lemma InsertSorted(x: string, s: seq<string>, k: nat)
    requires Sorted(s) && k <= |s| && (k > 0 ==> Less(s[k - 1], x)) && (k < |s| ==> !Less(s[k], x))
    ensures Sorted(s[..k] + [x] + s[k..])
  {
    hide Less;
    forall i | 0 <= i < k
      ensures !Less(x, s[i])
    {
      if Less(x, s[i]) && i < k - 1 { LessTransitive(x, s[i], s[k - 1]); }
      LessTotal(s[k - 1], x);
    }
    forall i | k <= i < |s|
      ensures !Less(s[i], x)
    {
      if Less(s[i], x) { LessTransitive(s[i], x, s[k]); }
    }
  }

  /** An element below the head of a sorted list is not in the list. */
  lemma BelowHead(s: seq<string>, j: nat, x: string)
    requires Sorted(s) && j < |s| && Less(x, s[j])
    ensures x !in s[j..]
  {
    forall i | j <= i < |s|
      ensures s[i] != x
    {
      if i > j { LessTransitive(x, s[j], s[i]); }
      LessTotal(x, x);
    }
  }

  /** What is left of the first list when the second is matched off against it, from the heads. */
  function Unmatched(a: seq<string>, b: seq<string>): seq<string>
    decreases |a| + |b|
  {
    if a == [] || b == [] then a
    else if Less(a[0], b[0]) then [a[0]] + Unmatched(a[1..], b)
    else if Less(b[0], a[0]) then Unmatched(a, b[1..])
    else Unmatched(a[1..], b[1..])
  }

  lemma MatchOff(a: multiset<string>, b: multiset<string>, x: string)
    ensures x !in b ==> (multiset{x} + a) - b == multiset{x} + (a - b)
    ensures x !in a ==> a - (multiset{x} + b) == a - b
    ensures (multiset{x} + a) - (multiset{x} + b) == a - b
  {
  }

  /** For sorted lists, what is left is the difference of the bags. */
  lemma {:induction false} UnmatchedBag(a: seq<string>, b: seq<string>)
    requires Sorted(a) && Sorted(b)
    ensures multiset(Unmatched(a, b)) == multiset(a) - multiset(b)
    decreases |a| + |b|
  {
    hide Less;
    if a != [] && b != [] {
      var x, y := a[0], b[0];
      var at, bt := multiset(a[1..]), multiset(b[1..]);
      assert a == [x] + a[1..] && b == [y] + b[1..];
      if Less(x, y) {
        BelowHead(b, 0, x);
        MatchOff(at, multiset(b), x);
        UnmatchedBag(a[1..], b);
      } else if Less(y, x) {
        BelowHead(a, 0, y);
        MatchOff(multiset(a), bt, y);
        UnmatchedBag(a, b[1..]);
      } else {
        LessTotal(x, y);
        MatchOff(at, bt, x);
        UnmatchedBag(a[1..], b[1..]);
      }
    }
  }

  /** The elements of the first sorted list that are not matched by elements of the second. */
  method SetDifference(a: seq<string>, b: seq<string>) returns (d: seq<string>)
    requires Sorted(a) && Sorted(b)
    ensures multiset(d) == multiset(a) - multiset(b)
  {
    hide Less, Sorted;
    d := [];
    var i, j := 0, 0;
    assert a[i..] == a && b[j..] == b;
    while i < |a|
      invariant 0 <= i <= |a| && 0 <= j <= |b|
      invariant d + Unmatched(a[i..], b[j..]) == Unmatched(a, b)
      decreases |a| - i + |b| - j
    {
      UnmatchedBag(a, b);
      if j == |b| {
        d := d + a[i..];
        return;
      }
      assert a[i..][1..] == a[i + 1..] && b[j..][1..] == b[j + 1..];
      if Less(a[i], b[j]) {
        assert d + ([a[i]] + Unmatched(a[i + 1..], b[j..])) == d + [a[i]] + Unmatched(a[i + 1..], b[j..]);
        d := d + [a[i]];
        i := i + 1;
      } else {
        if !Less(b[j], a[i]) { i := i + 1; }
        j := j + 1;
      }
    }
    UnmatchedBag(a, b);
    assert a[i..] == [];
  }

  /** Two lists are equal up to order exactly when they are as long and neither has an element
      that the other does not match. */
  lemma EqualBags(a: multiset<string>, b: multiset<string>)
    ensures a == b <==> |a| == |b| && a - b == multiset{} && b - a == multiset{}
  {
    if a - b == multiset{} && b - a == multiset{} {
      forall x
        ensures a[x] == b[x]
      {
        assert (a - b)[x] == 0 && (b - a)[x] == 0;
      }
    }
  }
}
