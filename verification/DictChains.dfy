/** The chains of a hash table: what is where, apart from the links in memory. */
module DictChains {
  class Entry<K, V> {
    const key: K
    var val: V
    var next: Entry?<K, V>

    constructor (key: K, val: V, next: Entry?<K, V>)
      ensures this.key == key && this.val == val && this.next == next
    {
      this.key, this.val, this.next := key, val, next;
    }
  }

  type Chain<K, V> = seq<Entry<K, V>>

  // ----- sizes -----

  const INITIAL_SIZE := 4
  /** The most buckets that a signed 32-bit index can count. */
  const MAX_SIZE := 0x4000_0000

  const LONG_MAX := 0x7fff_ffff_ffff_ffff

  ghost predicate IsPower(n: nat) {
    n == 1 || (n > 1 && n % 2 == 0 && IsPower(n / 2))
  }

  /** The operator & on unsigned integers. */
  function And(a: nat, b: nat): (c: nat)
    ensures c <= b
  {
    if a == 0 || b == 0 then 0 else 2 * And(a / 2, b / 2) + (a % 2) * (b % 2)
  }

  /** With a power of two as size, the mask takes the remainder. */
  lemma {:induction false} MaskIsRemainder(h: nat, size: nat)
    requires IsPower(size)
    ensures And(h, size - 1) == h % size
  {
    if size > 1 {
      var half := size / 2;
      MaskIsRemainder(h / 2, half);
      AndOdd(h, half - 1);
      Halves(h, half);
    }
  }

  lemma AndOdd(a: nat, b: nat)
    ensures And(a, 2 * b + 1) == 2 * And(a / 2, b) + a % 2
  {
    var mask := 2 * b + 1;
    assert mask / 2 == b && mask % 2 == 1;
    assert (a % 2) * 1 == a % 2;
  }

  lemma Halves(h: nat, n: nat)
    requires n > 0
    ensures h % (2 * n) == 2 * (h / 2 % n) + h % 2
  {
    var q, r := h / 2 / n, h / 2 % n;
    var m := 2 * n;
    var a, b := h / m, h % m;
    assert h == a * m + b;
    assert h / 2 == q * n + r;
    assert q * m == 2 * (q * n);
    SameQuotient(a, q, m, b, 2 * r + h % 2);
  }

  lemma SameQuotient(q: int, q': int, n: int, r: int, r': int)
    requires n >= 1 && 0 <= r < n && 0 <= r' < n && q * n + r == q' * n + r'
    ensures q == q' && r == r'
  {
    NotGreater(q, q', n, r, r');
    NotGreater(q', q, n, r', r);
  }

  lemma NotGreater(q: int, q': int, n: int, r: int, r': int)
    requires n >= 1 && 0 <= r < n && 0 <= r' < n && q * n + r == q' * n + r'
    ensures q <= q'
  {
    assert (q - q') * n == q * n - q' * n;
    if q > q' { AtLeast(q - q', n); }
  }

  lemma AtLeast(d: int, n: int)
    requires d >= 1 && n >= 1
    ensures d * n >= n
  {
  }

  /** The least power of two that is at least the initial size and `size`. */
  method NextPower(size: nat) returns (i: nat)
    ensures size >= LONG_MAX ==> i == LONG_MAX
    ensures size < LONG_MAX ==> size <= i && INITIAL_SIZE <= i && IsPower(i) && (i == INITIAL_SIZE || i / 2 < size)
  {
    i := INITIAL_SIZE;
    if size >= LONG_MAX { return LONG_MAX; }
    while i < size
      invariant INITIAL_SIZE <= i && IsPower(i) && (i == INITIAL_SIZE || i / 2 < size)
      decreases size - i
    {
      i := i * 2;
    }
  }

  // ----- chains -----

  ghost predicate KeyIn<K, V>(c: Chain<K, V>, k: K) {
    exists j :: 0 <= j < |c| && c[j].key == k
  }

  /** A chain has different keys, all of bucket `i` of `n`. */
  ghost predicate ChainOk<K, V>(c: Chain<K, V>, hash: K -> nat, i: nat, n: nat)
    requires n > 0
  {
    (forall j :: 0 <= j < |c| ==> And(hash(c[j].key), n - 1) == i) &&
    forall j, k :: 0 <= j < k < |c| ==> c[j].key != c[k].key
  }

  ghost function Total<K, V>(chains: seq<Chain<K, V>>): nat {
    if chains == [] then 0 else Total(chains[..|chains| - 1]) + |chains[|chains| - 1]|
  }

  /** The chains hold these keys, each once, in the bucket of its hash value. */
  ghost predicate Mirrors<K, V>(chains: seq<Chain<K, V>>, hash: K -> nat, keys: set<K>) {
    (chains == [] ==> keys == {}) && Total(chains) == |keys| &&
    (forall i :: 0 <= i < |chains| ==> ChainOk(chains[i], hash, i, |chains|)) &&
    (forall i, j :: 0 <= i < |chains| && 0 <= j < |chains[i]| ==> chains[i][j].key in keys) &&
    (forall k :: k in keys ==> KeyIn(chains[And(hash(k), |chains| - 1)], k))
  }

  lemma {:induction false} TotalUpdate<K, V>(chains: seq<Chain<K, V>>, i: nat, c: Chain<K, V>)
    requires i < |chains|
    ensures Total(chains[i := c]) == Total(chains) - |chains[i]| + |c|
    decreases |chains|
  {
    var n := |chains| - 1;
    if i == n {
      assert chains[i := c][..n] == chains[..n];
    } else {
      assert chains[i := c][..n] == chains[..n][i := c];
      TotalUpdate(chains[..n], i, c);
    }
  }

  lemma {:induction false} TotalEmpty<K, V>(chains: seq<Chain<K, V>>)
    requires forall i :: 0 <= i < |chains| ==> chains[i] == []
    ensures Total(chains) == 0
  {
    if chains != [] { TotalEmpty(chains[..|chains| - 1]); }
  }

  lemma ChainInsert<K, V>(c: Chain<K, V>, hash: K -> nat, i: nat, n: nat, e: Entry<K, V>)
    requires n > 0 && ChainOk(c, hash, i, n) && And(hash(e.key), n - 1) == i && !KeyIn(c, e.key)
    ensures ChainOk([e] + c, hash, i, n) && KeyIn([e] + c, e.key)
    ensures forall k :: KeyIn(c, k) ==> KeyIn([e] + c, k)
  {
    hide And;
    var c' := [e] + c;
    assert c'[0] == e;
    forall j, k | 0 <= j < k < |c'| ensures c'[j].key != c'[k].key {
      assert c'[k] == c[k - 1];
    }
    forall k ensures KeyIn(c, k) ==> KeyIn(c', k) {
      if KeyIn(c, k) {
        var j :| 0 <= j < |c| && c[j].key == k;
        assert c'[j + 1].key == k;
      }
    }
  }

  /** A new entry goes to the front of its chain. */
  lemma Insert<K, V>(chains: seq<Chain<K, V>>, hash: K -> nat, keys: set<K>, e: Entry<K, V>)
    requires Mirrors(chains, hash, keys) && chains != [] && e.key !in keys
    ensures
      var h := And(hash(e.key), |chains| - 1);
      Mirrors(chains[h := [e] + chains[h]], hash, keys + {e.key})
  {
    hide And, Total, ChainOk, KeyIn;
    var h := And(hash(e.key), |chains| - 1);
    var c := [e] + chains[h];
    TotalUpdate(chains, h, c);
    NotThere(chains[h], keys, e.key);
    ChainInsert(chains[h], hash, h, |chains|, e);
  }

  lemma NotThere<K, V>(c: Chain<K, V>, keys: set<K>, k: K)
    requires k !in keys && forall j :: 0 <= j < |c| ==> c[j].key in keys
    ensures !KeyIn(c, k)
  {
  }

  ghost function Without<K, V>(c: Chain<K, V>, p: nat): Chain<K, V>
    requires p < |c|
  {
    c[..p] + c[p + 1..]
  }

  lemma ChainRemove<K, V>(c: Chain<K, V>, hash: K -> nat, i: nat, n: nat, p: nat)
    requires n > 0 && ChainOk(c, hash, i, n) && p < |c|
    ensures ChainOk(Without(c, p), hash, i, n)
    ensures forall k :: KeyIn(c, k) && k != c[p].key ==> KeyIn(Without(c, p), k)
    ensures !KeyIn(Without(c, p), c[p].key)
  {
    hide And;
    var c' := Without(c, p);
    forall k ensures KeyIn(c, k) && k != c[p].key ==> KeyIn(c', k) {
      if KeyIn(c, k) && k != c[p].key {
        var j :| 0 <= j < |c| && c[j].key == k;
        assert c'[if j < p then j else j - 1].key == k;
      }
    }
  }

  /** An entry leaves its chain. */
  lemma Remove<K, V>(chains: seq<Chain<K, V>>, hash: K -> nat, keys: set<K>, i: nat, p: nat)
    requires Mirrors(chains, hash, keys) && i < |chains| && p < |chains[i]|
    ensures Mirrors(chains[i := Without(chains[i], p)], hash, keys - {chains[i][p].key})
  {
    hide And, Total, KeyIn, ChainOk;
    IsIn(chains[i], p);
    var gone := chains[i][p].key;
    var c := Without(chains[i], p);
    TotalUpdate(chains, i, c);
    ChainRemove(chains[i], hash, i, |chains|, p);
    GoneElsewhere(chains, hash, keys, i, gone);
    forall j | 0 <= j < |c| ensures c[j].key in keys - {gone} {
      IsIn(c, j);
    }
  }

  lemma IsIn<K, V>(c: Chain<K, V>, j: nat)
    requires j < |c|
    ensures KeyIn(c, c[j].key)
  {
  }

  lemma GoneElsewhere<K, V>(chains: seq<Chain<K, V>>, hash: K -> nat, keys: set<K>, i: nat, k: K)
    requires Mirrors(chains, hash, keys) && i < |chains| && KeyIn(chains[i], k)
    ensures forall i', j :: 0 <= i' < |chains| && i' != i && 0 <= j < |chains[i']| ==> chains[i'][j].key != k
  {
    hide And, Total;
    assert ChainOk(chains[i], hash, i, |chains|);
    forall i', j | 0 <= i' < |chains| && i' != i && 0 <= j < |chains[i']| ensures chains[i'][j].key != k {
      assert ChainOk(chains[i'], hash, i', |chains|);
    }
  }

  lemma NoChains<K, V>(chains: seq<Chain<K, V>>, hash: K -> nat, keys: set<K>)
    requires Mirrors(chains, hash, keys) && chains == []
    ensures keys == {}
  {
  }

  lemma Bucket<K, V>(chains: seq<Chain<K, V>>, hash: K -> nat, keys: set<K>, k: K)
    requires Mirrors(chains, hash, keys) && chains != []
    ensures k in keys <==> KeyIn(chains[And(hash(k), |chains| - 1)], k)
  {
    hide And, Total;
  }

  lemma Absent<K, V>(chains: seq<Chain<K, V>>, hash: K -> nat, keys: set<K>, e: Entry<K, V>)
    requires Mirrors(chains, hash, keys) && e.key !in keys
    ensures forall i :: 0 <= i < |chains| ==> e !in chains[i]
  {
    hide And, Total;
  }

  lemma {:induction false} PowerBelow(a: nat, b: nat)
    requires IsPower(a) && IsPower(b) && a < b
    ensures 2 * a <= b
  {
    if a > 1 { PowerBelow(a / 2, b / 2); }
  }

  lemma Sixteenfold(n: nat)
    requires IsPower(n)
    ensures IsPower(16 * n)
  {
    Doubled(n);
    Doubled(2 * n);
    Doubled(4 * n);
    Doubled(8 * n);
  }

  lemma Doubled(n: nat)
    requires IsPower(n)
    ensures IsPower(2 * n)
  {
    assert 2 * n / 2 == n;
  }

  lemma MaxIsPower()
    ensures IsPower(MAX_SIZE)
  {
    Sixteenfold(4);
    Sixteenfold(0x40);
    Sixteenfold(0x400);
    Sixteenfold(0x4000);
    Sixteenfold(0x4_0000);
    Sixteenfold(0x40_0000);
    Sixteenfold(0x400_0000);
  }

  lemma NextPowerFits(size: nat, i: nat)
    requires size <= MAX_SIZE && IsPower(i) && (i == INITIAL_SIZE || i / 2 < size) && i >= INITIAL_SIZE
    ensures i <= MAX_SIZE
  {
    MaxIsPower();
    if i / 2 < size { PowerBelow(i / 2, MAX_SIZE); }
  }

  lemma InKeys<K, V>(chains: seq<Chain<K, V>>, hash: K -> nat, keys: set<K>, i: nat, j: nat)
    requires Mirrors(chains, hash, keys) && i < |chains| && j < |chains[i]|
    ensures chains[i][j].key in keys
  {
    hide And, Total;
  }

  lemma NoneLeft<K, V>(left: seq<Chain<K, V>>, hash: K -> nat, keys: set<K>)
    requires Mirrors(left, hash, keys) && (keys == {} || forall i :: 0 <= i < |left| ==> left[i] == [])
    ensures keys == {}
  {
    hide And;
    if forall i :: 0 <= i < |left| ==> left[i] == [] { TotalEmpty(left); }
  }

  /** The entries of a chain are different, and in no other chain. */
  lemma Separate<K, V>(chains: seq<Chain<K, V>>, hash: K -> nat, keys: set<K>, i: nat)
    requires Mirrors(chains, hash, keys) && i < |chains|
    ensures forall j, k :: 0 <= j < k < |chains[i]| ==> chains[i][j] != chains[i][k]
    ensures forall j, i' :: 0 <= i' < |chains| && i' != i && 0 <= j < |chains[i]| ==> chains[i][j] !in chains[i']
  {
    hide And, Total;
    assert ChainOk(chains[i], hash, i, |chains|);
    forall j, i' | 0 <= i' < |chains| && i' != i && 0 <= j < |chains[i]| ensures chains[i][j] !in chains[i'] {
      assert ChainOk(chains[i'], hash, i', |chains|);
    }
  }

  // ----- all entries, in the order of the buckets -----

  ghost function Flatten<K, V>(chains: seq<Chain<K, V>>, i: nat): Chain<K, V>
    decreases |chains| - i
  {
    if i >= |chains| then [] else chains[i] + Flatten(chains, i + 1)
  }

  ghost predicate InChain<K, V>(chains: seq<Chain<K, V>>, i: nat, k: nat, e: Entry<K, V>) {
    i <= k < |chains| && e in chains[k]
  }

  lemma {:induction false} FlattenHas<K, V>(chains: seq<Chain<K, V>>, i: nat, k: nat, e: Entry<K, V>)
    requires InChain(chains, i, k, e)
    ensures e in Flatten(chains, i)
    decreases |chains| - i
  {
    if k > i { FlattenHas(chains, i + 1, k, e); }
  }

  lemma {:induction false} FlattenFrom<K, V>(chains: seq<Chain<K, V>>, i: nat, e: Entry<K, V>) returns (k: nat)
    requires e in Flatten(chains, i)
    ensures InChain(chains, i, k, e)
    decreases |chains| - i
  {
    if e in chains[i] {
      k := i;
    } else {
      k := FlattenFrom(chains, i + 1, e);
    }
  }

  /** Each key once. */
  ghost predicate KeysDiffer<K, V>(c: Chain<K, V>) {
    forall j, k :: 0 <= j < k < |c| ==> c[j].key != c[k].key
  }

  lemma {:induction false} FlattenDiffers<K, V>(chains: seq<Chain<K, V>>, hash: K -> nat, keys: set<K>, i: nat)
    requires Mirrors(chains, hash, keys)
    ensures KeysDiffer(Flatten(chains, i))
    decreases |chains| - i
  {
    hide And, Total;
    if i < |chains| {
      var rest := Flatten(chains, i + 1);
      FlattenDiffers(chains, hash, keys, i + 1);
      assert ChainOk(chains[i], hash, i, |chains|);
      forall j, k | 0 <= j < |chains[i]| && 0 <= k < |rest| ensures chains[i][j].key != rest[k].key {
        var h := FlattenFrom(chains, i + 1, rest[k]);
        assert ChainOk(chains[h], hash, h, |chains|);
      }
    }
  }

  /** The entries have exactly these keys. */
  lemma FlattenKeys<K, V>(chains: seq<Chain<K, V>>, hash: K -> nat, keys: set<K>, k: K)
    requires Mirrors(chains, hash, keys)
    ensures k in keys <==> KeyIn(Flatten(chains, 0), k)
  {
    hide And, Total;
    var all := Flatten(chains, 0);
    if k in keys {
      var h := And(hash(k), |chains| - 1);
      var j :| 0 <= j < |chains[h]| && chains[h][j].key == k;
      assert InChain(chains, 0, h, chains[h][j]);
      FlattenHas(chains, 0, h, chains[h][j]);
    }
    if j :| 0 <= j < |all| && all[j].key == k {
      var h := FlattenFrom(chains, 0, all[j]);
    }
  }

  lemma {:induction false} FlattenElsewhere<K, V>(chains: seq<Chain<K, V>>, h: nat, c: Chain<K, V>, i: nat)
    requires h < i && h < |chains|
    ensures Flatten(chains[h := c], i) == Flatten(chains, i)
    decreases |chains| - i
  {
    if i < |chains| { FlattenElsewhere(chains, h, c, i + 1); }
  }
}
