/** The hash table: an array of linked lists that behaves as a map. */
module HashTable {
  import opened Wrappers
  import opened DictChains

  function EntryAt<K, V>(c: Chain<K, V>, j: nat): Entry?<K, V> {
    if j < |c| then c[j] else null
  }

  /** The list at `head` in memory is the chain. */
  ghost predicate Linked<K, V>(head: Entry?<K, V>, c: Chain<K, V>)
    reads c
  {
    head == EntryAt(c, 0) && forall j {:trigger c[j].next} :: 0 <= j < |c| ==> c[j].next == EntryAt(c, j + 1)
  }

  ghost predicate AllLinked<K, V>(table: array<Entry?<K, V>>, chains: seq<Chain<K, V>>, entries: set<Entry<K, V>>)
    reads table, entries
  {
    table.Length == |chains| &&
    (forall i, j :: 0 <= i < |chains| && 0 <= j < |chains[i]| ==> chains[i][j] in entries) &&
    forall i :: 0 <= i < |chains| ==> Linked(table[i], chains[i])
  }

  /** The entries hold what the map has, each key once. */
  ghost predicate Stored<K, V>(entries: set<Entry<K, V>>, m: map<K, V>)
    reads entries
  {
    (forall e :: e in entries ==> e.key in m && m[e.key] == e.val) &&
    forall e, f :: e in entries && f in entries && e.key == f.key ==> e == f
  }

  lemma StoredMore<K, V>(entries: set<Entry<K, V>>, m: map<K, V>, e: Entry<K, V>)
    requires Stored(entries, m) && e.key !in m
    ensures Stored(entries + {e}, m[e.key := e.val])
  {
  }

  /** Sets the value of an entry: no link changes. */
  method SetVal<K, V>(e: Entry<K, V>, val: V, ghost table: array<Entry?<K, V>>, ghost chains: seq<Chain<K, V>>,
                      ghost entries: set<Entry<K, V>>, ghost m: map<K, V>)
    requires e in entries && AllLinked(table, chains, entries) && Stored(entries, m)
    modifies e`val
    ensures AllLinked(table, chains, entries) && Stored(entries, m[e.key := val])
  {
    e.val := val;
    forall i | 0 <= i < |chains| ensures Linked(table[i], chains[i]) {
      assert old(Linked(table[i], chains[i]));
    }
  }

  /** The entry of the key is gone from place `p` of chain `h`. */
  ghost predicate LeavesChain<K, V>(chains: seq<Chain<K, V>>, chains': seq<Chain<K, V>>, h: nat, p: nat, key: K) {
    h < |chains| && p < |chains[h]| && chains[h][p].key == key && chains' == chains[h := Without(chains[h], p)]
  }

  /** Follows a list to the entry with the key, if there is one. */
  method Search<K(==), V>(head: Entry?<K, V>, key: K, ghost c: Chain<K, V>) returns (he: Entry?<K, V>, ghost j: nat)
    requires Linked(head, c)
    ensures he == null <==> !KeyIn(c, key)
    ensures he != null ==> j < |c| && c[j] == he && he.key == key
  {
    he, j := head, 0;
    while he != null
      invariant 0 <= j <= |c| && he == EntryAt(c, j) && forall i :: 0 <= i < j ==> c[i].key != key
      decreases |c| - j
    {
      if key == he.key { return; }
      he := he.next;
      j := j + 1;
    }
  }

  class Dict<K(==, !new), V(!new)> {
    const hash: K -> nat
    var table: array?<Entry?<K, V>>
    var size: nat
    var sizemask: nat
    var used: nat
    ghost var chains: seq<Chain<K, V>>
    ghost var entries: set<Entry<K, V>>
    /** The map that the table stands for. */
    ghost var m: map<K, V>

    constructor (hash: K -> nat)
      ensures Valid() && m == map[] && this.hash == hash && entries == {} && table == null
    {
      this.hash := hash;
      table, size, sizemask, used := null, 0, 0, 0;
      chains, entries, m := [], {}, map[];
    }

    ghost predicate Sized()
      reads this
    {
      used <= size == |chains| <= MAX_SIZE && (size == 0 <==> table == null) &&
      (table != null ==> table.Length == size && sizemask == size - 1 && IsPower(size) && size >= INITIAL_SIZE)
    }

    ghost predicate InMemory()
      reads this, table, entries
    {
      (table != null ==> AllLinked(table, chains, entries)) && Stored(entries, m)
    }

    ghost predicate Valid()
      reads this, table, entries
    {
      Sized() && Mirrors(chains, hash, m.Keys) && used == |m.Keys| && InMemory()
    }

    method Find(key: K) returns (he: Entry?<K, V>)
      requires Valid()
      ensures he == null <==> key !in m
      ensures he != null ==> he in entries && he.key == key && he.val == m[key]
    {
      hide And, Mirrors, Linked, Total, IsPower;
      if size == 0 {
        NoChains(chains, hash, m.Keys);
        return null;
      }
      var h := And(hash(key), sizemask);
      ghost var j;
      he, j := Search(table[h], key, chains[h]);
      Bucket(chains, hash, m.Keys, key);
    }

    /** Makes the first table, or rehashes all entries into a larger one. */
    method Expand(size: nat) returns (ok: bool)
      requires Valid() && size <= MAX_SIZE
      modifies this, entries`next
      ensures Valid() && m == old(m) && entries == old(entries)
      ensures ok <==> old(used) <= size
      ensures if ok then this.size >= size && fresh(table) else this.size == old(this.size) && table == old(table)
    {
      hide And, Mirrors, AllLinked, Total, IsPower, Stored;
      var realsize := NextPower(size);
      if used > size { return false; }
      NextPowerFits(size, realsize);
      var n := new Entry?<K, V>[realsize](_ => null);
      var nused := used;
      ghost var done := Rehash(n);
      table, this.size, sizemask, used := n, realsize, realsize - 1, nused;
      chains := done;
      return true;
    }

    /** Moves every entry to the new table, until none is left in the old. */
    method Rehash(n: array<Entry?<K, V>>) returns (ghost done: seq<Chain<K, V>>)
      requires Valid() && n.Length > 0 && n != table && forall i :: 0 <= i < n.Length ==> n[i] == null
      modifies this`used, entries`next, n
      ensures |done| == n.Length && AllLinked(n, done, entries) && Mirrors(done, hash, m.Keys) && used == 0
      ensures Stored(entries, m)
    {
      hide And, Mirrors, AllLinked, LeftOver, Total, IsPower;
      ghost var none: Chain<K, V> := [];
      ghost var left, moved: set<K> := chains, {};
      done := seq(n.Length, _ => none);
      NothingYet(n, done, hash, entries);
      AllLeft(table, chains, entries);
      assert m.Keys - moved == m.Keys;
      var i := 0;
      while i < this.size && used > 0
        invariant 0 <= i <= this.size == |left| && used == |m.Keys - moved|
        invariant table != null ==>
          table.Length == |left| && forall k :: i <= k < |left| ==> table[k] == EntryAt(left[k], 0)
        invariant |done| == n.Length && AllLinked(n, done, entries) && Mirrors(done, hash, moved)
        invariant LeftOver(left, entries) && Mirrors(left, hash, m.Keys - moved) && moved <= m.Keys
        invariant forall k :: 0 <= k < i ==> left[k] == []
      {
        var count;
        count, done, left, moved := MoveList(table[i], hash, n, n.Length - 1, used, done, left, entries, moved,
            m.Keys, i);
        used := count;
        i := i + 1;
      }
      NoneLeft(left, hash, m.Keys - moved);
      assert moved == m.Keys;
    }

    lemma UsedIs()
      requires Valid()
      ensures used == |m.Keys|
    {
    }

    lemma HasTable()
      requires Valid()
      ensures size == |chains| && (size > 0 ==> table != null && table.Length == size)
    {
    }

    lemma FirstOf(i: nat)
      requires Valid() && i < size
      ensures table[i] == EntryAt(chains[i], 0)
    {
      assert Linked(table[i], chains[i]);
    }

    lemma NextOf(i: nat, j: nat)
      requires Valid() && i < size && j < |chains[i]|
      ensures chains[i][j].next == EntryAt(chains[i], j + 1)
    {
      assert Linked(table[i], chains[i]);
    }

    lemma OnlyPlace(i: nat, j: nat)
      requires Valid() && i < size && j < |chains[i]|
      ensures chains[i][j].key in m && And(hash(chains[i][j].key), sizemask) == i
      ensures forall p {:trigger chains[i][p]} :: 0 <= p < |chains[i]| && chains[i][p].key == chains[i][j].key ==>
        p == j
    {
      hide And, InMemory, IsPower;
      assert ChainOk(chains[i], hash, i, |chains|);
    }

    /** The entries in the order of the buckets: each key of the map once, with its value. */
    lemma AllEntries()
      requires Valid()
      ensures KeysDiffer(Flatten(chains, 0))
      ensures forall k :: k in m <==> KeyIn(Flatten(chains, 0), k)
      ensures forall j :: 0 <= j < |Flatten(chains, 0)| ==>
        Flatten(chains, 0)[j] in entries && Flatten(chains, 0)[j].key in m &&
          m[Flatten(chains, 0)[j].key] == Flatten(chains, 0)[j].val
    {
      hide Mirrors, IsPower, Linked, KeyIn, KeysDiffer;
      FlattenDiffers(chains, hash, m.Keys, 0);
      forall k ensures k in m <==> KeyIn(Flatten(chains, 0), k) {
        FlattenKeys(chains, hash, m.Keys, k);
      }
      forall j | 0 <= j < |Flatten(chains, 0)| ensures Flatten(chains, 0)[j] in entries {
        var h := FlattenFrom(chains, 0, Flatten(chains, 0)[j]);
      }
    }

    method ExpandIfNeeded() returns (ok: bool)
      requires Valid() && used < MAX_SIZE
      modifies this, entries`next
      ensures Valid() && m == old(m) && entries == old(entries) && ok && used < size
      ensures table == old(table) || fresh(table)
    {
      hide Mirrors, InMemory, IsPower;
      ok := true;
      if size == 0 {
        ok := Expand(INITIAL_SIZE);
      } else if used == size {
        Twice(size);
        ok := Expand(size * 2);
      }
    }

    /** The bucket in which a new key goes, or -1 if the key is there. */
    method KeyIndex(key: K) returns (index: int)
      requires Valid() && used < MAX_SIZE
      modifies this, entries`next
      ensures Valid() && m == old(m) && entries == old(entries) && used < size
      ensures table == old(table) || fresh(table)
      ensures index == if key in m then -1 else And(hash(key), sizemask)
    {
      hide Mirrors, Linked, And, Total, IsPower, Stored;
      var ok := ExpandIfNeeded();
      if !ok { return -1; }
      var h := And(hash(key), sizemask);
      var he;
      ghost var j;
      he, j := Search(table[h], key, chains[h]);
      Bucket(chains, hash, m.Keys, key);
      return if he != null then -1 else h;
    }

    /** Adds an entry if the key is new. */
    method Add(key: K, val: V) returns (ok: bool)
      requires Valid() && used < MAX_SIZE
      modifies this, table, entries`next
      ensures Valid() && ok == (key !in old(m)) && m == if ok then old(m)[key := val] else old(m)
      ensures fresh(entries - old(entries)) && (table == old(table) || fresh(table))
    {
      hide Valid;
      var index := KeyIndex(key);
      if index == -1 { return false; }
      Place(index, key, val);
      return true;
    }

    method Place(index: nat, key: K, val: V)
      requires Valid() && used < size && key !in m && index == And(hash(key), sizemask)
      modifies this, table
      ensures Valid() && m == old(m)[key := val] && fresh(entries - old(entries)) && table == old(table)
    {
      hide Mirrors, And, Total, IsPower, AllLinked, Stored;
      ghost var entry := NewEntry(index, key, val, hash, table, chains, entries, m);
      m, entries, chains := m[key := val], entries + {entry}, chains[index := [entry] + chains[index]];
      used := used + 1;
    }

    /** Sets the value of the key, whether or not it is new. */
    method Replace(key: K, val: V) returns (added: bool)
      requires Valid() && used < MAX_SIZE
      modifies this, table, entries
      ensures Valid() && added == (key !in old(m)) && m == old(m)[key := val]
      ensures fresh(entries - old(entries)) && (table == old(table) || fresh(table))
    {
      hide Mirrors, And, Total, IsPower, AllLinked;
      added := Add(key, val);
      if added { return; }
      var entry := Find(key);
      if entry == null { return; }
      SetVal(entry, val, table, chains, entries, m);
      assert m[key := val].Keys == m.Keys;
      m := m[key := val];
    }

    /** Deletes the entry of the key, if there is one, which stood at place `p` of its chain. */
    method Delete(key: K) returns (ok: bool, ghost p: nat)
      requires Valid()
      modifies this`used, this`chains, this`entries, this`m, table, entries`next
      ensures Valid() && ok == (key in old(m)) && m == old(m) - {key}
      ensures !ok ==> chains == old(chains) && entries == old(entries)
      ensures ok ==> LeavesChain(old(chains), chains, And(hash(key), sizemask), p, key)
      ensures ok ==> entries == old(entries) - {old(chains)[And(hash(key), sizemask)][p]}
    {
      hide And, Mirrors, AllLinked, Stored, Total, IsPower, Without;
      ok, p := false, 0;
      if size == 0 {
        NoChains(chains, hash, m.Keys);
        return;
      }
      var h := And(hash(key), sizemask);
      ghost var de;
      ok, de, p := DeleteFrom(table, h, key, chains, entries, m, hash);
      if !ok { return; }
      m, entries, chains := m - {key}, entries - {de}, chains[h := Without(chains[h], p)];
      used := used - 1;
    }
  }

  method DeleteFrom<K(==, !new), V(!new)>(table: array<Entry?<K, V>>, h: nat, key: K, ghost chains: seq<Chain<K, V>>,
                                         ghost entries: set<Entry<K, V>>, ghost m: map<K, V>, hash: K -> nat)
    returns (ok: bool, ghost de: Entry?<K, V>, ghost p: nat)
    requires h < table.Length == |chains| && h == And(hash(key), |chains| - 1)
    requires AllLinked(table, chains, entries) && Stored(entries, m) && Mirrors(chains, hash, m.Keys)
    modifies table, entries`next
    ensures ok == (key in m)
    ensures !ok ==> AllLinked(table, chains, entries) && Stored(entries, m)
    ensures ok ==> p < |chains[h]| && de != null && chains[h][p] == de && de.key == key && |m.Keys| > 0
    ensures ok ==>
      var chains' := chains[h := Without(chains[h], p)];
      AllLinked(table, chains', entries - {de}) && Mirrors(chains', hash, (m - {key}).Keys) &&
        Stored(entries - {de}, m - {key})
  {
    hide And, Mirrors, AllLinked, Stored, Total, Without;
    Bucket(chains, hash, m.Keys, key);
    var before, found;
    before, found, p := SearchBoth(table, h, key, chains, entries);
    de := found;
    if found == null { return false, null, 0; }
    Unlink(before, found, table, h, chains, entries, m, hash, p);
    ok := true;
  }

  /** Follows list `h` to the entry with the key, and keeps the entry before. */
  method SearchBoth<K(==), V>(table: array<Entry?<K, V>>, h: nat, key: K, ghost chains: seq<Chain<K, V>>,
                          ghost entries: set<Entry<K, V>>)
    returns (prevde: Entry?<K, V>, de: Entry?<K, V>, ghost p: nat)
    requires h < table.Length == |chains| && AllLinked(table, chains, entries)
    ensures de == null <==> !KeyIn(chains[h], key)
    ensures de != null ==> p < |chains[h]| && de == chains[h][p] && de.key == key
    ensures de != null ==> prevde == if p == 0 then null else chains[h][p - 1]
  {
    ghost var c := chains[h];
    assert Linked(table[h], c);
    prevde, de, p := null, table[h], 0;
    while de != null
      invariant 0 <= p <= |c| && de == EntryAt(c, p) && forall i :: 0 <= i < p ==> c[i].key != key
      invariant prevde == if p == 0 then null else c[p - 1]
      decreases |c| - p
    {
      if key == de.key { return; }
      prevde := de;
      de := de.next;
      p := p + 1;
    }
  }

  /** Takes an entry out of its list. */
  method Unlink<K, V>(prevde: Entry?<K, V>, de: Entry<K, V>, table: array<Entry?<K, V>>, h: nat,
                      ghost chains: seq<Chain<K, V>>,
                      ghost entries: set<Entry<K, V>>, ghost m: map<K, V>, ghost hash: K -> nat, ghost p: nat)
    requires h < table.Length == |chains| && AllLinked(table, chains, entries) && Stored(entries, m) &&
      Mirrors(chains, hash, m.Keys)
    requires p < |chains[h]| && de == chains[h][p] && prevde == if p == 0 then null else chains[h][p - 1]
    modifies table, entries`next
    ensures de.key in m && |m.Keys| > 0
    ensures
      var chains' := chains[h := Without(chains[h], p)];
      AllLinked(table, chains', entries - {de}) && Mirrors(chains', hash, (m - {de.key}).Keys)
    ensures Stored(entries - {de}, m - {de.key})
  {
    hide And, Mirrors, Total, Linked;
    ghost var c := chains[h];
    ghost var chains' := chains[h := Without(c, p)];
    Remove(chains, hash, m.Keys, h, p);
    InKeys(chains, hash, m.Keys, h, p);
    assert (m - {de.key}).Keys == m.Keys - {de.key};
    Absent(chains', hash, m.Keys - {de.key}, de);
    Separate(chains, hash, m.Keys, h);
    UnlinkList(prevde, de, table, h, c, p);
    forall i | 0 <= i < |chains| ensures Linked(table[i], chains'[i]) {
      assert old(Linked(table[i], chains[i]));
    }
  }

  method UnlinkList<K, V>(prevde: Entry?<K, V>, de: Entry<K, V>, table: array<Entry?<K, V>>, h: nat,
                          ghost c: Chain<K, V>, ghost p: nat)
    requires h < table.Length && Linked(table[h], c) && forall j, k :: 0 <= j < k < |c| ==> c[j] != c[k]
    requires p < |c| && de == c[p] && prevde == if p == 0 then null else c[p - 1]
    modifies table, (if prevde == null then {} else {prevde})`next
    ensures Linked(table[h], Without(c, p)) && forall i :: 0 <= i < table.Length && i != h ==> table[i] == old(table[i])
  {
    if prevde != null {
      prevde.next := de.next;
    } else {
      table[h] := de.next;
    }
  }

  /** Moves list `i`, entry by entry; the counter of entries in the old table goes down. */
  method MoveList<K, V>(head: Entry?<K, V>, hash: K -> nat, table: array<Entry?<K, V>>, mask: nat, used: nat,
                        ghost done0: seq<Chain<K, V>>, ghost left0: seq<Chain<K, V>>, ghost entries: set<Entry<K, V>>,
                        ghost moved0: set<K>, ghost keys: set<K>, ghost i: nat)
    returns (count: nat, ghost done: seq<Chain<K, V>>, ghost left: seq<Chain<K, V>>, ghost moved: set<K>)
    requires done0 != [] && mask == |done0| - 1 && AllLinked(table, done0, entries) && Mirrors(done0, hash, moved0)
    requires LeftOver(left0, entries) && Mirrors(left0, hash, keys - moved0) && moved0 <= keys &&
      used == |keys - moved0|
    requires i < |left0| && EntryAt(left0[i], 0) == head
    modifies table, entries`next
    ensures |done| == |done0| && AllLinked(table, done, entries) && Mirrors(done, hash, moved)
    ensures LeftOver(left, entries) && Mirrors(left, hash, keys - moved) && moved <= keys && count == |keys - moved|
    ensures left == left0[i := []]
  {
    hide And, Mirrors, Total, Linked;
    var he := head;
    count, done, left, moved := used, done0, left0, moved0;
    while he != null
      invariant |done| == |done0| && AllLinked(table, done, entries) && Mirrors(done, hash, moved)
      invariant LeftOver(left, entries) && Mirrors(left, hash, keys - moved) && moved <= keys && count == |keys - moved|
      invariant |left| == |left0| && left == left0[i := left[i]] && he == EntryAt(left[i], 0)
      decreases |left[i]|
    {
      ghost var key, rest := he.key, keys - moved;
      he, done, left, moved := MoveFirst(he, hash, table, mask, done, left, entries, moved, keys, i);
      assert rest == keys - moved + {key};
      count := count - 1;
    }
  }

  lemma Twice(size: nat)
    requires IsPower(size) && size < MAX_SIZE
    ensures size * 2 <= MAX_SIZE
  {
    MaxIsPower();
    PowerBelow(size, MAX_SIZE);
  }

  lemma AllLinkedMore<K, V>(table: array<Entry?<K, V>>, chains: seq<Chain<K, V>>, few: set<Entry<K, V>>,
      many: set<Entry<K, V>>)
    requires AllLinked(table, chains, few) && few <= many
    ensures AllLinked(table, chains, many)
  {
    hide Linked;
  }

  lemma NothingYet<K, V>(table: array<Entry?<K, V>>, chains: seq<Chain<K, V>>, hash: K -> nat,
                         entries: set<Entry<K, V>>)
    requires table.Length == |chains| > 0 && forall i :: 0 <= i < |chains| ==> table[i] == null && chains[i] == []
    ensures AllLinked(table, chains, entries) && Mirrors(chains, hash, {})
  {
    hide And;
    TotalEmpty(chains);
  }

  lemma AllLeft<K, V>(table: array?<Entry?<K, V>>, chains: seq<Chain<K, V>>, entries: set<Entry<K, V>>)
    requires if table == null then chains == [] else AllLinked(table, chains, entries)
    ensures LeftOver(chains, entries)
    ensures table != null ==> forall k :: 0 <= k < |chains| ==> table[k] == EntryAt(chains[k], 0)
  {
  }

  /** The entries that have not been moved; the lists that begin with them are in memory. */
  ghost predicate LeftOver<K, V>(left: seq<Chain<K, V>>, entries: set<Entry<K, V>>)
    reads entries
  {
    (forall i, j :: 0 <= i < |left| && 0 <= j < |left[i]| ==> left[i][j] in entries) &&
    forall i :: 0 <= i < |left| ==> Linked(EntryAt(left[i], 0), left[i])
  }

  /** Moves the first entry of list `i`, and gives the one behind it. */
  method MoveFirst<K, V>(he: Entry<K, V>, hash: K -> nat, table: array<Entry?<K, V>>, mask: nat,
                         ghost done: seq<Chain<K, V>>, ghost left: seq<Chain<K, V>>, ghost entries: set<Entry<K, V>>,
                         ghost moved: set<K>, ghost keys: set<K>, ghost i: nat)
    returns (next: Entry?<K, V>, ghost done': seq<Chain<K, V>>, ghost left': seq<Chain<K, V>>, ghost moved': set<K>)
    requires done != [] && mask == |done| - 1 && AllLinked(table, done, entries) && Mirrors(done, hash, moved)
    requires LeftOver(left, entries) && Mirrors(left, hash, keys - moved) && moved <= keys
    requires i < |left| && EntryAt(left[i], 0) == he
    modifies table, he`next
    ensures |done'| == |done| && AllLinked(table, done', entries) && Mirrors(done', hash, moved')
    ensures LeftOver(left', entries) && Mirrors(left', hash, keys - moved') && moved' == moved + {he.key} &&
      moved' <= keys
    ensures left' == left[i := left[i][1..]] && next == EntryAt(left'[i], 0) && he.key in keys - moved
  {
    hide And, Mirrors, Total;
    next := he.next;
    ghost var c := left[i];
    Remove(left, hash, keys - moved, i, 0);
    InKeys(left, hash, keys - moved, i, 0);
    assert Without(c, 0) == c[1..];
    left', moved' := left[i := c[1..]], moved + {he.key};
    assert keys - moved - {he.key} == keys - moved';
    assert he == c[0];
    Absent(left', hash, keys - moved', he);
    ghost var h := And(hash(he.key), mask);
    done' := done[h := [he] + done[h]];
    MoveEntry(he, hash, table, mask, done, entries, moved);
    forall k | 0 <= k < |left'| ensures Linked(EntryAt(left'[k], 0), left'[k]) {
      assert old(Linked(EntryAt(left[k], 0), left[k]));
    }
  }

  /** Makes an entry for a new key and puts it to the front of its list. */
  method NewEntry<K(!new), V(!new)>(index: nat, key: K, val: V, hash: K -> nat, table: array<Entry?<K, V>>,
                        ghost chains: seq<Chain<K, V>>,
                        ghost entries: set<Entry<K, V>>, ghost m: map<K, V>)
    returns (entry: Entry<K, V>)
    requires table.Length == |chains| > 0 && AllLinked(table, chains, entries) && Stored(entries, m)
    requires Mirrors(chains, hash, m.Keys) && key !in m && index == And(hash(key), |chains| - 1)
    modifies table
    ensures fresh(entry) && entry.key == key
    ensures AllLinked(table, chains[index := [entry] + chains[index]], entries + {entry})
    ensures Mirrors(chains[index := [entry] + chains[index]], hash, m[key := val].Keys)
    ensures Stored(entries + {entry}, m[key := val])
  {
    hide And, Mirrors, Total, AllLinked;
    entry := new Entry(key, val, null);
    AllLinkedMore(table, chains, entries, entries + {entry});
    StoredMore(entries, m, entry);
    assert m[key := val].Keys == m.Keys + {key};
    MoveEntry(entry, hash, table, table.Length - 1, chains, entries + {entry}, m.Keys);
  }

  /** Puts an entry to the front of its list in the table. */
  method MoveEntry<K, V>(he: Entry<K, V>, hash: K -> nat, table: array<Entry?<K, V>>, mask: nat,
                         ghost chains: seq<Chain<K, V>>,
                         ghost entries: set<Entry<K, V>>, ghost keys: set<K>)
    requires chains != [] && mask == |chains| - 1 && AllLinked(table, chains, entries)
    requires Mirrors(chains, hash, keys) && he.key !in keys && he in entries
    modifies table, he`next
    ensures
      var h := And(hash(he.key), mask);
      var chains' := chains[h := [he] + chains[h]];
      AllLinked(table, chains', entries) && Mirrors(chains', hash, keys + {he.key})
  {
    hide And, Mirrors, Total;
    var h := And(hash(he.key), mask);
    Absent(chains, hash, keys, he);
    Insert(chains, hash, keys, he);
    he.next := table[h];
    table[h] := he;
    ghost var c := [he] + chains[h];
    ghost var chains' := chains[h := c];
    forall i | 0 <= i < |chains| ensures Linked(table[i], chains'[i]) {
      assert old(Linked(table[i], chains[i]));
    }
  }

  // ----- runs -----

  datatype Op<K, V> = Add(key: K, val: V) | Replace(key: K, val: V) | Delete(key: K) | Find(key: K)

  datatype Outcome<V> = Done(ok: bool) | Got(found: Option<V>)

  /** The map after the operations. */
  function After<K, V>(ops: seq<Op<K, V>>): map<K, V> {
    if ops == [] then map[] else Changed(After(ops[..|ops| - 1]), ops[|ops| - 1])
  }

  function Changed<K, V>(m: map<K, V>, op: Op<K, V>): map<K, V> {
    match op
    case Add(k, v) => if k in m then m else m[k := v]
    case Replace(k, v) => m[k := v]
    case Delete(k) => m - {k}
    case Find(_) => m
  }

  /** What an operation says of a map. */
  function Says<K, V>(m: map<K, V>, op: Op<K, V>): Outcome<V> {
    match op
    case Add(k, _) => Done(k !in m)
    case Replace(k, _) => Done(k !in m)
    case Delete(k) => Done(k in m)
    case Find(k) => Got(if k in m then Some(m[k]) else None)
  }

  /** Any run of the table, across all its rehashings, is a run of a map. */
  method Run<K(==, !new), V(!new)>(hash: K -> nat, ops: seq<Op<K, V>>) returns (said: seq<Outcome<V>>)
    requires |ops| <= MAX_SIZE
    ensures |said| == |ops| && forall i :: 0 <= i < |ops| ==> said[i] == Says(After(ops[..i]), ops[i])
  {
    hide Dict.Valid, Says, After;
    var d := new Dict(hash);
    said := [];
    NoOps<K, V>(ops);
    var i := 0;
    while i < |ops|
      invariant 0 <= i <= |ops| && d.Valid() && fresh(d) && fresh(d.entries) && (d.table != null ==> fresh(d.table))
      invariant d.m == After(ops[..i]) && |d.m.Keys| <= i
      invariant |said| == i && forall j :: 0 <= j < i ==> said[j] == Says(After(ops[..j]), ops[j])
    {
      d.UsedIs();
      NextOp(ops, i);
      var outcome := Apply(d, ops[i]);
      said := said + [outcome];
      i := i + 1;
    }
  }

  lemma NoOps<K, V>(ops: seq<Op<K, V>>)
    ensures After(ops[..0]) == map[]
  {
  }

  lemma NextOp<K, V>(ops: seq<Op<K, V>>, i: nat)
    requires i < |ops|
    ensures After(ops[..i + 1]) == Changed(After(ops[..i]), ops[i])
    ensures |Changed(After(ops[..i]), ops[i]).Keys| <= |After(ops[..i]).Keys| + 1
  {
    assert ops[..i + 1][..i] == ops[..i];
    var m := After(ops[..i]);
    var k := ops[i].key;
    var m' := Changed(m, ops[i]);
    assert m'.Keys == m.Keys || m'.Keys == m.Keys + {k} || m'.Keys == m.Keys - {k};
  }

  method Apply<K(==, !new), V(!new)>(d: Dict<K, V>, op: Op<K, V>) returns (outcome: Outcome<V>)
    requires d.Valid() && d.used < MAX_SIZE
    modifies d, d.table, d.entries
    ensures d.Valid() && outcome == Says(old(d.m), op) && d.m == Changed(old(d.m), op)
    ensures fresh(d.entries - old(d.entries)) && (d.table == old(d.table) || fresh(d.table))
  {
    hide Dict.Valid;
    match op {
      case Add(k, v) =>
        var ok := d.Add(k, v);
        outcome := Done(ok);
      case Replace(k, v) =>
        var added := d.Replace(k, v);
        outcome := Done(added);
      case Delete(k) =>
        ghost var p;
        var ok;
        ok, p := d.Delete(k);
        outcome := Done(ok);
      case Find(k) =>
        var e := d.Find(k);
        outcome := Got(if e == null then None else Some(e.val));
    }
  }
}
