/** The iterator of the hash table, which allows the entry just returned to be deleted. */
module HashIterator {
  import opened DictChains
  import opened HashTable

  /** What is left, between two chains or behind `pos` entries of chain `index`. */
  ghost function Rest<K, V>(chains: seq<Chain<K, V>>, index: int, between: bool, pos: nat): Chain<K, V>
    requires -1 <= index && (!between ==> 0 <= index < |chains| && pos <= |chains[index]|)
  {
    if between then Flatten(chains, index + 1) else chains[index][pos..] + Flatten(chains, index + 1)
  }

  lemma RestNextChain<K, V>(chains: seq<Chain<K, V>>, index: int, pos: nat)
    requires -1 <= index
    ensures Rest(chains, index, true, pos) == if index + 1 < |chains| then Rest(chains, index + 1, false, 0) else []
  {
    if index + 1 < |chains| { assert chains[index + 1][0..] == chains[index + 1]; }
  }

  lemma RestNextEntry<K, V>(chains: seq<Chain<K, V>>, index: nat, pos: nat)
    requires index < |chains| && pos <= |chains[index]|
    ensures
      var c := chains[index];
      Rest(chains, index, false, pos) ==
        if pos < |c| then [c[pos]] + Rest(chains, index, false, pos + 1) else Rest(chains, index, true, pos)
  {
    var c, rest := chains[index], Flatten(chains, index + 1);
    if pos < |c| {
      assert c[pos..] == [c[pos]] + c[pos + 1..];
      assert [c[pos]] + c[pos + 1..] + rest == [c[pos]] + (c[pos + 1..] + rest);
    } else {
      assert c[pos..] + rest == rest;
    }
  }

  lemma WithoutTail<K, V>(c: Chain<K, V>, p: nat)
    requires p < |c|
    ensures |Without(c, p)| == |c| - 1 && Without(c, p)[p..] == c[p + 1..] &&
      EntryAt(Without(c, p), p) == EntryAt(c, p + 1)
  {
  }

  class Iterator<K(==, !new), V(!new)> {
    const ht: Dict<K, V>
    var index: int
    var entry: Entry?<K, V>
    var nextEntry: Entry?<K, V>
    /** How many entries of the chain at hand are behind the cursor. */
    ghost var pos: nat

    constructor (ht: Dict<K, V>)
      requires ht.Valid()
      ensures this.ht == ht && Valid() && Todo() == Flatten(ht.chains, 0)
    {
      this.ht := ht;
      index, entry, nextEntry, pos := -1, null, null, 0;
    }

    ghost predicate Valid()
      reads this, ht, ht.table, ht.entries
    {
      ht.Valid() && -1 <= index &&
      (entry != null ==>
         0 <= index < |ht.chains| && pos <= |ht.chains[index]| && nextEntry == EntryAt(ht.chains[index], pos))
    }

    /** The entries that have not been returned. */
    ghost function Todo(): Chain<K, V>
      requires Valid()
      reads this, ht, ht.table, ht.entries
    {
      Rest(ht.chains, index, entry == null, pos)
    }

    /** The next entry; the one after it is noted, since the caller may delete this one. */
    method Next() returns (e: Entry?<K, V>)
      requires Valid()
      modifies this
      ensures Valid() && (e == null <==> old(Todo()) == []) && (e == null ==> Todo() == [])
      ensures e != null ==> e == old(Todo())[0] && Todo() == old(Todo())[1..]
      ensures e != null ==> e == entry && AtReturned()
    {
      hide Dict.Valid, Flatten, Rest;
      ht.HasTable();
      ghost var chains, todo := ht.chains, Todo();
      var i, next := index, nextEntry;
      ghost var place: nat := pos;
      e := entry;
      while true
        invariant -1 <= i
        invariant e != null ==> 0 <= i < |chains| && place <= |chains[i]| && next == EntryAt(chains[i], place)
        invariant Rest(chains, i, e == null, place) == todo
        decreases if i < ht.size then ht.size - i else 0, e != null
      {
        if e == null {
          RestNextChain(chains, i, place);
          i := i + 1;
          if i >= ht.size { break; }
          ht.FirstOf(i);
          e := ht.table[i];
          place := 0;
        } else {
          e := next;
        }
        RestNextEntry(chains, i, place);
        if e != null {
          ht.NextOf(i, place);
          next := e.next;
          place := place + 1;
          break;
        }
      }
      if e == null { RestNextChain(chains, i, place); }
      index, entry, nextEntry, pos := i, e, next, place;
    }

    /** The cursor is just behind the entry that was returned. */
    ghost predicate AtReturned()
      requires Valid()
      reads this, ht, ht.table, ht.entries
    {
      entry != null && pos > 0 && ht.chains[index][pos - 1] == entry
    }

    lemma ReturnedIsStored()
      requires Valid() && AtReturned()
      ensures entry in ht.entries && entry.key in ht.m && ht.m[entry.key] == entry.val
    {
      hide Mirrors, IsPower, Linked;
    }

    /** The caller deletes the entry just returned: the cursor still stands before the next. */
    method DeleteReturned()
      requires Valid() && AtReturned()
      modifies this`pos, ht`used, ht`chains, ht`entries, ht`m, ht.table, ht.entries`next
      ensures Valid() && Todo() == old(Todo()) && ht.m == old(ht.m) - {old(entry.key)}
      ensures ht.entries == old(ht.entries) - {entry}
    {
      hide Dict.Valid, Flatten, And, Mirrors, KeyIn, Without;
      ghost var chains := ht.chains;
      ht.HasTable();
      ht.OnlyPlace(index, pos - 1);
      ghost var ok, p;
      ok, p := ht.Delete(entry.key);
      ghost var c := chains[index];
      WithoutTail(c, p);
      FlattenElsewhere(chains, index, Without(c, p), index + 1);
      pos := pos - 1;
    }
  }

  /** The pairs of a map, each once, in some order. */
  ghost predicate Lists<K, V>(seen: seq<(K, V)>, m: map<K, V>) {
    (forall i :: 0 <= i < |seen| ==> seen[i].0 in m && m[seen[i].0] == seen[i].1) &&
    (forall i, j :: 0 <= i < j < |seen| ==> seen[i].0 != seen[j].0) &&
    forall k :: k in m ==> exists i :: 0 <= i < |seen| && seen[i].0 == k
  }

  /** Goes through a table, and deletes some of the entries as they are returned: each entry of the
      table is returned once, whatever is deleted. */
  method Visit<K(==, !new), V(!new)>(ht: Dict<K, V>, drop: K -> bool) returns (seen: seq<(K, V)>)
    requires ht.Valid()
    modifies ht, ht.table, ht.entries
    ensures ht.Valid() && Lists(seen, old(ht.m))
    ensures ht.m == map k | k in old(ht.m) && !drop(k) :: old(ht.m)[k]
  {
    hide Dict.Valid, Iterator.Todo, Iterator.AtReturned, Flatten, KeyIn, KeysDiffer, Dropped;
    ht.AllEntries();
    var it := new Iterator(ht);
    ghost var all, m := it.Todo(), ht.m;
    seen := [];
    DroppedNone(m, drop);
    Behind(all, 0);
    var e := it.Next();
    while e != null
      invariant it.Valid() && fresh(it) && it.ht == ht && ht.table == old(ht.table) && ht.entries <= old(ht.entries)
      invariant
        if e == null then |seen| == |all|
        else |seen| < |all| && e == all[|seen|] && e == it.entry && it.AtReturned()
      invariant e != null ==> it.Todo() == all[|seen| + 1..]
      invariant Paired(seen, all, m) && Dropped(ht.m, m, all[..|seen|], drop)
      decreases |all| - |seen|, e != null
    {
      ghost var n := |seen|;
      it.ReturnedIsStored();
      DroppedHas(ht.m, m, all, n, drop);
      seen := seen + [(e.key, e.val)];
      DroppedMore(ht.m, m, all, n, drop);
      Behind(all, n + 1);
      if drop(e.key) {
        it.DeleteReturned();
      }
      e := it.Next();
    }
    AllSeen(seen, all, m, ht.m, drop);
  }

  ghost predicate Paired<K, V>(seen: seq<(K, V)>, all: Chain<K, V>, m: map<K, V>) {
    |seen| <= |all| && forall i :: 0 <= i < |seen| ==> all[i].key in m && seen[i] == (all[i].key, m[all[i].key])
  }

  /** Of the map are left all keys but those that were seen and dropped. */
  ghost predicate Dropped<K(!new), V>(left: map<K, V>, m: map<K, V>, seen: Chain<K, V>, drop: K -> bool) {
    (forall k :: k in left <==> k in m && !(drop(k) && KeyIn(seen, k))) && forall k :: k in left ==> left[k] == m[k]
  }

  lemma Behind<K, V>(all: Chain<K, V>, n: nat)
    requires n <= |all|
    ensures n == 0 ==> all[..0] == [] && all[n..] == all
    ensures
      if n < |all| then all[n..] != [] && all[n..][0] == all[n] && all[n..][1..] == all[n + 1..]
      else all[n..] == []
  {
  }

  lemma DroppedNone<K(!new), V>(m: map<K, V>, drop: K -> bool)
    ensures Dropped(m, m, [], drop)
  {
  }

  lemma DroppedHas<K(!new), V>(left: map<K, V>, m: map<K, V>, all: Chain<K, V>, n: nat, drop: K -> bool)
    requires n < |all| && KeysDiffer(all) && Dropped(left, m, all[..n], drop) && all[n].key in left
    ensures all[n].key in m && left[all[n].key] == m[all[n].key]
  {
  }

  lemma DroppedMore<K(!new), V>(left: map<K, V>, m: map<K, V>, all: Chain<K, V>, n: nat, drop: K -> bool)
    requires n < |all| && Dropped(left, m, all[..n], drop)
    ensures
      var k := all[n].key;
      Dropped(if drop(k) then left - {k} else left, m, all[..n + 1], drop)
  {
    forall k ensures KeyIn(all[..n + 1], k) <==> KeyIn(all[..n], k) || k == all[n].key {
      KeyInMore(all, n, k);
    }
  }

  lemma KeyInMore<K, V>(all: Chain<K, V>, n: nat, k: K)
    requires n < |all|
    ensures KeyIn(all[..n + 1], k) <==> KeyIn(all[..n], k) || k == all[n].key
  {
    if KeyIn(all[..n], k) {
      var j :| 0 <= j < n && all[..n][j].key == k;
      assert all[..n + 1][j].key == k;
    }
    if k == all[n].key { assert all[..n + 1][n].key == k; }
  }

  lemma AllSeen<K(!new), V>(seen: seq<(K, V)>, all: Chain<K, V>, m: map<K, V>, left: map<K, V>, drop: K -> bool)
    requires |seen| == |all| && Paired(seen, all, m) && KeysDiffer(all) && (forall k :: k in m <==> KeyIn(all, k))
    requires Dropped(left, m, all[..|seen|], drop)
    ensures Lists(seen, m) && left == map k | k in m && !drop(k) :: m[k]
  {
    assert all[..|seen|] == all;
    forall k | k in m ensures exists i :: 0 <= i < |seen| && seen[i].0 == k {
      var j :| 0 <= j < |all| && all[j].key == k;
      assert seen[j].0 == k;
    }
  }
}
