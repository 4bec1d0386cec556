/** Groups of answers that compare as equal, and the records of comparisons that did not. */
module Groups {
  import opened Wrappers
  import opened Answers

  type Data = map<Key, Answer>

  /** A group: the answer it started with, and the keys of its members in order of arrival. */
  datatype Group = Group(rep: Answer, keys: seq<Key>)

  /** A failed comparison with the answer `key`. */
  datatype Record = Record(key: Key, reason: Reason)

  ghost predicate Alike(cmp: Compare, a: Answer, b: Answer) {
    a == b || Same(cmp, a, b)
  }

  /** The keys of the answers that are `a` or compare as equal to it. */
  ghost function ClassOf(cmp: Compare, data: Data, a: Answer): set<Key> {
    set k | k in data && Alike(cmp, a, data[k])
  }

  lemma AlikeEquivalence(cmp: Compare, a: Answer, b: Answer, c: Answer)
    requires Lawful(cmp)
    ensures Alike(cmp, a, b) == Alike(cmp, b, a)
    ensures Alike(cmp, a, b) && Alike(cmp, b, c) ==> Alike(cmp, a, c)
    ensures Alike(cmp, a, b) ==> a.status == b.status
  {
  }

  ghost function KeySet(keys: seq<Key>): set<Key> { set k | k in keys }

  /** A group is exactly the class of its representative, with no key twice. */
  ghost predicate GroupOk(cmp: Compare, data: Data, g: Group) {
    g.rep.key in data && data[g.rep.key] == g.rep &&
    KeySet(g.keys) == ClassOf(cmp, data, g.rep) && |KeySet(g.keys)| == |g.keys|
  }

  ghost predicate Apart(cmp: Compare, groups: seq<Group>) {
    forall i, j :: 0 <= i < j < |groups| ==> !Alike(cmp, groups[i].rep, groups[j].rep)
  }

  ghost predicate Represented(cmp: Compare, groups: seq<Group>, a: Answer) {
    exists i :: 0 <= i < |groups| && Alike(cmp, groups[i].rep, a)
  }

  ghost predicate KeysMatch(data: Data) {
    forall k :: k in data ==> data[k].key == k
  }

  /** The grouping of the answers so far: the groups are classes, no two of them the same class,
      and every answer is in one. */
  ghost predicate GroupsOk(cmp: Compare, data: Data, groups: seq<Group>) {
    KeysMatch(data) && Apart(cmp, groups) &&
    (forall i :: 0 <= i < |groups| ==> GroupOk(cmp, data, groups[i])) &&
    forall k :: k in data ==> Represented(cmp, groups, data[k])
  }

  /** The classes of a set of answers. */
  ghost function Classes(cmp: Compare, data: Data): set<set<Key>> {
    set k | k in data :: ClassOf(cmp, data, data[k])
  }

  /** The sets of keys of the groups. */
  ghost function Partition(groups: seq<Group>): set<set<Key>> {
    set i | 0 <= i < |groups| :: KeySet(groups[i].keys)
  }

  /** Grouping is canonical: the groups are the classes of the answers, whatever the order in which
      the answers arrived and the groups are kept. */
  lemma GroupsAreClasses(cmp: Compare, data: Data, groups: seq<Group>)
    requires Lawful(cmp) && GroupsOk(cmp, data, groups)
    ensures Partition(groups) == Classes(cmp, data)
  {
    hide Lawful, GroupsOk, ClassOf, KeySet;
    forall s | s in Partition(groups)
      ensures s in Classes(cmp, data)
    {
      var i :| 0 <= i < |groups| && s == KeySet(groups[i].keys);
      GroupAt(cmp, data, groups, i);
    }
    forall s | s in Classes(cmp, data)
      ensures s in Partition(groups)
    {
      var k :| k in data && s == ClassOf(cmp, data, data[k]);
      var i := GroupFor(cmp, data, groups, k);
    }
  }

  lemma GroupAt(cmp: Compare, data: Data, groups: seq<Group>, i: nat)
    requires GroupsOk(cmp, data, groups) && i < |groups|
    ensures groups[i].rep.key in data && data[groups[i].rep.key] == groups[i].rep
    ensures KeySet(groups[i].keys) == ClassOf(cmp, data, groups[i].rep)
    ensures |ClassOf(cmp, data, groups[i].rep)| == |groups[i].keys|
  {
    hide ClassOf, KeySet, Alike, Represented;
    assert GroupOk(cmp, data, groups[i]);
  }

  lemma GroupFor(cmp: Compare, data: Data, groups: seq<Group>, k: Key) returns (i: nat)
    requires Lawful(cmp) && GroupsOk(cmp, data, groups) && k in data
    ensures i < |groups| && Alike(cmp, groups[i].rep, data[k])
    ensures KeySet(groups[i].keys) == ClassOf(cmp, data, data[k])
  {
    hide Alike, Lawful, ClassOf, KeySet, GroupOk;
    assert Represented(cmp, groups, data[k]);
    i :| 0 <= i < |groups| && Alike(cmp, groups[i].rep, data[k]);
    GroupAt(cmp, data, groups, i);
    SameClass(cmp, data, groups[i].rep, data[k]);
  }

  lemma SameClass(cmp: Compare, data: Data, a: Answer, b: Answer)
    requires Lawful(cmp) && Alike(cmp, a, b)
    ensures ClassOf(cmp, data, a) == ClassOf(cmp, data, b)
  {
    hide Alike, Lawful;
    forall k | k in data
      ensures Alike(cmp, a, data[k]) == Alike(cmp, b, data[k])
    {
      AlikeEquivalence(cmp, a, b, data[k]);
      AlikeEquivalence(cmp, b, a, data[k]);
    }
  }

  /** Classes that are not the same have nothing in common. */
  lemma DistinctClasses(cmp: Compare, data: Data, a: Answer, b: Answer)
    requires Lawful(cmp) && !Alike(cmp, a, b)
    ensures ClassOf(cmp, data, a) !! ClassOf(cmp, data, b)
  {
    hide Alike, Lawful;
    forall k | k in data && Alike(cmp, a, data[k]) && Alike(cmp, b, data[k])
      ensures false
    {
      AlikeEquivalence(cmp, b, data[k], a);
      AlikeEquivalence(cmp, a, data[k], b);
    }
  }

  lemma ClassGrows(cmp: Compare, data: Data, rep: Answer, a: Answer)
    requires a.key !in data
    ensures ClassOf(cmp, data[a.key := a], rep) ==
            ClassOf(cmp, data, rep) + (if Alike(cmp, rep, a) then {a.key} else {})
    ensures a.key !in ClassOf(cmp, data, rep)
  {
    hide Alike;
  }

  lemma KeySetGrows(keys: seq<Key>, k: Key)
    ensures KeySet(keys + [k]) == KeySet(keys) + {k}
    ensures KeySet([k]) == {k}
  {
  }

  lemma GroupKeeps(cmp: Compare, data: Data, g: Group, a: Answer)
    requires GroupOk(cmp, data, g) && a.key !in data
    ensures !Alike(cmp, g.rep, a) ==> GroupOk(cmp, data[a.key := a], g)
    ensures Alike(cmp, g.rep, a) ==> GroupOk(cmp, data[a.key := a], g.(keys := g.keys + [a.key]))
  {
    hide Alike, ClassOf, KeySet;
    ClassGrows(cmp, data, g.rep, a);
    KeySetGrows(g.keys, a.key);
  }

  /** `groups` with one more key in group `i`. */
  function Joined(groups: seq<Group>, i: nat, k: Key): (r: seq<Group>)
    requires i < |groups|
    ensures |r| == |groups| && forall j :: 0 <= j < |groups| ==> r[j].rep == groups[j].rep
    ensures forall j :: 0 <= j < |groups| ==> r[j].keys == if j == i then groups[j].keys + [k] else groups[j].keys
  {
    groups[i := groups[i].(keys := groups[i].keys + [k])]
  }

  lemma JoinedGroupOk(cmp: Compare, data: Data, groups: seq<Group>, a: Answer, i: nat, j: nat)
    requires Lawful(cmp) && Apart(cmp, groups) && a.key !in data && i < |groups| && j < |groups|
    requires GroupOk(cmp, data, groups[j]) && Alike(cmp, groups[i].rep, a)
    ensures GroupOk(cmp, data[a.key := a], Joined(groups, i, a.key)[j])
  {
    hide Lawful, Alike, GroupOk;
    GroupKeeps(cmp, data, groups[j], a);
    if j != i {
      AlikeEquivalence(cmp, groups[i].rep, a, groups[j].rep);
      AlikeEquivalence(cmp, groups[j].rep, a, groups[i].rep);
      AlikeEquivalence(cmp, groups[j].rep, groups[i].rep, a);
    }
  }

  lemma JoinsGroup(cmp: Compare, data: Data, groups: seq<Group>, a: Answer, i: nat)
    requires Lawful(cmp)
    requires GroupsOk(cmp, data, groups) && a.key !in data && i < |groups| && Same(cmp, groups[i].rep, a)
    ensures GroupsOk(cmp, data[a.key := a], Joined(groups, i, a.key))
  {
    hide Same, Lawful, Alike, GroupOk, Represented, Joined;
    var groups' := Joined(groups, i, a.key);
    SameIsAlike(cmp, groups[i].rep, a);
    forall j | 0 <= j < |groups|
      ensures GroupOk(cmp, data[a.key := a], groups'[j])
    {
      JoinedGroupOk(cmp, data, groups, a, i, j);
    }
    RepresentedKeeps(cmp, data, groups, groups', a, i);
  }

  /** Groups can be extended and new ones put in between: what was represented still is. */
  lemma RepresentedKeeps(cmp: Compare, data: Data, groups: seq<Group>, groups': seq<Group>, a: Answer, i: nat)
    requires forall j :: 0 <= j < |groups| ==> groups[j].rep in Reps(groups')
    requires forall k :: k in data ==> Represented(cmp, groups, data[k])
    requires i < |groups'| && Alike(cmp, groups'[i].rep, a)
    ensures var data' := data[a.key := a]; forall k :: k in data' ==> Represented(cmp, groups', data'[k])
  {
    hide Alike;
    forall k | k in data
      ensures Represented(cmp, groups', data[k])
    {
      assert Represented(cmp, groups, data[k]);
      var j :| 0 <= j < |groups| && Alike(cmp, groups[j].rep, data[k]);
      assert groups[j].rep in Reps(groups');
    }
  }

  ghost function Reps(groups: seq<Group>): set<Answer> {
    set i | 0 <= i < |groups| :: groups[i].rep
  }

  /** `groups` with a new group at position `slot`. */
  function Inserted(groups: seq<Group>, g: Group, slot: nat): (r: seq<Group>)
    requires slot <= |groups|
    ensures |r| == |groups| + 1 && r[slot] == g
    ensures forall j :: 0 <= j < slot ==> r[j] == groups[j]
    ensures forall j :: slot < j < |r| ==> r[j] == groups[j - 1]
  {
    groups[..slot] + [g] + groups[slot..]
  }

  lemma InsertedGroupOk(cmp: Compare, data: Data, groups: seq<Group>, a: Answer, slot: nat, j: nat)
    requires Lawful(cmp) && GroupsOk(cmp, data, groups) && a.key !in data && slot <= |groups| && j <= |groups|
    requires forall i :: 0 <= i < |groups| ==> !Alike(cmp, groups[i].rep, a) && !Alike(cmp, a, groups[i].rep)
    ensures GroupOk(cmp, data[a.key := a], Inserted(groups, Group(a, [a.key]), slot)[j])
  {
    hide Lawful, Alike, GroupOk, Represented, Apart, Inserted;
    if j == slot {
      NewClass(cmp, data, groups, a);
      NewGroupOk(cmp, data, a);
    } else {
      GroupKeeps(cmp, data, groups[if j < slot then j else j - 1], a);
    }
  }

  lemma StartsGroup(cmp: Compare, data: Data, groups: seq<Group>, a: Answer, slot: nat)
    requires Lawful(cmp)
    requires GroupsOk(cmp, data, groups) && a.key !in data && slot <= |groups|
    requires forall i :: 0 <= i < |groups| ==> !Same(cmp, groups[i].rep, a)
    ensures GroupsOk(cmp, data[a.key := a], Inserted(groups, Group(a, [a.key]), slot))
  {
    hide Same, Lawful, Alike, GroupOk, Represented, Inserted;
    var groups' := Inserted(groups, Group(a, [a.key]), slot);
    NotAlike(cmp, data, groups, a);
    forall j | 0 <= j < |groups'|
      ensures GroupOk(cmp, data[a.key := a], groups'[j])
    {
      InsertedGroupOk(cmp, data, groups, a, slot, j);
    }
    forall j | 0 <= j < |groups|
      ensures groups[j].rep in Reps(groups')
    {
      assert groups'[if j < slot then j else j + 1] == groups[j];
    }
    ReflexiveAlike(cmp, a);
    RepresentedKeeps(cmp, data, groups, groups', a, slot);
  }

  lemma NewGroupOk(cmp: Compare, data: Data, a: Answer)
    requires ClassOf(cmp, data[a.key := a], a) == {a.key}
    ensures GroupOk(cmp, data[a.key := a], Group(a, [a.key]))
  {
    hide ClassOf;
    assert [a.key] == [] + [a.key];
    KeySetGrows([], a.key);
  }

  lemma NotAlike(cmp: Compare, data: Data, groups: seq<Group>, a: Answer)
    requires Lawful(cmp)
    requires GroupsOk(cmp, data, groups) && a.key !in data
    requires forall i :: 0 <= i < |groups| ==> !Same(cmp, groups[i].rep, a)
    ensures forall i :: 0 <= i < |groups| ==> !Alike(cmp, groups[i].rep, a) && !Alike(cmp, a, groups[i].rep)
  {
    hide ClassOf, Represented, KeySet;
    forall i | 0 <= i < |groups|
      ensures !Alike(cmp, groups[i].rep, a) && !Alike(cmp, a, groups[i].rep)
    {
      assert GroupOk(cmp, data, groups[i]);
    }
  }

  lemma SameIsAlike(cmp: Compare, a: Answer, b: Answer)
    requires Same(cmp, a, b)
    ensures Alike(cmp, a, b)
  {
  }

  lemma ReflexiveAlike(cmp: Compare, a: Answer)
    ensures Alike(cmp, a, a)
  {
  }

  /** An answer that no representative equals is a class of its own. */
  lemma NewClass(cmp: Compare, data: Data, groups: seq<Group>, a: Answer)
    requires Lawful(cmp) && GroupsOk(cmp, data, groups) && a.key !in data
    requires forall i :: 0 <= i < |groups| ==> !Alike(cmp, a, groups[i].rep)
    ensures ClassOf(cmp, data[a.key := a], a) == {a.key}
  {
    hide Alike, Lawful, GroupOk, Apart;
    forall k | k in data
      ensures !Alike(cmp, a, data[k])
    {
      assert Represented(cmp, groups, data[k]);
      var i :| 0 <= i < |groups| && Alike(cmp, groups[i].rep, data[k]);
      AlikeEquivalence(cmp, groups[i].rep, data[k], a);
      AlikeEquivalence(cmp, a, data[k], groups[i].rep);
    }
    ReflexiveAlike(cmp, a);
  }

  // ----- records of failed comparisons -----

  type Records = map<Key, seq<Record>>

  ghost predicate Recorded(records: Records, key: Key, other: Key) {
    key in records && exists n :: 0 <= n < |records[key]| && records[key][n].key == other
  }

  /** Every record is of a difference that is there. */
  ghost predicate RecordsSound(cmp: Compare, data: Data, records: Records) {
    forall key :: key in records ==>
      (key in data &&
       forall n :: 0 <= n < |records[key]| ==>
         var r := records[key][n];
         r.key in data && cmp.difference(data[key], data[r.key]) == Some(r.reason))
  }

  /** Any two groups have recorded each other. */
  ghost predicate RecordsComplete(groups: seq<Group>, records: Records) {
    forall i, j :: 0 <= i < |groups| && 0 <= j < |groups| && i != j ==>
      Recorded(records, groups[i].rep.key, groups[j].rep.key)
  }

  function AddRecord(records: Records, key: Key, r: Record): Records {
    if key in records then records[key := records[key] + [r]] else records[key := [r]]
  }

  lemma AddRecordKeeps(cmp: Compare, data: Data, records: Records, key: Key, r: Record)
    ensures Recorded(AddRecord(records, key, r), key, r.key)
    ensures forall k, other :: Recorded(records, k, other) ==> Recorded(AddRecord(records, key, r), k, other)
    ensures RecordsSound(cmp, data, records) && key in data && r.key in data &&
            cmp.difference(data[key], data[r.key]) == Some(r.reason) ==>
            RecordsSound(cmp, data, AddRecord(records, key, r))
  {
    hide Lawful;
    var records' := AddRecord(records, key, r);
    assert records'[key][|records'[key]| - 1] == r;
    forall k, other | Recorded(records, k, other)
      ensures Recorded(records', k, other)
    {
      var n :| 0 <= n < |records[k]| && records[k][n].key == other;
      assert records'[k][n].key == other;
    }
  }
}
