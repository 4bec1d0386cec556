/** Flattening of JSON bodies into strings, as the voters do before they compare two bodies. */
module JsonFlat {
  import opened Decimal

  /** A parsed JSON document: scalars carry their type code (null 0, int 1, uint 2, real 3,
      string 4, boolean 5) and their printed text; the members of an object come in the order
      in which the library iterates over them. */
  datatype Json =
    | Scalar(code: nat, text: string)
    | Array(items: seq<Json>)
    | Object(members: seq<Member>)
  datatype Member = Member(name: string, value: Json)

  /** The ignore list, and which strings the number test of the utility module accepts. */
  datatype Rules = Rules(ignore: seq<string>, isNumber: string -> bool)

  function Code(j: Json): string {
    match j
    case Scalar(code, _) => Digits(code)
    case Array(_) => "6"
    case Object(_) => "7"
  }

  /** The path of an entry: an array position adds nothing to it. */
  function Path(key: string, name: string): string {
    if key != "" then key + "->" + name else name
  }

  predicate Skipped(rules: Rules, indexed: bool, name: string, key: string) {
    name in rules.ignore || (if indexed then "\U{0008}" else Path(key, name)) in rules.ignore
  }

  function ObjectKey(indexed: bool, name: string, key: string): string {
    if indexed then "" else Path(key, name)
  }

  function ObjectType(indexed: bool, ty: string): string {
    (if ty != "" then ty + "7" else if indexed then "67" else "7|7") + "|"
  }

  function ElementKey(indexed: bool, name: string, key: string): string {
    if key != "" && indexed then key else Path(key, name)
  }

  function ElementObjectType(indexed: bool, ty: string): string {
    (if ty != "" then ty + "67" else if indexed then "6|6|7" else "7|67") + "|"
  }

  function ElementArrayType(indexed: bool, ty: string): string {
    if ty != "" then ty + "66" else if indexed then "666" else "766"
  }

  /** The line of a scalar that is an element of an array. */
  function ElementLine(rules: Rules, indexed: bool, name: string, key: string, ty: string, ele: Json): string
    requires ele.Scalar?
  {
    (if indexed then (if rules.isNumber(key) || key == "" then "" else key + ":") else Path(key, name) + ":")
    + ele.text + "@"
    + (if ty != "" then ty + "6" else if indexed then "66" else "76") + "|" + Code(ele)
  }

  /** The line of a scalar that is an entry of the root at hand. */
  function EntryLine(rules: Rules, indexed: bool, name: string, key: string, ty: string, v: Json): string
    requires v.Scalar?
  {
    (if rules.isNumber(key) then "" else key)
    + (if indexed then "" else if key != "" then "->" + name else name)
    + (if rules.isNumber(name) then (if rules.isNumber(key) || key == "" then "" else ":") else ":")
    + v.text + "@"
    + (if ty != "" then ty + (if indexed then "|" else "") else (if rules.isNumber(name) then "6" else "7") + "|")
    + Code(v)
  }

  /** The lines of a document, in the order in which they are pushed. */
  function Flat(rules: Rules, root: Json, key: string, ty: string): seq<string>
    decreases root, 1
  {
    match root
    case Scalar(_, _) => []
    case Array(items) => FlatItems(rules, items, 0, key, ty)
    case Object(members) => FlatMembers(rules, members, key, ty)
  }

  function FlatItems(rules: Rules, items: seq<Json>, first: nat, key: string, ty: string): seq<string>
    decreases items, 0
  {
    if items == [] then []
    else
      FlatEntry(rules, true, Digits(first), items[0], key, ty) + FlatItems(rules, items[1..], first + 1, key, ty)
  }

  function FlatMembers(rules: Rules, members: seq<Member>, key: string, ty: string): seq<string>
    decreases members, 0
  {
    if members == [] then []
    else
      FlatEntry(rules, false, members[0].name, members[0].value, key, ty) + FlatMembers(rules, members[1..], key, ty)
  }

  function FlatEntry(rules: Rules, indexed: bool, name: string, v: Json, key: string, ty: string): seq<string>
    decreases v, 2
  {
    if Skipped(rules, indexed, name, key) then []
    else match v
    case Object(_) => Flat(rules, v, ObjectKey(indexed, name, key), ObjectType(indexed, ty))
    case Array(items) => FlatElements(rules, indexed, name, items, key, ty)
    case Scalar(_, _) => [EntryLine(rules, indexed, name, key, ty, v)]
  }

  function FlatElements(rules: Rules, indexed: bool, name: string, items: seq<Json>, key: string,
      ty: string): seq<string>
    decreases items, 0
  {
    if items == [] then []
    else
      FlatElement(rules, indexed, name, items[0], key, ty) + FlatElements(rules, indexed, name, items[1..], key, ty)
  }

  function FlatElement(rules: Rules, indexed: bool, name: string, ele: Json, key: string, ty: string): seq<string>
    decreases ele, 2
  {
    match ele
    case Object(_) => Flat(rules, ele, ElementKey(indexed, name, key), ElementObjectType(indexed, ty))
    case Array(_) => Flat(rules, ele, ElementKey(indexed, name, key), ElementArrayType(indexed, ty))
    case Scalar(_, _) => [ElementLine(rules, indexed, name, key, ty, ele)]
  }

  /** Pushes the lines of `root` at the end of the shared list. */
  method FlatJson(rules: Rules, root: Json, key: string, ty: string, flatted: seq<string>) returns (out: seq<string>)
    ensures out == flatted + Flat(rules, root, key, ty)
    decreases root, 2
  {
    hide FlatEntry, FlatItems, FlatMembers;
    out := flatted;
    if root.Scalar? { return; }
    var count := if root.Array? then |root.items| else |root.members|;
    RestAll(rules, root, key, ty);
    var i := 0;
    while i < count
      invariant 0 <= i <= count
      invariant out + Rest(rules, root, i, key, ty) == flatted + Flat(rules, root, key, ty)
    {
      hide Flat, Rest;
      RestStep(rules, root, i, key, ty);
      var name := if root.Array? then Digits(i) else root.members[i].name;
      var v := if root.Array? then root.items[i] else root.members[i].value;
      ghost var before, step, rest :=
        out, FlatEntry(rules, root.Array?, name, v, key, ty), Rest(rules, root, i + 1, key, ty);
      out := PushEntry(rules, root.Array?, name, v, key, ty, out);
      assert before + (step + rest) == before + step + rest;
      i := i + 1;
    }
  }

  /** Pushes the lines of one entry, unless it is ignored. */
  method PushEntry(rules: Rules, indexed: bool, name: string, v: Json, key: string, ty: string, flatted: seq<string>)
    returns (out: seq<string>)
    ensures out == flatted + FlatEntry(rules, indexed, name, v, key, ty)
    decreases v, 3
  {
    hide Flat, FlatElement;
    out := flatted;
    if Skipped(rules, indexed, name, key) { return; }
    match v {
      case Object(_) =>
        out := FlatJson(rules, v, ObjectKey(indexed, name, key), ObjectType(indexed, ty), out);
      case Array(items) =>
        var j := 0;
        assert items[j..] == items;
        while j < |items|
          invariant 0 <= j <= |items|
          invariant out + FlatElements(rules, indexed, name, items[j..], key, ty) ==
                    flatted + FlatElements(rules, indexed, name, items, key, ty)
        {
          ghost var before, step, rest :=
            out, FlatElement(rules, indexed, name, items[j], key, ty),
            FlatElements(rules, indexed, name, items[j + 1..], key, ty);
          assert items[j..][1..] == items[j + 1..];
          assert FlatElements(rules, indexed, name, items[j..], key, ty) == step + rest;
          hide FlatElements;
          out := PushElement(rules, indexed, name, items[j], key, ty, out);
          assert before + (step + rest) == before + step + rest;
          j := j + 1;
        }
      case Scalar(_, _) =>
        out := out + [EntryLine(rules, indexed, name, key, ty, v)];
    }
  }

  /** Pushes the lines of one element of an array that is itself an entry. */
  method PushElement(rules: Rules, indexed: bool, name: string, ele: Json, key: string, ty: string,
      flatted: seq<string>)
    returns (out: seq<string>)
    ensures out == flatted + FlatElement(rules, indexed, name, ele, key, ty)
    decreases ele, 3
  {
    match ele {
      case Object(_) =>
        out := FlatJson(rules, ele, ElementKey(indexed, name, key), ElementObjectType(indexed, ty), flatted);
      case Array(_) =>
        out := FlatJson(rules, ele, ElementKey(indexed, name, key), ElementArrayType(indexed, ty), flatted);
      case Scalar(_, _) =>
        out := flatted + [ElementLine(rules, indexed, name, key, ty, ele)];
    }
  }

  lemma RestAll(rules: Rules, root: Json, key: string, ty: string)
    requires !root.Scalar?
    ensures Rest(rules, root, 0, key, ty) == Flat(rules, root, key, ty)
    ensures Rest(rules, root, if root.Array? then |root.items| else |root.members|, key, ty) == []
  {
    if root.Array? { assert root.items[0..] == root.items; } else { assert root.members[0..] == root.members; }
  }

  /** The lines of the entries of `root` from the `i`-th on. */
  ghost function Rest(rules: Rules, root: Json, i: nat, key: string, ty: string): seq<string>
    requires !root.Scalar? && i <= (if root.Array? then |root.items| else |root.members|)
  {
    if root.Array? then FlatItems(rules, root.items[i..], i, key, ty)
    else FlatMembers(rules, root.members[i..], key, ty)
  }

  lemma RestStep(rules: Rules, root: Json, i: nat, key: string, ty: string)
    requires !root.Scalar? && i < (if root.Array? then |root.items| else |root.members|)
    ensures Rest(rules, root, i, key, ty) ==
      FlatEntry(rules, root.Array?, if root.Array? then Digits(i) else root.members[i].name,
                if root.Array? then root.items[i] else root.members[i].value, key, ty)
      + Rest(rules, root, i + 1, key, ty)
  {
    if root.Array? {
      assert root.items[i..][1..] == root.items[i + 1..];
    } else {
      assert root.members[i..][1..] == root.members[i + 1..];
    }
  }

  // ----- what the lines do not depend on -----

  /** A document up to the order of its arrays and without the members whose name is ignored. */
  datatype Shape =
    | ScalarShape(code: nat, text: string)
    | ArrayShape(items: multiset<Shape>)
    | ObjectShape(members: seq<(string, Shape)>)

  ghost function ShapeOf(rules: Rules, j: Json): Shape
    decreases j, 1
  {
    match j
    case Scalar(code, text) => ScalarShape(code, text)
    case Array(items) => ArrayShape(ShapesOf(rules, items))
    case Object(members) => ObjectShape(MemberShapes(rules, members))
  }

  ghost function ShapesOf(rules: Rules, items: seq<Json>): multiset<Shape>
    decreases items, 0
  {
    if items == [] then multiset{} else multiset{ShapeOf(rules, items[0])} + ShapesOf(rules, items[1..])
  }

  ghost function MemberShapes(rules: Rules, members: seq<Member>): seq<(string, Shape)>
    decreases members, 0
  {
    if members == [] then []
    else if members[0].name in rules.ignore then MemberShapes(rules, members[1..])
    else [(members[0].name, ShapeOf(rules, members[0].value))] + MemberShapes(rules, members[1..])
  }

  /** No member has an empty name, except below an ignored member. */
  ghost predicate Named(rules: Rules, j: Json)
    decreases j
  {
    match j
    case Scalar(_, _) => true
    case Array(items) => forall i :: 0 <= i < |items| ==> Named(rules, items[i])
    case Object(members) =>
      forall i :: 0 <= i < |members| && members[i].name !in rules.ignore ==>
        members[i].name != "" && Named(rules, members[i].value)
  }

  /** Array positions are numbers to the number test and are not ignored. */
  ghost predicate PositionsPlain(rules: Rules) {
    forall i: nat :: rules.isNumber(Digits(i)) && Digits(i) !in rules.ignore
  }

  /** The bag of the lines that `g` makes of the items. */
  ghost function Bag(g: Json -> seq<string>, items: seq<Json>): multiset<string> {
    if items == [] then multiset{} else multiset(g(items[0])) + Bag(g, items[1..])
  }

  lemma {:induction false} BagWithout(g: Json -> seq<string>, items: seq<Json>, k: nat)
    requires k < |items|
    ensures Bag(g, items) == multiset(g(items[k])) + Bag(g, items[..k] + items[k + 1..])
    decreases |items|
  {
    var without := items[..k] + items[k + 1..];
    if k == 0 {
      assert without == items[1..];
    } else {
      BagWithout(g, items[1..], k - 1);
      assert without[1..] == items[1..][..k - 1] + items[1..][k..];
      assert without[0] == items[0];
    }
  }

  lemma {:induction false} ShapesWithout(rules: Rules, items: seq<Json>, k: nat)
    requires k < |items|
    ensures ShapesOf(rules, items) == multiset{ShapeOf(rules, items[k])} + ShapesOf(rules, items[..k] + items[k + 1..])
    decreases |items|
  {
    var without := items[..k] + items[k + 1..];
    if k == 0 {
      assert without == items[1..];
    } else {
      ShapesWithout(rules, items[1..], k - 1);
      assert without[1..] == items[1..][..k - 1] + items[1..][k..];
      assert without[0] == items[0];
    }
  }

  lemma {:induction false} ShapeHasItem(rules: Rules, items: seq<Json>, s: Shape) returns (k: nat)
    requires s in ShapesOf(rules, items)
    ensures k < |items| && ShapeOf(rules, items[k]) == s
    decreases |items|
  {
    if ShapeOf(rules, items[0]) == s {
      k := 0;
    } else {
      var m := ShapeHasItem(rules, items[1..], s);
      k := m + 1;
    }
  }

  lemma ShapesTail(rules: Rules, a: seq<Json>, b: seq<Json>, k: nat)
    requires a != [] && k < |b| && ShapesOf(rules, a) == ShapesOf(rules, b) &&
      ShapeOf(rules, b[k]) == ShapeOf(rules, a[0])
    ensures ShapesOf(rules, a[1..]) == ShapesOf(rules, b[..k] + b[k + 1..])
  {
    hide ShapeOf;
    ShapesWithout(rules, b, k);
    var head := multiset{ShapeOf(rules, a[0])};
    assert ShapesOf(rules, a[1..]) == ShapesOf(rules, a) - head;
    assert ShapesOf(rules, b[..k] + b[k + 1..]) == ShapesOf(rules, b) - head;
  }

  /** Items with the same shapes, in whatever order, make the same bag of lines. */
  lemma {:induction false} SameShapesSameBag(rules: Rules, g: Json -> seq<string>, a: seq<Json>, b: seq<Json>)
    requires ShapesOf(rules, a) == ShapesOf(rules, b)
    requires forall x, y :: x in a && y in b && ShapeOf(rules, x) == ShapeOf(rules, y) ==>
      multiset(g(x)) == multiset(g(y))
    ensures Bag(g, a) == Bag(g, b)
    decreases |a|
  {
    hide ShapeOf;
    if a != [] {
      assert ShapeOf(rules, a[0]) in ShapesOf(rules, a);
      var k := ShapeHasItem(rules, b, ShapeOf(rules, a[0]));
      ShapesTail(rules, a, b, k);
      hide ShapesOf;
      BagWithout(g, b, k);
      var without := b[..k] + b[k + 1..];
      assert forall y :: y in without ==> y in b;
      SameShapesSameBag(rules, g, a[1..], without);
      assert multiset(g(a[0])) == multiset(g(b[k]));
    }
  }

  lemma {:induction false} ElementsBag(rules: Rules, indexed: bool, name: string, items: seq<Json>, key: string,
      ty: string)
    ensures multiset(FlatElements(rules, indexed, name, items, key, ty)) ==
            Bag(ele => FlatElement(rules, indexed, name, ele, key, ty), items)
    decreases |items|
  {
    if items != [] { ElementsBag(rules, indexed, name, items[1..], key, ty); }
  }

  // ----- which items show their position -----

  /** No ignored path begins at an array position, and a path below a position is no number. */
  ghost predicate PositionsFree(rules: Rules) {
    forall i: nat, s: string :: Below(i, s) ==> s !in rules.ignore && !rules.isNumber(s)
  }

  predicate Below(i: nat, s: string) { Digits(i) + "->" <= s }

  /** Below a position, some line shows it; `deep` says whether the path has gone on from there. */
  predicate Shows(rules: Rules, root: Json, deep: bool)
    decreases root, 1
  {
    match root
    case Scalar(_, _) => false
    case Array(items) => ItemsShow(rules, items, deep)
    case Object(members) => MembersShow(rules, members, deep)
  }

  predicate ItemsShow(rules: Rules, items: seq<Json>, deep: bool)
    decreases items, 0
  {
    items != [] && (EntryShows(rules, true, items[0], deep) || ItemsShow(rules, items[1..], deep))
  }

  predicate MembersShow(rules: Rules, members: seq<Member>, deep: bool)
    decreases members, 0
  {
    members != [] &&
    ((members[0].name !in rules.ignore && EntryShows(rules, false, members[0].value, deep)) ||
     MembersShow(rules, members[1..], deep))
  }

  /** A scalar shows the path it is under, if that is more than a position; an object in an array
      starts a path of its own; a member's name, and then any scalar below it, continues the path. */
  predicate EntryShows(rules: Rules, indexed: bool, v: Json, deep: bool)
    decreases v, 2
  {
    !(indexed && "\U{0008}" in rules.ignore) &&
    match v
    case Scalar(_, _) => deep
    case Object(_) => !indexed && Shows(rules, v, true)
    case Array(items) => ElementsShow(rules, items, deep || !indexed)
  }

  predicate ElementsShow(rules: Rules, items: seq<Json>, deep: bool)
    decreases items, 0
  {
    items != [] &&
    ((if items[0].Scalar? then deep else Shows(rules, items[0], deep)) || ElementsShow(rules, items[1..], deep))
  }

  /** The lines of an item of the root array depend on its position: through arrays in arrays it
      reaches an object that has an array or an object, with lines in it, as a member. */
  predicate PositionShows(rules: Rules, v: Json) {
    EntryShows(rules, true, v, false)
  }

  /** Lines made below two positions: each is the same, or shows the one position and the other;
      `shows` says whether the latter occurs. */
  ghost predicate Apart(s: seq<string>, t: seq<string>, i: nat, j: nat, shows: bool) {
    |s| == |t| && (shows <==> s != t) &&
    forall k :: 0 <= k < |s| && s[k] != t[k] ==> Below(i, s[k]) && Below(j, t[k])
  }

  lemma ApartSame(s: seq<string>, i: nat, j: nat)
    ensures Apart(s, s, i, j, false)
  {
  }

  lemma ApartConcat(s: seq<string>, t: seq<string>, i: nat, j: nat, a: bool, s': seq<string>, t': seq<string>, b: bool)
    requires Apart(s, t, i, j, a) && Apart(s', t', i, j, b)
    ensures Apart(s + s', t + t', i, j, a || b)
  {
    hide Below;
    if s + s' == t + t' {
      assert s == (s + s')[..|s|] && t == (t + t')[..|s|];
      assert s' == (s + s')[|s|..] && t' == (t + t')[|s|..];
    }
  }

  /** The digits of a position end where the arrow begins. */
  lemma OnePosition(i: nat, j: nat, s: string)
    requires Below(i, s) && Below(j, s)
    ensures i == j
  {
    NotLonger(i, j, s);
    NotLonger(j, i, s);
    var a, b := Digits(i), Digits(j);
    assert a == s[..|a|] && b == s[..|b|];
    DigitsDenote(i);
    DigitsDenote(j);
  }

  lemma NotLonger(i: nat, j: nat, s: string)
    requires Below(i, s) && Below(j, s)
    ensures |Digits(i)| <= |Digits(j)|
  {
    var a, b := Digits(i), Digits(j);
    assert (b + "->")[|b|] == '-' && s[|b|] == '-';
    assert forall k :: 0 <= k < |a| ==> s[k] == (a + "->")[k] == a[k] && IsDigit(s[k]);
  }

  lemma ApartShown(i: nat, j: nat, s: string, t: string)
    requires i != j && Below(i, s) && Below(j, t)
    ensures Apart([s], [t], i, j, true)
  {
    if s == t { OnePosition(i, j, s); }
  }

  ghost predicate Onwards(rel: string) { rel == "" || "->" <= rel }

  /** What the path below a position does to an entry. */
  lemma PathFacts(rules: Rules, i: nat, rel: string, name: string)
    requires PositionsPlain(rules) && PositionsFree(rules) && Onwards(rel)
    ensures Digits(i) + rel != "" && (rules.isNumber(Digits(i) + rel) <==> rel == "")
    ensures rel != "" ==> forall more: string :: Below(i, Digits(i) + rel + more)
    ensures Path(Digits(i) + rel, name) == Digits(i) + (rel + "->" + name)
    ensures Path(Digits(i) + rel, name) !in rules.ignore && Onwards(rel + "->" + name)
    ensures forall more: string :: Below(i, Path(Digits(i) + rel, name) + more)
  {
    if rel == "" {
      assert Digits(i) + rel == Digits(i);
      assert Digits(i) + (rel + "->" + name) == Digits(i) + "->" + name;
    } else {
      assert rel == "->" + rel[2..];
      forall more: string ensures Below(i, Digits(i) + rel + more) {
        assert Digits(i) + rel + more == Digits(i) + "->" + (rel[2..] + more);
      }
      assert Digits(i) + rel + "" == Digits(i) + rel;
    }
    assert Path(Digits(i) + rel, name) + "" == Path(Digits(i) + rel, name);
    forall more: string ensures Below(i, Path(Digits(i) + rel, name) + more) {
      if rel == "" {
        assert Path(Digits(i) + rel, name) + more == Digits(i) + "->" + (name + more);
      } else {
        assert Path(Digits(i) + rel, name) + more == Digits(i) + "->" + (rel[2..] + "->" + name + more);
      }
    }
  }

  lemma {:induction false} ApartFlat(rules: Rules, root: Json, i: nat, j: nat, rel: string, ty: string)
    requires PositionsPlain(rules) && PositionsFree(rules) && i != j && Onwards(rel)
    ensures Apart(Flat(rules, root, Digits(i) + rel, ty), Flat(rules, root, Digits(j) + rel, ty), i, j,
                  Shows(rules, root, rel != ""))
    decreases root, 1
  {
    hide PositionsPlain, PositionsFree, Onwards, Apart, Digits;
    match root
    case Scalar(_, _) => ApartSame([], i, j);
    case Array(items) => ApartItems(rules, items, 0, i, j, rel, ty);
    case Object(members) => ApartMembers(rules, members, i, j, rel, ty);
  }

  lemma {:induction false} ApartItems(rules: Rules, items: seq<Json>, first: nat, i: nat, j: nat, rel: string,
      ty: string)
    requires PositionsPlain(rules) && PositionsFree(rules) && i != j && Onwards(rel)
    ensures Apart(FlatItems(rules, items, first, Digits(i) + rel, ty),
                  FlatItems(rules, items, first, Digits(j) + rel, ty), i, j,
                  ItemsShow(rules, items, rel != ""))
    decreases items, 0
  {
    hide PositionsPlain, PositionsFree, Onwards, Apart, Digits, FlatEntry, EntryShows;
    if items == [] {
      ApartSame([], i, j);
    } else {
      var name, v := Digits(first), items[0];
      PositionPlain(rules, first);
      ApartEntry(rules, true, name, v, i, j, rel, ty);
      ApartItems(rules, items[1..], first + 1, i, j, rel, ty);
      ApartConcat(
        FlatEntry(rules, true, name, v, Digits(i) + rel, ty),
        FlatEntry(rules, true, name, v, Digits(j) + rel, ty), i, j,
        EntryShows(rules, true, v, rel != ""),
        FlatItems(rules, items[1..], first + 1, Digits(i) + rel, ty),
        FlatItems(rules, items[1..], first + 1, Digits(j) + rel, ty),
        ItemsShow(rules, items[1..], rel != ""));
    }
  }

  lemma {:induction false} ApartMembers(rules: Rules, members: seq<Member>, i: nat, j: nat, rel: string, ty: string)
    requires PositionsPlain(rules) && PositionsFree(rules) && i != j && Onwards(rel)
    ensures Apart(FlatMembers(rules, members, Digits(i) + rel, ty), FlatMembers(rules, members, Digits(j) + rel, ty),
                  i, j, MembersShow(rules, members, rel != ""))
    decreases members, 0
  {
    hide PositionsPlain, PositionsFree, Onwards, Apart, Digits, EntryShows;
    if members == [] {
      ApartSame([], i, j);
    } else {
      var name, v := members[0].name, members[0].value;
      if name in rules.ignore {
        assert FlatEntry(rules, false, name, v, Digits(i) + rel, ty) == [] ==
          FlatEntry(rules, false, name, v, Digits(j) + rel, ty);
        ApartSame([], i, j);
      } else {
        ApartEntry(rules, false, name, v, i, j, rel, ty);
      }
      ApartMembers(rules, members[1..], i, j, rel, ty);
      hide FlatEntry;
      ApartConcat(
        FlatEntry(rules, false, name, v, Digits(i) + rel, ty),
        FlatEntry(rules, false, name, v, Digits(j) + rel, ty), i, j,
        name !in rules.ignore && EntryShows(rules, false, v, rel != ""),
        FlatMembers(rules, members[1..], Digits(i) + rel, ty), FlatMembers(rules, members[1..], Digits(j) + rel, ty),
        MembersShow(rules, members[1..], rel != ""));
    }
  }

  lemma {:induction false} ApartEntry(rules: Rules, indexed: bool, name: string, v: Json, i: nat, j: nat, rel: string,
      ty: string)
    requires PositionsPlain(rules) && PositionsFree(rules) && i != j && Onwards(rel)
    requires name !in rules.ignore
    ensures Apart(FlatEntry(rules, indexed, name, v, Digits(i) + rel, ty),
                  FlatEntry(rules, indexed, name, v, Digits(j) + rel, ty),
                  i, j, EntryShows(rules, indexed, v, rel != ""))
    decreases v, 2
  {
    hide PositionsPlain, PositionsFree, Onwards, Apart, Digits, Shows, Flat, FlatElements, ElementsShow, EntryLine;
    PathFacts(rules, i, rel, name);
    PathFacts(rules, j, rel, name);
    if Skipped(rules, indexed, name, Digits(i) + rel) {
      ApartSame([], i, j);
    } else {
      match v
      case Scalar(_, _) => ApartScalar(rules, indexed, name, v, i, j, rel, ty);
      case Object(_) =>
        if indexed {
          ApartSame(Flat(rules, v, "", ObjectType(indexed, ty)), i, j);
        } else {
          ApartFlat(rules, v, i, j, rel + "->" + name, ObjectType(indexed, ty));
        }
      case Array(items) => ApartElements(rules, indexed, name, items, i, j, rel, ty);
    }
  }

  lemma ApartScalar(rules: Rules, indexed: bool, name: string, v: Json, i: nat, j: nat, rel: string, ty: string)
    requires PositionsPlain(rules) && PositionsFree(rules) && i != j && Onwards(rel) && v.Scalar?
    ensures Apart([EntryLine(rules, indexed, name, Digits(i) + rel, ty, v)],
                  [EntryLine(rules, indexed, name, Digits(j) + rel, ty, v)],
                  i, j, rel != "")
  {
    hide PositionsPlain, PositionsFree, Onwards, Apart, Digits, Below;
    PathFacts(rules, i, rel, name);
    PathFacts(rules, j, rel, name);
    var x, y := EntryLine(rules, indexed, name, Digits(i) + rel, ty, v),
        EntryLine(rules, indexed, name, Digits(j) + rel, ty, v);
    if rel == "" {
      ApartSame([x], i, j);
    } else {
      EntryLineGoesOn(rules, indexed, name, Digits(i) + rel, ty, v);
      EntryLineGoesOn(rules, indexed, name, Digits(j) + rel, ty, v);
      ApartShown(i, j, x, y);
    }
  }

  lemma EntryLineGoesOn(rules: Rules, indexed: bool, name: string, key: string, ty: string, v: Json)
    requires v.Scalar? && !rules.isNumber(key)
    ensures
      var line := EntryLine(rules, indexed, name, key, ty, v);
      |key| <= |line| && line == key + line[|key|..]
  {
    var line := EntryLine(rules, indexed, name, key, ty, v);
    assert line == key + line[|key|..];
  }

  lemma {:induction false} ApartElements(rules: Rules, indexed: bool, name: string, items: seq<Json>, i: nat, j: nat,
      rel: string, ty: string)
    requires PositionsPlain(rules) && PositionsFree(rules) && i != j && Onwards(rel)
    ensures Apart(FlatElements(rules, indexed, name, items, Digits(i) + rel, ty),
                  FlatElements(rules, indexed, name, items, Digits(j) + rel, ty), i, j,
                  ElementsShow(rules, items, rel != "" || !indexed))
    decreases items, 0
  {
    hide PositionsPlain, PositionsFree, Onwards, Apart, Digits, FlatElement, Shows;
    if items == [] {
      ApartSame([], i, j);
    } else {
      var ele, deep := items[0], rel != "" || !indexed;
      ApartElement(rules, indexed, name, ele, i, j, rel, ty);
      ApartElements(rules, indexed, name, items[1..], i, j, rel, ty);
      ApartConcat(
        FlatElement(rules, indexed, name, ele, Digits(i) + rel, ty),
        FlatElement(rules, indexed, name, ele, Digits(j) + rel, ty), i, j,
        if ele.Scalar? then deep else Shows(rules, ele, deep),
        FlatElements(rules, indexed, name, items[1..], Digits(i) + rel, ty),
        FlatElements(rules, indexed, name, items[1..], Digits(j) + rel, ty), ElementsShow(rules, items[1..], deep));
    }
  }

  lemma {:induction false} ApartElement(rules: Rules, indexed: bool, name: string, ele: Json, i: nat, j: nat,
      rel: string, ty: string)
    requires PositionsPlain(rules) && PositionsFree(rules) && i != j && Onwards(rel)
    ensures
      var deep := rel != "" || !indexed;
      Apart(FlatElement(rules, indexed, name, ele, Digits(i) + rel, ty),
            FlatElement(rules, indexed, name, ele, Digits(j) + rel, ty),
            i, j, if ele.Scalar? then deep else Shows(rules, ele, deep))
    decreases ele, 2
  {
    hide PositionsPlain, PositionsFree, Onwards, Apart, Digits, Shows, Flat, ElementLine;
    PathFacts(rules, i, rel, name);
    PathFacts(rules, j, rel, name);
    if ele.Scalar? {
      ApartElementLine(rules, indexed, name, ele, i, j, rel, ty);
    } else {
      var inner := if ele.Object? then ElementObjectType(indexed, ty) else ElementArrayType(indexed, ty);
      ApartFlat(rules, ele, i, j, if indexed then rel else rel + "->" + name, inner);
    }
  }

  lemma ApartElementLine(rules: Rules, indexed: bool, name: string, ele: Json, i: nat, j: nat, rel: string, ty: string)
    requires PositionsPlain(rules) && PositionsFree(rules) && i != j && Onwards(rel) && ele.Scalar?
    ensures Apart([ElementLine(rules, indexed, name, Digits(i) + rel, ty, ele)],
                  [ElementLine(rules, indexed, name, Digits(j) + rel, ty, ele)],
                  i, j, rel != "" || !indexed)
  {
    hide PositionsPlain, PositionsFree, Onwards, Apart, Digits, Below, Path;
    PathFacts(rules, i, rel, name);
    PathFacts(rules, j, rel, name);
    var x, y := ElementLine(rules, indexed, name, Digits(i) + rel, ty, ele),
        ElementLine(rules, indexed, name, Digits(j) + rel, ty, ele);
    if indexed && rel == "" {
      ApartSame([x], i, j);
    } else {
      ElementLineGoesOn(rules, indexed, name, Digits(i) + rel, ty, ele);
      ElementLineGoesOn(rules, indexed, name, Digits(j) + rel, ty, ele);
      ApartShown(i, j, x, y);
    }
  }

  lemma ElementLineGoesOn(rules: Rules, indexed: bool, name: string, key: string, ty: string, ele: Json)
    requires ele.Scalar? && key != "" && (indexed ==> !rules.isNumber(key))
    ensures
      var line, head := ElementLine(rules, indexed, name, key, ty, ele), if indexed then key else Path(key, name);
      |head| <= |line| && line == head + line[|head|..]
  {
    hide Path;
    var line, head := ElementLine(rules, indexed, name, key, ty, ele), if indexed then key else Path(key, name);
    assert line == head + line[|head|..];
  }

  lemma PositionPlain(rules: Rules, i: nat)
    requires PositionsPlain(rules)
    ensures Digits(i) !in rules.ignore
  {
  }

  /** The lines that begin at a position. */
  ghost function BelowBag(s: seq<string>, i: nat): multiset<string> {
    if s == [] then multiset{} else (if Below(i, s[0]) then multiset{s[0]} else multiset{}) + BelowBag(s[1..], i)
  }

  lemma {:induction false} BelowBagCounts(s: seq<string>, i: nat, x: string)
    ensures BelowBag(s, i)[x] == if Below(i, x) then multiset(s)[x] else 0
  {
    hide Below;
    if s != [] {
      BelowBagCounts(s[1..], i, x);
      assert s == [s[0]] + s[1..];
    }
  }

  lemma {:induction false} FewerBelow(s: seq<string>, t: seq<string>, i: nat, j: nat)
    requires i != j && Apart(s, t, i, j, s != t)
    ensures |BelowBag(t, i)| <= |BelowBag(s, i)| && (s != t ==> |BelowBag(t, i)| < |BelowBag(s, i)|)
  {
    hide Below;
    if s != [] {
      FewerBelow(s[1..], t[1..], i, j);
      assert s == [s[0]] + s[1..] && t == [t[0]] + t[1..];
      if s[0] != t[0] && Below(i, t[0]) { OnePosition(i, j, t[0]); }
    }
  }

  /** Lists of lines that differ at all are different bags. */
  lemma ApartBags(s: seq<string>, t: seq<string>, i: nat, j: nat, shows: bool)
    requires i != j && Apart(s, t, i, j, shows)
    ensures multiset(s) == multiset(t) <==> !shows
  {
    hide Below;
    FewerBelow(s, t, i, j);
    if multiset(s) == multiset(t) {
      forall x ensures BelowBag(s, i)[x] == BelowBag(t, i)[x] {
        BelowBagCounts(s, i, x);
        BelowBagCounts(t, i, x);
      }
      assert BelowBag(s, i) == BelowBag(t, i);
    }
  }

  lemma RootEntry(rules: Rules, v: Json, i: nat, j: nat, ty: string)
    requires PositionsPlain(rules) && PositionsFree(rules) && i != j
    ensures Apart(FlatEntry(rules, true, Digits(i), v, "", ty), FlatEntry(rules, true, Digits(j), v, "", ty), i, j,
                  PositionShows(rules, v))
  {
    hide PositionsFree, Apart, Digits, Flat, FlatElements, ElementsShow;
    assert rules.isNumber(Digits(i)) && rules.isNumber(Digits(j));
    if v.Array? && "\U{0008}" !in rules.ignore {
      RootElements(rules, v.items, i, j, ty);
    } else {
      ApartSame(FlatEntry(rules, true, Digits(i), v, "", ty), i, j);
    }
  }

  lemma {:induction false} RootElements(rules: Rules, items: seq<Json>, i: nat, j: nat, ty: string)
    requires PositionsPlain(rules) && PositionsFree(rules) && i != j
    ensures Apart(FlatElements(rules, true, Digits(i), items, "", ty),
                  FlatElements(rules, true, Digits(j), items, "", ty), i, j,
                  ElementsShow(rules, items, false))
    decreases |items|
  {
    hide PositionsPlain, PositionsFree, Apart, Digits, FlatElement, Shows;
    if items == [] {
      ApartSame([], i, j);
    } else {
      RootElement(rules, items[0], i, j, ty);
      RootElements(rules, items[1..], i, j, ty);
      ApartConcat(
        FlatElement(rules, true, Digits(i), items[0], "", ty),
        FlatElement(rules, true, Digits(j), items[0], "", ty), i, j,
        !items[0].Scalar? && Shows(rules, items[0], false),
        FlatElements(rules, true, Digits(i), items[1..], "", ty),
        FlatElements(rules, true, Digits(j), items[1..], "", ty),
        ElementsShow(rules, items[1..], false));
    }
  }

  lemma RootElement(rules: Rules, ele: Json, i: nat, j: nat, ty: string)
    requires PositionsPlain(rules) && PositionsFree(rules) && i != j
    ensures Apart(FlatElement(rules, true, Digits(i), ele, "", ty), FlatElement(rules, true, Digits(j), ele, "", ty),
                  i, j, !ele.Scalar? && Shows(rules, ele, false))
  {
    hide PositionsPlain, PositionsFree, Apart, Digits, Shows, Flat;
    if ele.Scalar? {
      ApartSame(FlatElement(rules, true, Digits(i), ele, "", ty), i, j);
    } else {
      assert Digits(i) + "" == Digits(i) && Digits(j) + "" == Digits(j);
      ApartFlat(rules, ele, i, j, "", if ele.Object? then ElementObjectType(true, ty) else ElementArrayType(true, ty));
    }
  }

  /** An item of the root array at two different positions. */
  lemma AtTwoPositions(rules: Rules, v: Json, i: nat, j: nat, ty: string)
    requires PositionsPlain(rules) && PositionsFree(rules) && i != j
    ensures multiset(FlatEntry(rules, true, Digits(i), v, "", ty)) ==
      multiset(FlatEntry(rules, true, Digits(j), v, "", ty)) <==>
      !PositionShows(rules, v)
  {
    hide PositionsPlain, PositionsFree, Apart, Digits, FlatEntry, PositionShows;
    var s, t := FlatEntry(rules, true, Digits(i), v, "", ty), FlatEntry(rules, true, Digits(j), v, "", ty);
    RootEntry(rules, v, i, j, ty);
    ApartBags(s, t, i, j, PositionShows(rules, v));
  }

  /** Exactly the items that show their position make different lines at different positions of the
      root array. */
  lemma PositionShown(rules: Rules, v: Json)
    requires PositionsPlain(rules) && PositionsFree(rules)
    ensures PositionShows(rules, v) <==>
      exists i: nat, j: nat ::
        multiset(FlatEntry(rules, true, Digits(i), v, "", "")) != multiset(FlatEntry(rules, true, Digits(j), v, "", ""))
  {
    hide PositionShows, FlatEntry, Digits;
    forall i: nat, j: nat | i != j
      ensures multiset(FlatEntry(rules, true, Digits(i), v, "", "")) ==
        multiset(FlatEntry(rules, true, Digits(j), v, "", "")) <==>
        !PositionShows(rules, v)
    {
      AtTwoPositions(rules, v, i, j, "");
    }
    AtTwoPositions(rules, v, 0, 1, "");
  }

  /** In a root array of an item and a scalar, exactly an item that shows its position lets the order matter. */
  lemma OrderMatters(rules: Rules, v: Json, w: Json)
    requires PositionsPlain(rules) && PositionsFree(rules) && w.Scalar?
    ensures multiset(Flat(rules, Array([v, w]), "", "")) != multiset(Flat(rules, Array([w, v]), "", "")) <==>
      PositionShows(rules, v)
  {
    hide PositionShows, FlatEntry, Digits;
    TwoItems(rules, v, w);
    TwoItems(rules, w, v);
    AtTwoPositions(rules, v, 0, 1, "");
    AtTwoPositions(rules, w, 0, 1, "");
    ScalarShowsNothing(rules, w);
    var x := multiset(FlatEntry(rules, true, Digits(0), v, "", ""));
    var y := multiset(FlatEntry(rules, true, Digits(1), v, "", ""));
    var z := multiset(FlatEntry(rules, true, Digits(0), w, "", ""));
    assert x == (x + z) - z && y == (y + z) - z;
  }

  lemma ScalarShowsNothing(rules: Rules, w: Json)
    requires w.Scalar?
    ensures !PositionShows(rules, w)
  {
  }

  lemma TwoItems(rules: Rules, v: Json, w: Json)
    ensures multiset(Flat(rules, Array([v, w]), "", "")) ==
      multiset(FlatEntry(rules, true, Digits(0), v, "", "")) + multiset(FlatEntry(rules, true, Digits(1), w, "", ""))
  {
    hide FlatEntry, Digits;
    var items := [v, w];
    assert items[1..] == [w] && items[1..][1..] == [];
    assert FlatItems(rules, [w], 1, "", "") == FlatEntry(rules, true, Digits(1), w, "", "") + [];
  }

  // ----- items of the same shape show their positions alike -----

  lemma {:induction false} ItemThatShows(rules: Rules, items: seq<Json>, deep: bool) returns (k: nat)
    requires ItemsShow(rules, items, deep)
    ensures k < |items| && EntryShows(rules, true, items[k], deep)
  {
    if EntryShows(rules, true, items[0], deep) {
      k := 0;
    } else {
      k := ItemThatShows(rules, items[1..], deep);
      k := k + 1;
    }
  }

  lemma {:induction false} ShowingItem(rules: Rules, items: seq<Json>, k: nat, deep: bool)
    requires k < |items| && EntryShows(rules, true, items[k], deep)
    ensures ItemsShow(rules, items, deep)
  {
    if k > 0 { ShowingItem(rules, items[1..], k - 1, deep); }
  }

  predicate ElementShows(rules: Rules, ele: Json, deep: bool) {
    if ele.Scalar? then deep else Shows(rules, ele, deep)
  }

  lemma {:induction false} ElementThatShows(rules: Rules, items: seq<Json>, deep: bool) returns (k: nat)
    requires ElementsShow(rules, items, deep)
    ensures k < |items| && ElementShows(rules, items[k], deep)
  {
    if ElementShows(rules, items[0], deep) {
      k := 0;
    } else {
      k := ElementThatShows(rules, items[1..], deep);
      k := k + 1;
    }
  }

  lemma {:induction false} ShowingElement(rules: Rules, items: seq<Json>, k: nat, deep: bool)
    requires k < |items| && ElementShows(rules, items[k], deep)
    ensures ElementsShow(rules, items, deep)
  {
    if k > 0 { ShowingElement(rules, items[1..], k - 1, deep); }
  }

  lemma {:induction false} ShapeShows(rules: Rules, x: Json, y: Json, deep: bool)
    requires ShapeOf(rules, x) == ShapeOf(rules, y) && Shows(rules, x, deep)
    ensures Shows(rules, y, deep)
    decreases x, 1
  {
    match x
    case Array(items) =>
      var k := ItemThatShows(rules, items, deep);
      ShapesWithout(rules, items, k);
      var m := ShapeHasItem(rules, y.items, ShapeOf(rules, items[k]));
      EntryShapeShows(rules, true, items[k], y.items[m], deep);
      ShowingItem(rules, y.items, m, deep);
    case Object(members) =>
      MemberShapesShow(rules, members, y.members, deep);
  }

  lemma {:induction false} MemberShapesShow(rules: Rules, a: seq<Member>, b: seq<Member>, deep: bool)
    requires MemberShapes(rules, a) == MemberShapes(rules, b) && MembersShow(rules, a, deep)
    ensures MembersShow(rules, b, deep)
    decreases a, 0, |b|
  {
    if a[0].name in rules.ignore {
      MemberShapesShow(rules, a[1..], b, deep);
    } else if b[0].name in rules.ignore {
      MemberShapesShow(rules, a, b[1..], deep);
    } else {
      assert MemberShapes(rules, a)[0] == MemberShapes(rules, b)[0];
      assert MemberShapes(rules, a)[1..] == MemberShapes(rules, a[1..]);
      assert MemberShapes(rules, b)[1..] == MemberShapes(rules, b[1..]);
      if EntryShows(rules, false, a[0].value, deep) {
        EntryShapeShows(rules, false, a[0].value, b[0].value, deep);
      } else {
        MemberShapesShow(rules, a[1..], b[1..], deep);
      }
    }
  }

  lemma {:induction false} EntryShapeShows(rules: Rules, indexed: bool, x: Json, y: Json, deep: bool)
    requires ShapeOf(rules, x) == ShapeOf(rules, y) && EntryShows(rules, indexed, x, deep)
    ensures EntryShows(rules, indexed, y, deep)
    decreases x, 2
  {
    match x
    case Scalar(_, _) =>
    case Object(_) => ShapeShows(rules, x, y, true);
    case Array(items) =>
      var k := ElementThatShows(rules, items, deep || !indexed);
      ShapesWithout(rules, items, k);
      var m := ShapeHasItem(rules, y.items, ShapeOf(rules, items[k]));
      if !items[k].Scalar? { ShapeShows(rules, items[k], y.items[m], deep || !indexed); }
      ShowingElement(rules, y.items, m, deep || !indexed);
  }

  /** No item of a root array shows its position. */
  ghost predicate NoneShows(rules: Rules, items: seq<Json>) {
    PositionsFree(rules) && forall v :: v in items ==> !PositionShows(rules, v)
  }

  lemma NoneOfTheShapeShows(rules: Rules, a: seq<Json>, b: seq<Json>)
    requires NoneShows(rules, a) && ShapesOf(rules, a) == ShapesOf(rules, b)
    ensures NoneShows(rules, b)
  {
    hide EntryShows, ShapeOf, PositionsFree;
    forall k | 0 <= k < |b| ensures !PositionShows(rules, b[k]) {
      ShapesWithout(rules, b, k);
      var m := ShapeHasItem(rules, a, ShapeOf(rules, b[k]));
      assert a[m] in a && !PositionShows(rules, a[m]);
      if PositionShows(rules, b[k]) { EntryShapeShows(rules, true, b[k], a[m], false); }
    }
  }

  // ----- documents of the same shape -----

  /** Under a named path, or if none shows its position, an array item makes the same lines everywhere. */
  lemma {:induction false} ItemsBag(rules: Rules, items: seq<Json>, first: nat, key: string, ty: string)
    requires PositionsPlain(rules) && (key == "" ==> NoneShows(rules, items))
    ensures multiset(FlatItems(rules, items, first, key, ty)) ==
            Bag(v => FlatEntry(rules, true, "0", v, key, ty), items)
    decreases |items|
  {
    hide FlatEntry, PositionsPlain, PositionShows, PositionsFree;
    if items != [] {
      ItemsBag(rules, items[1..], first + 1, key, ty);
      PositionIrrelevant(rules, first, items[0], key, ty);
    }
  }

  lemma PositionIrrelevant(rules: Rules, i: nat, v: Json, key: string, ty: string)
    requires PositionsPlain(rules) && (key == "" ==> PositionsFree(rules) && !PositionShows(rules, v))
    ensures multiset(FlatEntry(rules, true, Digits(i), v, key, ty)) == multiset(FlatEntry(rules, true, "0", v, key, ty))
  {
    assert Digits(0) == "0";
    if key == "" {
      if i != 0 { AtTwoPositions(rules, v, i, 0, ty); }
    } else {
      assert rules.isNumber(Digits(i)) && rules.isNumber(Digits(0));
      if v.Array? { ElementsPosition(rules, Digits(i), v.items, key, ty); }
    }
  }

  lemma {:induction false} ElementsPosition(rules: Rules, name: string, items: seq<Json>, key: string, ty: string)
    requires key != ""
    ensures FlatElements(rules, true, name, items, key, ty) == FlatElements(rules, true, "0", items, key, ty)
    decreases |items|
  {
    if items != [] { ElementsPosition(rules, name, items[1..], key, ty); }
  }

  /** Flattening is insensitive to the order of arrays at any depth and to everything under ignored
      members: documents of the same shape make the same lines, up to order. Only the items of an
      array at the root have to be such that none shows its position. */
  lemma {:induction false} SameShapeSameLines(rules: Rules, a: Json, b: Json, key: string, ty: string)
    requires PositionsPlain(rules) && Named(rules, a) && Named(rules, b)
    requires ShapeOf(rules, a) == ShapeOf(rules, b)
    requires a.Array? && key == "" ==> NoneShows(rules, a.items)
    ensures multiset(Flat(rules, a, key, ty)) == multiset(Flat(rules, b, key, ty))
    decreases a, 1
  {
    match a
    case Scalar(_, _) =>
    case Array(items) =>
      var g := v => FlatEntry(rules, true, "0", v, key, ty);
      if key == "" { NoneOfTheShapeShows(rules, items, b.items); }
      ItemsBag(rules, items, 0, key, ty);
      ItemsBag(rules, b.items, 0, key, ty);
      forall x, y | x in items && y in b.items && ShapeOf(rules, x) == ShapeOf(rules, y)
        ensures multiset(g(x)) == multiset(g(y))
      {
        SameShapeSameEntry(rules, true, "0", x, y, key, ty);
      }
      SameShapesSameBag(rules, g, items, b.items);
    case Object(members) =>
      SameShapeSameMembers(rules, members, b.members, key, ty);
  }

  lemma {:induction false} SameShapeSameMembers(rules: Rules, a: seq<Member>, b: seq<Member>, key: string, ty: string)
    requires PositionsPlain(rules) && Named(rules, Object(a)) && Named(rules, Object(b))
    requires MemberShapes(rules, a) == MemberShapes(rules, b)
    ensures multiset(FlatMembers(rules, a, key, ty)) == multiset(FlatMembers(rules, b, key, ty))
    decreases a, 0, |b|
  {
    if a != [] { TailNamed(rules, a); }
    if b != [] { TailNamed(rules, b); }
    if a != [] && a[0].name in rules.ignore {
      assert FlatMembers(rules, a, key, ty) == FlatMembers(rules, a[1..], key, ty);
      SameShapeSameMembers(rules, a[1..], b, key, ty);
    } else if b != [] && b[0].name in rules.ignore {
      assert FlatMembers(rules, b, key, ty) == FlatMembers(rules, b[1..], key, ty);
      SameShapeSameMembers(rules, a, b[1..], key, ty);
    } else if a != [] {
      assert MemberShapes(rules, a)[0] == MemberShapes(rules, b)[0];
      assert MemberShapes(rules, a)[1..] == MemberShapes(rules, a[1..]);
      assert MemberShapes(rules, b)[1..] == MemberShapes(rules, b[1..]);
      SameShapeSameEntry(rules, false, a[0].name, a[0].value, b[0].value, key, ty);
      SameShapeSameMembers(rules, a[1..], b[1..], key, ty);
    }
  }

  lemma TailNamed(rules: Rules, members: seq<Member>)
    requires members != [] && Named(rules, Object(members))
    ensures Named(rules, Object(members[1..]))
    ensures members[0].name !in rules.ignore ==> members[0].name != "" && Named(rules, members[0].value)
  {
  }

  lemma {:induction false} SameShapeSameEntry(rules: Rules, indexed: bool, name: string, x: Json, y: Json,
      key: string, ty: string)
    requires PositionsPlain(rules) && Named(rules, x) && Named(rules, y)
    requires ShapeOf(rules, x) == ShapeOf(rules, y)
    requires name != ""
    ensures multiset(FlatEntry(rules, indexed, name, x, key, ty)) ==
      multiset(FlatEntry(rules, indexed, name, y, key, ty))
    decreases x, 2
  {
    if !Skipped(rules, indexed, name, key) {
      match x
      case Scalar(_, _) =>
      case Object(_) =>
        SameShapeSameLines(rules, x, y, ObjectKey(indexed, name, key), ObjectType(indexed, ty));
      case Array(items) =>
        var g := ele => FlatElement(rules, indexed, name, ele, key, ty);
        ElementsBag(rules, indexed, name, items, key, ty);
        ElementsBag(rules, indexed, name, y.items, key, ty);
        forall e, f | e in items && f in y.items && ShapeOf(rules, e) == ShapeOf(rules, f)
          ensures multiset(g(e)) == multiset(g(f))
        {
          match e
          case Scalar(_, _) =>
          case Object(_) =>
            SameShapeSameLines(rules, e, f, ElementKey(indexed, name, key), ElementObjectType(indexed, ty));
          case Array(_) =>
            SameShapeSameLines(rules, e, f, ElementKey(indexed, name, key), ElementArrayType(indexed, ty));
        }
        SameShapesSameBag(rules, g, items, y.items);
    }
  }

  /** A scalar document has no lines at all, so any two of them look alike. */
  lemma ScalarDocumentsAlike(rules: Rules, a: Json, b: Json)
    requires a.Scalar? && b.Scalar?
    ensures Flat(rules, a, "", "") == Flat(rules, b, "", "")
  {
  }

  function Nested(text: string): Json {
    Array([Object([Member("k", Array([Scalar(4, text)]))])])
  }

  lemma MemberLine(rules: Rules, name: string, text: string)
    requires rules.ignore == [] && name != ""
    ensures FlatMembers(rules, [Member("k", Array([Scalar(4, text)]))], name, "6|6|7|") ==
            [name + "->k:" + text + "@6|6|7|6|4"]
  {
    var ele := Scalar(4, text);
    var members := [Member("k", Array([ele]))];
    assert ElementLine(rules, false, "k", name, "6|6|7|", ele) == name + "->k:" + text + "@6|6|7|6|4";
    hide ElementLine;
    assert [ele][1..] == [] && members[1..] == [];
    assert FlatElements(rules, false, "k", [ele], name, "6|6|7|") ==
      [ElementLine(rules, false, "k", name, "6|6|7|", ele)] + [];
  }

  lemma NestedLine(rules: Rules, first: nat, text: string)
    requires rules.ignore == []
    ensures FlatEntry(rules, true, Digits(first), Nested(text), "", "") ==
            [Digits(first) + "->k:" + text + "@6|6|7|6|4"]
  {
    hide FlatMembers, Digits;
    var name := Digits(first);
    MemberLine(rules, name, text);
    var doc := Nested(text).items[0];
    assert ElementKey(true, name, "") == name && ElementObjectType(true, "") == "6|6|7|";
    assert doc == Object([Member("k", Array([Scalar(4, text)]))]) && [doc][1..] == [];
    assert Flat(rules, doc, name, "6|6|7|") == FlatMembers(rules, doc.members, name, "6|6|7|");
    assert FlatElements(rules, true, name, [doc], "", "") == FlatElement(rules, true, name, doc, "", "") + [];
  }

  lemma NestedNamed(rules: Rules, text: string)
    requires rules.ignore == []
    ensures Named(rules, Nested(text))
  {
    assert Named(rules, Array([Scalar(4, text)]));
    assert Named(rules, Nested(text).items[0]);
  }

  /** At the root, positions do leak into the lines: two documents that differ only in the order of
      the root array, whose items are arrays of objects that have an array as a member. */
  lemma RootArrayOrderMatters(rules: Rules)
    requires rules.ignore == []
    ensures var a, b := Array([Nested("p"), Nested("q")]), Array([Nested("q"), Nested("p")]);
      Named(rules, a) && Named(rules, b) && ShapeOf(rules, a) == ShapeOf(rules, b) &&
      multiset(Flat(rules, a, "", "")) != multiset(Flat(rules, b, "", ""))
  {
    hide *;
    TwoOfAShape(rules, Nested("p"), Nested("q"));
    TwoNamed(rules, "p", "q");
    TwoNamed(rules, "q", "p");
    TwoLines(rules, "p", "q");
    TwoLines(rules, "q", "p");
    LinesDiffer();
  }

  lemma TwoOfAShape(rules: Rules, x: Json, y: Json)
    ensures ShapeOf(rules, Array([x, y])) == ShapeOf(rules, Array([y, x]))
  {
    ShapesOfTwo(rules, x, y);
    ShapesOfTwo(rules, y, x);
  }

  lemma TwoNamed(rules: Rules, p: string, q: string)
    requires rules.ignore == []
    ensures Named(rules, Array([Nested(p), Nested(q)]))
  {
    hide Nested;
    NestedNamed(rules, p);
    NestedNamed(rules, q);
  }

  lemma LinesDiffer()
    ensures multiset([Digits(0) + "->k:" + "p" + "@6|6|7|6|4", Digits(1) + "->k:" + "q" + "@6|6|7|6|4"]) !=
            multiset([Digits(0) + "->k:" + "q" + "@6|6|7|6|4", Digits(1) + "->k:" + "p" + "@6|6|7|6|4"])
  {
    var line := Digits(0) + "->k:" + "p" + "@6|6|7|6|4";
    var other := Digits(0) + "->k:" + "q" + "@6|6|7|6|4";
    var another := Digits(1) + "->k:" + "p" + "@6|6|7|6|4";
    assert line[0] == '0' && line[5] == 'p' && other[5] == 'q' && another[0] == '1';
    var lines := [line, Digits(1) + "->k:" + "q" + "@6|6|7|6|4"];
    assert lines[0] == line;
    assert line in multiset(lines) && line !in multiset([other, another]);
  }

  lemma ShapesOfTwo(rules: Rules, x: Json, y: Json)
    ensures ShapesOf(rules, [x, y]) == multiset{ShapeOf(rules, x), ShapeOf(rules, y)}
  {
    hide ShapeOf;
    assert [x, y][1..] == [y] && [y][1..] == [];
    assert ShapesOf(rules, [y]) == multiset{ShapeOf(rules, y)} + ShapesOf(rules, []);
  }

  lemma TwoLines(rules: Rules, p: string, q: string)
    requires rules.ignore == []
    ensures Flat(rules, Array([Nested(p), Nested(q)]), "", "") ==
            [Digits(0) + "->k:" + p + "@6|6|7|6|4", Digits(1) + "->k:" + q + "@6|6|7|6|4"]
  {
    hide Nested, FlatEntry;
    NestedLine(rules, 0, p);
    NestedLine(rules, 1, q);
    var items := [Nested(p), Nested(q)];
    assert items[1..] == [Nested(q)] && items[1..][1..] == [];
    assert FlatItems(rules, [Nested(q)], 1, "", "") == FlatEntry(rules, true, Digits(1), Nested(q), "", "");
  }
}
