/** What the lines of a document tell: which part of it stands where, with its path, its text and its
    types. A part that is replaced is seen exactly if its own lines are others. */
module JsonLaws {
  import opened Decimal
  import opened JsonFlat

  // ----- places in a document -----

  /** Where a part of a document stands: at the root of a recursion, as an entry of that root, or as an
      element of an array that is such an entry; and what the recursion has brought along. */
  datatype Place =
    | Root(key: string, ty: string)
    | Entry(indexed: bool, name: string, key: string, ty: string)
    | Element(indexed: bool, name: string, key: string, ty: string)

  /** The lines of a part that stands at a place. */
  ghost function Lines(rules: Rules, p: Place, j: Json): seq<string> {
    match p
    case Root(key, ty) => Flat(rules, j, key, ty)
    case Entry(indexed, name, key, ty) => FlatEntry(rules, indexed, name, j, key, ty)
    case Element(indexed, name, key, ty) => FlatElement(rules, indexed, name, j, key, ty)
  }

  ghost predicate Open(rules: Rules, p: Place) {
    p.Entry? ==> !Skipped(rules, p.indexed, p.name, p.key)
  }

  function Size(j: Json): nat {
    match j
    case Scalar(_, _) => 0
    case Array(items) => |items|
    case Object(members) => |members|
  }

  function Kid(j: Json, i: nat): Json
    requires i < Size(j)
  {
    if j.Array? then j.items[i] else j.members[i].value
  }

  function SetKid(j: Json, i: nat, v: Json): (r: Json)
    requires i < Size(j)
    ensures Size(r) == Size(j) && Kid(r, i) == v && r.Array? == j.Array?
  {
    if j.Array? then Array(j.items[i := v]) else Object(j.members[i := Member(j.members[i].name, v)])
  }

  /** The place of the `i`-th part of `j`, which stands at `p`. */
  ghost function Child(p: Place, j: Json, i: nat): Place
    requires i < Size(j)
  {
    var name := if j.Array? then Digits(i) else j.members[i].name;
    match p
    case Root(key, ty) => Entry(j.Array?, name, key, ty)
    case Entry(x, n, key, ty) =>
      if j.Array? then Element(x, n, key, ty) else Entry(false, name, ObjectKey(x, n, key), ObjectType(x, ty))
    case Element(x, n, key, ty) =>
      Entry(j.Array?, name, ElementKey(x, n, key),
          if j.Array? then ElementArrayType(x, ty) else ElementObjectType(x, ty))
  }

  lemma ItemsAround(rules: Rules, items: seq<Json>, i: nat, first: nat, name: string, key: string, ty: string)
    returns (before: seq<string>, behind: seq<string>)
    requires i < |items| && name == Digits(first + i)
    ensures forall v ::
      FlatItems(rules, items[i := v], first, key, ty) == before + FlatEntry(rules, true, name, v, key, ty) + behind
    decreases |items|
  {
    hide FlatEntry;
    if i == 0 {
      before, behind := [], FlatItems(rules, items[1..], first + 1, key, ty);
      forall v
        ensures FlatItems(rules, items[0 := v], first, key, ty) ==
          before + FlatEntry(rules, true, name, v, key, ty) + behind
      {
        assert items[0 := v][1..] == items[1..];
      }
    } else {
      var b;
      b, behind := ItemsAround(rules, items[1..], i - 1, first + 1, name, key, ty);
      var head := FlatEntry(rules, true, Digits(first), items[0], key, ty);
      before := head + b;
      forall v
        ensures FlatItems(rules, items[i := v], first, key, ty) ==
          before + FlatEntry(rules, true, name, v, key, ty) + behind
      {
        assert items[i := v][1..] == items[1..][i - 1 := v] && items[i := v][0] == items[0];
        var e := FlatEntry(rules, true, name, v, key, ty);
        assert FlatItems(rules, items[1..][i - 1 := v], first + 1, key, ty) == b + e + behind;
        assert head + (b + e + behind) == head + b + e + behind;
      }
    }
  }

  lemma MembersAround(rules: Rules, members: seq<Member>, i: nat, key: string, ty: string)
    returns (before: seq<string>, behind: seq<string>)
    requires i < |members|
    ensures forall m: Member ::
      FlatMembers(rules, members[i := m], key, ty) ==
        before + FlatEntry(rules, false, m.name, m.value, key, ty) + behind
    decreases |members|
  {
    hide FlatEntry;
    if i == 0 {
      before, behind := [], FlatMembers(rules, members[1..], key, ty);
      forall m: Member
        ensures FlatMembers(rules, members[0 := m], key, ty) ==
          before + FlatEntry(rules, false, m.name, m.value, key, ty) + behind
      {
        assert members[0 := m][1..] == members[1..];
      }
    } else {
      var b;
      b, behind := MembersAround(rules, members[1..], i - 1, key, ty);
      var head := FlatEntry(rules, false, members[0].name, members[0].value, key, ty);
      before := head + b;
      forall m: Member
        ensures FlatMembers(rules, members[i := m], key, ty) ==
          before + FlatEntry(rules, false, m.name, m.value, key, ty) + behind
      {
        assert members[i := m][1..] == members[1..][i - 1 := m] && members[i := m][0] == members[0];
        var e := FlatEntry(rules, false, m.name, m.value, key, ty);
        assert FlatMembers(rules, members[1..][i - 1 := m], key, ty) == b + e + behind;
        assert head + (b + e + behind) == head + b + e + behind;
      }
    }
  }

  lemma ElementsAround(rules: Rules, indexed: bool, name: string, items: seq<Json>, i: nat, key: string, ty: string)
    returns (before: seq<string>, behind: seq<string>)
    requires i < |items|
    ensures forall v ::
      FlatElements(rules, indexed, name, items[i := v], key, ty) ==
        before + FlatElement(rules, indexed, name, v, key, ty) + behind
    decreases |items|
  {
    hide FlatElement;
    if i == 0 {
      before, behind := [], FlatElements(rules, indexed, name, items[1..], key, ty);
      forall v
        ensures FlatElements(rules, indexed, name, items[0 := v], key, ty) ==
          before + FlatElement(rules, indexed, name, v, key, ty) + behind
      {
        assert items[0 := v][1..] == items[1..];
      }
    } else {
      var b;
      b, behind := ElementsAround(rules, indexed, name, items[1..], i - 1, key, ty);
      var head := FlatElement(rules, indexed, name, items[0], key, ty);
      before := head + b;
      forall v
        ensures FlatElements(rules, indexed, name, items[i := v], key, ty) ==
          before + FlatElement(rules, indexed, name, v, key, ty) + behind
      {
        assert items[i := v][1..] == items[1..][i - 1 := v] && items[i := v][0] == items[0];
        var e := FlatElement(rules, indexed, name, v, key, ty);
        assert FlatElements(rules, indexed, name, items[1..][i - 1 := v], key, ty) == b + e + behind;
        assert head + (b + e + behind) == head + b + e + behind;
      }
    }
  }

  /** The recursion that the lines of an open container come from. */
  lemma Around(rules: Rules, p: Place, j: Json, i: nat) returns (before: seq<string>, behind: seq<string>)
    requires Open(rules, p) && i < Size(j)
    ensures forall v :: Lines(rules, p, SetKid(j, i, v)) == before + Lines(rules, Child(p, j, i), v) + behind
  {
    hide FlatItems, FlatMembers, FlatElements, Skipped, ObjectKey, ObjectType, ElementKey, ElementObjectType,
         ElementArrayType, Digits;
    match p {
      case Root(key, ty) => before, behind := AroundRoot(rules, j, i, key, ty);
      case Entry(x, n, key, ty) =>
        if j.Array? {
          before, behind := ElementsAround(rules, x, n, j.items, i, key, ty);
        } else {
          before, behind := AroundRoot(rules, j, i, ObjectKey(x, n, key), ObjectType(x, ty));
        }
      case Element(x, n, key, ty) =>
        before, behind := AroundRoot(rules, j, i, ElementKey(x, n, key),
                                     if j.Array? then ElementArrayType(x, ty) else ElementObjectType(x, ty));
    }
  }

  lemma AroundRoot(rules: Rules, j: Json, i: nat, key: string, ty: string)
    returns (before: seq<string>, behind: seq<string>)
    requires i < Size(j)
    ensures forall v ::
      Flat(rules, SetKid(j, i, v), key, ty) == before + Lines(rules, Child(Root(key, ty), j, i), v) + behind
  {
    hide FlatItems, FlatMembers, FlatEntry, Digits;
    if j.Array? {
      before, behind := ItemsAround(rules, j.items, i, 0, Digits(i), key, ty);
    } else {
      before, behind := MembersAround(rules, j.members, i, key, ty);
      forall v
        ensures Flat(rules, SetKid(j, i, v), key, ty) == before + Lines(rules, Child(Root(key, ty), j, i), v) + behind
      {
        var m := Member(j.members[i].name, v);
        assert FlatMembers(rules, j.members[i := m], key, ty) ==
          before + FlatEntry(rules, false, m.name, m.value, key, ty) + behind;
      }
    }
  }

  // ----- parts at any depth -----

  /** A path of positions leads to a part of the document. */
  predicate Leads(j: Json, path: seq<nat>)
    decreases |path|
  {
    path != [] ==> path[0] < Size(j) && Leads(Kid(j, path[0]), path[1..])
  }

  function Part(j: Json, path: seq<nat>): Json
    requires Leads(j, path)
    decreases |path|
  {
    if path == [] then j else Part(Kid(j, path[0]), path[1..])
  }

  /** The document with another part there. */
  function Put(j: Json, path: seq<nat>, v: Json): Json
    requires Leads(j, path)
    decreases |path|
  {
    if path == [] then v else SetKid(j, path[0], Put(Kid(j, path[0]), path[1..], v))
  }

  ghost function PlaceOf(p: Place, j: Json, path: seq<nat>): Place
    requires Leads(j, path)
    decreases |path|
  {
    if path == [] then p else PlaceOf(Child(p, j, path[0]), Kid(j, path[0]), path[1..])
  }

  /** Nothing on the path is ignored. */
  ghost predicate Reached(rules: Rules, p: Place, j: Json, path: seq<nat>)
    requires Leads(j, path)
    decreases |path|
  {
    Open(rules, p) && (path != [] ==> Reached(rules, Child(p, j, path[0]), Kid(j, path[0]), path[1..]))
  }

  lemma {:induction false} AroundPart(rules: Rules, p: Place, j: Json, path: seq<nat>)
    returns (before: seq<string>, behind: seq<string>)
    requires Leads(j, path) && Reached(rules, p, j, path)
    ensures forall v :: Lines(rules, p, Put(j, path, v)) == before + Lines(rules, PlaceOf(p, j, path), v) + behind
    decreases |path|
  {
    hide Open, Child, SetKid, Lines;
    if path == [] {
      before, behind := [], [];
    } else {
      var i := path[0];
      var outer, end := Around(rules, p, j, i);
      var b, e := AroundPart(rules, Child(p, j, i), Kid(j, i), path[1..]);
      before, behind := outer + b, e + end;
      forall v
        ensures Lines(rules, p, Put(j, path, v)) == before + Lines(rules, PlaceOf(p, j, path), v) + behind
      {
        var w := Put(Kid(j, i), path[1..], v);
        var mine := Lines(rules, PlaceOf(p, j, path), v);
        assert Lines(rules, p, SetKid(j, i, w)) == outer + (b + mine + e) + end;
        assert outer + (b + mine + e) + end == outer + b + mine + (e + end);
      }
    }
  }

  lemma {:induction false} AroundHidden(rules: Rules, p: Place, j: Json, path: seq<nat>, v: Json, w: Json)
    requires Leads(j, path) && !Reached(rules, p, j, path)
    ensures Lines(rules, p, Put(j, path, v)) == Lines(rules, p, Put(j, path, w))
    decreases |path|
  {
    hide Child, SetKid, Skipped;
    if Open(rules, p) {
      var i := path[0];
      AroundHidden(rules, Child(p, j, i), Kid(j, i), path[1..], v, w);
      hide Lines, Open;
      var outer, end := Around(rules, p, j, i);
    }
  }

  lemma SameAround(before: seq<string>, behind: seq<string>, x: seq<string>, y: seq<string>)
    ensures multiset(before + x + behind) == multiset(before + y + behind) <==> multiset(x) == multiset(y)
  {
    var a, b := multiset(before) + multiset(behind), multiset(before + x + behind);
    assert b == a + multiset(x) && multiset(before + y + behind) == a + multiset(y);
    assert b - a == multiset(x) && multiset(before + y + behind) - a == multiset(y);
  }

  /** The law of replacement: two documents that are the same but for one part have the same lines, up to
      order, exactly if the part is ignored, or its own lines at its place are the same. */
  lemma Replacement(rules: Rules, j: Json, path: seq<nat>, x: Json, y: Json)
    requires Leads(j, path)
    ensures
      var root := Root("", "");
      multiset(Flat(rules, Put(j, path, x), "", "")) == multiset(Flat(rules, Put(j, path, y), "", "")) <==>
        (Reached(rules, root, j, path) ==>
           multiset(Lines(rules, PlaceOf(root, j, path), x)) == multiset(Lines(rules, PlaceOf(root, j, path), y)))
  {
    hide Reached, PlaceOf, Put, Flat;
    var root := Root("", "");
    assert forall v :: Lines(rules, root, v) == Flat(rules, v, "", "");
    hide Lines;
    if Reached(rules, root, j, path) {
      var before, behind := AroundPart(rules, root, j, path);
      SameAround(before, behind, Lines(rules, PlaceOf(root, j, path), x), Lines(rules, PlaceOf(root, j, path), y));
    } else {
      AroundHidden(rules, root, j, path, x, y);
    }
  }

  // ----- scalars -----

  /** A scalar as the library gives it: one of the six types that are neither array nor object. */
  predicate Plain(j: Json) { j.Scalar? && j.code < 6 }

  lemma OneDigitCode(x: Json)
    requires Plain(x)
    ensures Code(x) == ["0123456789"[x.code]]
  {
  }

  lemma TextAndCodeTold(head: string, x: Json, y: Json, types: string)
    requires Plain(x) && Plain(y)
    requires head + x.text + "@" + types + Code(x) == head + y.text + "@" + types + Code(y)
    ensures x == y
  {
    hide Code;
    OneDigitCode(x);
    OneDigitCode(y);
    var s, t := head + x.text + "@" + types + Code(x), head + y.text + "@" + types + Code(y);
    assert s[|s| - 1] == Code(x)[0] && t[|t| - 1] == Code(y)[0];
    assert s[|head|..|s| - |types| - 2] == x.text && t[|head|..|t| - |types| - 2] == y.text;
  }

  lemma LineShape(rules: Rules, p: Place, x: Json)
    requires Open(rules, p) && !p.Root? && x.Scalar?
    ensures Lines(rules, p, x) == [HeadOf(rules, p) + x.text + "@" + TypesOf(rules, p) + Digits(x.code)]
  {
    hide Skipped, Digits;
    assert Code(x) == Digits(x.code);
    var head, types := HeadOf(rules, p), TypesOf(rules, p);
    if p.Entry? {
      assert EntryLine(rules, p.indexed, p.name, p.key, p.ty, x) == head + x.text + "@" + types + Code(x);
    } else {
      assert ElementLine(rules, p.indexed, p.name, p.key, p.ty, x) == head + x.text + "@" + types + Code(x);
    }
  }

  /** A line with this head and these types. */
  lemma LineIs(rules: Rules, p: Place, x: Json, head: string, types: string)
    requires Open(rules, p) && !p.Root? && x.Scalar? && HeadOf(rules, p) == head && TypesOf(rules, p) == types
    ensures Lines(rules, p, x) == [head + x.text + "@" + types + Digits(x.code)]
    ensures head == "" ==> Lines(rules, p, x) == [x.text + "@" + types + Digits(x.code)]
  {
    hide Open, Lines, HeadOf, TypesOf, Digits;
    LineShape(rules, p, x);
    if head == "" { assert head + x.text == x.text; }
  }

  /** The line of a scalar tells its text and its type. */
  lemma ScalarTold(rules: Rules, p: Place, x: Json, y: Json)
    requires Open(rules, p) && !p.Root? && Plain(x) && Plain(y)
    ensures |Lines(rules, p, x)| == 1
    ensures Lines(rules, p, x) == Lines(rules, p, y) ==> x == y
  {
    hide Code, Skipped;
    if Lines(rules, p, x) == Lines(rules, p, y) {
      var l, m := Lines(rules, p, x)[0], Lines(rules, p, y)[0];
      var head, types := HeadOf(rules, p), TypesOf(rules, p);
      assert l == head + x.text + "@" + types + Code(x) && m == head + y.text + "@" + types + Code(y);
      TextAndCodeTold(head, x, y, types);
    }
  }

  /** What stands in front of the text of a scalar, and between it and its type code. */
  ghost function HeadOf(rules: Rules, p: Place): string
    requires !p.Root?
  {
    if p.Entry? then
      (if rules.isNumber(p.key) then "" else p.key)
      + (if p.indexed then "" else if p.key != "" then "->" + p.name else p.name)
      + (if rules.isNumber(p.name) then (if rules.isNumber(p.key) || p.key == "" then "" else ":") else ":")
    else if p.indexed then (if rules.isNumber(p.key) || p.key == "" then "" else p.key + ":")
    else Path(p.key, p.name) + ":"
  }

  ghost function TypesOf(rules: Rules, p: Place): string
    requires !p.Root?
  {
    if p.Entry? then
      if p.ty != "" then p.ty + (if p.indexed then "|" else "") else (if rules.isNumber(p.name) then "6" else "7") + "|"
    else (if p.ty != "" then p.ty + "6" else if p.indexed then "66" else "76") + "|"
  }

  lemma {:induction false} NotRoot(rules: Rules, p: Place, j: Json, path: seq<nat>)
    requires Leads(j, path) && path != [] && Reached(rules, p, j, path)
    ensures !PlaceOf(p, j, path).Root? && Open(rules, PlaceOf(p, j, path))
    decreases |path|
  {
    hide Skipped, ObjectKey, ObjectType, ElementKey, ElementObjectType, ElementArrayType, Digits;
    if |path| > 1 {
      NotRoot(rules, Child(p, j, path[0]), Kid(j, path[0]), path[1..]);
    } else {
      assert path[1..] == [];
    }
  }

  /** Separation: documents that are the same but for the text or the type of one scalar, at any depth and
      not ignored, be it a member, an element of an array or an item of the root, have different lines. */
  lemma OneScalar(rules: Rules, j: Json, path: seq<nat>, x: Json, y: Json)
    requires Leads(j, path) && path != [] && Reached(rules, Root("", ""), j, path)
    requires Plain(x) && Plain(y) && x != y
    ensures multiset(Flat(rules, Put(j, path, x), "", "")) != multiset(Flat(rules, Put(j, path, y), "", ""))
  {
    hide Reached, PlaceOf, Put, Flat, Lines, Open;
    var root := Root("", "");
    NotRoot(rules, root, j, path);
    var p := PlaceOf(root, j, path);
    Replacement(rules, j, path, x, y);
    ScalarTold(rules, p, x, y);
    ScalarTold(rules, p, y, x);
    OneLine(Lines(rules, p, x), Lines(rules, p, y));
  }

  lemma OneLine(s: seq<string>, t: seq<string>)
    requires |s| == |t| == 1 && s != t
    ensures multiset(s) != multiset(t)
  {
    assert s == [s[0]] && t == [t[0]];
    assert multiset(s)[s[0]] == 1 && multiset(t)[s[0]] == 0;
  }

  /** With nothing to ignore, every part is reached. */
  lemma {:induction false} NothingIgnored(rules: Rules, p: Place, j: Json, path: seq<nat>)
    requires Leads(j, path) && rules.ignore == []
    ensures Reached(rules, p, j, path)
    decreases |path|
  {
    hide Child;
    if path != [] { NothingIgnored(rules, Child(p, j, path[0]), Kid(j, path[0]), path[1..]); }
  }

  // ----- names -----

  /** No number has a colon in it. */
  ghost predicate NumbersPlain(rules: Rules) {
    forall s :: rules.isNumber(s) ==> ':' !in s
  }

  lemma SameEnd(a: string, b: string, x: string, y: string)
    requires a + x == b + y && |x| == |y|
    ensures a == b && x == y
  {
    assert (a + x)[..|a|] == a && (b + y)[..|a|] == b;
    assert (a + x)[|a|..] == x && (b + y)[|a|..] == y;
  }

  lemma SameStart(a: string, x: string, y: string)
    requires a + x == a + y
    ensures x == y
  {
    assert (a + x)[|a|..] == x && (a + y)[|a|..] == y;
  }

  ghost function Start(rules: Rules, key: string): string {
    (if rules.isNumber(key) then "" else key) + (if key != "" then "->" else "")
  }

  ghost function Colon(rules: Rules, name: string, key: string): string {
    if rules.isNumber(name) && (rules.isNumber(key) || key == "") then "" else ":"
  }

  ghost function Kinds(rules: Rules, name: string, ty: string): (s: string) {
    if ty != "" then ty else if rules.isNumber(name) then "6|" else "7|"
  }

  lemma MemberLineIs(rules: Rules, key: string, ty: string, name: string, v: Json)
    requires v.Scalar?
    ensures EntryLine(rules, false, name, key, ty, v) ==
      Start(rules, key) + (name + Colon(rules, name, key)) + v.text + "@" + (Kinds(rules, name, ty) + Code(v))
  {
    hide Code;
    var start := Start(rules, key);
    var head := (if rules.isNumber(key) then "" else key) + (if key != "" then "->" + name else name);
    assert head == start + name;
    assert start + name + Colon(rules, name, key) == start + (name + Colon(rules, name, key));
  }

  /** The line of a member that is a scalar tells its name. */
  lemma NameTold(rules: Rules, key: string, ty: string, m: string, n: string, v: Json)
    requires NumbersPlain(rules) && Plain(v)
    requires EntryLine(rules, false, m, key, ty, v) == EntryLine(rules, false, n, key, ty, v)
    ensures m == n
  {
    hide Code, NumbersPlain, EntryLine, Start, Colon;
    MemberLineIs(rules, key, ty, m, v);
    MemberLineIs(rules, key, ty, n, v);
    var start, sm, sn := Start(rules, key), Colon(rules, m, key), Colon(rules, n, key);
    var tm, tn := Kinds(rules, m, ty) + Code(v), Kinds(rules, n, ty) + Code(v);
    SameEnd(start + (m + sm) + v.text + "@", start + (n + sn) + v.text + "@", tm, tn);
    SameEnd(start + (m + sm) + v.text, start + (n + sn) + v.text, "@", "@");
    SameEnd(start + (m + sm), start + (n + sn), v.text, v.text);
    SameStart(start, m + sm, n + sn);
    SameName(rules, m, n, key);
  }

  lemma SameName(rules: Rules, m: string, n: string, key: string)
    requires NumbersPlain(rules) && m + Colon(rules, m, key) == n + Colon(rules, n, key)
    ensures m == n
  {
    hide NumbersPlain;
    var sm, sn := Colon(rules, m, key), Colon(rules, n, key);
    if sm == sn {
      SameEnd(m, n, sm, sn);
    } else if sm == "" {
      assert (m + sm)[|n|] == ':';
      NoColon(rules, m);
    } else {
      assert (n + sn)[|m|] == ':';
      NoColon(rules, n);
    }
  }

  lemma NoColon(rules: Rules, s: string)
    requires NumbersPlain(rules) && rules.isNumber(s)
    ensures ':' !in s
  {
  }

  /** The members without the `i`-th. */
  function Others(members: seq<Member>, i: nat): seq<Member>
    requires i < |members|
  {
    members[..i] + members[i + 1..]
  }

  lemma {:induction false} MembersBag(rules: Rules, members: seq<Member>, i: nat, key: string, ty: string)
    requires i < |members|
    ensures multiset(FlatMembers(rules, members, key, ty)) ==
      multiset(FlatEntry(rules, false, members[i].name, members[i].value, key, ty)) +
      multiset(FlatMembers(rules, Others(members, i), key, ty))
    decreases |members|
  {
    hide FlatEntry;
    if i == 0 {
      assert Others(members, 0) == members[1..];
    } else {
      MembersBag(rules, members[1..], i - 1, key, ty);
      var rest := Others(members, i);
      assert rest[0] == members[0] && rest[1..] == Others(members[1..], i - 1);
      var head := FlatEntry(rules, false, members[0].name, members[0].value, key, ty);
      assert FlatMembers(rules, members, key, ty) == head + FlatMembers(rules, members[1..], key, ty);
      assert FlatMembers(rules, rest, key, ty) == head + FlatMembers(rules, rest[1..], key, ty);
      InFront(head, FlatMembers(rules, members[1..], key, ty), FlatMembers(rules, rest[1..], key, ty),
              FlatEntry(rules, false, members[i].name, members[i].value, key, ty));
    }
  }

  lemma InFront(head: seq<string>, all: seq<string>, rest: seq<string>, one: seq<string>)
    requires multiset(all) == multiset(one) + multiset(rest)
    ensures multiset(head + all) == multiset(one) + multiset(head + rest)
  {
  }

  /** Two objects that are the same but for the name of one member, wherever it comes in the order. */
  predicate Renamed(a: seq<Member>, i: nat, b: seq<Member>, k: nat) {
    i < |a| && k < |b| && Others(a, i) == Others(b, k) && a[i].value == b[k].value
  }

  /** What an object at a place is the root of. */
  ghost function Inner(p: Place): (string, string) {
    match p
    case Root(key, ty) => (key, ty)
    case Entry(x, n, key, ty) => (ObjectKey(x, n, key), ObjectType(x, ty))
    case Element(x, n, key, ty) => (ElementKey(x, n, key), ElementObjectType(x, ty))
  }

  lemma ObjectLines(rules: Rules, p: Place, members: seq<Member>)
    requires Open(rules, p)
    ensures Lines(rules, p, Object(members)) == FlatMembers(rules, members, Inner(p).0, Inner(p).1)
  {
    hide Skipped, FlatMembers;
    var j, key, ty := Object(members), Inner(p).0, Inner(p).1;
    assert Flat(rules, j, key, ty) == FlatMembers(rules, members, key, ty);
    assert Lines(rules, p, j) == Flat(rules, j, key, ty);
  }

  /** A member that is not ignored, and holds a scalar, cannot be renamed unseen: the lines change,
      wherever in the document the object stands and wherever the member comes in its new order. */
  lemma OneName(rules: Rules, j: Json, path: seq<nat>, a: seq<Member>, i: nat, b: seq<Member>, k: nat)
    requires NumbersPlain(rules) && Leads(j, path) && Renamed(a, i, b, k) && Plain(a[i].value)
    requires a[i].name != b[k].name
    requires Reached(rules, Root("", ""), j, path)
    requires var inner := Inner(PlaceOf(Root("", ""), j, path));
      !Skipped(rules, false, a[i].name, inner.0) && !Skipped(rules, false, b[k].name, inner.0)
    ensures
      multiset(Flat(rules, Put(j, path, Object(a)), "", "")) != multiset(Flat(rules, Put(j, path, Object(b)), "", ""))
  {
    hide PlaceOf, Put, Flat, Inner, Skipped, FlatMembers, EntryLine, Lines, NumbersPlain;
    var root := Root("", "");
    var p := PlaceOf(root, j, path);
    OpenThere(rules, root, j, path);
    var key, ty := Inner(p).0, Inner(p).1;
    Replacement(rules, j, path, Object(a), Object(b));
    ObjectLines(rules, p, a);
    ObjectLines(rules, p, b);
    MembersBag(rules, a, i, key, ty);
    MembersBag(rules, b, k, key, ty);
    var v := a[i].value;
    var x, y := EntryLine(rules, false, a[i].name, key, ty, v), EntryLine(rules, false, b[k].name, key, ty, v);
    if x == y { NameTold(rules, key, ty, a[i].name, b[k].name, v); }
    OneLine([x], [y]);
    var rest := multiset(FlatMembers(rules, Others(a, i), key, ty));
    assert multiset([x]) + rest - rest == multiset([x]) && multiset([y]) + rest - rest == multiset([y]);
  }

  lemma {:induction false} OpenThere(rules: Rules, p: Place, j: Json, path: seq<nat>)
    requires Leads(j, path) && Reached(rules, p, j, path)
    ensures Open(rules, PlaceOf(p, j, path))
    decreases |path|
  {
    hide Child, Open;
    if path != [] { OpenThere(rules, Child(p, j, path[0]), Kid(j, path[0]), path[1..]); }
  }

  // ----- what the lines look like -----

  /** The path leads through objects only. */
  predicate Chained(j: Json, path: seq<nat>)
    decreases |path|
  {
    path != [] ==> j.Object? && path[0] < |j.members| && Chained(j.members[path[0]].value, path[1..])
  }

  function Names(j: Json, path: seq<nat>): (ns: seq<string>)
    requires Chained(j, path)
    ensures |ns| == |path|
    decreases |path|
  {
    if path == [] then [] else [j.members[path[0]].name] + Names(j.members[path[0]].value, path[1..])
  }

  lemma {:induction false} ChainLeads(j: Json, path: seq<nat>)
    requires Chained(j, path)
    ensures Leads(j, path)
    decreases |path|
  {
    if path != [] { ChainLeads(j.members[path[0]].value, path[1..]); }
  }

  /** The names with arrows between. */
  function Joined(names: seq<string>): string {
    if names == [] then ""
    else if |names| == 1 then names[0]
    else Joined(names[..|names| - 1]) + "->" + names[|names| - 1]
  }

  function Objects(n: nat): string {
    if n == 0 then "" else Objects(n - 1) + "7|"
  }

  predicate AllNamed(names: seq<string>) { forall k :: 0 <= k < |names| ==> names[k] != "" }

  /** Neither the name nor the path up to it is ignored. */
  predicate Kept(rules: Rules, names: seq<string>, k: nat)
    requires k < |names|
  {
    names[k] !in rules.ignore && Joined(names[..k + 1]) !in rules.ignore
  }

  predicate KeptFrom(rules: Rules, names: seq<string>, first: nat) {
    forall k :: first <= k < |names| ==> Kept(rules, names, k)
  }

  predicate NoneIgnored(rules: Rules, names: seq<string>) {
    KeptFrom(rules, names, 0)
  }

  /** Where the member stands that has these names on the path to it. */
  ghost function MemberPlace(names: seq<string>): Place
    requires names != []
  {
    var n := |names| - 1;
    Entry(false, names[n], Joined(names[..n]), if n == 0 then "" else Objects(n + 1))
  }

  lemma JoinedMore(names: seq<string>, name: string)
    requires AllNamed(names)
    ensures Joined(names + [name]) == Path(Joined(names), name)
    ensures Joined(names) == "" <==> names == []
  {
    if names != [] {
      assert (names + [name])[..|names|] == names;
      if |names| > 1 { assert "->" <= "->" + names[|names| - 1]; }
    }
  }

  lemma {:induction false} ChainPlace(rules: Rules, j: Json, path: seq<nat>, above: seq<string>)
    requires above != [] && Chained(j, path) && AllNamed(above + Names(j, path))
    ensures Leads(j, path)
    ensures PlaceOf(MemberPlace(above), j, path) == MemberPlace(above + Names(j, path))
    ensures Reached(rules, MemberPlace(above), j, path) <==> KeptFrom(rules, above + Names(j, path), |above| - 1)
    decreases |path|
  {
    hide Joined, Objects, Kept, Open, MemberPlace;
    ChainLeads(j, path);
    var m := |above| - 1;
    var names := above + Names(j, path);
    OpenMember(rules, above, Names(j, path));
    if path == [] {
      assert names == above;
    } else {
      var member := j.members[path[0]];
      var next := above + [member.name];
      assert names == next + Names(member.value, path[1..]);
      assert names[|above|] == member.name;
      ChildOfMember(above, j, path[0]);
      ChainPlace(rules, member.value, path[1..], next);
      assert KeptFrom(rules, names, m) <==> Kept(rules, names, m) && KeptFrom(rules, names, m + 1);
    }
  }

  lemma OpenMember(rules: Rules, above: seq<string>, below: seq<string>)
    requires above != [] && AllNamed(above + below)
    ensures AllNamed(above)
    ensures Open(rules, MemberPlace(above)) <==> Kept(rules, above + below, |above| - 1)
  {
    hide Joined, Objects;
    var m := |above| - 1;
    var names := above + below;
    assert forall k :: 0 <= k < |above| ==> above[k] == names[k];
    assert names[..m + 1] == above && above[..m] + [above[m]] == above;
    JoinedMore(above[..m], above[m]);
  }

  lemma ChildOfMember(above: seq<string>, j: Json, i: nat)
    requires above != [] && AllNamed(above) && j.Object? && i < |j.members| && j.members[i].name != ""
    ensures Child(MemberPlace(above), j, i) == MemberPlace(above + [j.members[i].name])
  {
    hide Joined, Objects, Path, AllNamed;
    var m := |above| - 1;
    var next := above + [j.members[i].name];
    assert next[..|above|] == above;
    LastName(above);
    NextType(m);
  }

  lemma NextType(n: nat)
    ensures ObjectType(false, if n == 0 then "" else Objects(n + 1)) == Objects(n + 2)
  {
    hide Objects;
    ObjectsMore(n);
  }

  lemma ObjectsMore(n: nat)
    ensures Objects(2) == "7|7|" && Objects(1) == "7|"
    ensures Objects(n + 1) + "7" + "|" == Objects(n + 2) && Objects(n + 1) != ""
  {
    assert Objects(1) == "" + "7|";
    assert Objects(n + 1) + "7" + "|" == Objects(n + 1) + "7|";
  }

  /** Members of members: where they stand, and exactly when they are not ignored. */
  lemma MemberThere(rules: Rules, j: Json, path: seq<nat>)
    requires path != [] && Chained(j, path) && AllNamed(Names(j, path))
    ensures Leads(j, path) && PlaceOf(Root("", ""), j, path) == MemberPlace(Names(j, path))
    ensures Reached(rules, Root("", ""), j, path) <==> NoneIgnored(rules, Names(j, path))
  {
    hide Joined, Objects, Kept;
    var member := j.members[path[0]];
    var names := Names(j, path);
    assert names == [member.name] + Names(member.value, path[1..]);
    assert [member.name][..0] == [];
    JoinedNothing();
    assert Child(Root("", ""), j, path[0]) == MemberPlace([member.name]);
    ChainPlace(rules, member.value, path[1..], [member.name]);
  }

  lemma JoinedNothing()
    ensures Joined([]) == ""
  {
  }

  /** The names on the way to an entry are no numbers: for a number the path is left out. */
  predicate PlainNames(rules: Rules, names: seq<string>)
    requires names != []
  {
    AllNamed(names) && !rules.isNumber(Joined(names[..|names| - 1])) && (|names| == 1 ==> !rules.isNumber(names[0]))
  }

  /** The line of a scalar that is a member of a member of an object, and so on: the names, the text, a 7
      for each object, and the code of its type. */
  lemma MemberLine(rules: Rules, names: seq<string>, x: Json)
    requires names != [] && PlainNames(rules, names) && NoneIgnored(rules, names) && x.Scalar?
    ensures Lines(rules, MemberPlace(names), x) ==
      [Joined(names) + ":" + x.text + "@" + Objects(|names|) + Digits(x.code)]
  {
    hide Joined, Objects, Digits, Lines;
    assert Open(rules, MemberPlace(names)) by {
      LastName(names);
      assert Kept(rules, names, |names| - 1);
    }
    MemberHead(rules, names);
    LineIs(rules, MemberPlace(names), x, Joined(names) + ":", Objects(|names|));
  }

  lemma LastName(names: seq<string>)
    requires names != [] && AllNamed(names)
    ensures var n := |names| - 1;
      names[..n + 1] == names && Path(Joined(names[..n]), names[n]) == Joined(names) != "" &&
      (Joined(names[..n]) == "" <==> n == 0)
  {
    hide Joined, Path;
    var n := |names| - 1;
    assert names[..n] + [names[n]] == names;
    assert AllNamed(names[..n]);
    JoinedMore(names[..n], names[n]);
    JoinedMore(names, names[n]);
  }

  /** The head of a member's line. */
  lemma MemberHead(rules: Rules, names: seq<string>)
    requires names != [] && PlainNames(rules, names)
    ensures HeadOf(rules, MemberPlace(names)) == Joined(names) + ":"
    ensures TypesOf(rules, MemberPlace(names)) == Objects(|names|)
  {
    hide Joined, Objects;
    var n := |names| - 1;
    LastName(names);
    ObjectsMore(n);
    var key := Joined(names[..n]);
    if n == 0 {
      assert names[..0] == [];
      assert "" + names[0] + ":" == names[0] + ":";
    } else {
      Arrow(key, names[n]);
    }
  }

  /** The types of what stands in an array that is the `n`-th member below one another. */
  lemma TypesInArray(n: nat)
    ensures var ty := if n == 0 then "" else Objects(n + 1);
      (if ty != "" then ty + "6" else "76") + "|" == ElementTypes(n + 1, "6|") &&
      ElementArrayType(false, ty) + "|" == ElementTypes(n + 1, "66|") &&
      ElementObjectType(false, ty) == Objects(n + 1) + "67|" && Objects(n + 1) != ""
  {
    hide Objects;
    ObjectsMore(n);
    var s := Objects(n + 1);
    if n == 0 {
      assert "76" + "|" == "7" + "6|" && "766" + "|" == "7" + "66|" && "7|67" + "|" == "7|" + "67|";
    } else {
      assert s + "6" + "|" == s + "6|" && s + "66" + "|" == s + "66|" && s + "67" + "|" == s + "67|";
    }
  }

  lemma Arrow(key: string, name: string)
    ensures key + ("->" + name) + ":" == key + "->" + name + ":"
  {
  }

  /** The types of what stands in an array that is the member, but for those of objects. */
  ghost function ElementTypes(n: nat, more: string): string {
    if n == 1 then "7" + more else Objects(n) + more
  }

  lemma ElementHead(rules: Rules, names: seq<string>, items: seq<Json>, i: nat)
    requires names != [] && AllNamed(names) && i < |items|
    ensures var p := Child(MemberPlace(names), Array(items), i);
      HeadOf(rules, p) == Joined(names) + ":" && TypesOf(rules, p) == ElementTypes(|names|, "6|")
  {
    hide Joined, Objects, Path, ElementTypes, AllNamed, MemberPlace;
    var name, key, ty := ArrayPlace(names, items, i);
    TypesInArray(|names| - 1);
  }

  /** The line of an element of an array that is such a member. */
  lemma ElementOfMemberLine(rules: Rules, names: seq<string>, items: seq<Json>, i: nat, x: Json)
    requires names != [] && AllNamed(names) && i < |items| && x.Scalar?
    ensures Lines(rules, Child(MemberPlace(names), Array(items), i), x) ==
      [Joined(names) + ":" + x.text + "@" + ElementTypes(|names|, "6|") + Digits(x.code)]
  {
    hide Joined, Objects, Digits, Lines, HeadOf, TypesOf, AllNamed, ElementTypes;
    ElementHead(rules, names, items, i);
    LineIs(rules, Child(MemberPlace(names), Array(items), i), x, Joined(names) + ":", ElementTypes(|names|, "6|"));
  }

  lemma ArrayPlace(names: seq<string>, items: seq<Json>, i: nat) returns (name: string, key: string, ty: string)
    requires names != [] && AllNamed(names) && i < |items|
    ensures Child(MemberPlace(names), Array(items), i) == Element(false, name, key, ty)
    ensures Path(key, name) == Joined(names) != ""
    ensures ty == if |names| == 1 then "" else Objects(|names|)
  {
    hide Joined, Objects, Path, AllNamed;
    LastName(names);
    var n := |names| - 1;
    name, key, ty := names[n], Joined(names[..n]), if n == 0 then "" else Objects(n + 1);
  }

  lemma InnerPlace(names: seq<string>, items: seq<Json>, i: nat, members: seq<Member>, k: nat)
    requires names != [] && AllNamed(names) && i < |items| && k < |members|
    ensures
      Child(Child(MemberPlace(names), Array(items), i), Object(members), k) ==
        Entry(false, members[k].name, Joined(names), (Objects(|names|) + "67|"))
  {
    hide Joined, Objects, Path, ElementTypes, ElementObjectType, AllNamed, MemberPlace, Child;
    var name, key, ty := ArrayPlace(names, items, i);
    MemberInElement(name, key, ty, members, k);
    TypesInArray(|names| - 1);
  }

  lemma MemberInElement(name: string, key: string, ty: string, members: seq<Member>, k: nat)
    requires k < |members|
    ensures Child(Element(false, name, key, ty), Object(members), k) ==
      Entry(false, members[k].name, Path(key, name), ElementObjectType(false, ty))
  {
    hide Path, ElementObjectType;
  }

  lemma InnerHead(rules: Rules, names: seq<string>, name: string)
    requires names != [] && AllNamed(names) && !rules.isNumber(Joined(names)) && NoneIgnored(rules, names + [name])
    ensures var p := Entry(false, name, Joined(names), (Objects(|names|) + "67|"));
      Open(rules, p) && HeadOf(rules, p) == Joined(names) + "->" + name + ":" &&
      TypesOf(rules, p) == (Objects(|names|) + "67|")
  {
    hide Joined, Objects;
    LastName(names);
    ObjectsMore(|names| - 1);
    JoinedMore(names, name);
    assert Kept(rules, names + [name], |names|);
    assert (names + [name])[|names|] == name && (names + [name])[..|names| + 1] == names + [name];
    Arrow(Joined(names), name);
  }

  /** The line of a member of an object in such an array. */
  lemma MemberOfElementLine(rules: Rules, names: seq<string>, items: seq<Json>, i: nat, members: seq<Member>,
      k: nat, x: Json)
    requires names != [] && AllNamed(names) && i < |items| && k < |members| && x.Scalar?
    requires !rules.isNumber(Joined(names)) && NoneIgnored(rules, names + [members[k].name])
    ensures Lines(rules, Child(Child(MemberPlace(names), Array(items), i), Object(members), k), x) ==
      [Joined(names) + "->" + members[k].name + ":" + x.text + "@" + (Objects(|names|) + "67|") + Digits(x.code)]
  {
    hide Joined, Objects, Digits, Lines, HeadOf, TypesOf, AllNamed, ElementTypes, NoneIgnored, Open, Child, MemberPlace;
    InnerPlace(names, items, i, members, k);
    InnerHead(rules, names, members[k].name);
    var p := Child(Child(MemberPlace(names), Array(items), i), Object(members), k);
    LineIs(rules, p, x, Joined(names) + "->" + members[k].name + ":", (Objects(|names|) + "67|"));
  }

  /** Positions can be told from names, and are not ignored. */
  ghost predicate PositionsOpen(rules: Rules) {
    PositionsPlain(rules) && "\U{0008}" !in rules.ignore
  }

  /** The line of an item of a root array. */
  lemma ItemLine(rules: Rules, items: seq<Json>, i: nat, x: Json)
    requires PositionsOpen(rules) && i < |items| && x.Scalar?
    ensures Lines(rules, Child(Root("", ""), Array(items), i), x) == [x.text + "@" + "6|" + Digits(x.code)]
  {
    hide Digits, Lines;
    assert rules.isNumber(Digits(i));
    LineIs(rules, Child(Root("", ""), Array(items), i), x, "", "6|");
  }

  /** The line of a member of an object in a root array. */
  lemma MemberOfItemLine(rules: Rules, items: seq<Json>, i: nat, members: seq<Member>, k: nat, x: Json)
    requires i < |items| && k < |members| && x.Scalar?
    requires members[k].name !in rules.ignore && !rules.isNumber(members[k].name)
    ensures Lines(rules, Child(Child(Root("", ""), Array(items), i), Object(members), k), x) ==
      [members[k].name + ":" + x.text + "@" + "67|" + Digits(x.code)]
  {
    hide Digits, Lines;
    var p, name := Child(Child(Root("", ""), Array(items), i), Object(members), k), members[k].name;
    assert p == Entry(false, name, "", "67|");
    assert "" + name + ":" == name + ":";
    LineIs(rules, p, x, name + ":", "67|");
  }

  /** The line of an element of an array in a root array. */
  lemma ElementOfItemLine(rules: Rules, items: seq<Json>, i: nat, inner: seq<Json>, k: nat, x: Json)
    requires i < |items| && k < |inner| && x.Scalar?
    ensures Lines(rules, Child(Child(Root("", ""), Array(items), i), Array(inner), k), x) ==
      [x.text + "@" + "66|" + Digits(x.code)]
  {
    hide Digits, Lines;
    LineIs(rules, Child(Child(Root("", ""), Array(items), i), Array(inner), k), x, "", "66|");
  }

  /** One array deeper, below position `i`: the line of an item, and that of a member, which shows that
      the path began at a position by the arrow in front. */
  lemma DeepItemLines(rules: Rules, items: seq<Json>, i: nat, inner: seq<Json>, k: nat, deep: Json, l: nat, x: Json)
    requires PositionsOpen(rules) && i < |items| && k < |inner| && l < Size(deep) && x.Scalar?
    requires deep.Object? ==>
      var name := deep.members[l].name;
      name !in rules.ignore && Digits(i) + "->" + name !in rules.ignore && !rules.isNumber(name)
    ensures
      var place := Child(Child(Child(Root("", ""), Array(items), i), Array(inner), k), deep, l);
      Lines(rules, place, x) ==
        if deep.Array? then [x.text + "@" + "666|" + Digits(x.code)]
        else ["->" + deep.members[l].name + ":" + x.text + "@" + "6|6|7|" + Digits(x.code)]
  {
    assert Digits(i) != "" && rules.isNumber(Digits(i)) && rules.isNumber(Digits(l));
    hide Digits, Lines;
    var p := Child(Child(Child(Root("", ""), Array(items), i), Array(inner), k), deep, l);
    if deep.Array? {
      assert p == Entry(true, Digits(l), Digits(i), "666");
      LineIs(rules, p, x, "", "666|");
    } else {
      var name := deep.members[l].name;
      assert p == Entry(false, name, Digits(i), "6|6|7|");
      assert "" + ("->" + name) + ":" == "->" + name + ":";
      LineIs(rules, p, x, "->" + name + ":", "6|6|7|");
    }
  }

  lemma IndexedHead(rules: Rules, name: string, key: string, ty: string)
    requires rules.isNumber(name) && !rules.isNumber(key) && key != "" && ty != ""
    requires name !in rules.ignore && "\U{0008}" !in rules.ignore
    ensures var p := Entry(true, name, key, ty);
      Open(rules, p) && HeadOf(rules, p) == key + ":" && TypesOf(rules, p) == ty + "|"
  {
    assert key + "" + ":" == key + ":";
  }

  lemma PositionTold(rules: Rules, k: nat)
    requires PositionsOpen(rules)
    ensures rules.isNumber(Digits(k)) && Digits(k) !in rules.ignore && "\U{0008}" !in rules.ignore
  {
  }

  lemma DeepPlace(names: seq<string>, items: seq<Json>, i: nat, inner: seq<Json>, k: nat) returns (ty: string)
    requires names != [] && AllNamed(names) && i < |items| && k < |inner|
    ensures Child(Child(MemberPlace(names), Array(items), i), Array(inner), k) ==
      Entry(true, Digits(k), Joined(names), ElementArrayType(false, ty))
    ensures ElementArrayType(false, ty) != "" && ElementArrayType(false, ty) + "|" == ElementTypes(|names|, "66|")
    ensures Joined(names) != ""
  {
    hide Joined, Objects, Path, ElementTypes, AllNamed, MemberPlace, Digits;
    var name, key;
    name, key, ty := ArrayPlace(names, items, i);
    hide ElementArrayType;
    TypesInArray(|names| - 1);
    TypeNotEmpty(ty);
  }

  lemma TypeNotEmpty(ty: string)
    ensures ElementArrayType(false, ty) != ""
  {
  }

  /** The line of an item of an array in an array that is a member. */
  lemma ItemOfElementLine(rules: Rules, names: seq<string>, items: seq<Json>, i: nat, inner: seq<Json>, k: nat, x: Json)
    requires PositionsOpen(rules) && names != [] && AllNamed(names) && !rules.isNumber(Joined(names))
    requires i < |items| && k < |inner| && x.Scalar?
    ensures Lines(rules, Child(Child(MemberPlace(names), Array(items), i), Array(inner), k), x) ==
      [Joined(names) + ":" + x.text + "@" + ElementTypes(|names|, "66|") + Digits(x.code)]
  {
    PositionTold(rules, k);
    hide Joined, Objects, Digits, Lines, HeadOf, TypesOf, AllNamed, ElementTypes, PositionsOpen, Open, MemberPlace,
        Child,
         ElementArrayType;
    var ty := DeepPlace(names, items, i, inner, k);
    IndexedHead(rules, Digits(k), Joined(names), ElementArrayType(false, ty));
    var p := Child(Child(MemberPlace(names), Array(items), i), Array(inner), k);
    LineIs(rules, p, x, Joined(names) + ":", ElementTypes(|names|, "66|"));
  }
}
