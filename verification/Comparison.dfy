/** How the proxy compares two answers: status, content type, emptiness of the body, then the body,
    as text or as JSON. The comparison is a partial equivalence: symmetric and transitive, but an
    answer whose JSON body does not parse equals nothing, not even itself. */
module Comparison {
  import opened Wrappers
  import opened JsonFlat
  import opened StringBags
  import opened Answers
  import JsonLaws

  /** The JSON reader, and the rules for flattening. */
  datatype Setup = Setup(parse: string -> Option<Json>, rules: Rules)

  predicate OccursAt(s: string, needle: string, i: int) {
    0 <= i <= |s| - |needle| && s[i..i + |needle|] == needle
  }

  predicate Contains(s: string, needle: string) {
    exists i :: 0 <= i <= |s| && OccursAt(s, needle, i)
  }

  /** A C string: what comes before the first NUL. */
  function CString(s: string): string {
    if s == "" || s[0] == '\0' then "" else [s[0]] + CString(s[1..])
  }

  predicate TextEqual(a: string, b: string) {
    |a| == |b| && CString(a) == CString(b)
  }

  predicate JsonEqual(setup: Setup, a: string, b: string) {
    var x, y := setup.parse(a), setup.parse(b);
    x.Some? && y.Some? &&
    multiset(Flat(setup.rules, x.value, "", "")) == multiset(Flat(setup.rules, y.value, "", ""))
  }

  /** The first difference between two answers, if any. */
  function Difference(setup: Setup, a: Answer, b: Answer): Option<Reason> {
    if a.status != b.status then Some(ResponseStatus)
    else if a.contentType != b.contentType then Some(ContentType)
    else if (a.bodyLen == 0) != (b.bodyLen == 0) then Some(BodyLen)
    else if b.bodyLen == 0 then None
    else if Contains(b.contentType, "json") then
      if setup.parse(a.body).None? || setup.parse(b.body).None? then Some(BodyResolution)
      else if JsonEqual(setup, a.body, b.body) then None else Some(BodyValue)
    else if TextEqual(a.body, b.body) then None else Some(BodyValue)
  }

  /** The text contains the other somewhere. */
  lemma ContainsMeans(s: string, needle: string)
    ensures Contains(s, needle) <==> exists before, behind :: s == before + needle + behind
  {
    if Contains(s, needle) {
      var i :| 0 <= i <= |s| && OccursAt(s, needle, i);
      assert s == s[..i] + needle + s[i + |needle|..];
    }
    forall before, behind | s == before + needle + behind
      ensures Contains(s, needle)
    {
      assert OccursAt(s, needle, |before|);
    }
  }

  /** What comes before the first NUL. */
  lemma {:induction false} CStringMeans(s: string)
    ensures CString(s) <= s && '\0' !in CString(s)
    ensures |CString(s)| < |s| ==> s[|CString(s)|] == '\0'
  {
    if s != "" && s[0] != '\0' {
      CStringMeans(s[1..]);
      assert s == [s[0]] + s[1..];
    }
  }

  /** Two answers with the same status and content type. */
  predicate SameHead(a: Answer, b: Answer) { a.status == b.status && a.contentType == b.contentType }

  predicate BothParse(setup: Setup, a: Answer, b: Answer) {
    setup.parse(a.body).Some? && setup.parse(b.body).Some?
  }

  /** Bodies match: as JSON if the content type says so, by the bags of their lines; otherwise as C
      strings of one length. */
  ghost predicate BodiesMatch(setup: Setup, a: Answer, b: Answer) {
    if Contains(b.contentType, "json") then
      BothParse(setup, a, b) &&
      multiset(Flat(setup.rules, setup.parse(a.body).value, "", "")) ==
        multiset(Flat(setup.rules, setup.parse(b.body).value, "", ""))
    else |a.body| == |b.body| && CString(a.body) == CString(b.body)
  }

  /** The answers are to be taken for equal. */
  ghost predicate Matching(setup: Setup, a: Answer, b: Answer) {
    SameHead(a, b) && (a.bodyLen == 0 <==> b.bodyLen == 0) && (b.bodyLen > 0 ==> BodiesMatch(setup, a, b))
  }

  /** What each outcome of a comparison says. */
  ghost predicate ReasonRight(setup: Setup, a: Answer, b: Answer, reason: Option<Reason>) {
    (reason == None <==> Matching(setup, a, b)) &&
    (reason == Some(ResponseStatus) <==> a.status != b.status) &&
    (reason == Some(ContentType) <==> a.status == b.status && a.contentType != b.contentType) &&
    (reason == Some(BodyLen) <==> SameHead(a, b) && (a.bodyLen == 0) != (b.bodyLen == 0)) &&
    (reason == Some(BodyResolution) <==>
       SameHead(a, b) && a.bodyLen > 0 && b.bodyLen > 0 && Contains(b.contentType, "json") &&
       !BothParse(setup, a, b)) &&
    (reason == Some(BodyValue) <==>
       SameHead(a, b) && a.bodyLen > 0 && b.bodyLen > 0 && !BodiesMatch(setup, a, b) &&
       (Contains(b.contentType, "json") ==> BothParse(setup, a, b)))
  }

  /** Exactly when a comparison gives each reason. */
  lemma DifferenceRight(setup: Setup, a: Answer, b: Answer)
    ensures ReasonRight(setup, a, b, Difference(setup, a, b))
  {
    hide Contains, Flat, CString;
  }

  predicate Agree(setup: Setup, a: Answer, b: Answer) {
    Difference(setup, a, b).None?
  }

  /** Both directions of a comparison give the same reason. */
  lemma DifferenceSymmetric(setup: Setup, a: Answer, b: Answer)
    ensures Difference(setup, a, b) == Difference(setup, b, a)
  {
  }

  lemma AgreeTransitive(setup: Setup, a: Answer, b: Answer, c: Answer)
    requires Agree(setup, a, b) && Agree(setup, b, c)
    ensures Agree(setup, a, c)
  {
    hide Contains, Flat, CString;
  }

  /** An answer equals itself unless it announces a JSON body that does not parse. */
  lemma AgreeReflexive(setup: Setup, a: Answer)
    ensures Agree(setup, a, a) <==> a.bodyLen == 0 || !Contains(a.contentType, "json") || setup.parse(a.body).Some?
  {
  }

  /** The comparison as the grouping of answers uses it. */
  ghost function Comparer(setup: Setup): Compare {
    Compare((a, b) => Difference(setup, a, b))
  }

  lemma ComparerIsLawful(setup: Setup)
    ensures Lawful(Comparer(setup))
  {
    forall a, b, c
      ensures Difference(setup, a, b) == Difference(setup, b, a)
      ensures Agree(setup, a, b) && Agree(setup, b, c) ==> Agree(setup, a, c)
      ensures Agree(setup, a, b) ==> a.status == b.status && Difference(setup, c, a) == Difference(setup, c, b)
    {
      DifferenceSymmetric(setup, a, b);
      if Agree(setup, a, b) && Agree(setup, b, c) { AgreeTransitive(setup, a, b, c); }
      if Agree(setup, a, b) { AgreeDifference(setup, a, b, c); }
    }
  }

  /** Equal answers differ from a third one for the same reason. */
  lemma AgreeDifference(setup: Setup, a: Answer, b: Answer, c: Answer)
    requires Agree(setup, a, b)
    ensures Difference(setup, c, a) == Difference(setup, c, b)
  {
    hide Contains, Flat, CString;
  }

  /** Bodies of the same shape compare as equal, whatever the order of their arrays and whatever
      stands under ignored members; of an array at the root no item may show its position. */
  lemma SameShapeSameBody(setup: Setup, a: string, b: string)
    requires setup.parse(a).Some? && setup.parse(b).Some?
    requires var x, y := setup.parse(a).value, setup.parse(b).value;
      PositionsPlain(setup.rules) && Named(setup.rules, x) && Named(setup.rules, y) &&
      ShapeOf(setup.rules, x) == ShapeOf(setup.rules, y) && (x.Array? ==> NoneShows(setup.rules, x.items))
    ensures JsonEqual(setup, a, b)
  {
    SameShapeSameLines(setup.rules, setup.parse(a).value, setup.parse(b).value, "", "");
  }

  /** Two bodies that are the same but for the text or the type of one scalar that is not ignored are
      never taken for equal: with such bodies, answers differ in their body's value. */
  lemma OneScalarDiffers(setup: Setup, a: Answer, b: Answer, doc: Json, path: seq<nat>, x: Json, y: Json)
    requires JsonLaws.Leads(doc, path) && path != []
    requires JsonLaws.Reached(setup.rules, JsonLaws.Root("", ""), doc, path)
    requires JsonLaws.Plain(x) && JsonLaws.Plain(y) && x != y
    requires setup.parse(a.body) == Some(JsonLaws.Put(doc, path, x))
    requires setup.parse(b.body) == Some(JsonLaws.Put(doc, path, y))
    ensures !JsonEqual(setup, a.body, b.body)
    ensures SameHead(a, b) && Contains(b.contentType, "json") && a.bodyLen > 0 && b.bodyLen > 0 ==>
      Difference(setup, a, b) == Some(BodyValue)
  {
    hide Flat, Contains;
    JsonLaws.OneScalar(setup.rules, doc, path, x, y);
  }

  const EQUAL := 100
  const UNPARSED := 99

  /** Compares two JSON bodies: flattens both, sorts, takes the differences both ways. */
  method ComJsonBody(setup: Setup, groupBody: string, comBody: string) returns (code: int)
    ensures code == EQUAL <==> JsonEqual(setup, groupBody, comBody)
    ensures code == EQUAL <==>
      var x, y := setup.parse(groupBody), setup.parse(comBody);
      x.Some? && y.Some? &&
      multiset(Flat(setup.rules, x.value, "", "")) == multiset(Flat(setup.rules, y.value, "", ""))
    ensures code == UNPARSED <==> setup.parse(groupBody).None? || setup.parse(comBody).None?
    ensures code in {EQUAL, UNPARSED, 0}
  {
    hide Flat, Less, Sorted;
    var groupValue, comValue := setup.parse(groupBody), setup.parse(comBody);
    if groupValue.None? || comValue.None? { return UNPARSED; }
    var flatGroup := FlatJson(setup.rules, groupValue.value, "", "", []);
    var flatCom := FlatJson(setup.rules, comValue.value, "", "", []);
    assert flatGroup == Flat(setup.rules, groupValue.value, "", "") &&
      flatCom == Flat(setup.rules, comValue.value, "", "");
    ghost var g, c := multiset(flatGroup), multiset(flatCom);
    var groupSize, comSize := |flatGroup|, |flatCom|;
    flatGroup := Sort(flatGroup);
    flatCom := Sort(flatCom);
    var comDiffGroup := SetDifference(flatCom, flatGroup);
    var groupDiffCom := SetDifference(flatGroup, flatCom);
    EqualBags(g, c);
    assert |multiset(groupDiffCom)| == |groupDiffCom| && |multiset(comDiffGroup)| == |comDiffGroup|;
    assert |g| == groupSize && |c| == comSize;
    if groupSize == comSize && |groupDiffCom| == 0 && |comDiffGroup| == 0 { return EQUAL; }
    return 0;
  }

  /** Compares two bodies as text. */
  method ComTxtBody(groupBody: string, comBody: string) returns (equal: bool)
    ensures equal == TextEqual(groupBody, comBody)
    ensures equal == (|groupBody| == |comBody| && CString(groupBody) == CString(comBody))
  {
    if groupBody == "" && comBody == "" { return true; }
    if groupBody != "" && comBody == "" { return false; }
    if groupBody == "" && comBody != "" { return false; }
    if |groupBody| != |comBody| { return false; }
    return CString(groupBody) == CString(comBody);
  }

  /** Compares an answer with the representative of a group. */
  method CompareAnswers(setup: Setup, group: Answer, com: Answer) returns (reason: Option<Reason>)
    ensures reason == Difference(setup, group, com) && ReasonRight(setup, group, com, reason)
  {
    hide Flat, CString, ReasonRight, Contains;
    DifferenceRight(setup, group, com);
    if group.status != com.status { return Some(ResponseStatus); }
    if group.contentType != com.contentType { return Some(ContentType); }
    if group.bodyLen == 0 && com.bodyLen != 0 { return Some(BodyLen); }
    if group.bodyLen > 0 && com.bodyLen == 0 { return Some(BodyLen); }
    if com.bodyLen > 0 {
      if Contains(com.contentType, "json") {
        var code := ComJsonBody(setup, group.body, com.body);
        if code == EQUAL { return None; }
        return Some(if code == 0 then BodyValue else BodyResolution);
      }
      var equal := ComTxtBody(group.body, com.body);
      if !equal { return Some(BodyValue); }
    }
    return None;
  }
}
