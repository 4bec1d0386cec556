/** Answers of executors, and what a comparison of answers must obey to group them. */
module Answers {
  import opened Wrappers

  /** The key of an answer: session, executor address and number of the request sent to it. */
  datatype Key = Key(sid: string, addr: string, count: int)

  /** An answer of one executor. `bodyLen` is the length on the wire, which can differ from the
      length of the body that is kept. */
  datatype Answer = Answer(key: Key, status: int, contentType: string, bodyLen: nat, body: string)

  datatype Reason = ResponseStatus | ContentType | BodyLen | BodyValue | BodyResolution

  /** A comparison: the reason why two answers differ, or none. */
  datatype Compare = Compare(difference: (Answer, Answer) -> Option<Reason>)

  predicate Same(cmp: Compare, a: Answer, b: Answer) { cmp.difference(a, b) == None }

  /** A partial equivalence that respects statuses, and whose reasons respect equality. Nothing
      makes an answer equal to itself. */
  ghost predicate Lawful(cmp: Compare) {
    (forall a, b :: cmp.difference(a, b) == cmp.difference(b, a)) &&
    (forall a, b, c :: Same(cmp, a, b) && Same(cmp, b, c) ==> Same(cmp, a, c)) &&
    (forall a, b, c :: Same(cmp, a, b) ==> a.status == b.status && cmp.difference(c, a) == cmp.difference(c, b))
  }
}
