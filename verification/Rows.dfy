/** The rows of a view, their order, and how the server answers a range request. */
module Rows {
  import opened Common

  /** A JSON value used as an emitted key or a document id.
      Text and composite values are known only by their place in the server's collation;
      the empty text has place zero. */
  datatype Json = Null | Bool(b: bool) | Number(n: real) | Text(place: real) | Composite(place: real)

  datatype Row = Row(key: Json, id: Json)

  /** JavaScript truthiness. */
  predicate Truthy(j: Json) {
    match j
    case Null => false
    case Bool(b) => b
    case Number(n) => n != 0.0
    case Text(p) => p != 0.0
    case Composite(_) => true
  }

  /** The values that are false in JavaScript, one by one. */
  predicate FalseValue(j: Json) {
    j == Null || j == Bool(false) || j == Number(0.0) || j == Text(0.0)
  }

  function Tier(j: Json): nat {
    match j
    case Null => 0
    case Bool(_) => 1
    case Number(_) => 2
    case Text(_) => 3
    case Composite(_) => 4
  }

  function Place(j: Json): real {
    match j
    case Null => 0.0
    case Bool(b) => if b then 1.0 else 0.0
    case Number(n) => n
    case Text(p) => p
    case Composite(p) => p
  }

  /** Collation order: null, booleans, numbers, texts, arrays and objects. */
  predicate Below(a: Json, b: Json) {
    Tier(a) < Tier(b) || (Tier(a) == Tier(b) && Place(a) < Place(b))
  }

  /** Rows are ordered by key, then by document id. */
  predicate Less(a: Row, b: Row) {
    Below(a.key, b.key) || (a.key == b.key && Below(a.id, b.id))
  }

  predicate AtMost(a: Row, b: Row) {
    a == b || Less(a, b)
  }

  predicate InOrder(view: seq<Row>, i: int, j: int) {
    0 <= i < j < |view| ==> AtMost(view[i], view[j])
  }

  predicate InStrictOrder(view: seq<Row>, i: int, j: int) {
    0 <= i < j < |view| ==> Less(view[i], view[j])
  }

  ghost predicate Sorted(view: seq<Row>) {
    forall i, j :: InOrder(view, i, j)
  }

  ghost predicate Increasing(view: seq<Row>) {
    forall i, j :: InStrictOrder(view, i, j)
  }

  /** Position of the first row at or after `start`. */
  function FirstAt(view: seq<Row>, start: Row): (f: nat)
    ensures f <= |view|
  {
    if view == [] then 0
    else if AtMost(start, view[0]) then 0
    else 1 + FirstAt(view[1..], start)
  }

  lemma {:induction false} FirstAtIsFirst(view: seq<Row>, start: Row)
    ensures var f := FirstAt(view, start);
            && (forall i :: 0 <= i < f ==> Less(view[i], start))
            && (f < |view| ==> AtMost(start, view[f]))
  {
    if view != [] && !AtMost(start, view[0]) {
      LessIsTotal(start, view[0]);
      FirstAtIsFirst(view[1..], start);
    }
  }

  function Min(a: nat, b: nat): nat {
    if a <= b then a else b
  }

  /** The rows at positions from, from + 1, ... but no more than `limit` of them. */
  function Slice(view: seq<Row>, from: nat, limit: nat): seq<Row>
    requires from <= |view|
  {
    view[from..Min(from + limit, |view|)]
  }

  /** The server's answer: the first `limit` rows at or after `start` (from the beginning when
      there is no start). */
  function Answer(view: seq<Row>, start: Option<Row>, limit: nat): (rows: seq<Row>)
    ensures |rows| <= limit
  {
    match start
    case None => Slice(view, 0, limit)
    case Some(r) => Slice(view, FirstAt(view, r), limit)
  }

  lemma LessIsTransitive(a: Row, b: Row, c: Row)
    requires AtMost(a, b) && AtMost(b, c)
    ensures AtMost(a, c)
    ensures Less(a, b) || Less(b, c) ==> Less(a, c)
  {
  }

  lemma LessIsTotal(a: Row, b: Row)
    ensures AtMost(a, b) <==> !Less(b, a)
    ensures a != b ==> Less(a, b) || Less(b, a)
  {
  }

  /** In a sorted view a row that differs from its predecessor is found at its own position. */
  lemma FoundAtOwnPlace(view: seq<Row>, i: nat)
    requires Sorted(view) && i < |view|
    requires i > 0 ==> Less(view[i - 1], view[i])
    ensures FirstAt(view, view[i]) == i
  {
    var f := FirstAt(view, view[i]);
    FirstAtIsFirst(view, view[i]);
    LessIsTotal(view[i], view[i]);
    if f < i {
      assert AtMost(view[i], view[f]);
      assert InOrder(view, f, i - 1);
      LessIsTransitive(view[i], view[f], view[i - 1]);
      LessIsTotal(view[i], view[i - 1]);
    }
  }
}
