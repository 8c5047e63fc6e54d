/** Keyset pagination over a view: the state of a Paginator, the moves on it, and the object that
    carries them out in place. */
module Paging {
  import opened Common
  import opened Rows

  /** The pair of nulls a paginator starts from. */
  const NOWHERE := Row(Null, Null)

  /** The key and document id of the first row of the current page and of the next one, and the
      stack of the first rows of the pages before. */
  datatype State = State(prev: Row, next: Row, back: seq<Row>)

  const FRESH := State(NOWHERE, NOWHERE, [])

  datatype Move = Next | Prev

  /** What became of a request: the state of the view when it was answered, or no results. */
  datatype Reply = From(view: seq<Row>) | Failed

  datatype Event = Event(move: Move, reply: Reply)

  /** `next` asks the server only when both parts of the next start are truthy. */
  predicate Askable(r: Row) {
    Truthy(r.key) && Truthy(r.id)
  }

  /** `_paginate` pushes the current start only when both its parts are set. */
  predicate Known(r: Row) {
    r.key != Null && r.id != Null
  }

  predicate HasNext(s: State) {
    s.next.key != Null
  }

  /** The first page's callback; the request was for `asked` rows. */
  function StartPage(s: State, results: Option<seq<Row>>, asked: nat): (State, Option<seq<Row>>)
    requires asked > 0
  {
    match results
    case None => (s, None)
    case Some(rows) =>
      var s1 := if rows == [] then s else s.(prev := rows[0]);
      if |rows| >= asked then (s1.(next := rows[|rows| - 1]), Some(rows[..|rows| - 1]))
      else (s1.(next := NOWHERE), Some(rows))
  }

  /** The callback of every later request, with page size `limit`. */
  function Paginate(s: State, results: Option<seq<Row>>, limit: nat): (State, seq<Row>) {
    match results
    case None => (s, [])
    case Some(rows) =>
      var s1 := if rows == [] then s
                else State(rows[0], s.next, if Known(s.prev) then s.back + [s.prev] else s.back);
      if |rows| > limit then (s1.(next := rows[|rows| - 1]), rows[..|rows| - 1])
      else (s1.(next := NOWHERE), rows)
  }

  /** The start row that a move sends to the server, if it sends anything. */
  function Ask(s: State, move: Move): Option<Row> {
    match move
    case Next => if Askable(s.next) then Some(s.next) else None
    case Prev => if s.back == [] then None else Some(s.back[|s.back| - 1])
  }

  /** The state while a request is outstanding: `prev` pops when it asks. */
  function Waiting(s: State, move: Move): State
    requires Ask(s, move).Some?
  {
    if move.Prev? then s.(back := s.back[..|s.back| - 1]) else s
  }

  /** A move the paginator answers by itself. */
  function Local(s: State, move: Move, limit: nat): (State, seq<Row>)
    requires Ask(s, move).None?
  {
    Paginate(s, if move.Next? then Some([]) else None, limit)
  }

  /** The arrival of a response. */
  function Arrive(s: State, move: Move, results: Option<seq<Row>>, limit: nat): (State, seq<Row>) {
    Paginate(if move.Prev? then s.(prev := NOWHERE) else s, results, limit)
  }

  function Results(reply: Reply, start: Option<Row>, limit: nat): Option<seq<Row>> {
    match reply
    case Failed => None
    case From(view) => Some(Answer(view, start, limit + 1))
  }

  /** One whole move: request and response together. */
  function Step(s: State, e: Event, limit: nat): (State, seq<Row>) {
    var start := Ask(s, e.move);
    if start.None? then Local(s, e.move, limit)
    else Arrive(Waiting(s, e.move), e.move, Results(e.reply, start, limit), limit)
  }

  /** The state and the page after `firstPage`. */
  function First(reply: Reply, limit: nat): (State, seq<Row>) {
    var (s, page) := StartPage(FRESH, Results(reply, None, limit), limit + 1);
    (s, match page case None => [] case Some(p) => p)
  }

  /** A request that fails delivers nothing. The first one and `next` change nothing, and can be tried
      again; `prev` has by then lost the start it asked for, and the current one too. */
  lemma FailureExact(s: State, limit: nat)
    ensures First(Failed, limit) == (State(Row(Null, Null), Row(Null, Null), []), [])
    ensures !FalseValue(s.next.key) && !FalseValue(s.next.id) ==> Step(s, Event(Next, Failed), limit) == (s, [])
    ensures s.back == [] ==> Step(s, Event(Prev, Failed), limit) == (s, [])
    ensures s.back != [] ==>
              Step(s, Event(Prev, Failed), limit) == (State(Row(Null, Null), s.next, s.back[..|s.back| - 1]), [])
  {
  }

  /** The paginator object of the library. */
  class Paginator {
    var prevKey: Json
    var nextKey: Json
    var prevKeyDocid: Json
    var nextKeyDocid: Json
    var prevPages: seq<(Json, Json)>
    const limit: nat

    ghost function Abs(): State
      reads this
    {
      State(Row(prevKey, prevKeyDocid), Row(nextKey, nextKeyDocid), Pairs(prevPages))
    }

    static ghost function Pairs(pages: seq<(Json, Json)>): (rows: seq<Row>)
      ensures |rows| == |pages|
    {
      seq(|pages|, i requires 0 <= i < |pages| => Row(pages[i].0, pages[i].1))
    }

    constructor (limit: nat)
      ensures Abs() == FRESH && this.limit == limit
    {
      prevKey, nextKey, prevKeyDocid, nextKeyDocid, prevPages := Null, Null, Null, Null, [];
      this.limit := limit;
    }

    /** Handles the response to the first request, which asked for one row more than a page. */
    method OnFirst(results: Option<seq<Row>>) returns (page: Option<seq<Row>>)
      modifies this
      ensures (Abs(), page) == StartPage(old(Abs()), results, limit + 1)
    {
      page := results;
      if results.Some? {
        var rows := results.value;
        if |rows| > 0 {
          prevKey := rows[0].key;
          prevKeyDocid := rows[0].id;
        }
        if |rows| >= limit + 1 {
          var x := rows[|rows| - 1];
          rows := rows[..|rows| - 1];
          nextKey := x.key;
          nextKeyDocid := x.id;
        } else {
          nextKey := Null;
          nextKeyDocid := Null;
        }
        page := Some(rows);
      }
    }

    method PaginateResults(results: Option<seq<Row>>) returns (page: seq<Row>)
      modifies this
      ensures (Abs(), page) == Paginate(old(Abs()), results, limit)
      ensures prevPages == old(prevPages) +
                if results.Some? && results.value != [] && old(prevKey) != Null && old(prevKeyDocid) != Null
                then [(old(prevKey), old(prevKeyDocid))] else []
    {
      page := [];
      if results.Some? {
        var rows := results.value;
        if |rows| > 0 {
          if prevKey != Null && prevKeyDocid != Null {
            ghost var pushed := Pairs(prevPages) + [Row(prevKey, prevKeyDocid)];
            prevPages := prevPages + [(prevKey, prevKeyDocid)];
            assert Pairs(prevPages) == pushed;
          }
          prevKey := rows[0].key;
          prevKeyDocid := rows[0].id;
        }
        if |rows| > limit {
          var x := rows[|rows| - 1];
          rows := rows[..|rows| - 1];
          nextKey := x.key;
          nextKeyDocid := x.id;
        } else {
          nextKey := Null;
          nextKeyDocid := Null;
        }
        page := rows;
      }
    }

    method HasNextPage() returns (b: bool)
      ensures b == HasNext(Abs()) && (b <==> nextKey != Null)
    {
      b := nextKey != Null;
    }

    /** Starts a move to the next page: either a request goes out, or a page comes back at once. */
    method GoNext() returns (start: Option<Row>, page: seq<Row>)
      modifies this
      ensures start == Ask(old(Abs()), Next)
      ensures start.Some? ==> Abs() == Waiting(old(Abs()), Next)
      ensures start.None? ==> (Abs(), page) == Local(old(Abs()), Next, limit)
    {
      page := [];
      if Truthy(nextKey) && Truthy(nextKeyDocid) {
        start := Some(Row(nextKey, nextKeyDocid));
      } else {
        start := None;
        page := PaginateResults(Some([]));
      }
    }

    /** Starts a move to the page before. */
    method GoPrev() returns (start: Option<Row>, page: seq<Row>)
      modifies this
      ensures start == Ask(old(Abs()), Prev)
      ensures start.Some? ==> Abs() == Waiting(old(Abs()), Prev)
      ensures start.None? ==> (Abs(), page) == Local(old(Abs()), Prev, limit)
    {
      page := [];
      if |prevPages| == 0 {
        start := None;
        page := PaginateResults(None);
      } else {
        var nk := prevPages[|prevPages| - 1];
        prevPages := prevPages[..|prevPages| - 1];
        start := Some(Row(nk.0, nk.1));
      }
    }

    method OnNext(results: Option<seq<Row>>) returns (page: seq<Row>)
      modifies this
      ensures (Abs(), page) == Arrive(old(Abs()), Next, results, limit)
    {
      page := PaginateResults(results);
    }

    method OnPrev(results: Option<seq<Row>>) returns (page: seq<Row>)
      modifies this
      ensures (Abs(), page) == Arrive(old(Abs()), Prev, results, limit)
    {
      prevKey := Null;
      prevKeyDocid := Null;
      page := PaginateResults(results);
    }

    /** A whole move against a server that answers with `reply`. */
    method Go(e: Event) returns (page: seq<Row>)
      modifies this
      ensures (Abs(), page) == Step(old(Abs()), e, limit)
    {
      var start: Option<Row>;
      if e.move.Next? {
        start, page := GoNext();
      } else {
        start, page := GoPrev();
      }
      if start.Some? {
        var results := Results(e.reply, start, limit);
        if e.move.Next? {
          page := OnNext(results);
        } else {
          page := OnPrev(results);
        }
      }
    }
  }
}
