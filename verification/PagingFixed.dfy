/** Paging over a view that does not change: when the paginator is exactly a page counter, and when
    going forward delivers exactly the view. */
module PagingFixed {
  import opened Common
  import opened Rows
  import opened Paging

  /** The position at which page c starts. */
  function At(limit: nat, c: nat): nat {
    if c == 0 then 0 else At(limit, c - 1) + limit
  }

  predicate Starts(view: seq<Row>, limit: nat, c: nat) {
    At(limit, c) < |view|
  }

  /** Page starts after the first have no false part, and differ from the row before them. */
  ghost predicate Boundaries(view: seq<Row>, limit: nat) {
    forall c: nat :: c > 0 && Starts(view, limit, c) ==> Boundary(view, limit, c)
  }

  predicate Boundary(view: seq<Row>, limit: nat, c: nat)
    requires Starts(view, limit, c)
  {
    && !FalseValue(view[At(limit, c)].key) && !FalseValue(view[At(limit, c)].id)
    && (At(limit, c) > 0 ==> Less(view[At(limit, c) - 1], view[At(limit, c)]))
  }

  /** Besides, the very first row has no null part, if there is a second page. */
  ghost predicate Pageable(view: seq<Row>, limit: nat) {
    && Boundaries(view, limit)
    && (|view| > limit ==> view[0].key != Null && view[0].id != Null)
  }

  /** The first row of the page after page c, if there is one. */
  function NextStart(view: seq<Row>, limit: nat, c: nat): Row {
    if Starts(view, limit, c + 1) then view[At(limit, c + 1)] else NOWHERE
  }

  /** The paginator that stands on page c. */
  function OnPage(view: seq<Row>, limit: nat, c: nat): State
    requires c == 0 || Starts(view, limit, c)
  {
    State(if view == [] then NOWHERE else view[At(limit, c)],
          NextStart(view, limit, c),
          BackStack(view, limit, c))
  }

  /** The first rows of pages 0 .. c - 1. */
  function BackStack(view: seq<Row>, limit: nat, c: nat): (rows: seq<Row>)
    requires c == 0 || Starts(view, limit, c)
    ensures |rows| == c
  {
    if c == 0 then [] else
    BackStack(view, limit, c - 1) + [view[At(limit, c - 1)]]
  }

  function Page(view: seq<Row>, limit: nat, c: nat): seq<Row>
    requires c == 0 || Starts(view, limit, c)
  {
    Slice(view, At(limit, c), limit)
  }

  /** What moves do to a page number. */
  function Turn(view: seq<Row>, limit: nat, c: nat, move: Move): nat {
    match move
    case Next => if Starts(view, limit, c + 1) then c + 1 else c
    case Prev => if c == 0 then 0 else c - 1
  }

  function PageNumber(view: seq<Row>, limit: nat, moves: seq<Move>): (c: nat)
    requires limit > 0
    ensures c == 0 || Starts(view, limit, c)
  {
    if moves == [] then 0 else
    var c := PageNumber(view, limit, moves[..|moves| - 1]);
    Turn(view, limit, c, moves[|moves| - 1])
  }

  /** The page the last of the moves should deliver: the page turned to, or nothing past an end. */
  function Delivered(view: seq<Row>, limit: nat, moves: seq<Move>): seq<Row>
    requires limit > 0
  {
    var c := PageNumber(view, limit, moves);
    if moves == [] || PageNumber(view, limit, moves[..|moves| - 1]) != c then Page(view, limit, c) else []
  }

  /** The actual state and last page after `firstPage` and the moves. */
  function Walk(view: seq<Row>, limit: nat, moves: seq<Move>): (State, seq<Row>) {
    if moves == [] then First(From(view), limit)
    else
      var (s, _) := Walk(view, limit, moves[..|moves| - 1]);
      Step(s, Event(moves[|moves| - 1], From(view)), limit)
  }

  predicate Tracks(view: seq<Row>, limit: nat, moves: seq<Move>)
    requires limit > 0
  {
    Walk(view, limit, moves) ==
    (OnPage(view, limit, PageNumber(view, limit, moves)), Delivered(view, limit, moves))
  }

  /** Every sequence of moves keeps the paginator equal to a page counter. */
  ghost predicate AlwaysTracks(view: seq<Row>, limit: nat)
    requires limit > 0
  {
    forall moves :: Tracks(view, limit, moves)
  }

  // ---- Pageable views are tracked ----

  lemma SliceSplits(view: seq<Row>, from: nat, limit: nat)
    requires from <= |view|
    ensures var rows := Slice(view, from, limit + 1);
            if from + limit < |view| then rows == Slice(view, from, limit) + [view[from + limit]]
            else rows == Slice(view, from, limit) && |rows| <= limit
  {
  }

  lemma FirstTracks(view: seq<Row>, limit: nat)
    requires limit > 0
    ensures First(From(view), limit) == (OnPage(view, limit, 0), Page(view, limit, 0))
  {
    assert At(limit, 1) == limit;
    SliceSplits(view, 0, limit);
  }

  /** A request that starts at the first row of page c answers with page c and the row after. */
  lemma AnswerAtPage(view: seq<Row>, limit: nat, c: nat)
    requires Sorted(view) && limit > 0 && Starts(view, limit, c)
    requires c > 0 ==> Boundary(view, limit, c)
    ensures FirstAt(view, view[At(limit, c)]) == At(limit, c)
    ensures var rows := Answer(view, Some(view[At(limit, c)]), limit + 1);
            && rows == Slice(view, At(limit, c), limit + 1)
            && rows[0] == view[At(limit, c)]
            && (|rows| > limit <==> Starts(view, limit, c + 1))
            && (|rows| > limit ==>
                  rows[|rows| - 1] == view[At(limit, c + 1)] && rows[..|rows| - 1] == Page(view, limit, c))
            && (|rows| <= limit ==> rows == Page(view, limit, c))
  {
    FoundAtOwnPlace(view, At(limit, c));
    SliceSplits(view, At(limit, c), limit);
  }

  /** A move that asks for page c, from whatever state. */
  lemma Lands(view: seq<Row>, limit: nat, c: nat, s: State, move: Move)
    requires Sorted(view) && limit > 0 && Starts(view, limit, c)
    requires c > 0 ==> Boundary(view, limit, c)
    requires Ask(s, move) == Some(view[At(limit, c)])
    ensures Step(s, Event(move, From(view)), limit)
         == (State(view[At(limit, c)], NextStart(view, limit, c),
                   if move.Prev? then s.back[..|s.back| - 1]
                   else if Known(s.prev) then s.back + [s.prev] else s.back),
             Page(view, limit, c))
  {
    hide Sorted, FirstAt, Boundary;
    AnswerAtPage(view, limit, c);
  }

  lemma PageStartKnown(view: seq<Row>, limit: nat, c: nat)
    requires Pageable(view, limit) && Starts(view, limit, c)
    requires c > 0 || |view| > limit
    ensures Known(view[At(limit, c)]) && |view| > 0
    ensures c > 0 ==> Boundary(view, limit, c)
  {
  }

  /** Without a next start that can be asked for, `next` delivers nothing. */
  lemma NextStays(s: State, reply: Reply, limit: nat)
    requires !Askable(s.next)
    ensures Step(s, Event(Next, reply), limit) == (s.(next := NOWHERE), [])
  {
  }

  lemma NextTracks(view: seq<Row>, limit: nat, c: nat)
    requires Sorted(view) && limit > 0 && (c == 0 || Starts(view, limit, c))
    requires Pageable(view, limit)
    ensures Step(OnPage(view, limit, c), Event(Next, From(view)), limit)
         == if Starts(view, limit, c + 1) then (OnPage(view, limit, c + 1), Page(view, limit, c + 1))
            else (OnPage(view, limit, c), [])
  {
    hide Step, Sorted, Pageable, Page, Known;
    var s := OnPage(view, limit, c);
    if Starts(view, limit, c + 1) {
      PageStartKnown(view, limit, c + 1);
      PageStartKnown(view, limit, c);
      Lands(view, limit, c + 1, s, Next);
    } else {
      NextStays(s, From(view), limit);
    }
  }

  lemma PrevTracks(view: seq<Row>, limit: nat, c: nat)
    requires Sorted(view) && limit > 0 && (c == 0 || Starts(view, limit, c))
    requires Pageable(view, limit)
    ensures c > 0 ==> Starts(view, limit, c - 1)
    ensures Step(OnPage(view, limit, c), Event(Prev, From(view)), limit)
         == if c > 0 then (OnPage(view, limit, c - 1), Page(view, limit, c - 1))
            else (OnPage(view, limit, c), [])
  {
    var s := OnPage(view, limit, c);
    if c > 0 {
      assert Starts(view, limit, c - 1);
      PageStartKnown(view, limit, c - 1);
      Lands(view, limit, c - 1, s, Prev);
    }
  }

  lemma {:induction false} PageableTracks(view: seq<Row>, limit: nat, moves: seq<Move>)
    requires Sorted(view) && limit > 0 && Pageable(view, limit)
    ensures Tracks(view, limit, moves)
  {
    hide Step, First, OnPage, Pageable, Sorted;
    if moves == [] {
      FirstTracks(view, limit);
    } else {
      var before := moves[..|moves| - 1];
      PageableTracks(view, limit, before);
      var c := PageNumber(view, limit, before);
      if moves[|moves| - 1].Next? {
        NextTracks(view, limit, c);
      } else {
        PrevTracks(view, limit, c);
      }
    }
  }

  // ---- Only pageable views are tracked ----

  function Nexts(k: nat): seq<Move> {
    seq(k, _ => Next)
  }

  lemma {:induction false} NextsReach(view: seq<Row>, limit: nat, k: nat)
    requires limit > 0 && (k == 0 || Starts(view, limit, k))
    ensures PageNumber(view, limit, Nexts(k)) == k
  {
    if k > 0 {
      NextsReach(view, limit, k - 1);
      assert Nexts(k)[..k - 1] == Nexts(k - 1);
    }
  }

  /** The step that turns to page k, given that the paginator is tracked. */
  lemma TurnTo(view: seq<Row>, limit: nat, k: nat)
    requires limit > 0 && k > 0 && Starts(view, limit, k) && AlwaysTracks(view, limit)
    ensures Starts(view, limit, k - 1)
    ensures Step(OnPage(view, limit, k - 1), Event(Next, From(view)), limit)
         == (OnPage(view, limit, k), Page(view, limit, k))
  {
    var moves := Nexts(k);
    hide Step, First, OnPage;
    assert moves[..k - 1] == Nexts(k - 1);
    NextsReach(view, limit, k - 1);
    NextsReach(view, limit, k);
    assert Tracks(view, limit, Nexts(k - 1)) && Tracks(view, limit, moves);
  }

  lemma FirstOccurrence(view: seq<Row>, at: nat) returns (f: nat)
    requires Sorted(view) && 0 < at < |view| && !Less(view[at - 1], view[at])
    ensures f == FirstAt(view, view[at]) && f < at && view[f] == view[at]
  {
    f := FirstAt(view, view[at]);
    FirstAtIsFirst(view, view[at]);
    LessIsTotal(view[at - 1], view[at]);
    assert InOrder(view, at - 1, at) && InOrder(view, f, at);
    LessIsTotal(view[at], view[f]);
  }

  /** What a request finds at position f: a page, and the row after it. */
  lemma FetchAt(view: seq<Row>, limit: nat, s: State, f: nat)
    requires Ask(s, Next).Some? && f == FirstAt(view, s.next)
    ensures var (s1, page) := Step(s, Event(Next, From(view)), limit);
            && page == Slice(view, f, limit)
            && s1.next == if f + limit < |view| then view[f + limit] else NOWHERE
  {
    SliceSplits(view, f, limit);
  }

  /** When page k starts on a repetition of the row before it, and the page and the next start found
      at its first occurrence f are nevertheless right, page k + 1 exists and starts on a repetition. */
  lemma RepetitionSpreads(view: seq<Row>, limit: nat, k: nat, f: nat)
    requires Sorted(view) && limit > 0 && k > 0 && Starts(view, limit, k)
    requires Askable(view[At(limit, k)])
    requires f < At(limit, k) && view[f] == view[At(limit, k)]
    requires Slice(view, f, limit) == Page(view, limit, k)
    requires NextStart(view, limit, k) == if f + limit < |view| then view[f + limit] else NOWHERE
    ensures Starts(view, limit, k + 1)
    ensures view[At(limit, k + 1) - 1] == view[At(limit, k + 1)]
  {
    var at := At(limit, k);
    assert InOrder(view, f, f + limit);
    if Starts(view, limit, k + 1) {
      assert InOrder(view, f + limit, at + limit - 1) && InOrder(view, at + limit - 1, at + limit);
      LessIsTotal(view[at + limit], view[at + limit - 1]);
    }
  }

  /** What a tracked turn to page k tells: its start could be asked for, and the first occurrence of
      that row begins the right page. */
  lemma TurnFinds(view: seq<Row>, limit: nat, k: nat)
    requires limit > 0 && k > 0 && Starts(view, limit, k) && AlwaysTracks(view, limit)
    ensures var f := FirstAt(view, view[At(limit, k)]);
            && Askable(view[At(limit, k)])
            && Slice(view, f, limit) == Page(view, limit, k)
            && NextStart(view, limit, k) == if f + limit < |view| then view[f + limit] else NOWHERE
  {
    hide AlwaysTracks, Slice, FirstAt;
    TurnTo(view, limit, k);
    var s := OnPage(view, limit, k - 1);
    assert s.next == view[At(limit, k)];
    if Askable(s.next) {
      FetchAt(view, limit, s, FirstAt(view, s.next));
    }
  }

  /** By induction from the last page. */
  lemma {:induction false} TrackedHasBoundary(view: seq<Row>, limit: nat, k: nat)
    requires Sorted(view) && limit > 0 && AlwaysTracks(view, limit)
    requires k > 0 && Starts(view, limit, k)
    ensures Boundary(view, limit, k)
    decreases |view| - At(limit, k)
  {
    hide AlwaysTracks, Sorted, Page, Slice;
    var at := At(limit, k);
    TurnFinds(view, limit, k);
    if !Less(view[at - 1], view[at]) {
      var f := FirstOccurrence(view, at);
      RepetitionSpreads(view, limit, k, f);
      LessIsTotal(view[at + limit], view[at + limit]);
      TrackedHasBoundary(view, limit, k + 1);
    }
  }

  /** The paginator is a page counter in every run exactly when the view is pageable: every page start
      after the first has a key and an id that are not false and differs from the row before it, and the
      first row of several pages has a key and an id that are not null. */
  lemma TrackingExact(view: seq<Row>, limit: nat)
    requires Sorted(view) && limit > 0
    ensures AlwaysTracks(view, limit) <==>
            && (forall c: nat :: c > 0 && Starts(view, limit, c) ==> Boundary(view, limit, c))
            && (|view| > limit ==> view[0].key != Null && view[0].id != Null)
  {
    if Pageable(view, limit) {
      forall moves ensures Tracks(view, limit, moves) { PageableTracks(view, limit, moves); }
    }
    if AlwaysTracks(view, limit) {
      forall c: nat | c > 0 && Starts(view, limit, c) ensures Boundary(view, limit, c) {
        TrackedHasBoundary(view, limit, c);
      }
      if |view| > limit {
        assert Starts(view, limit, 1);
        TurnTo(view, limit, 1);
        assert |OnPage(view, limit, 1).back| == 1;
      }
    }
  }

  /** A move that turns a page is undone, page and state, by the opposite move; a move past an end
      delivers nothing and changes nothing. */
  lemma MovesAreInverse(view: seq<Row>, limit: nat, moves: seq<Move>, move: Move)
    requires Sorted(view) && limit > 0 && Pageable(view, limit)
    ensures var opposite := if move.Next? then Prev else Next;
            var (s, _) := Walk(view, limit, moves);
            var (s1, page1) := Walk(view, limit, moves + [move]);
            var (s2, page2) := Walk(view, limit, moves + [move, opposite]);
            var c := PageNumber(view, limit, moves);
            if PageNumber(view, limit, moves + [move]) == c then s1 == s && page1 == []
            else s2 == s && page2 == Page(view, limit, c)
  {
    hide Step, Walk, Pageable, Sorted, OnPage, PageNumber, Turn, Starts;
    var opposite := if move.Next? then Prev else Next;
    var one, two := moves + [move], moves + [move, opposite];
    assert one[..|one| - 1] == moves && two[..|two| - 1] == one;
    PageableTracks(view, limit, moves);
    PageableTracks(view, limit, one);
    PageableTracks(view, limit, two);
    TurnsAreInverse(view, limit, moves, move);
  }

  lemma TurnsAreInverse(view: seq<Row>, limit: nat, moves: seq<Move>, move: Move)
    requires limit > 0
    ensures var c := PageNumber(view, limit, moves);
            PageNumber(view, limit, moves + [move]) == c ||
            PageNumber(view, limit, moves + [move, if move.Next? then Prev else Next]) == c
  {
    var one := moves + [move];
    var two := moves + [move, if move.Next? then Prev else Next];
    assert one[..|one| - 1] == moves && two[..|two| - 1] == one;
  }
}
