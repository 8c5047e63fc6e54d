/** Going forward through a view that does not change: exactly when `firstPage`, followed by `next`
    for as long as `hasNext` says so, delivers the view, and on which pages. */
module PagingForward {
  import opened Common
  import opened Rows
  import opened Paging
  import opened PagingFixed

  /** The pages delivered by `firstPage` and k times `next`. */
  function ForwardPages(view: seq<Row>, limit: nat, k: nat): (pages: seq<seq<Row>>)
    ensures |pages| == k + 1
  {
    (if k == 0 then [] else ForwardPages(view, limit, k - 1)) + [Walk(view, limit, Nexts(k)).1]
  }

  function ForwardState(view: seq<Row>, limit: nat, k: nat): State {
    Walk(view, limit, Nexts(k)).0
  }

  /** `hasNext` is false after k calls of `next` for the first time. */
  predicate Drained(view: seq<Row>, limit: nat, k: nat) {
    && !HasNext(ForwardState(view, limit, k))
    && forall j :: 0 <= j < k ==> HasNext(ForwardState(view, limit, j))
  }

  /** Going forward ends and has delivered exactly the view. */
  ghost predicate Enumerates(view: seq<Row>, limit: nat) {
    exists k :: Drained(view, limit, k) && Flatten(ForwardPages(view, limit, k)) == view
  }

  lemma FirstOfWalk(view: seq<Row>, limit: nat)
    ensures Walk(view, limit, Nexts(0)) == First(From(view), limit)
  {
    assert Nexts(0) == [];
  }

  lemma NextsStep(view: seq<Row>, limit: nat, k: nat)
    requires k > 0
    ensures Walk(view, limit, Nexts(k)) == Step(ForwardState(view, limit, k - 1), Event(Next, From(view)), limit)
  {
    hide Step;
    assert Nexts(k)[..k - 1] == Nexts(k - 1);
  }

  lemma {:induction false} AtGrows(limit: nat, b: nat, c: nat)
    requires b <= c
    ensures At(limit, b) <= At(limit, c)
  {
    if b < c { AtGrows(limit, b, c - 1); }
  }

  /** Asking for the start of page c delivers page c and the start of the page after. */
  lemma ForwardStep(view: seq<Row>, limit: nat, s: State, c: nat)
    requires Sorted(view) && limit > 0 && c > 0 && Starts(view, limit, c)
    requires s.next == view[At(limit, c)] && Boundary(view, limit, c)
    ensures var (s1, page) := Step(s, Event(Next, From(view)), limit);
            page == Page(view, limit, c) && s1.next == NextStart(view, limit, c)
  {
    FoundAtOwnPlace(view, At(limit, c));
    FetchAt(view, limit, s, At(limit, c));
  }

  /** As long as the starts met can be asked for, page k and its follower are as they should be. */
  lemma {:induction false} ForwardTracks(view: seq<Row>, limit: nat, k: nat)
    requires Sorted(view) && limit > 0 && (k == 0 || Starts(view, limit, k))
    requires forall c :: 0 < c <= k && Starts(view, limit, c) ==> Boundary(view, limit, c)
    ensures Walk(view, limit, Nexts(k)).1 == Page(view, limit, k)
    ensures ForwardState(view, limit, k).next == NextStart(view, limit, k)
  {
    hide Step, Walk, Sorted, Boundary;
    if k == 0 {
      FirstTracks(view, limit);
      FirstOfWalk(view, limit);
    } else {
      AtGrows(limit, k - 1, k);
      ForwardTracks(view, limit, k - 1);
      NextsStep(view, limit, k);
      ForwardStep(view, limit, ForwardState(view, limit, k - 1), k);
    }
  }

  lemma DeliveredStep(view: seq<Row>, limit: nat, k: nat)
    ensures Flatten(ForwardPages(view, limit, k)) ==
            (if k == 0 then [] else Flatten(ForwardPages(view, limit, k - 1))) + Walk(view, limit, Nexts(k)).1
  {
    hide Walk;
    FlattenAppend(if k == 0 then [] else ForwardPages(view, limit, k - 1), Walk(view, limit, Nexts(k)).1);
  }

  lemma PageAfter(view: seq<Row>, limit: nat, c: nat)
    requires c == 0 || Starts(view, limit, c)
    ensures view[..At(limit, c)] + Page(view, limit, c) == view[..Min(At(limit, c + 1), |view|)]
  {
  }

  lemma {:induction false} ForwardDelivers(view: seq<Row>, limit: nat, k: nat)
    requires Sorted(view) && limit > 0 && (k == 0 || Starts(view, limit, k))
    requires forall c :: 0 < c <= k && Starts(view, limit, c) ==> Boundary(view, limit, c)
    ensures Flatten(ForwardPages(view, limit, k)) == view[..Min(At(limit, k + 1), |view|)]
  {
    hide Walk, Sorted, Boundary, Page, NextStart, ForwardPages, Flatten;
    ForwardTracks(view, limit, k);
    DeliveredStep(view, limit, k);
    PageAfter(view, limit, k);
    if k > 0 {
      AtGrows(limit, k - 1, k);
      ForwardDelivers(view, limit, k - 1);
    }
  }

  lemma AtIsProduct(limit: nat, c: nat)
    ensures At(limit, c) == c * limit
  {
    if c > 0 { AtIsProduct(limit, c - 1); }
  }

  /** The number of the last page of n rows. */
  function LastPage(n: nat, limit: nat): (c: nat)
    requires limit > 0
    ensures c == 0 || At(limit, c) < n
    ensures n <= At(limit, c + 1)
  {
    if n <= limit then 0 else 1 + LastPage(n - limit, limit)
  }

  /** The size of page j, and whether a page follows it. */
  lemma PageSize(view: seq<Row>, limit: nat, j: nat, next: Row)
    requires limit > 0 && Boundaries(view, limit) && j <= LastPage(|view|, limit)
    requires next == NextStart(view, limit, j)
    ensures j == 0 || Starts(view, limit, j)
    ensures var page := Page(view, limit, j);
            && |page| <= limit && (view != [] ==> |page| > 0)
            && (next.key != Null <==> j < LastPage(|view|, limit))
            && (next.key != Null ==> |page| == limit)
  {
    AtGrows(limit, j, LastPage(|view|, limit));
    if j < LastPage(|view|, limit) {
      AtGrows(limit, j + 1, LastPage(|view|, limit));
      assert Starts(view, limit, j + 1);
    }
  }

  lemma ForwardPage(view: seq<Row>, limit: nat, j: nat)
    requires Sorted(view) && limit > 0 && Boundaries(view, limit) && j <= LastPage(|view|, limit)
    ensures var (s, page) := Walk(view, limit, Nexts(j));
            && |page| <= limit && (view != [] ==> |page| > 0)
            && (HasNext(s) <==> j < LastPage(|view|, limit))
            && (HasNext(s) ==> |page| == limit)
  {
    hide Walk, Sorted, LastPage, Askable;
    PageSize(view, limit, j, NextStart(view, limit, j));
    ForwardTracks(view, limit, j);
  }

  lemma ForwardEnds(view: seq<Row>, limit: nat)
    requires Sorted(view) && limit > 0 && Boundaries(view, limit)
    ensures Drained(view, limit, LastPage(|view|, limit))
    ensures Flatten(ForwardPages(view, limit, LastPage(|view|, limit))) == view
  {
    hide Walk, Sorted;
    var k := LastPage(|view|, limit);
    forall j: nat | j <= k ensures HasNext(ForwardState(view, limit, j)) <==> j < k {
      ForwardPage(view, limit, j);
    }
    ForwardDelivers(view, limit, k);
  }

  /** The pages of a complete enumeration: all are full but the last, which holds at least one row. */
  lemma ForwardShape(view: seq<Row>, limit: nat)
    requires Sorted(view) && limit > 0 && Boundaries(view, limit)
    ensures var pages := ForwardPages(view, limit, LastPage(|view|, limit));
            && (forall j :: 0 <= j < |pages| - 1 ==> |pages[j]| == limit)
            && |pages[|pages| - 1]| <= limit
            && (view != [] ==> |pages[|pages| - 1]| > 0)
  {
    hide Walk, Sorted, Boundaries;
    var k := LastPage(|view|, limit);
    forall j: nat | j <= k
      ensures var page := ForwardPages(view, limit, k)[j];
              && |page| <= limit && (view != [] ==> |page| > 0)
              && (j < k ==> |page| == limit)
    {
      ForwardPage(view, limit, j);
      PagesAreSteps(view, limit, k, j);
    }
  }

  /** There are as many pages as n / limit rounded up, and one if there is no row. */
  lemma PageCount(n: nat, limit: nat, pages: nat)
    requires limit > 0
    ensures pages == LastPage(n, limit) + 1 <==>
            if n == 0 then pages == 1 else (pages - 1) * limit < n <= pages * limit
  {
    var last := LastPage(n, limit);
    AtIsProduct(limit, last);
    AtIsProduct(limit, last + 1);
    if n > 0 && (pages - 1) * limit < n <= pages * limit {
      AtIsProduct(limit, pages);
      assert pages > 0;
      AtIsProduct(limit, pages - 1);
      if pages <= last { AtGrows(limit, pages, last); }
      if last + 1 < pages { AtGrows(limit, last + 1, pages - 1); }
    }
  }

  lemma {:induction false} PagesAreSteps(view: seq<Row>, limit: nat, k: nat, j: nat)
    requires j <= k
    ensures ForwardPages(view, limit, k)[j] == Walk(view, limit, Nexts(j)).1
  {
    hide Walk;
    if j < k { PagesAreSteps(view, limit, k - 1, j); }
  }

  lemma StepWithinLimit(s: State, e: Event, limit: nat)
    ensures |Step(s, e, limit).1| <= limit
  {
  }

  /** No page is longer than the limit. */
  lemma {:induction false} PagesWithinLimit(view: seq<Row>, limit: nat, moves: seq<Move>)
    ensures |Walk(view, limit, moves).1| <= limit
  {
    if moves != [] {
      var (s, _) := Walk(view, limit, moves[..|moves| - 1]);
      StepWithinLimit(s, Event(moves[|moves| - 1], From(view)), limit);
    }
  }

  lemma {:induction false} NothingOnEmptyPages(view: seq<Row>, k: nat)
    ensures Flatten(ForwardPages(view, 0, k)) == []
  {
    PagesWithinLimit(view, 0, Nexts(k));
    DeliveredStep(view, 0, k);
    if k > 0 { NothingOnEmptyPages(view, k - 1); }
  }

  /** More calls of `next` only add to what was delivered. */
  lemma {:induction false} DeliveredGrows(view: seq<Row>, limit: nat, j: nat, k: nat)
    requires j <= k
    ensures Flatten(ForwardPages(view, limit, j)) <= Flatten(ForwardPages(view, limit, k))
  {
    hide Walk, ForwardPages, Flatten;
    if j < k {
      DeliveredGrows(view, limit, j, k - 1);
      DeliveredStep(view, limit, k);
    }
  }

  /** If the rows of a page from f on are the rows d positions later, they are all the same. */
  lemma {:induction false} AllTheSame(view: seq<Row>, f: nat, d: nat, limit: nat, t: nat)
    requires Sorted(view) && limit > 0 && d > 0 && f + d + limit <= |view| && t < d + limit
    requires forall p :: f <= p < f + limit ==> view[p] == view[p + d]
    ensures view[f + t] == view[f]
  {
    if t <= d {
      assert view[f] == view[f + d];
      assert InOrder(view, f, f + t) && InOrder(view, f + t, f + d);
      LessIsTotal(view[f], view[f + t]);
    } else {
      AllTheSame(view, f, d, limit, t - d);
      assert view[f + (t - d)] == view[f + (t - d) + d];
    }
  }

  /** A next start that fills a page, and the place after it, is met again and again. */
  lemma {:induction false} StuckForEver(view: seq<Row>, limit: nat, c: nat, k: nat, r: Row)
    requires c <= k && ForwardState(view, limit, c).next == r && Askable(r)
    requires var f := FirstAt(view, r); f + limit < |view| && view[f + limit] == r
    ensures ForwardState(view, limit, k).next == r
    ensures HasNext(ForwardState(view, limit, k))
  {
    hide Walk, Step;
    if c < k {
      StuckForEver(view, limit, c, k - 1, r);
      NextsStep(view, limit, k);
      FetchAt(view, limit, ForwardState(view, limit, k - 1), FirstAt(view, r));
    }
  }

  /** A page that starts on a repetition of the row before it is delivered from the first of the equal
      rows on; it can only fit into the view if its start is also the next start. */
  lemma RepetitionSticks(view: seq<Row>, limit: nat, c: nat, f: nat, page: seq<Row>)
    requires Sorted(view) && limit > 0 && Starts(view, limit, c)
    requires f < At(limit, c) && view[f] == view[At(limit, c)]
    requires page == Slice(view, f, limit) && view[..At(limit, c)] + page <= view
    ensures f + limit < |view| && view[f + limit] == view[f]
  {
    var at := At(limit, c);
    assert |view[..at] + page| <= |view|;
    forall p | f <= p < f + limit ensures view[p] == view[p + (at - f)] {
      assert (view[..at] + page)[at + (p - f)] == view[at + (p - f)];
    }
    AllTheSame(view, f, at - f, limit, limit);
  }

  /** A complete enumeration met only starts that can be asked for and differ from the row before. */
  lemma {:induction false} EnumeratedHasBoundary(view: seq<Row>, limit: nat, k: nat, c: nat)
    requires Sorted(view) && limit > 0
    requires Drained(view, limit, k) && Flatten(ForwardPages(view, limit, k)) == view
    requires c > 0 && Starts(view, limit, c)
    ensures Boundary(view, limit, c)
    decreases c
  {
    hide Walk, Sorted, Boundary, Askable, ForwardPages, Flatten;
    forall b | 0 < b < c ensures Starts(view, limit, b) ==> Boundary(view, limit, b) {
      if Starts(view, limit, b) { EnumeratedHasBoundary(view, limit, k, b); }
    }
    var j := if k < c then k else c - 1;
    AtGrows(limit, j + 1, c);
    ForwardTracks(view, limit, j);
    ForwardDelivers(view, limit, j);
    assert k >= c;
    NoFalsePart(view, limit, k, c);
    NoRepetitionAt(view, limit, k, c);
  }

  lemma NoFalsePart(view: seq<Row>, limit: nat, k: nat, c: nat)
    requires 0 < c <= k && Starts(view, limit, c)
    requires Drained(view, limit, k) && Flatten(ForwardPages(view, limit, k)) == view
    requires ForwardState(view, limit, c - 1).next == view[At(limit, c)]
    requires Flatten(ForwardPages(view, limit, c - 1)) == view[..At(limit, c)]
    ensures Askable(view[At(limit, c)])
  {
    hide Walk, ForwardPages, Flatten;
    if !Askable(view[At(limit, c)]) { StopsAt(view, limit, c); }
  }

  lemma NoRepetitionAt(view: seq<Row>, limit: nat, k: nat, c: nat)
    requires Sorted(view) && limit > 0 && 0 < c <= k && Starts(view, limit, c)
    requires Drained(view, limit, k) && Flatten(ForwardPages(view, limit, k)) == view
    requires ForwardState(view, limit, c - 1).next == view[At(limit, c)] && Askable(view[At(limit, c)])
    requires Flatten(ForwardPages(view, limit, c - 1)) == view[..At(limit, c)]
    ensures Boundary(view, limit, c)
  {
    hide Walk, Step, Sorted, Less, ForwardPages, Flatten;
    var at := At(limit, c);
    if at > 0 && !Less(view[at - 1], view[at]) {
      var f := FirstOccurrence(view, at);
      var s := ForwardState(view, limit, c - 1);
      NextsStep(view, limit, c);
      FetchAt(view, limit, s, f);
      DeliveredStep(view, limit, c);
      DeliveredGrows(view, limit, c, k);
      RepetitionSticks(view, limit, c, f, Walk(view, limit, Nexts(c)).1);
      StuckForEver(view, limit, c, k, view[at]);
    }
  }

  /** A next start that cannot be asked for ends the enumeration with nothing more delivered. */
  lemma StopsAt(view: seq<Row>, limit: nat, c: nat)
    requires c > 0 && !Askable(ForwardState(view, limit, c - 1).next)
    ensures !HasNext(ForwardState(view, limit, c))
    ensures Flatten(ForwardPages(view, limit, c)) == Flatten(ForwardPages(view, limit, c - 1))
  {
    NextsStep(view, limit, c);
    DeliveredStep(view, limit, c);
  }

  /** Going forward ends with exactly the view delivered if and only if there is nothing to deliver, or
      the page size is not zero and every page start after the first has a truthy key and a truthy id
      and differs from the row before it. Rows may be repeated in the view. */
  lemma ForwardExact(view: seq<Row>, limit: nat)
    requires Sorted(view)
    ensures Enumerates(view, limit) <==> view == [] || (limit > 0 && Boundaries(view, limit))
  {
    if view == [] {
      FlattenAppend([], Walk(view, limit, Nexts(0)).1);
      assert Drained(view, limit, 0) && Flatten(ForwardPages(view, limit, 0)) == view;
    } else if limit == 0 {
      forall k: nat ensures Flatten(ForwardPages(view, limit, k)) != view { NothingOnEmptyPages(view, k); }
    } else if Boundaries(view, limit) {
      ForwardEnds(view, limit);
    } else if Enumerates(view, limit) {
      var k :| Drained(view, limit, k) && Flatten(ForwardPages(view, limit, k)) == view;
      forall c: nat | c > 0 && Starts(view, limit, c) ensures Boundary(view, limit, c) {
        EnumeratedHasBoundary(view, limit, k, c);
      }
    }
  }

  lemma TurnForward(view: seq<Row>, limit: nat, k: nat)
    requires Sorted(view) && limit > 0 && Boundaries(view, limit)
    requires (k == 0 || Starts(view, limit, k)) && HasNext(ForwardState(view, limit, k))
    ensures Starts(view, limit, k + 1)
    ensures Walk(view, limit, Nexts(k + 1)) == Step(ForwardState(view, limit, k), Event(Next, From(view)), limit)
    ensures ForwardPages(view, limit, k + 1) == ForwardPages(view, limit, k) + [Walk(view, limit, Nexts(k + 1)).1]
  {
    ForwardTracks(view, limit, k);
    NextsStep(view, limit, k + 1);
  }

  lemma LastReached(view: seq<Row>, limit: nat, k: nat)
    requires Sorted(view) && limit > 0 && Boundaries(view, limit)
    requires (k == 0 || Starts(view, limit, k)) && !HasNext(ForwardState(view, limit, k))
    ensures k == LastPage(|view|, limit)
  {
    hide Walk, Sorted;
    if k < LastPage(|view|, limit) {
      ForwardPage(view, limit, k);
    } else if k > LastPage(|view|, limit) {
      AtGrows(limit, LastPage(|view|, limit) + 1, k);
    }
  }

  /** The usual client loop, on the paginator object: it ends with the whole view, and the rows after
      the next start are what it has left to do. */
  method CollectPages(view: seq<Row>, limit: nat) returns (pages: seq<seq<Row>>)
    requires Sorted(view) && limit > 0 && Boundaries(view, limit)
    ensures pages == ForwardPages(view, limit, LastPage(|view|, limit))
    ensures Flatten(pages) == view
  {
    var p := new Paginator(limit);
    var first := p.OnFirst(Results(From(view), None, limit));
    pages := [match first case None => [] case Some(page) => page];
    var more := p.HasNextPage();
    ghost var k := 0;
    FirstTracks(view, limit);
    while more
      invariant fresh(p) && p.limit == limit
      invariant k == 0 || Starts(view, limit, k)
      invariant p.Abs() == ForwardState(view, limit, k) && more == HasNext(p.Abs())
      invariant pages == ForwardPages(view, limit, k)
      decreases |view| - At(limit, k)
    {
      TurnForward(view, limit, k);
      var page := p.Go(Event(Next, From(view)));
      pages := pages + [page];
      more := p.HasNextPage();
      k := k + 1;
    }
    LastReached(view, limit, k);
    ForwardEnds(view, limit);
  }
}
