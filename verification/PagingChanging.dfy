/** Paging while the view changes between requests, and while requests fail. */
module PagingChanging {
  import opened Common
  import opened Rows
  import opened Paging

  // ---- Going forward over a view that changes ----

  /** What going forward has come to: the state, the rows delivered, and whether some response held a
      next start that cannot be asked for. */
  datatype Progress = Progress(state: State, rows: seq<Row>, cut: bool)

  function Extend(p: Progress, step: (State, seq<Row>)): Progress {
    Progress(step.0, p.rows + step.1, p.cut || (step.0.next != NOWHERE && !Askable(step.0.next)))
  }

  /** `firstPage` with the first of the replies, then one `next` with each other. */
  function Forward(replies: seq<Reply>, limit: nat): Progress
    requires replies != []
  {
    if |replies| == 1 then Extend(Progress(FRESH, [], false), First(replies[0], limit))
    else
      var p := Forward(replies[..|replies| - 1], limit);
      Extend(p, Step(p.state, Event(Next, replies[|replies| - 1]), limit))
  }

  ghost predicate Sound(reply: Reply) {
    reply.From? ==> Increasing(reply.view)
  }

  /** The first request succeeds; the others may fail. */
  ghost predicate Started(replies: seq<Reply>) {
    replies != [] && replies[0].From? && forall i :: 0 <= i < |replies| ==> Sound(replies[i])
  }

  /** The row is in the view whenever a request is answered. */
  ghost predicate InAll(replies: seq<Reply>, r: Row) {
    forall i :: 0 <= i < |replies| && replies[i].From? ==> r in replies[i].view
  }

  predicate AllBelow(rows: seq<Row>, r: Row) {
    forall i :: 0 <= i < |rows| ==> Less(rows[i], r)
  }

  /** The position at which the answer to a request begins. */
  function Origin(view: seq<Row>, start: Option<Row>): (f: nat)
    ensures f <= |view|
  {
    match start
    case None => 0
    case Some(s) => FirstAt(view, s)
  }

  predicate FromStart(start: Option<Row>, r: Row) {
    start.Some? ==> AtMost(start.value, r)
  }

  lemma FromOrigin(view: seq<Row>, start: Option<Row>, i: nat)
    requires Increasing(view) && i < |view|
    ensures FromStart(start, view[i]) <==> Origin(view, start) <= i
  {
    hide Less;
    if start.Some? {
      var f := FirstAt(view, start.value);
      FirstAtIsFirst(view, start.value);
      LessIsTotal(start.value, view[i]);
      if f <= i {
        assert InStrictOrder(view, f, i);
        LessIsTransitive(start.value, view[f], view[i]);
      }
    }
  }

  /** A response is in order, at or after the start, and its page lies before the next start. */
  lemma PageInOrder(view: seq<Row>, start: Option<Row>, limit: nat)
    requires Increasing(view)
    ensures var rows := Answer(view, start, limit + 1);
            && Increasing(rows)
            && (forall i :: 0 <= i < |rows| ==> FromStart(start, rows[i]))
            && (|rows| > limit ==> AllBelow(rows[..limit], rows[limit]))
  {
    hide Less, FirstAt, FromStart;
    var f := Origin(view, start);
    var rows := Answer(view, start, limit + 1);
    assert rows == view[f..f + |rows|];
    forall i, j ensures InStrictOrder(rows, i, j) { assert InStrictOrder(view, f + i, f + j); }
    forall i | 0 <= i < |rows| ensures FromStart(start, rows[i]) { FromOrigin(view, start, f + i); }
    forall i | 0 <= i < limit < |rows| ensures Less(rows[i], rows[limit]) { assert InStrictOrder(rows, i, limit); }
  }

  /** A row of the view at or after the start is on the page, or not before the next start. */
  lemma PageComplete(view: seq<Row>, start: Option<Row>, limit: nat, r: Row)
    requires Increasing(view) && r in view && FromStart(start, r)
    ensures var rows := Answer(view, start, limit + 1);
            if |rows| > limit then r in rows[..limit] || AtMost(rows[limit], r) else r in rows
  {
    hide Less, FirstAt, FromStart;
    var f := Origin(view, start);
    var rows := Answer(view, start, limit + 1);
    var i :| 0 <= i < |view| && view[i] == r;
    FromOrigin(view, start, i);
    if f + limit <= i {
      assert InStrictOrder(view, f + limit, i);
    } else {
      assert rows[i - f] == r;
    }
  }

  /** The response to a request from `start` on: a page in order, all of it at or after the start and
      before the next start, with nothing of the view in between left out. */
  lemma PageFrom(view: seq<Row>, start: Option<Row>, limit: nat, page: seq<Row>, next: Row)
    requires Increasing(view)
    requires var rows := Answer(view, start, limit + 1);
             if |rows| > limit then page == rows[..limit] && next == rows[limit]
             else page == rows && next == NOWHERE
    ensures Increasing(page)
    ensures forall i :: 0 <= i < |page| ==> FromStart(start, page[i])
    ensures |Answer(view, start, limit + 1)| > limit ==> AllBelow(page, next) && FromStart(start, next)
    ensures forall r :: r in view && FromStart(start, r) ==>
              r in page || (|Answer(view, start, limit + 1)| > limit && AtMost(next, r))
  {
    hide Less, FromStart, Answer;
    var rows := Answer(view, start, limit + 1);
    PageInOrder(view, start, limit);
    forall i, j ensures InStrictOrder(page, i, j) { assert InStrictOrder(rows, i, j); }
    forall r | r in view && FromStart(start, r) ensures r in page || (|rows| > limit && AtMost(next, r)) {
      PageComplete(view, start, limit, r);
    }
  }

  /** What every forward run keeps. */
  ghost predicate Steady(replies: seq<Reply>, p: Progress)
    requires replies != []
  {
    && Increasing(p.rows)
    && (Askable(p.state.next) ==> AllBelow(p.rows, p.state.next))
    && (Askable(p.state.next) ==> forall r :: InAll(replies, r) && Less(r, p.state.next) ==> r in p.rows)
    && (!p.cut && !Askable(p.state.next) ==> p.state.next == NOWHERE && forall r :: InAll(replies, r) ==> r in p.rows)
  }

  lemma NextFetch(view: seq<Row>, s: State, limit: nat)
    requires Askable(s.next)
    ensures var (s1, page) := Step(s, Event(Next, From(view)), limit);
            var rows := Answer(view, Some(s.next), limit + 1);
            if |rows| > limit then page == rows[..limit] && s1.next == rows[limit]
            else page == rows && s1.next == NOWHERE
  {
  }

  lemma FirstFetch(view: seq<Row>, limit: nat)
    ensures var (s1, page) := First(From(view), limit);
            var rows := Answer(view, None, limit + 1);
            if |rows| > limit then page == rows[..limit] && s1.next == rows[limit]
            else page == rows && s1.next == NOWHERE
  {
  }

  lemma NextIdle(s: State, reply: Reply, limit: nat)
    ensures !Askable(s.next) ==> Step(s, Event(Next, reply), limit) == (s.(next := NOWHERE), [])
    ensures Askable(s.next) && reply.Failed? ==> Step(s, Event(Next, reply), limit) == (s, [])
  {
  }

  lemma JoinIncreasing(a: seq<Row>, b: seq<Row>, r: Row)
    requires Increasing(a) && Increasing(b) && AllBelow(a, r)
    requires forall i :: 0 <= i < |b| ==> AtMost(r, b[i])
    ensures Increasing(a + b)
  {
    forall i, j ensures InStrictOrder(a + b, i, j) {
      assert InStrictOrder(a, i, j) && InStrictOrder(b, i - |a|, j - |a|);
      if 0 <= i < |a| <= j < |a + b| { LessIsTransitive(a[i], r, b[j - |a|]); }
    }
  }

  lemma StepSteady(replies: seq<Reply>, p: Progress, view: seq<Row>, limit: nat)
    requires replies != [] && Steady(replies, p) && Increasing(view) && Askable(p.state.next)
    ensures Steady(replies + [From(view)], Extend(p, Step(p.state, Event(Next, From(view)), limit)))
  {
    var start := p.state.next;
    var (s1, page) := Step(p.state, Event(Next, From(view)), limit);
    var rows := Answer(view, Some(start), limit + 1);
    NextFetch(view, p.state, limit);
    hide Step, Increasing, Answer;
    PageFrom(view, Some(start), limit, page, s1.next);
    JoinIncreasing(p.rows, page, start);
    if |rows| > limit {
      forall i | 0 <= i < |p.rows + page| ensures Less((p.rows + page)[i], s1.next) {
        if i < |p.rows| { LessIsTransitive(p.rows[i], start, s1.next); }
      }
    }
    forall r | InAll(replies + [From(view)], r) ensures r in p.rows + page || (|rows| > limit && AtMost(s1.next, r)) {
      InMore(replies, From(view), r);
      LessIsTotal(start, r);
    }
    forall r | InAll(replies + [From(view)], r) && |rows| > limit && Less(r, s1.next) ensures r in p.rows + page {
      LessIsTotal(s1.next, r);
    }
  }

  /** A `next` that does not ask, or whose request fails. */
  lemma IdleSteady(replies: seq<Reply>, p: Progress, reply: Reply, limit: nat)
    requires replies != [] && Steady(replies, p) && (!Askable(p.state.next) || reply.Failed?)
    ensures Steady(replies + [reply], Extend(p, Step(p.state, Event(Next, reply), limit)))
  {
    NextIdle(p.state, reply, limit);
    hide Step;
    assert p.rows + [] == p.rows;
    forall r | InAll(replies + [reply], r) ensures InAll(replies, r) { InMore(replies, reply, r); }
  }

  lemma InMore(replies: seq<Reply>, reply: Reply, r: Row)
    requires InAll(replies + [reply], r)
    ensures InAll(replies, r) && (reply.From? ==> r in reply.view)
  {
    var more := replies + [reply];
    assert more[|replies|] == reply;
    forall i | 0 <= i < |replies| && replies[i].From? ensures r in replies[i].view { assert more[i] == replies[i]; }
  }

  lemma FirstSteady(view: seq<Row>, limit: nat)
    requires Increasing(view) && limit > 0
    ensures Steady([From(view)], Extend(Progress(FRESH, [], false), First(From(view), limit)))
  {
    var (s1, page) := First(From(view), limit);
    var rows := Answer(view, None, limit + 1);
    FirstFetch(view, limit);
    hide First, Increasing, Answer, Below;
    PageFrom(view, None, limit, page, s1.next);
    assert [] + page == page;
    assert |rows| > limit ==> Less(page[0], s1.next);
    forall r | InAll([From(view)], r) ensures r in page || (|rows| > limit && AtMost(s1.next, r)) {
      assert [From(view)][0] == From(view);
    }
    forall r | InAll([From(view)], r) && |rows| > limit && Less(r, s1.next) ensures r in page {
      LessIsTotal(s1.next, r);
    }
  }

  lemma ForwardLast(replies: seq<Reply>, limit: nat)
    requires replies != []
    ensures |replies| == 1 ==>
              Forward(replies, limit) == Extend(Progress(FRESH, [], false), First(replies[0], limit))
    ensures |replies| > 1 ==>
              var p := Forward(replies[..|replies| - 1], limit);
              Forward(replies, limit) == Extend(p, Step(p.state, Event(Next, replies[|replies| - 1]), limit))
  {
  }

  lemma {:induction false} ForwardSteady(replies: seq<Reply>, limit: nat)
    requires Started(replies) && limit > 0
    ensures Steady(replies, Forward(replies, limit))
  {
    ForwardLast(replies, limit);
    hide Step, First, Increasing, Steady, Forward, Extend, Askable;
    if |replies| == 1 {
      assert replies == [From(replies[0].view)] && Sound(replies[0]);
      FirstSteady(replies[0].view, limit);
    } else {
      var before := replies[..|replies| - 1];
      var last := replies[|replies| - 1];
      ForwardSteady(before, limit);
      assert before + [last] == replies && Sound(last);
      if Askable(Forward(before, limit).state.next) && last.From? {
        StepSteady(before, Forward(before, limit), last.view, limit);
      } else {
        IdleSteady(before, Forward(before, limit), last, limit);
      }
    }
  }

  /** Whatever is inserted or deleted between the requests of a forward run, and however often a `next`
      fails and is tried again, the rows delivered are in strictly increasing order, hence without
      repetition; and once there is no next page, and no start was met that cannot be asked for, every
      row that stayed has been delivered, once. */
  lemma ForwardStability(replies: seq<Reply>, limit: nat)
    requires Started(replies) && limit > 0
    ensures var p := Forward(replies, limit);
            && (forall i, j :: 0 <= i < j < |p.rows| ==> Less(p.rows[i], p.rows[j]) && p.rows[i] != p.rows[j])
            && (!HasNext(p.state) && !p.cut ==>
                  forall r :: InAll(replies, r) ==> exists i :: 0 <= i < |p.rows| && p.rows[i] == r)
  {
    ForwardSteady(replies, limit);
    hide Forward;
    var p := Forward(replies, limit);
    forall i, j | 0 <= i < j < |p.rows| ensures Less(p.rows[i], p.rows[j]) && p.rows[i] != p.rows[j] {
      assert InStrictOrder(p.rows, i, j);
      LessIsTotal(p.rows[i], p.rows[j]);
      LessIsTotal(p.rows[i], p.rows[i]);
    }
  }

  // ---- Exactly when everything that stays is delivered ----

  /** All rows that the requests meet are among these. */
  ghost predicate Within(replies: seq<Reply>, all: set<Row>) {
    forall i :: 0 <= i < |replies| && replies[i].From? ==> Elements(replies[i].view) <= all
  }

  function Elements(view: seq<Row>): set<Row> {
    set r | r in view
  }

  ghost function Before(all: set<Row>, r: Row): set<Row> {
    set x | x in all && Less(x, r)
  }

  /** A row with a page or more of rows before it has no false part. */
  ghost predicate Reachable(all: set<Row>, limit: nat) {
    forall r :: r in all && |Before(all, r)| >= limit ==> !FalseValue(r.key) && !FalseValue(r.id)
  }

  /** If the run has ended, every row that stayed has been delivered. */
  ghost predicate Complete(replies: seq<Reply>, limit: nat)
    requires replies != []
  {
    !HasNext(Forward(replies, limit).state) ==>
      forall r :: InAll(replies, r) ==> r in Forward(replies, limit).rows
  }

  lemma {:induction false} ElementsSize(view: seq<Row>)
    requires Increasing(view)
    ensures |Elements(view)| == |view|
  {
    if view != [] {
      var n := |view| - 1;
      forall i, j ensures InStrictOrder(view[..n], i, j) { assert InStrictOrder(view, i, j); }
      ElementsSize(view[..n]);
      forall i | 0 <= i < n ensures view[i] != view[n] {
        assert InStrictOrder(view, i, n);
        LessIsTotal(view[n], view[n]);
      }
      assert view == view[..n] + [view[n]];
      assert Elements(view) == Elements(view[..n]) + {view[n]};
    }
  }

  lemma SubsetSize(a: set<Row>, b: set<Row>)
    requires a <= b
    ensures |a| <= |b|
  {
    assert b == a + (b - a);
  }

  lemma ManyBefore(all: set<Row>, view: seq<Row>, p: nat)
    requires Increasing(view) && Elements(view) <= all && p < |view|
    ensures view[p] in all && |Before(all, view[p])| >= p
  {
    hide Less;
    forall i, j ensures InStrictOrder(view[..p], i, j) { assert InStrictOrder(view, i, j); }
    ElementsSize(view[..p]);
    assert view[p] in Elements(view);
    forall x | x in view[..p] ensures x in Before(all, view[p]) {
      var i :| 0 <= i < p && view[i] == x;
      assert InStrictOrder(view, i, p) && x in Elements(view);
    }
    SubsetSize(Elements(view[..p]), Before(all, view[p]));
  }

  /** A next start has a page of rows before it in its own view. */
  lemma FetchedAskable(all: set<Row>, view: seq<Row>, start: Option<Row>, limit: nat)
    requires Increasing(view) && Elements(view) <= all && Reachable(all, limit)
    ensures var rows := Answer(view, start, limit + 1);
            |rows| > limit ==> Askable(rows[limit])
  {
    var f := Origin(view, start);
    var rows := Answer(view, start, limit + 1);
    hide Less, Increasing, FirstAt;
    if |rows| > limit {
      assert rows[limit] == view[f + limit];
      ManyBefore(all, view, f + limit);
    }
  }

  lemma {:induction false} NeverCut(all: set<Row>, replies: seq<Reply>, limit: nat)
    requires Started(replies) && Within(replies, all) && Reachable(all, limit)
    ensures !Forward(replies, limit).cut
  {
    hide Step, First, Increasing, Reachable, Answer;
    var last := replies[|replies| - 1];
    assert Sound(last);
    if |replies| == 1 {
      FirstFetch(last.view, limit);
      FetchedAskable(all, last.view, None, limit);
    } else {
      var before := replies[..|replies| - 1];
      NeverCut(all, before, limit);
      var s := Forward(before, limit).state;
      NextIdle(s, last, limit);
      if Askable(s.next) && last.From? {
        NextFetch(last.view, s, limit);
        FetchedAskable(all, last.view, Some(s.next), limit);
      }
    }
  }

  lemma {:induction false} Greatest(all: set<Row>) returns (m: Row)
    requires all != {}
    ensures m in all && forall x :: x in all ==> AtMost(x, m)
    decreases all
  {
    hide Less;
    m :| m in all;
    if all != {m} {
      var other := Greatest(all - {m});
      LessIsTotal(m, other);
      if AtMost(m, other) {
        m := other;
      } else {
        forall x | x in all ensures AtMost(x, m) {
          if x != m { LessIsTotal(other, m); LessIsTransitive(x, other, m); }
        }
      }
    }
  }

  lemma {:induction false} InSequence(all: set<Row>) returns (view: seq<Row>)
    ensures Increasing(view) && Elements(view) == all && |view| == |all|
    decreases all
  {
    view := [];
    if all != {} {
      var m := Greatest(all);
      var smaller := InSequence(all - {m});
      hide Less;
      view := smaller + [m];
      assert Elements(view) == Elements(smaller) + {m};
      forall i, j ensures InStrictOrder(view, i, j) {
        assert InStrictOrder(smaller, i, j);
        if 0 <= i < j == |smaller| { assert smaller[i] in Elements(smaller); }
      }
    }
  }

  lemma FullFirst(view: seq<Row>, limit: nat)
    requires |view| == limit + 1
    ensures var p := Forward([From(view)], limit);
            p.rows == view[..limit] && p.state.next == view[limit]
  {
    FirstFetch(view, limit);
    assert Answer(view, None, limit + 1) == view;
    hide First;
    assert [] + view[..limit] == view[..limit];
  }

  lemma IdleSecond(view: seq<Row>, limit: nat)
    requires !Askable(Forward([From(view)], limit).state.next)
    ensures var p := Forward([From(view), From(view)], limit);
            p.rows == Forward([From(view)], limit).rows && p.state.next == NOWHERE
  {
    var p := Forward([From(view)], limit);
    NextIdle(p.state, From(view), limit);
    hide First, Step;
    assert [From(view), From(view)][..1] == [From(view)];
    assert p.rows + [] == p.rows;
  }

  /** A view of a page of rows and one more that cannot be asked for loses that row. */
  lemma LosesLast(view: seq<Row>, limit: nat)
    requires Increasing(view) && |view| == limit + 1 && limit > 0 && !Askable(view[limit])
    ensures var replies := if view[limit].key == Null then [From(view)] else [From(view), From(view)];
            Started(replies) && !Complete(replies, limit)
  {
    var replies := if view[limit].key == Null then [From(view)] else [From(view), From(view)];
    FullFirst(view, limit);
    IdleSecond(view, limit);
    NotBefore(view, limit);
    hide Forward, Increasing;
    assert Sound(From(view));
    assert InAll(replies, view[limit]);
  }

  lemma NotBefore(view: seq<Row>, p: nat)
    requires Increasing(view) && p < |view|
    ensures view[p] !in view[..p]
  {
    if view[p] in view[..p] {
      var i :| 0 <= i < p && view[i] == view[p];
      assert InStrictOrder(view, i, p);
      LessIsTotal(view[p], view[p]);
    }
  }

  lemma LostRow(all: set<Row>, limit: nat, r: Row) returns (replies: seq<Reply>)
    requires limit > 0 && r in all && |Before(all, r)| >= limit && !Askable(r)
    ensures Started(replies) && Within(replies, all) && !Complete(replies, limit)
  {
    hide Less;
    var before := InSequence(Before(all, r));
    var view := before[..limit] + [r];
    forall i | 0 <= i < |before| ensures before[i] in Before(all, r) { assert before[i] in Elements(before); }
    forall i, j ensures InStrictOrder(view, i, j) { assert InStrictOrder(before, i, j); }
    LosesLast(view, limit);
    replies := if r.key == Null then [From(view)] else [From(view), From(view)];
  }

  /** Let the views met be drawn from a set of rows. Every forward run that has ended has delivered all
      rows that stayed, whatever was inserted, deleted and tried again, if and only if every row of the
      set with a page or more of the set before it has a truthy key and a truthy id. */
  lemma StabilityExact(all: set<Row>, limit: nat)
    requires limit > 0
    ensures (forall replies :: Started(replies) && Within(replies, all) ==> Complete(replies, limit)) <==>
            Reachable(all, limit)
  {
    hide Forward, Steady;
    if Reachable(all, limit) {
      forall replies | Started(replies) && Within(replies, all) ensures Complete(replies, limit) {
        NeverCut(all, replies, limit);
        ForwardDelivers(replies, limit);
      }
    } else {
      var r :| r in all && |Before(all, r)| >= limit && !Askable(r);
      var replies := LostRow(all, limit, r);
      assert Started(replies) && Within(replies, all) && !Complete(replies, limit);
    }
  }

  lemma ForwardDelivers(replies: seq<Reply>, limit: nat)
    requires Started(replies) && limit > 0 && !Forward(replies, limit).cut
    ensures Complete(replies, limit)
  {
    hide Forward;
    ForwardSteady(replies, limit);
  }

  /** The requests that were answered. */
  function Answered(replies: seq<Reply>): nat {
    if replies == [] then 0
    else Answered(replies[..|replies| - 1]) + if replies[|replies| - 1].From? then 1 else 0
  }

  /** As long as there is a next page, each answer has delivered a full page of the given rows, and the
      next start is one more of them. */
  ghost predicate Filling(all: set<Row>, limit: nat, answered: nat, p: Progress) {
    HasNext(p.state) ==>
      && |p.rows| == answered * limit && Increasing(p.rows) && AllBelow(p.rows, p.state.next)
      && Elements(p.rows) <= all && p.state.next in all
  }

  lemma FetchFills(all: set<Row>, view: seq<Row>, start: Option<Row>, limit: nat, page: seq<Row>, next: Row)
    requires Increasing(view) && Elements(view) <= all
    requires var rows := Answer(view, start, limit + 1);
             if |rows| > limit then page == rows[..limit] && next == rows[limit]
             else page == rows && next == NOWHERE
    ensures next.key != Null ==>
              && |page| == limit && Increasing(page) && AllBelow(page, next) && FromStart(start, next)
              && (forall i :: 0 <= i < |page| ==> FromStart(start, page[i]))
              && Elements(page) <= all && next in all
  {
    PageFrom(view, start, limit, page, next);
    hide Less, Increasing, FirstAt, FromStart;
    var f := Origin(view, start);
    var rows := Answer(view, start, limit + 1);
    forall i | 0 <= i < |rows| ensures rows[i] in all { assert view[f + i] in Elements(view); }
  }

  lemma StepFills(all: set<Row>, p: Progress, answered: nat, view: seq<Row>, limit: nat)
    requires Filling(all, limit, answered, p) && Increasing(view) && Elements(view) <= all
    ensures Filling(all, limit, answered + 1, Extend(p, Step(p.state, Event(Next, From(view)), limit)))
  {
    var start := p.state.next;
    NextIdle(p.state, From(view), limit);
    if Askable(start) {
      var (s1, page) := Step(p.state, Event(Next, From(view)), limit);
      NextFetch(view, p.state, limit);
      hide Step, Increasing, Answer, Less;
      FetchFills(all, view, Some(start), limit, page, s1.next);
      if HasNext(s1) {
        JoinIncreasing(p.rows, page, start);
        forall i | 0 <= i < |p.rows + page| ensures Less((p.rows + page)[i], s1.next) {
          if i < |p.rows| { LessIsTransitive(p.rows[i], start, s1.next); }
        }
        assert Elements(p.rows + page) == Elements(p.rows) + Elements(page);
      }
    }
  }

  lemma {:induction false} ForwardFills(all: set<Row>, replies: seq<Reply>, limit: nat)
    requires Started(replies) && Within(replies, all)
    ensures Filling(all, limit, Answered(replies), Forward(replies, limit))
  {
    hide Step, First, Increasing, Filling;
    var last := replies[|replies| - 1];
    var before := replies[..|replies| - 1];
    assert Sound(last);
    if |replies| == 1 {
      FirstFills(all, last.view, limit);
    } else {
      ForwardFills(all, before, limit);
      var p := Forward(before, limit);
      if last.From? {
        StepFills(all, p, Answered(before), last.view, limit);
      } else {
        FailureKeeps(all, p, Answered(before), limit);
      }
    }
  }

  lemma FirstFills(all: set<Row>, view: seq<Row>, limit: nat)
    requires Increasing(view) && Elements(view) <= all
    ensures Filling(all, limit, 1, Extend(Progress(FRESH, [], false), First(From(view), limit)))
  {
    var (s1, page) := First(From(view), limit);
    FirstFetch(view, limit);
    FetchFills(all, view, None, limit, page, s1.next);
    hide First;
    assert [] + page == page;
  }

  lemma FailureKeeps(all: set<Row>, p: Progress, answered: nat, limit: nat)
    requires Filling(all, limit, answered, p)
    ensures Filling(all, limit, answered, Extend(p, Step(p.state, Event(Next, Failed), limit)))
  {
    NextIdle(p.state, Failed, limit);
    hide Step;
    assert p.rows + [] == p.rows;
  }

  /** A forward run ends: there is no next page any more once the answered requests, at a page each,
      could have delivered all rows that there are. */
  lemma RunEnds(all: set<Row>, replies: seq<Reply>, limit: nat)
    requires Started(replies) && Within(replies, all) && Answered(replies) * limit >= |all|
    ensures !HasNext(Forward(replies, limit).state)
  {
    ForwardFills(all, replies, limit);
    hide Forward;
    var p := Forward(replies, limit);
    if HasNext(p.state) {
      ElementsSize(p.rows);
      LessIsTotal(p.state.next, p.state.next);
      SubsetSize(Elements(p.rows) + {p.state.next}, all);
    }
  }

  /** So, if every row with a page of rows before it can be asked for, so many answers have delivered
      every row that stayed. */
  lemma RunDelivers(all: set<Row>, replies: seq<Reply>, limit: nat)
    requires Started(replies) && Within(replies, all) && Answered(replies) * limit >= |all|
    requires limit > 0 && Reachable(all, limit)
    ensures forall r :: InAll(replies, r) ==> r in Forward(replies, limit).rows
  {
    RunEnds(all, replies, limit);
    StabilityExact(all, limit);
    hide Forward, Started, Within, Reachable;
    assert Complete(replies, limit);
  }

  // ---- Any moves, any views, any failures ----

  /** The state and the pages delivered after `firstPage` and a list of moves. */
  function Run(first: Reply, es: seq<Event>, limit: nat): (State, seq<seq<Row>>) {
    if es == [] then (First(first, limit).0, [First(first, limit).1])
    else
      var (s, pages) := Run(first, es[..|es| - 1], limit);
      var (s1, page) := Step(s, es[|es| - 1], limit);
      (s1, pages + [page])
  }

  ghost predicate AllSound(first: Reply, es: seq<Event>) {
    Sound(first) && forall i :: 0 <= i < |es| ==> Sound(es[i].reply)
  }

  /** The row begins one of the pages. */
  predicate Begins(pages: seq<seq<Row>>, r: Row) {
    exists i :: 0 <= i < |pages| && pages[i] != [] && pages[i][0] == r
  }

  /** The back stack increases; it stays below the current start and the next start when these are
      set; and it holds only first rows of delivered pages, as does the current start. */
  ghost predicate Ordered(s: State, pages: seq<seq<Row>>) {
    && Increasing(s.back)
    && (Known(s.prev) ==> AllBelow(s.back, s.prev) && Begins(pages, s.prev))
    && (Known(s.next) ==> AllBelow(s.back, s.next))
    && (Known(s.prev) && Known(s.next) ==> Less(s.prev, s.next))
    && (forall i :: 0 <= i < |s.back| ==> Known(s.back[i]) && Begins(pages, s.back[i]))
  }

  /** What a response does: nothing; or it empties the next start; or it sets both starts, pushing the
      current one if it is known. */
  lemma PaginateCases(s: State, results: Option<seq<Row>>, limit: nat)
    requires limit > 0
    ensures var (s1, page) := Paginate(s, results, limit);
            match results
            case None => s1 == s && page == []
            case Some(rows) =>
              if rows == [] then s1 == s.(next := NOWHERE) && page == []
              else && s1.back == (if Known(s.prev) then s.back + [s.prev] else s.back)
                   && s1.prev == rows[0] && page != [] && page[0] == rows[0]
                   && s1.next == if |rows| > limit then rows[|rows| - 1] else NOWHERE
  {
  }

  lemma BeginsMore(pages: seq<seq<Row>>, page: seq<Row>, r: Row)
    requires Begins(pages, r)
    ensures Begins(pages + [page], r)
  {
    var i :| 0 <= i < |pages| && pages[i] != [] && pages[i][0] == r;
    assert (pages + [page])[i] == pages[i];
  }

  lemma BeginsLast(pages: seq<seq<Row>>, page: seq<Row>)
    requires page != []
    ensures Begins(pages + [page], page[0])
  {
    assert (pages + [page])[|pages|] == page;
  }

  /** More pages keep the order. */
  lemma OrderedMore(s: State, pages: seq<seq<Row>>, page: seq<Row>)
    requires Ordered(s, pages)
    ensures Ordered(s, pages + [page])
  {
    hide Increasing;
    if Known(s.prev) { BeginsMore(pages, page, s.prev); }
    forall i | 0 <= i < |s.back| ensures Begins(pages + [page], s.back[i]) { BeginsMore(pages, page, s.back[i]); }
  }

  /** A response that starts at or after a row above the back stack, and above the current start if
      that is known, keeps the order. */
  lemma PaginateOrdered(s: State, pages: seq<seq<Row>>, results: Option<seq<Row>>, limit: nat, start: Row)
    requires limit > 0 && Ordered(s, pages)
    requires AllBelow(s.back, start) && (Known(s.prev) ==> Less(s.prev, start))
    requires results.Some? && results.value != [] ==>
               Increasing(results.value) && AtMost(start, results.value[0])
    ensures var (s1, page) := Paginate(s, results, limit); Ordered(s1, pages + [page])
  {
    hide Less;
    var (s1, page) := Paginate(s, results, limit);
    PaginateCases(s, results, limit);
    hide Paginate;
    OrderedMore(s, pages, page);
    if results.Some? && results.value != [] {
      var rows := results.value;
      BeginsLast(pages, page);
      assert InStrictOrder(rows, 0, |rows| - 1);
      forall i | 0 <= i < |s1.back| ensures Less(s1.back[i], rows[0]) {
        LessIsTransitive(s1.back[i], start, rows[0]);
      }
      forall i | 0 <= i < |s1.back| ensures |rows| > limit ==> Less(s1.back[i], rows[|rows| - 1]) {
        LessIsTransitive(s1.back[i], rows[0], rows[|rows| - 1]);
      }
      forall i, j ensures InStrictOrder(s1.back, i, j) {
        assert InStrictOrder(s.back, i, j);
      }
    }
  }

  lemma AnswerOrder(view: seq<Row>, start: Option<Row>, limit: nat)
    requires Increasing(view)
    ensures var rows := Answer(view, start, limit);
            Increasing(rows) && (rows != [] && start.Some? ==> AtMost(start.value, rows[0]))
  {
    hide Less, FirstAt;
    var f := Origin(view, start);
    if start.Some? { FirstAtIsFirst(view, start.value); }
    var rows := Answer(view, start, limit);
    forall i, j ensures InStrictOrder(rows, i, j) { assert InStrictOrder(view, f + i, f + j); }
  }

  lemma PopOrdered(s: State, pages: seq<seq<Row>>)
    requires Ordered(s, pages) && s.back != []
    ensures var s1 := Waiting(s, Prev).(prev := NOWHERE);
            Ordered(s1, pages) && AllBelow(s1.back, s.back[|s.back| - 1])
  {
    var s1 := Waiting(s, Prev).(prev := NOWHERE);
    forall i, j ensures InStrictOrder(s1.back, i, j) { assert InStrictOrder(s.back, i, j); }
    forall i | 0 <= i < |s1.back| ensures Less(s1.back[i], s.back[|s.back| - 1]) {
      assert InStrictOrder(s.back, i, |s.back| - 1);
    }
  }

  lemma StepOrdered(s: State, pages: seq<seq<Row>>, e: Event, limit: nat)
    requires limit > 0 && Ordered(s, pages) && Sound(e.reply)
    ensures var (s1, page) := Step(s, e, limit); Ordered(s1, pages + [page])
  {
    hide Paginate, Answer, Ordered, Increasing;
    var start := Ask(s, e.move);
    if start.None? {
      LocalOrdered(s, pages, e.move, limit);
    } else {
      var results := Results(e.reply, start, limit);
      if e.reply.From? { AnswerOrder(e.reply.view, start, limit + 1); }
      if e.move.Prev? {
        PopOrdered(s, pages);
        PaginateOrdered(Waiting(s, Prev).(prev := NOWHERE), pages, results, limit, start.value);
      } else {
        AskedAbove(s, pages);
        PaginateOrdered(s, pages, results, limit, start.value);
      }
    }
  }

  lemma AskedAbove(s: State, pages: seq<seq<Row>>)
    requires Ordered(s, pages) && Askable(s.next)
    ensures AllBelow(s.back, s.next) && (Known(s.prev) ==> Less(s.prev, s.next))
  {
  }

  lemma LocalOrdered(s: State, pages: seq<seq<Row>>, move: Move, limit: nat)
    requires limit > 0 && Ordered(s, pages) && Ask(s, move).None?
    ensures var (s1, page) := Local(s, move, limit); Ordered(s1, pages + [page])
  {
    PaginateCases(s, if move.Next? then Some([]) else None, limit);
    hide Paginate, Increasing;
    OrderedMore(s, pages, []);
  }

  /** Every run of moves, over views that change and with requests that fail, keeps the back stack in
      order. */
  lemma {:induction false} RunOrdered(first: Reply, es: seq<Event>, limit: nat)
    requires limit > 0 && AllSound(first, es)
    ensures var (s, pages) := Run(first, es, limit); Ordered(s, pages)
  {
    if es == [] {
      FirstOrdered(first, limit);
    } else {
      hide Step, Ordered;
      RunOrdered(first, es[..|es| - 1], limit);
      var (s, pages) := Run(first, es[..|es| - 1], limit);
      StepOrdered(s, pages, es[|es| - 1], limit);
    }
  }

  lemma FirstOrdered(first: Reply, limit: nat)
    requires limit > 0 && Sound(first)
    ensures var (s, page) := First(first, limit); Ordered(s, [page])
  {
    if first.From? {
      var rows := Answer(first.view, None, limit + 1);
      AnswerOrder(first.view, None, limit + 1);
      assert InStrictOrder(rows, 0, |rows| - 1);
      var (s, page) := First(first, limit);
      if rows != [] { assert page[0] == rows[0] && [page][0] == page; }
    }
  }

  /** So `prev` never moves forward: what it asks for lies before the current start and before the next
      start, if these are set, and was the first row of a page delivered earlier. */
  lemma PrevMovesBack(first: Reply, es: seq<Event>, limit: nat)
    requires limit > 0 && AllSound(first, es)
    ensures var (s, pages) := Run(first, es, limit);
            var start := Ask(s, Prev);
            start.Some? ==>
              && Begins(pages, start.value)
              && (Known(s.prev) ==> Less(start.value, s.prev))
              && (Known(s.next) ==> Less(start.value, s.next))
  {
    RunOrdered(first, es, limit);
    hide Run, Increasing;
  }
}
