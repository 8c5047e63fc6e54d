/** Inputs on which the code does less than its documentation promises. The exact conditions are proved
    beside each property. */
module Counterexamples {
  import opened Common
  import opened Rows
  import Paging
  import opened PagingFixed
  import PagingForward
  import opened Cookies
  import opened Connections
  import V = ViewQueries
  import F = ValueFormats
  import O = Options
  import D = Durability

  /** Two rows on pages of one; the second page starts at key 0, which is false. */
  lemma FalseKeyEndsPaging()
    ensures var view := [Row(Number(-1.0), Text(1.0)), Row(Number(0.0), Text(2.0))];
            Increasing(view) && !PagingForward.Enumerates(view, 1)
  {
    var view := [Row(Number(-1.0), Text(1.0)), Row(Number(0.0), Text(2.0))];
    assert Increasing(view);
    forall i, j ensures InOrder(view, i, j) { assert InStrictOrder(view, i, j); }
    assert At(1, 1) == 1;
    assert Starts(view, 1, 1) && !Paging.Askable(view[At(1, 1)]);
    PagingForward.ForwardExact(view, 1);
  }

  /** A row with a null key in front: the first page is not remembered, so `prev` cannot return to it. */
  lemma NullKeyIsForgotten()
    ensures var view := [Row(Null, Text(1.0)), Row(Number(1.0), Text(2.0))];
            Increasing(view) && PagingForward.Enumerates(view, 1) && !AlwaysTracks(view, 1)
  {
    var view := [Row(Null, Text(1.0)), Row(Number(1.0), Text(2.0))];
    assert Increasing(view);
    forall i, j ensures InOrder(view, i, j) { assert InStrictOrder(view, i, j); }
    forall c: nat | c > 0 && Starts(view, 1, c) ensures Boundary(view, 1, c) {
      PagingForward.AtIsProduct(1, c);
      assert InStrictOrder(view, 0, 1);
    }
    PagingForward.ForwardExact(view, 1);
    TrackingExact(view, 1);
  }

  /** The same row twice, on pages of one: `next` delivers the first page again, for ever. */
  lemma RepeatedRowNeverEnds()
    ensures var r := Row(Number(1.0), Text(1.0));
            && Sorted([r, r]) && !PagingForward.Enumerates([r, r], 1) && !AlwaysTracks([r, r], 1)
            && forall k: nat :: PagingForward.ForwardState([r, r], 1, k).next == r
                                && Paging.HasNext(PagingForward.ForwardState([r, r], 1, k))
  {
    var r := Row(Number(1.0), Text(1.0));
    var view := [r, r];
    assert Sorted(view);
    assert At(1, 1) == 1;
    LessIsTotal(r, r);
    assert Starts(view, 1, 1) && !Boundary(view, 1, 1);
    PagingForward.ForwardExact(view, 1);
    TrackingExact(view, 1);
    PagingForward.ForwardTracks(view, 1, 0);
    forall k: nat
      ensures PagingForward.ForwardState(view, 1, k).next == r && Paging.HasNext(PagingForward.ForwardState(view, 1, k))
    {
      PagingForward.StuckForEver(view, 1, 0, k, r);
    }
  }

  /** One row, on pages of none. */
  lemma EmptyPagesDeliverNothing()
    ensures var view := [Row(Number(1.0), Text(1.0))];
            Sorted(view) && !PagingForward.Enumerates(view, 0)
  {
    var view := [Row(Number(1.0), Text(1.0))];
    assert Sorted(view);
    PagingForward.ForwardExact(view, 0);
  }

  /** A limit of five that is given only to `firstPage`: the stored parameters, of which the later pages
      are made, have none. */
  lemma LimitOnlyForFirstPage()
    ensures var (sent, after) := V.FirstRequest(map[], map["limit" := V.Num(5)], map[]);
            sent == map["limit" := V.Num(6)] && after == map[]
  {
  }

  /** An operation submitted early, and an error before the configuration: no callback, ever. */
  lemma ErrorFirst()
    ensures var request := Request(["a"], Spooled, true);
            var s := Run([Submit(request, SUCCESS), Event.Error(1), Configuration(true)]);
            s.queue == [0] && s.batches == [NewBatch(request, true)] && !Told(s.batches[0])
  {
    var request := Request(["a"], Spooled, true);
    var e0, e1, e2 := Submit(request, SUCCESS), Event.Error(1), Configuration(true);
    Unroll(START, [e0, e1], e2);
    Unroll(START, [e0], e1);
    Unroll(START, [], e0);
    assert [] + [e0] == [e0] && [e0] + [e1] == [e0, e1] && [e0, e1] + [e2] == [e0, e1, e2];
  }

  /** A batch is submitted early, the configuration comes, and the library refuses the batch. */
  function RefusedLater(request: Request): seq<Event> {
    [Submit(request, SUCCESS), Configuration(true), Flush(1)]
  }

  lemma RefusedLaterRun(request: Request)
    requires Acceptable(request)
    ensures Run(RefusedLater(request)).batches == [Execute(NewBatch(request, true), 1)]
  {
    var e0, e1, e2 := Submit(request, SUCCESS), Configuration(true), Flush(1);
    assert [] + [e0] == [e0] && [e0] + [e1] == [e0, e1] && [e0, e1] + [e2] == RefusedLater(request);
    Unroll(START, [], e0);
    assert RunFrom(START, []) == START;
    hide Execute, Acceptable, RunFrom;
    Unroll(START, [e0], e1);
    Unroll(START, [e0, e1], e2);
  }

  /** A deferred operation on two keys that the library refuses: cancelled by one key that is not its
      own, it is never called back. */
  lemma DeferredRefusal()
    ensures var s := Run(RefusedLater(Request(["a", "b"], Spooled, true)));
            |s.batches| == 1 && Stranded(s.batches[0]) && !Told(s.batches[0])
  {
    var request := Request(["a", "b"], Spooled, true);
    RefusedLaterRun(request);
    hide Cancel, RunFrom;
    BatchFate(RefusedLater(request), 0);
  }

  /** A deferred operation on one key that the library refuses: called back, but not for its key. */
  lemma DeferredUndefined()
    ensures var s := Run(RefusedLater(Request(["a"], Spooled, true)));
            && |s.batches| == 1 && s.batches[0].Made?
            && s.batches[0].cookie.calls == [Whole(true, map["undefined" := Entry(None, Some(1))])]
  {
    RefusedLaterRun(Request(["a"], Spooled, true));
    CancelUndefined();
    hide Cancel, RunFrom;
  }

  lemma CancelUndefined()
    ensures Cancel(Fresh(1, Spooled), 1, ["undefined"]).calls == [Whole(true, map["undefined" := Entry(None, Some(1))])]
  {
    var c := Fresh(1, Spooled).(isCancelled := true);
    var infos := CancelInfos(1, ["undefined"]);
    assert infos == [Cancelled("undefined", 1)];
    assert MarkAll(c, infos[..0]) == c;
  }

  lemma Unroll(s: Sys, es: seq<Event>, e: Event)
    ensures RunFrom(s, es + [e]) == Step(RunFrom(s, es), e)
  {
    assert (es + [e])[..|es|] == es;
  }

  /** A response without a key, to a spooled batch of one: called back twice. */
  lemma KeylessResponse()
    ensures var c := MarkAll(Fresh(1, Spooled), [Wire("", SUCCESS, None)]);
            |c.calls| == 2 && c.deletes == 2 && c.touchedDead
  {
    var infos := [Wire("", SUCCESS, None)];
    assert infos[..0] == [];
    assert MarkAll(Fresh(1, Spooled), infos[..0]) == Fresh(1, Spooled);
  }

  /** A store of one key that has succeeded. */
  const STORED := Made(Request(["a"], Spooled, true), false, Executed(multiset{}),
                       MarkAll(Fresh(1, Spooled), [Wire("a", SUCCESS, Some(7))]), [Wire("a", SUCCESS, Some(7))])

  lemma StoredCalls()
    ensures D.Finished(STORED) && Calls(STORED) == [Whole(false, map["a" := Entry(Some(7), None)])]
  {
    var infos := [Wire("a", SUCCESS, Some(7))];
    assert infos[..0] == [];
    assert MarkAll(Fresh(1, Spooled), infos[..0]) == Fresh(1, Spooled);
    assert MarkAll(Fresh(1, Spooled), infos) == Mark(Fresh(1, Spooled), infos[0]);
    assert KeysOf(infos[..0]) == [] && KeysOf(infos) == ["a"];
  }

  /** With `persist_to: "1"`, or the number 2147483648, the store is followed by a durability request
      for its key, because the option is true; but that is refused, because it is no 32-bit number. The
      user is told of an error, and no entry has one. */
  lemma DurabilityRefused(persistTo: O.Value)
    requires persistTo == O.Str([49]) || persistTo == O.Num(2147483648, false, [])
    ensures var given := map["persist_to" := persistTo, "spooled" := O.Bool(true)];
            var endure := Refused(Request(["a"], Spooled, false), [Bail]);
            && D.Composed(given, false, STORED, Some(endure))
            && D.Seen(STORED, Some(endure)) == [D.UserCall(true, Some(map["a" := Entry(Some(7), None)]))]
  {
    var given := map["persist_to" := persistTo, "spooled" := O.Bool(true)];
    StoredCalls();
    D.PassedOnExact(given, false);
    D.OneCall(Calls(STORED)[0], Bail);
    hide MarkAll, KeysOf, O.DurabilityOk, D.PassedOn, D.Finished, D.UserCalls;
    assert D.Endured(D.ResultsIn(STORED)).Keys == {"a"};
  }

  /** The same parameters used twice: the key is encoded twice. */
  lemma ParametersReused()
    ensures var m: V.Params := map["key" := V.Num(1)];
            V.Normalized(V.Normalized(m)) == map["key" := V.Encoded(V.Encoded(V.Num(1)))]
  {
    var m: V.Params := map["key" := V.Num(1)];
    assert V.IsJsonField("key") && V.IsViewField("key");
    assert V.Normalized(m) == map["key" := V.Encoded(V.Num(1))];
  }

  /** A get of one key as "xml", of a text stored as UTF-8: not rejected, but read as raw bytes. */
  lemma UnknownFormatReadsRaw(e: F.Engine)
    ensures var batch := [F.Wanted("a", Some(F.Text("xml")))];
            F.ReadAll(e, F.Kept(batch, None), [F.Value("a", [65], F.UTF8)]) == map["a" := Some(F.Buffer([65]))]
  {
  }
}
