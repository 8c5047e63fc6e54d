/** What becomes of each operation, told by the events of the run: which batches the library got, which it
    refused with which error, which responses they were given, and what their callbacks were told. */
module Fates {
  import opened Common
  import opened Cookies
  import opened Connections

  /** Event j takes batch i from the queue. */
  predicate TakenAt(es: seq<Event>, j: nat, i: nat)
    requires j < |es|
  {
    es[j].Flush? && CanFlush(Run(es[..j])) && Run(es[..j]).queue[0] == i
  }

  // ---- Refused by the library ----

  /** A batch that the library refused does not change any more, and one that it got stays so. */
  lemma StepSettled(s: Sys, e: Event, i: nat)
    requires Inv(s) && i < |s.batches| && s.batches[i].Made? && !s.batches[i].phase.Queued?
    ensures i < |Step(s, e).batches| && Step(s, e).batches[i].Made?
    ensures s.batches[i].phase.Failed? ==> Step(s, e).batches[i] == s.batches[i]
    ensures s.batches[i].phase.Executed? ==> Step(s, e).batches[i].phase.Executed?
  {
    hide BatchOk, Rising, Acceptable, Cancel, Mark;
    if CanFlush(s) { assert s.queue[0] in s.queue && IsDeferred(s, s.queue[0]); }
  }

  lemma {:induction false} RunSettled(es: seq<Event>, j: nat, i: nat)
    requires j <= |es| && i < |Run(es[..j]).batches|
    requires var b := Run(es[..j]).batches[i]; b.Made? && !b.phase.Queued?
    ensures var b := Run(es[..j]).batches[i];
            && i < |Run(es).batches| && Run(es).batches[i].Made?
            && (b.phase.Failed? ==> Run(es).batches[i] == b)
            && (b.phase.Executed? ==> Run(es).batches[i].phase.Executed?)
  {
    if j == |es| {
      assert es[..j] == es;
    } else {
      var before := es[..|es| - 1];
      assert before[..j] == es[..j];
      RunSettled(before, j, i);
      RunOk(before);
      StepSettled(Run(before), es[|es| - 1], i);
      RunLast(es);
      hide Step, Inv, RunFrom;
    }
  }

  /** The batch that was executed by event j, with this error or none, at the end of the run. */
  predicate Outcome(b: Batch, keys: seq<string>, err: Status) {
    && b.Made?
    && (err == 0 ==> b.phase.Executed?)
    && (err != 0 ==>
          b.phase.Failed? && ToldOfCancel(b.cookie.calls, |b.request.keys|, b.request.mode, keys, err))
  }

  lemma ExecuteOutcome(request: Request, deferred: bool, err: Status)
    requires Acceptable(request)
    ensures Outcome(Execute(NewBatch(request, deferred), err), if deferred then ["undefined"] else request.keys, err)
  {
    if err != 0 {
      CancelExact(Size(request), request.mode, err, if deferred then ["undefined"] else request.keys);
    }
    hide Cancel, ToldOfCancel;
  }

  /** An operation submitted to an open connection is handed to the library at once. If the library
      refuses it, its callback is told that very error, for each of its keys; if not, it has it. An
      operation that cannot be made is called back with nothing but an error. */
  lemma DirectExact(es: seq<Event>, j: nat)
    requires j < |es| && es[j].Submit?
    ensures Number(es, j) < |Run(es).batches|
    ensures var b, request := Run(es).batches[Number(es, j)], es[j].request;
            && (!Acceptable(request) ==> b == Refused(request, [Bail]))
            && (Acceptable(request) && EdgeOf(es[..j]) != Unconnected ==>
                  b.request == request && Outcome(b, request.keys, es[j].err))
  {
    var i, request := Number(es, j), es[j].request;
    DeferredExact(es, j);
    RunOk(es);
    ConnectExact(es[..j]);
    assert es[..j + 1][..j] == es[..j];
    RunLast(es[..j + 1]);
    hide EdgeOf, Acceptable, RunFrom, Outcome, MarkAll;
    if !Acceptable(request) {
      assert BatchOk(Run(es).batches[i]);
    } else if EdgeOf(es[..j]) != Unconnected {
      ExecuteOutcome(request, false, es[j].err);
      assert Run(es[..j + 1]).batches[i] == Execute(NewBatch(request, false), es[j].err);
      SettledOutcome(es, j + 1, i, request.keys, es[j].err);
    }
  }

  lemma SettledOutcome(es: seq<Event>, j: nat, i: nat, keys: seq<string>, err: Status)
    requires j <= |es| && i < |Run(es[..j]).batches| && Outcome(Run(es[..j]).batches[i], keys, err)
    ensures i < |Run(es).batches| && Outcome(Run(es).batches[i], keys, err)
  {
    hide RunFrom, ToldOfCancel;
    RunSettled(es, j, i);
  }

  /** An operation that had to wait is handed to the library by the flush that takes it from the queue.
      If the library refuses it then, its callback is told that very error, but only for the one name
      "undefined". */
  lemma FlushedExact(es: seq<Event>, j: nat, i: nat)
    requires j < |es| && TakenAt(es, j, i)
    ensures i < |Run(es).batches| && Outcome(Run(es).batches[i], ["undefined"], es[j].err)
  {
    var s := Run(es[..j]);
    RunOk(es[..j]);
    assert es[..j + 1][..j] == es[..j];
    RunLast(es[..j + 1]);
    hide RunFrom, Rising, Outcome, MarkAll;
    assert s.queue[0] in s.queue && IsDeferred(s, i) && s.batches[i].phase.Queued?;
    assert BatchOk(s.batches[i]);
    assert s.batches[i] == NewBatch(s.batches[i].request, true);
    ExecuteOutcome(s.batches[i].request, true, es[j].err);
    assert Run(es[..j + 1]).batches[i] == Execute(s.batches[i], es[j].err);
    SettledOutcome(es, j + 1, i, ["undefined"], es[j].err);
  }

  /** And it still waits exactly if no flush took it. */
  lemma {:induction false} WaitingExact(es: seq<Event>, i: nat)
    requires i < |Run(es).batches| && Run(es).batches[i].Made? && Run(es).batches[i].deferred
    ensures Run(es).batches[i].phase.Queued? <==> forall j: nat :: j < |es| ==> !TakenAt(es, j, i)
  {
    var n := |es| - 1;
    var before := es[..n];
    var s := Run(before);
    RunOk(before);
    RunLast(es);
    StepKeeps(s, es[n]);
    StepWaits(s, es[n], i);
    forall j: nat | j < n ensures TakenAt(es, j, i) <==> TakenAt(before, j, i) { assert before[..j] == es[..j]; }
    hide Step, Inv, RunFrom, CanFlush;
    if i < |s.batches| {
      assert SameBatch(s.batches[i], Run(es).batches[i]);
      WaitingExact(before, i);
      var here := TakenAt(es, n, i);
      assert (forall j: nat :: j < |es| ==> !TakenAt(es, j, i)) <==>
             !here && forall j: nat :: j < n ==> !TakenAt(before, j, i);
    } else {
      forall j: nat | j <= n ensures !TakenAt(es, j, i) {
        RunKeeps(before, j);
        assert before[..j] == es[..j];
        FlushesMade(Run(before[..j]));
      }
    }
  }

  lemma StepWaits(s: Sys, e: Event, i: nat)
    requires Inv(s) && i < |Step(s, e).batches| && Step(s, e).batches[i].Made? && Step(s, e).batches[i].deferred
    ensures Step(s, e).batches[i].phase.Queued? <==>
            (i < |s.batches| ==> s.batches[i].Made? && s.batches[i].phase.Queued?
                                 && !(e.Flush? && CanFlush(s) && s.queue[0] == i))
  {
    hide BatchOk, Rising, Acceptable, Cancel, Mark;
    if CanFlush(s) { assert s.queue[0] in s.queue && IsDeferred(s, s.queue[0]); }
  }

  // ---- Answered by the library ----

  /** The responses to batch i, in order of arrival. */
  function Heard(es: seq<Event>, i: nat): seq<Info> {
    if es == [] then []
    else
      var before, e := es[..|es| - 1], es[|es| - 1];
      Heard(before, i) + if e.Respond? && e.id == i && CanRespond(Run(before), i, e.info) then [e.info] else []
  }

  function GotIn(s: Sys, i: nat): seq<Info> {
    if i < |s.batches| && s.batches[i].Made? && s.batches[i].phase.Executed? then s.batches[i].got else []
  }

  lemma StepHears(s: Sys, e: Event, i: nat)
    requires Inv(s)
    ensures GotIn(Step(s, e), i) ==
            GotIn(s, i) + if e.Respond? && e.id == i && CanRespond(s, i, e.info) then [e.info] else []
  {
    hide Rising, Acceptable, Cancel, Mark, MarkAll;
    if CanFlush(s) { assert s.queue[0] in s.queue && BatchOk(s.batches[s.queue[0]]); }
  }

  lemma {:induction false} HeardExact(es: seq<Event>, i: nat)
    ensures GotIn(Run(es), i) == Heard(es, i)
    ensures forall q :: 0 <= q < |Heard(es, i)| ==> Heard(es, i)[q].Wire?
  {
    if es != [] {
      var before := es[..|es| - 1];
      RunOk(before);
      RunLast(es);
      hide Step, GotIn, Inv, RunFrom;
      HeardExact(before, i);
      StepHears(Run(before), es[|es| - 1], i);
    }
  }

  /** The error that a status stands for. */
  function ErrorOf(status: Status): Option<Status> {
    if status == 0 then None else Some(status)
  }

  /** A batch that the library got tells each response as it arrives, or all of them together when every
      key has been answered: for each key the payload and the error of the last response for it. */
  lemma AnsweredExact(es: seq<Event>, i: nat)
    requires i < |Run(es).batches| && Run(es).batches[i].Made? && Run(es).batches[i].phase.Executed?
    ensures var b, heard := Run(es).batches[i], Heard(es, i);
            && (forall q :: 0 <= q < |heard| ==> heard[q].Wire?)
            && (b.request.mode.Single? ==>
                  && |b.cookie.calls| == |heard|
                  && forall q :: 0 <= q < |heard| ==>
                       b.cookie.calls[q] == One(ErrorOf(heard[q].status), heard[q].payload))
            && (b.request.mode.Spooled? && |heard| < |b.request.keys| ==> b.cookie.calls == [])
            && (b.request.mode.Spooled? && |heard| == |b.request.keys| ==>
                  && |b.cookie.calls| == 1 && b.cookie.calls[0].Whole?
                  && var call := b.cookie.calls[0];
                     && (call.check <==> exists q :: 0 <= q < |heard| && heard[q].status != 0)
                     && SameKeys(call.results, b.request.keys)
                     && forall q :: 0 <= q < |heard|
                                    && (forall p :: q < p < |heard| ==> heard[p].key != heard[q].key) ==>
                          heard[q].key in call.results
                          && call.results[heard[q].key] == Entry(heard[q].payload, ErrorOf(heard[q].status)))
  {
    RunOk(es);
    HeardExact(es, i);
    hide RunFrom, QueueOk;
    var b, heard := Run(es).batches[i], Heard(es, i);
    BatchStands(b);
    hide BatchOk, Heard, ResultsOf, SameKeys;
    if b.request.mode.Spooled? && |heard| == |b.request.keys| {
      ResultKeys(b, b.cookie.calls[0].results);
      LastEntries(b.cookie.calls[0].results, heard);
    }
  }

  lemma LastEntries(results: map<string, Entry>, heard: seq<Info>)
    requires ResultsOf(results, heard) && forall q :: 0 <= q < |heard| ==> heard[q].Wire?
    ensures forall q :: 0 <= q < |heard| && (forall p :: q < p < |heard| ==> heard[p].key != heard[q].key) ==>
              heard[q].key in results && results[heard[q].key] == Entry(heard[q].payload, ErrorOf(heard[q].status))
  {
    forall q: nat | q < |heard| && forall p :: q < p < |heard| ==> heard[p].key != heard[q].key
      ensures LastFor(heard, q)
    {
    }
  }
}
