/** The connection object. What the library and the user's callbacks do is given by parameters: the
    outcome of each execution, and the operations each callback submits. */
module CouchbaseImpl {
  import opened Common
  import opened Cookies
  import opened Connections
  import opened Fates

  /** An operation submitted by a callback, and what executing it would return. */
  datatype Submission = Submission(request: Request, err: Status)

  /** What callbacks submit, one operation after the other. */
  function Submits(subs: seq<Submission>): (es: seq<Event>)
    ensures |es| == |subs|
    ensures forall i :: 0 <= i < |subs| ==> es[i] == Submit(subs[i].request, subs[i].err)
  {
    if subs == [] then []
    else Submits(subs[..|subs| - 1]) + [Submit(subs[|subs| - 1].request, subs[|subs| - 1].err)]
  }

  /** The error a queued batch meets: the one given for all of them, if any, else its own. */
  function ErrorMet(globalErr: Status, err: Status): Status {
    if globalErr == SUCCESS then err else globalErr
  }

  function Round(err: Status, subs: seq<Submission>): seq<Event> {
    [Flush(err)] + Submits(subs)
  }

  /** k rounds of the flush loop, each followed by what the callbacks it made submit. */
  function FlushTrace(globalErr: Status, outcomes: seq<Status>, nested: seq<seq<Submission>>, k: nat): seq<Event>
    requires k <= |outcomes| == |nested|
  {
    if k == 0 then [] else
    FlushTrace(globalErr, outcomes, nested, k - 1) + Round(ErrorMet(globalErr, outcomes[k - 1]), nested[k - 1])
  }

  lemma {:induction false} RunConcat(s: Sys, a: seq<Event>, b: seq<Event>)
    ensures RunFrom(s, a + b) == RunFrom(RunFrom(s, a), b)
  {
    if b == [] {
      assert a + b == a;
    } else {
      assert (a + b)[..|a + b| - 1] == a + b[..|b| - 1];
      RunConcat(s, a, b[..|b| - 1]);
    }
  }

  lemma RunNone(s: Sys)
    ensures RunFrom(s, []) == s
  {
  }

  lemma RunOne(s: Sys, e: Event)
    ensures RunFrom(s, [e]) == Step(s, e)
  {
    assert [e][..0] == [];
    assert RunFrom(s, [e][..0]) == s;
  }

  class CouchbaseImpl {
    var connected: bool
    var pendingCommands: seq<nat>
    var batches: seq<Batch>
    // The world around the connection: calls of the handlers, and the batches flushed.
    var connects: seq<Status>
    var flushed: seq<nat>
    var reports: seq<Status>
    ghost var released: bool

    ghost function Abs(): Sys
      reads this
    {
      Sys(connected, released, pendingCommands, batches, connects, flushed, reports)
    }

    constructor ()
      ensures Abs() == START
    {
      connected, pendingCommands, batches, connects, flushed, reports, released := false, [], [], [], [], [], false;
    }

    /** Stands for making the batch, which fails for bad options, for no key and for an empty key. */
    method CheckRequest(request: Request) returns (ok: bool)
      requires |request.keys| < 0x1_0000_0000
      ensures ok <==> Acceptable(request)
    {
      if |request.keys| == 0 || !request.parses {
        return false;
      }
      for i := 0 to |request.keys|
        invariant forall j :: 0 <= j < i ==> request.keys[j] != ""
      {
        if |request.keys[i]| == 0 {
          return false;
        }
      }
      return true;
    }

    /** Submits a batch; the result is false when it was refused, here or by the library. */
    method MakeOperation(request: Request, err: Status) returns (accepted: bool)
      requires |request.keys| < 0x1_0000_0000
      modifies this
      ensures Abs() == Step(old(Abs()), Submit(request, err))
      ensures accepted <==> Acceptable(request) && (!old(connected) || err == SUCCESS)
      ensures |batches| == |old(batches)| + 1 && batches[..|old(batches)|] == old(batches)
      ensures !Acceptable(request) ==> batches[|old(batches)|] == Refused(request, [Bail])
      ensures Acceptable(request) && old(connected) ==> Outcome(batches[|old(batches)|], request.keys, err)
      ensures pendingCommands == old(pendingCommands) +
                if Acceptable(request) && !old(connected) then [|old(batches)|] else []
      ensures reports == old(reports) && connects == old(connects) && flushed == old(flushed)
      ensures connected == old(connected) && released == old(released)
    {
      hide Acceptable, Outcome;
      var ok := CheckRequest(request);
      if !ok {
        batches := batches + [Refused(request, [Bail])];
        return false;
      }
      if !connected {
        pendingCommands := pendingCommands + [|batches|];
        batches := batches + [NewBatch(request, true)];
        return true;
      }
      ExecuteOutcome(request, false, err);
      batches := batches + [Execute(NewBatch(request, false), err)];
      return err == SUCCESS;
    }

    /** What a callback submits, one operation after the other. */
    method RunSubmissions(subs: seq<Submission>)
      requires forall i :: 0 <= i < |subs| ==> |subs[i].request.keys| < 0x1_0000_0000
      requires Inv(Abs())
      modifies this
      ensures Abs() == RunFrom(old(Abs()), Submits(subs)) && Inv(Abs())
      ensures connected == old(connected) && released == old(released)
      ensures connected ==> pendingCommands == old(pendingCommands) && flushed == old(flushed)
      ensures old(batches) <= batches && reports == old(reports) && connects == old(connects)
    {
      hide Inv, Step, RunFrom, Acceptable, Outcome;
      RunNone(Abs());
      for i := 0 to |subs|
        invariant Abs() == RunFrom(old(Abs()), Submits(subs[..i])) && Inv(Abs())
        invariant connected == old(connected) && released == old(released)
        invariant connected ==> pendingCommands == old(pendingCommands) && flushed == old(flushed)
        invariant old(batches) <= batches && reports == old(reports) && connects == old(connects)
      {
        assert subs[..i + 1][..i] == subs[..i];
        ghost var e := Submit(subs[i].request, subs[i].err);
        assert Submits(subs[..i + 1]) == Submits(subs[..i]) + [e];
        StepOk(Abs(), e);
        RunConcat(old(Abs()), Submits(subs[..i]), [e]);
        RunOne(Abs(), e);
        var _ := MakeOperation(subs[i].request, subs[i].err);
      }
      assert subs[..|subs|] == subs;
    }

    /** The handler of the "connect" event runs synchronously, after the flag is set. */
    method OnConnect(err: Status, handler: seq<Submission>)
      requires forall i :: 0 <= i < |handler| ==> |handler[i].request.keys| < 0x1_0000_0000
      requires Inv(if connected then Abs() else DoConnect(Abs(), err))
      modifies this
      ensures Abs() == (if old(connected) then old(Abs()) else RunFrom(DoConnect(old(Abs()), err), Submits(handler)))
      ensures Inv(Abs()) && connected
      ensures released == old(released) && pendingCommands == old(pendingCommands) && flushed == old(flushed)
      ensures connects == (if old(connected) then old(connects) else old(connects) + [err])
      ensures old(batches) <= batches && reports == old(reports)
    {
      if connected {
        return;
      }
      connected := true;
      connects := connects + [err];
      assert Abs() == DoConnect(old(Abs()), err);
      RunSubmissions(handler);
    }

    /** `handler` is what the connect handler submits, if it is called; `errorHandler` is what the handler
        of the "error" event submits. */
    method ErrorCallback(err: Status, handler: seq<Submission>, errorHandler: seq<Submission>)
      requires forall i :: 0 <= i < |handler| ==> |handler[i].request.keys| < 0x1_0000_0000
      requires forall i :: 0 <= i < |errorHandler| ==> |errorHandler[i].request.keys| < 0x1_0000_0000
      requires Inv(Abs())
      modifies this
      ensures Abs() == RunFrom(old(Abs()),
                (if old(connected) then [] else [Error(err)] + Submits(handler))
                + ([Report(err)] + Submits(errorHandler)))
      ensures connected && pendingCommands == old(pendingCommands) && Inv(Abs())
      ensures reports == old(reports) + [err]
      ensures connects == (if old(connected) then old(connects) else old(connects) + [err])
    {
      hide Inv, Step;
      ghost var before := if connected then [] else [Error(err)] + Submits(handler);
      ghost var start := Abs();
      if !connected {
        ConnectFirst(err, handler);
      }
      assert Abs() == RunFrom(start, before);
      RunConcat(start, before, [Report(err)] + Submits(errorHandler));
      RunConcat(Abs(), [Report(err)], Submits(errorHandler));
      CallErrorHandler(err);
      RunSubmissions(errorHandler);
    }

    method ConnectFirst(err: Status, handler: seq<Submission>)
      requires forall i :: 0 <= i < |handler| ==> |handler[i].request.keys| < 0x1_0000_0000
      requires Inv(Abs()) && !connected
      modifies this
      ensures Abs() == RunFrom(old(Abs()), [Error(err)] + Submits(handler))
      ensures Inv(Abs()) && connected && pendingCommands == old(pendingCommands)
      ensures reports == old(reports) && connects == old(connects) + [err]
    {
      hide Inv;
      StepOk(Abs(), Error(err));
      RunConcat(Abs(), [Error(err)], Submits(handler));
      RunOne(Abs(), Error(err));
      OnConnect(err, handler);
    }

    method CallErrorHandler(err: Status)
      requires Inv(Abs())
      modifies this
      ensures Abs() == RunFrom(old(Abs()), [Report(err)]) && Inv(Abs())
      ensures connected == old(connected) && pendingCommands == old(pendingCommands)
      ensures reports == old(reports) + [err] && connects == old(connects)
    {
      hide Inv;
      StepOk(Abs(), Report(err));
      RunOne(Abs(), Report(err));
      reports := reports + [err];
    }

    /** Executes the first batch of the queue, and cancels it if the library refuses it. */
    method FlushFirst(err: Status)
      requires released && Inv(Abs()) && pendingCommands != []
      modifies this
      ensures Abs() == RunFrom(old(Abs()), [Flush(err)]) && Inv(Abs())
      ensures connected == old(connected) && released
      ensures pendingCommands == old(pendingCommands)[1..] && flushed == old(flushed) + old(pendingCommands)[..1]
      ensures |batches| == |old(batches)| && old(pendingCommands)[0] < |batches|
      ensures Outcome(batches[old(pendingCommands)[0]], ["undefined"], err)
      ensures forall i :: 0 <= i < |batches| && i != old(pendingCommands)[0] ==> batches[i] == old(batches)[i]
    {
      hide Execute, QueueOk, BatchOk, Outcome;
      QueuedIsMade(Abs());
      QueuedOutcome(Abs(), err);
      StepOk(Abs(), Flush(err));
      RunOne(Abs(), Flush(err));
      var id := pendingCommands[0];
      batches := batches[id := Execute(batches[id], err)];
      pendingCommands := pendingCommands[1..];
      flushed := flushed + [id];
      assert Abs() == Step(old(Abs()), Flush(err));
    }

    /** The flush loop. Callbacks may submit more, but to an open connection, so the queue only
        shrinks: the loop executes the queued batches once each, in order, and ends. */
    method RunScheduledOperations(globalErr: Status, outcomes: seq<Status>, nested: seq<seq<Submission>>)
      requires connected && released && Inv(Abs())
      requires |outcomes| == |nested| == |pendingCommands|
      requires forall i, j :: 0 <= i < |nested| && 0 <= j < |nested[i]| ==> |nested[i][j].request.keys| < 0x1_0000_0000
      modifies this
      ensures Abs() == RunFrom(old(Abs()), FlushTrace(globalErr, outcomes, nested, |outcomes|))
      ensures pendingCommands == [] && flushed == old(flushed) + old(pendingCommands) && connected
      ensures forall i :: 0 <= i < |outcomes| ==>
                && old(pendingCommands)[i] < |batches|
                && Outcome(batches[old(pendingCommands)[i]], ["undefined"],
                           if globalErr != 0 then globalErr else outcomes[i])
    {
      hide Inv, Step, Outcome, Round;
      ghost var start := Abs();
      QueueDistinct(start);
      var k := 0;
      while |pendingCommands| > 0
        invariant 0 <= k && k + |pendingCommands| == |outcomes|
        invariant connected && released && Inv(Abs())
        invariant Abs() == RunFrom(start, FlushTrace(globalErr, outcomes, nested, k))
        invariant pendingCommands == start.queue[k..] && flushed == start.flushed + start.queue[..k]
        invariant forall i :: 0 <= i < k ==>
                    start.queue[i] < |batches| && Outcome(batches[start.queue[i]], ["undefined"],
                                                          if globalErr != 0 then globalErr else outcomes[i])
        decreases |pendingCommands|
      {
        var err := if globalErr == SUCCESS then outcomes[k] else globalErr;
        RunConcat(start, FlushTrace(globalErr, outcomes, nested, k), Round(err, nested[k]));
        FlushRound(err, nested[k]);
        k := k + 1;
      }
    }

    /** One round of the loop: the first batch of the queue, and what its callbacks submit. */
    method FlushRound(err: Status, subs: seq<Submission>)
      requires connected && released && Inv(Abs()) && pendingCommands != []
      requires forall i :: 0 <= i < |subs| ==> |subs[i].request.keys| < 0x1_0000_0000
      modifies this
      ensures Abs() == RunFrom(old(Abs()), Round(err, subs)) && Inv(Abs()) && connected && released
      ensures pendingCommands == old(pendingCommands)[1..] && flushed == old(flushed) + old(pendingCommands)[..1]
      ensures old(pendingCommands)[0] < |batches| && |old(batches)| <= |batches|
      ensures Outcome(batches[old(pendingCommands)[0]], ["undefined"], err)
      ensures forall i :: 0 <= i < |old(batches)| && i != old(pendingCommands)[0] ==> batches[i] == old(batches)[i]
    {
      hide Inv, Step, Outcome;
      RunConcat(Abs(), [Flush(err)], Submits(subs));
      FlushFirst(err);
      RunSubmissions(subs);
    }

    /** A configuration event; `handler` is what the connect handler submits. */
    method OnConfig(isNew: bool, handler: seq<Submission>, outcomes: seq<Status>, nested: seq<seq<Submission>>)
      requires Inv(Abs())
      requires |outcomes| == |nested| == |pendingCommands|
      requires forall i :: 0 <= i < |handler| ==> |handler[i].request.keys| < 0x1_0000_0000
      requires forall i, j :: 0 <= i < |nested| && 0 <= j < |nested[i]| ==> |nested[i][j].request.keys| < 0x1_0000_0000
      modifies this
      ensures Abs() == RunFrom(old(Abs()),
                if old(connected) || !isNew then [Configuration(isNew)]
                else [Configuration(isNew)] + Submits(handler) + FlushTrace(SUCCESS, outcomes, nested, |outcomes|))
      ensures !old(connected) && isNew ==> pendingCommands == [] && flushed == old(flushed) + old(pendingCommands)
    {
      hide QueueOk, BatchOk, Execute;
      RunOne(Abs(), Configuration(isNew));
      if connected {
        return;
      }
      if !isNew {
        return;
      }
      ghost var start := Abs();
      StepOk(start, Configuration(isNew));
      assert DoConnect(start, SUCCESS).(released := true) == DoConnect(start.(released := true), SUCCESS);
      released := true;
      OnConnect(SUCCESS, handler);
      RunConcat(start, [Configuration(isNew)], Submits(handler));
      RunConcat(start, [Configuration(isNew)] + Submits(handler), FlushTrace(SUCCESS, outcomes, nested, |outcomes|));
      RunScheduledOperations(SUCCESS, outcomes, nested);
    }
  }

  lemma QueueDistinct(s: Sys)
    requires Inv(s)
    ensures forall i, j :: 0 <= i < j < |s.queue| ==> s.queue[i] != s.queue[j]
  {
    hide BatchOk;
    var all, n := s.flushed + s.queue, |s.flushed|;
    forall i, j | 0 <= i < j < |s.queue| ensures s.queue[i] != s.queue[j] {
      assert all[n + i] == s.queue[i] && all[n + j] == s.queue[j];
    }
  }

  lemma QueuedOutcome(s: Sys, err: Status)
    requires Inv(s) && CanFlush(s)
    ensures Outcome(Execute(s.batches[s.queue[0]], err), ["undefined"], err)
  {
    hide Outcome, Execute, Rising;
    var b := s.batches[s.queue[0]];
    assert s.queue[0] in s.queue && IsDeferred(s, s.queue[0]) && BatchOk(b);
    assert b == NewBatch(b.request, true);
    ExecuteOutcome(b.request, true, err);
  }

  /** In a state that a run can reach, the head of the queue is a batch that can be executed. */
  lemma QueuedIsMade(s: Sys)
    requires Inv(s) && s.released && s.queue != []
    ensures CanFlush(s)
  {
    assert s.queue[0] in s.queue;
  }
}
