/** A connection: batches are refused, queued until the first configuration, executed, answered one
    key at a time, or cancelled. Everything that can happen is an event; a run is any list of events,
    and an event that cannot happen in a state leaves it as it is. */
module Connections {
  import opened Common
  import opened Cookies

  /** An operation as the user asks for it; `parses` says whether all its options, global and of each key,
      could be parsed. */
  datatype Request = Request(keys: seq<string>, mode: Mode, parses: bool)

  /** A batch can be made of options that parse and at least one key, none of them empty. */
  predicate Acceptable(r: Request) {
    r.parses && 0 < |r.keys| < 0x1_0000_0000 && forall i :: 0 <= i < |r.keys| ==> r.keys[i] != ""
  }

  /** Waiting in the queue; handed to the library, with the keys still to be answered; or refused by the
      library and cancelled. */
  datatype Phase = Queued | Executed(pending: multiset<string>) | Failed

  datatype Batch =
    | Refused(request: Request, calls: seq<Call>)
    | Made(request: Request, deferred: bool, phase: Phase, cookie: State, got: seq<Info>)

  datatype Sys = Sys(
    connected: bool,
    released: bool,         // a configuration made the connection, so the queue is being flushed
    queue: seq<nat>,
    batches: seq<Batch>,
    connects: seq<Status>,  // calls of the connect handler
    flushed: seq<nat>,      // batches taken from the queue
    reports: seq<Status>)   // calls of the error handler

  datatype Event =
    | Submit(request: Request, err: Status)
    | Configuration(isNew: bool)
    | Error(err: Status)
    | Report(err: Status)   // the error handler is called, after the connect handler if there was none before
    | Flush(err: Status)
    | Respond(id: nat, info: Info)

  const START := Sys(false, false, [], [], [], [], [])

  function Size(r: Request): Uint32
    requires Acceptable(r)
  {
    |r.keys|
  }

  /** The keys a batch is cancelled by: a deferred batch has lost its own. */
  function KeyList(request: Request, deferred: bool): seq<string> {
    if deferred then ["undefined"] else request.keys
  }

  function Execute(b: Batch, err: Status): Batch
    requires b.Made?
  {
    if err == SUCCESS then b.(phase := Executed(multiset(b.request.keys)))
    else
      var keys := KeyList(b.request, b.deferred);
      b.(phase := Failed, cookie := Cancel(b.cookie, err, keys), got := CancelInfos(err, keys))
  }

  function NewBatch(request: Request, deferred: bool): Batch
    requires Acceptable(request)
  {
    Made(request, deferred, Queued, Fresh(Size(request), request.mode), [])
  }

  function DoSubmit(s: Sys, request: Request, err: Status): Sys {
    if !Acceptable(request) then s.(batches := s.batches + [Refused(request, [Bail])])
    else if !s.connected then
      s.(batches := s.batches + [NewBatch(request, true)], queue := s.queue + [|s.batches|])
    else s.(batches := s.batches + [Execute(NewBatch(request, false), err)])
  }

  function DoConnect(s: Sys, err: Status): Sys {
    if s.connected then s else s.(connected := true, connects := s.connects + [err])
  }

  predicate CanFlush(s: Sys) {
    s.released && s.queue != [] && s.queue[0] < |s.batches| && s.batches[s.queue[0]].Made?
  }

  function DoFlush(s: Sys, err: Status): Sys
    requires CanFlush(s)
  {
    var id := s.queue[0];
    s.(batches := s.batches[id := Execute(s.batches[id], err)], queue := s.queue[1..], flushed := s.flushed + [id])
  }

  /** A response is for a key that is still to be answered. */
  predicate CanRespond(s: Sys, id: nat, info: Info) {
    && id < |s.batches| && s.batches[id].Made? && s.batches[id].phase.Executed?
    && info.Wire? && info.key in s.batches[id].phase.pending
  }

  function Answer(b: Batch, info: Info): Batch
    requires b.Made? && b.phase.Executed?
  {
    b.(phase := Executed(b.phase.pending - multiset{info.Key()}), cookie := Mark(b.cookie, info), got := b.got + [info])
  }

  function Step(s: Sys, e: Event): Sys {
    match e
    case Submit(request, err) => DoSubmit(s, request, err)
    case Configuration(isNew) =>
      if s.connected || !isNew then s else DoConnect(s, SUCCESS).(released := true)
    case Error(err) => DoConnect(s, err)
    case Report(err) => s.(reports := s.reports + [err])
    case Flush(err) => if CanFlush(s) then DoFlush(s, err) else s
    case Respond(id, info) =>
      if CanRespond(s, id, info) then s.(batches := s.batches[id := Answer(s.batches[id], info)]) else s
  }

  function RunFrom(s: Sys, es: seq<Event>): Sys {
    if es == [] then s else Step(RunFrom(s, es[..|es| - 1]), es[|es| - 1])
  }

  function Run(es: seq<Event>): Sys {
    RunFrom(START, es)
  }

  // ---- What every run keeps ----

  function KeysOf(got: seq<Info>): seq<string> {
    if got == [] then [] else KeysOf(got[..|got| - 1]) + [got[|got| - 1].Key()]
  }

  ghost predicate BatchOk(b: Batch) {
    match b
    case Refused(request, calls) => !Acceptable(request) && calls == [Bail]
    case Made(request, deferred, phase, cookie, got) =>
      && Acceptable(request)
      && match phase
         case Queued => deferred && cookie == Fresh(Size(request), request.mode) && got == []
         case Executed(pending) =>
           && cookie == MarkAll(Fresh(Size(request), request.mode), got)
           && (forall i :: 0 <= i < |got| ==> got[i].HasKey())
           && multiset(KeysOf(got)) + pending == multiset(request.keys)
         case Failed =>
           && cookie == MarkAll(Fresh(Size(request), request.mode).(isCancelled := true), got)
           && exists err :: err != SUCCESS && got == CancelInfos(err, KeyList(request, deferred))
  }

  predicate IsDeferred(s: Sys, i: int) {
    0 <= i < |s.batches| && s.batches[i].Made? && s.batches[i].deferred
  }

  predicate Rising(ids: seq<nat>) {
    forall i, j :: 0 <= i < j < |ids| ==> ids[i] < ids[j]
  }

  /** The deferred batches are those flushed and then those queued, in the order of submission. */
  ghost predicate QueueOk(s: Sys) {
    && Rising(s.flushed + s.queue)
    && (forall i: nat :: i in s.flushed + s.queue <==> IsDeferred(s, i))
    && (forall i: nat :: i in s.queue <==> IsDeferred(s, i) && s.batches[i].phase.Queued?)
  }

  ghost predicate Inv(s: Sys) {
    && (forall i :: 0 <= i < |s.batches| ==> BatchOk(s.batches[i]))
    && QueueOk(s)
    && (s.released ==> s.connected)
    && (!s.released ==> s.flushed == [])
    && |s.connects| == (if s.connected then 1 else 0)
  }

  lemma KeysOfLength(got: seq<Info>)
    ensures |KeysOf(got)| == |got|
  {
    if got != [] { KeysOfLength(got[..|got| - 1]); }
  }

  lemma ExecuteOk(b: Batch, err: Status)
    requires BatchOk(b) || (b.Made? && Acceptable(b.request) && b == NewBatch(b.request, b.deferred))
    requires b.Made? && b.phase.Queued?
    ensures BatchOk(Execute(b, err))
  {
    hide MarkAll;
    var keys := KeyList(b.request, b.deferred);
    if err == SUCCESS {
      assert MarkAll(b.cookie, []) == b.cookie by { UnmarkedIsSame(b.cookie); }
    } else {
      assert CancelInfos(err, keys) == Execute(b, err).got;
    }
  }

  lemma UnmarkedIsSame(c: State)
    ensures MarkAll(c, []) == c
  {
  }

  lemma AnswerOk(b: Batch, info: Info)
    requires BatchOk(b) && b.Made? && b.phase.Executed? && info.Wire? && info.key in b.phase.pending
    ensures BatchOk(Answer(b, info))
  {
    hide Mark;
    var more := b.got + [info];
    assert more[..|b.got|] == b.got;
    assert info.key in multiset(b.request.keys);
    assert info.key in b.request.keys;
    assert info.HasKey();
    assert multiset(KeysOf(more)) == multiset(KeysOf(b.got)) + multiset{info.Key()};
  }

  lemma SubmitOk(s: Sys, request: Request, err: Status)
    requires Inv(s)
    ensures Inv(DoSubmit(s, request, err))
  {
    hide BatchOk, Execute;
    var t := DoSubmit(s, request, err);
    var n := |s.batches|;
    NewBatchOk(request, err);
    forall i | 0 <= i < |t.batches| ensures BatchOk(t.batches[i]) {
      if i < n { assert t.batches[i] == s.batches[i]; }
    }
    if Acceptable(request) { ExecuteKeeps(request, err); }
    forall i: nat ensures IsDeferred(t, i) <==> IsDeferred(s, i) || (i == n && Acceptable(request) && !s.connected) { }
    if Acceptable(request) && !s.connected {
      assert t.flushed + t.queue == s.flushed + s.queue + [n];
      forall i | 0 <= i < |s.flushed + s.queue| ensures (s.flushed + s.queue)[i] < n {
        assert (s.flushed + s.queue)[i] in s.flushed + s.queue;
      }
    }
  }

  lemma NewBatchOk(request: Request, err: Status)
    ensures !Acceptable(request) ==> BatchOk(Refused(request, [Bail]))
    ensures Acceptable(request) ==> BatchOk(NewBatch(request, true)) && BatchOk(Execute(NewBatch(request, false), err))
  {
    if Acceptable(request) { ExecuteOk(NewBatch(request, false), err); }
  }

  lemma ExecuteKeeps(request: Request, err: Status)
    requires Acceptable(request)
    ensures var b := Execute(NewBatch(request, false), err); b.Made? && !b.deferred
  {
  }

  lemma FlushOk(s: Sys, err: Status)
    requires Inv(s) && CanFlush(s)
    ensures Inv(DoFlush(s, err))
  {
    var t := DoFlush(s, err);
    var id := s.queue[0];
    assert id in s.queue;
    ExecuteOk(s.batches[id], err);
    assert t.batches[id].Made? && t.batches[id].deferred && !t.batches[id].phase.Queued?;
    hide BatchOk, Execute;
    assert t.flushed + t.queue == s.flushed + s.queue;
    forall i: nat ensures IsDeferred(t, i) <==> IsDeferred(s, i) { }
    forall i: nat ensures i in t.queue <==> i in s.queue && i != id {
      QueueSplit(s, i);
    }
  }

  lemma QueueSplit(s: Sys, i: nat)
    requires Rising(s.flushed + s.queue) && s.queue != []
    ensures i in s.queue[1..] <==> i in s.queue && i != s.queue[0]
  {
    var all, k := s.flushed + s.queue, |s.flushed|;
    if i in s.queue[1..] {
      var j :| 0 <= j < |s.queue| - 1 && s.queue[1..][j] == i;
      assert all[k] == s.queue[0] && all[k + 1 + j] == i;
    }
    if i in s.queue && i != s.queue[0] {
      var j :| 0 <= j < |s.queue| && s.queue[j] == i;
      assert s.queue[1..][j - 1] == i;
    }
  }

  lemma StepOk(s: Sys, e: Event)
    requires Inv(s)
    ensures Inv(Step(s, e))
  {
    match e
    case Submit(request, err) =>
      SubmitOk(s, request, err);
    case Configuration(_) =>
      hide BatchOk;
    case Error(_) =>
      hide BatchOk;
    case Report(_) =>
      hide BatchOk;
    case Flush(err) =>
      if CanFlush(s) { FlushOk(s, err); }
    case Respond(id, info) =>
      if CanRespond(s, id, info) { RespondOk(s, id, info); }
  }

  /** Replacing a batch that is not queued by another such batch does not concern the queue. */
  lemma QueueKeeps(s: Sys, id: nat, b: Batch)
    requires QueueOk(s) && id < |s.batches|
    requires b.Made? && s.batches[id].Made? && b.deferred == s.batches[id].deferred
    requires !b.phase.Queued? && !s.batches[id].phase.Queued?
    ensures QueueOk(s.(batches := s.batches[id := b]))
  {
    hide Rising;
    var t := s.(batches := s.batches[id := b]);
    forall i: nat ensures IsDeferred(t, i) <==> IsDeferred(s, i) { }
    forall i: nat ensures i in t.queue <==> IsDeferred(t, i) && t.batches[i].phase.Queued? { }
  }

  lemma RespondOk(s: Sys, id: nat, info: Info)
    requires Inv(s) && CanRespond(s, id, info)
    ensures Inv(s.(batches := s.batches[id := Answer(s.batches[id], info)]))
  {
    var b := Answer(s.batches[id], info);
    AnswerOk(s.batches[id], info);
    QueueKeeps(s, id, b);
    hide BatchOk, Answer, QueueOk;
  }

  lemma {:induction false} RunOk(es: seq<Event>)
    ensures Inv(Run(es))
  {
    if es != [] {
      hide Inv, Step;
      RunOk(es[..|es| - 1]);
      StepOk(Run(es[..|es| - 1]), es[|es| - 1]);
    }
  }

  // ---- What becomes of one batch ----

  function Calls(b: Batch): seq<Call> {
    match b
    case Refused(_, calls) => calls
    case Made(_, _, _, cookie, _) => cookie.calls
  }

  /** How many times the callback is due: once for a spooled or a refused batch, else once per key. */
  function Due(b: Batch): nat {
    if b.Refused? || b.request.mode.Spooled? then 1 else |b.request.keys|
  }

  /** The callback has been called as often as is due, and the cookie is gone. */
  predicate Told(b: Batch) {
    |Calls(b)| == Due(b) && (b.Made? ==> b.cookie.deletes == 1)
  }

  /** Nothing more will happen to the batch, and it was not a deferred one of several keys that the
      library refused. */
  predicate Over(b: Batch) {
    match b
    case Refused(_, _) => true
    case Made(request, deferred, phase, _, _) =>
      match phase
      case Queued => false
      case Executed(pending) => pending == multiset{}
      case Failed => !deferred || |request.keys| == 1
  }

  lemma AllAnswered(b: Batch)
    requires BatchOk(b) && b.Made? && b.phase.Executed?
    ensures |b.got| <= |b.request.keys|
    ensures |b.got| == |b.request.keys| <==> b.phase.pending == multiset{}
  {
    KeysOfLength(b.got);
    assert |multiset(KeysOf(b.got)) + b.phase.pending| == |multiset(b.request.keys)|;
  }

  /** A batch's responses are within its size, and the cookie stands accordingly. */
  lemma BatchStands(b: Batch)
    requires BatchOk(b) && b.Made?
    ensures |b.got| <= |b.request.keys|
    ensures Progressed(b.cookie, Size(b.request), b.request.mode, b.got)
    ensures |b.got| == |b.request.keys| <==> Over(b)
  {
    hide MarkAll, Progressed;
    var c0 := Fresh(Size(b.request), b.request.mode);
    match b.phase
    case Queued =>
      UnmarkedIsSame(b.cookie);
      BatchProgress(c0, Size(b.request), b.request.mode, b.got);
    case Executed(_) =>
      AllAnswered(b);
      BatchProgress(c0, Size(b.request), b.request.mode, b.got);
    case Failed =>
      BatchProgress(c0.(isCancelled := true), Size(b.request), b.request.mode, b.got);
  }

  /** In every run, no batch is called back more than is due, no cookie is deleted twice or touched
      after it was deleted, and a batch has been told exactly if it is over. */
  lemma BatchFate(es: seq<Event>, i: nat)
    requires i < |Run(es).batches|
    ensures var b := Run(es).batches[i];
            && |Calls(b)| <= Due(b)
            && (Told(b) <==> Over(b))
            && (b.Made? ==> !b.cookie.touchedDead && b.cookie.deletes == (if b.cookie.remaining == 0 then 1 else 0))
            && (b.Made? ==> b.cookie.remaining + |b.got| == |b.request.keys|)
  {
    RunOk(es);
    hide RunFrom, QueueOk;
    var b := Run(es).batches[i];
    if b.Made? {
      BatchStands(b);
      hide BatchOk, ResultsOf, AnyFailed;
    }
  }

  predicate SameKeys(results: map<string, Entry>, keys: seq<string>) {
    (forall k :: k in results ==> k in keys) && (forall k :: k in keys ==> k in results)
  }

  lemma {:induction false} KeysOfMember(got: seq<Info>, k: string)
    ensures k in KeysOf(got) <==> exists i :: 0 <= i < |got| && got[i].Key() == k
  {
    if got != [] {
      var n := |got| - 1;
      KeysOfMember(got[..n], k);
      if k in KeysOf(got[..n]) { var i :| 0 <= i < n && got[..n][i].Key() == k; assert got[i].Key() == k; }
      assert got[n].Key() == KeysOf(got)[|KeysOf(got)| - 1];
    }
  }

  /** The one call of a spooled batch that was executed, or cancelled at once: it names exactly the
      requested keys, each with its last response, and says "check the results" exactly if some
      response failed. A deferred batch of one key that the library refuses is called back too, but
      under the name "undefined". */
  lemma SpooledCall(es: seq<Event>, i: nat)
    requires i < |Run(es).batches|
    requires var b := Run(es).batches[i]; b.Made? && b.request.mode.Spooled? && Over(b)
    ensures var b := Run(es).batches[i];
            && |b.cookie.calls| == 1 && b.cookie.calls[0].Whole?
            && var call := b.cookie.calls[0];
               && (call.check <==> AnyFailed(b.got))
               && ResultsOf(call.results, b.got)
               && SameKeys(call.results, if b.phase.Failed? then KeyList(b.request, b.deferred) else b.request.keys)
  {
    RunOk(es);
    hide RunFrom, QueueOk;
    var b := Run(es).batches[i];
    BatchStands(b);
    hide BatchOk, AnyFailed, ResultsOf, SameKeys;
    ResultKeys(b, b.cookie.calls[0].results);
  }

  /** A batch that is not spooled is called back once for each response, in the order of arrival. */
  lemma SingleCalls(es: seq<Event>, i: nat)
    requires i < |Run(es).batches|
    requires var b := Run(es).batches[i]; b.Made? && b.request.mode.Single?
    ensures var b := Run(es).batches[i];
            && OneEach(b.cookie.calls, b.got)
            && (b.phase.Executed? ==> multiset(KeysOf(b.got)) + b.phase.pending == multiset(b.request.keys))
  {
    RunOk(es);
    hide RunFrom, QueueOk;
    BatchStands(Run(es).batches[i]);
  }

  lemma ResultKeys(b: Batch, results: map<string, Entry>)
    requires BatchOk(b) && b.Made? && Over(b) && ResultsOf(results, b.got)
    ensures SameKeys(results, if b.phase.Failed? then KeyList(b.request, b.deferred) else b.request.keys)
  {
    hide MarkAll, Acceptable;
    if b.phase.Executed? {
      forall k ensures k in results <==> k in b.request.keys {
        KeysOfMember(b.got, k);
        assert k in multiset(KeysOf(b.got)) <==> k in multiset(b.request.keys);
      }
    } else {
      var keys := KeyList(b.request, b.deferred);
      forall k ensures k in results <==> k in keys {
        if k in keys { var j :| 0 <= j < |keys| && keys[j] == k; assert b.got[j].Key() == k; }
      }
    }
  }

  // ---- What becomes of a whole run ----

  datatype Edge = Unconnected | ByConfiguration | ByError(err: Status)

  /** What connected the connection: the first error or new configuration. */
  function EdgeOf(es: seq<Event>): Edge {
    if es == [] then Unconnected
    else
      var before := EdgeOf(es[..|es| - 1]);
      if before != Unconnected then before
      else match es[|es| - 1]
           case Configuration(isNew) => if isNew then ByConfiguration else Unconnected
           case Error(err) => ByError(err)
           case _ => Unconnected
  }

  /** Some batch was accepted while there was no connection. */
  ghost predicate EarlySubmit(es: seq<Event>) {
    exists i :: 0 <= i < |es| && EarlyAt(es, i)
  }

  predicate EarlyAt(es: seq<Event>, i: nat)
    requires i < |es|
  {
    es[i].Submit? && Acceptable(es[i].request) && EdgeOf(es[..i]) == Unconnected
  }

  ghost predicate HasDeferred(s: Sys) {
    exists i: nat :: IsDeferred(s, i)
  }

  /** The connect handler is called at most once, with the outcome of the first of the events that
      connect; the queue is released exactly when that was a configuration. */
  lemma {:induction false} ConnectExact(es: seq<Event>)
    ensures var s := Run(es);
            match EdgeOf(es)
            case Unconnected => !s.connected && !s.released && s.connects == []
            case ByConfiguration => s.connected && s.released && s.connects == [SUCCESS]
            case ByError(err) => s.connected && !s.released && s.connects == [err]
  {
    if es != [] {
      hide Execute, CanRespond, CanFlush, Acceptable;
      ConnectExact(es[..|es| - 1]);
    }
  }

  /** The number given to the batch that event j submits. */
  function Number(es: seq<Event>, j: nat): nat
    requires j <= |es|
  {
    |Run(es[..j]).batches|
  }

  /** What becomes of a batch does not change what it was. */
  predicate SameBatch(b: Batch, c: Batch) {
    b.request == c.request && (b.Refused? <==> c.Refused?) && (b.Made? && c.Made? ==> b.deferred == c.deferred)
  }

  lemma StepKeeps(s: Sys, e: Event)
    ensures |Step(s, e).batches| == |s.batches| + if e.Submit? then 1 else 0
    ensures forall i :: 0 <= i < |s.batches| ==> SameBatch(s.batches[i], Step(s, e).batches[i])
  {
    hide Acceptable, Cancel, Mark;
  }

  lemma {:induction false} RunKeeps(es: seq<Event>, j: nat)
    requires j <= |es|
    ensures Number(es, j) <= |Run(es).batches|
    ensures forall i :: 0 <= i < Number(es, j) ==> SameBatch(Run(es[..j]).batches[i], Run(es).batches[i])
  {
    hide Step;
    if j == |es| {
      assert es[..j] == es;
    } else {
      var before := es[..|es| - 1];
      assert before[..j] == es[..j];
      RunKeeps(before, j);
      StepKeeps(Run(before), es[|es| - 1]);
    }
  }

  /** Every submission makes one batch, which keeps its number and its request; the batch is refused at
      once exactly if it is not acceptable, and deferred exactly if it is and nothing has connected
      before. */
  lemma DeferredExact(es: seq<Event>, j: nat)
    requires j < |es| && es[j].Submit?
    ensures var i := Number(es, j);
            && i < |Run(es).batches| && Run(es).batches[i].request == es[j].request
            && (Run(es).batches[i].Refused? <==> !Acceptable(es[j].request))
            && (IsDeferred(Run(es), i) <==> Acceptable(es[j].request) && EdgeOf(es[..j]) == Unconnected)
  {
    hide EdgeOf, Acceptable, Cancel, Mark, RunFrom;
    assert es[..j + 1][..j] == es[..j];
    assert Run(es[..j + 1]) == Step(Run(es[..j]), es[j]) by { RunLast(es[..j + 1]); }
    ConnectExact(es[..j]);
    RunKeeps(es, j + 1);
    assert SameBatch(Run(es[..j + 1]).batches[Number(es, j)], Run(es).batches[Number(es, j)]);
  }

  /** Every batch was made by a submission. */
  lemma {:induction false} MadeBySubmit(es: seq<Event>, i: nat) returns (j: nat)
    requires i < |Run(es).batches|
    ensures j < |es| && es[j].Submit? && Number(es, j) == i
  {
    hide Step;
    var n := |es| - 1;
    StepKeeps(Run(es[..n]), es[n]);
    if i < |Run(es[..n]).batches| {
      j := MadeBySubmit(es[..n], i);
      assert es[..n][..j] == es[..j];
    } else {
      j := n;
    }
  }

  lemma {:induction false} SomeDeferred(es: seq<Event>)
    ensures HasDeferred(Run(es)) <==> EarlySubmit(es)
  {
    if es != [] {
      var n := |es| - 1;
      var before := es[..n];
      SomeDeferred(before);
      ConnectExact(before);
      EarlySplits(es);
      DeferredStep(Run(before), es[n]);
      hide RunFrom, Step, HasDeferred, EarlySubmit;
      assert Run(es) == Step(Run(before), es[n]) by { RunLast(es); }
    }
  }

  lemma RunLast(es: seq<Event>)
    requires es != []
    ensures Run(es) == Step(Run(es[..|es| - 1]), es[|es| - 1])
  {
  }

  lemma EarlySplits(es: seq<Event>)
    requires es != []
    ensures EarlySubmit(es) <==> EarlySubmit(es[..|es| - 1]) || EarlyAt(es, |es| - 1)
  {
    var n := |es| - 1;
    var before := es[..n];
    forall i | 0 <= i < n ensures EarlyAt(before, i) <==> EarlyAt(es, i) { assert before[..i] == es[..i]; }
  }

  lemma DeferredStep(s: Sys, e: Event)
    ensures HasDeferred(Step(s, e)) <==>
            HasDeferred(s) || (e.Submit? && Acceptable(e.request) && !s.connected)
  {
    var t := Step(s, e);
    hide Acceptable;
    forall i: nat | i < |s.batches| ensures IsDeferred(t, i) <==> IsDeferred(s, i) { }
    if e.Submit? && Acceptable(e.request) && !s.connected { assert IsDeferred(t, |s.batches|); }
    forall i: nat | IsDeferred(t, i) ensures i < |s.batches| || (e.Submit? && Acceptable(e.request) && !s.connected) { }
  }

  /** Nothing is left to happen: every executed batch is answered, and a released queue is empty. */
  ghost predicate Quiet(s: Sys) {
    && (s.released ==> s.queue == [])
    && forall i :: 0 <= i < |s.batches| && s.batches[i].Made? && s.batches[i].phase.Executed? ==>
         s.batches[i].phase.pending == multiset{}
  }

  /** A batch of several keys that was deferred and then refused by the library. */
  predicate Stranded(b: Batch) {
    b.Made? && b.phase.Failed? && b.deferred && |b.request.keys| != 1
  }

  /** Event j takes batch i from the queue, and the library refuses it. */
  predicate RefusesAt(es: seq<Event>, j: nat, i: nat)
    requires j < |es|
  {
    es[j].Flush? && es[j].err != SUCCESS && CanFlush(Run(es[..j])) && Run(es[..j]).queue[0] == i
  }

  /** Event m submits an operation on several keys before the connection is made, and the library
      refuses it when it is flushed by event j. */
  predicate RefusedLate(es: seq<Event>, m: nat, j: nat) {
    m < j < |es| && EarlyAt(es, m) && |es[m].request.keys| != 1 && RefusesAt(es, j, Number(es, m))
  }

  lemma StepStrands(s: Sys, e: Event, i: nat)
    requires Inv(s) && i < |Step(s, e).batches|
    ensures Stranded(Step(s, e).batches[i]) <==>
            i < |s.batches| &&
            (Stranded(s.batches[i]) ||
             (e.Flush? && e.err != SUCCESS && CanFlush(s) && s.queue[0] == i && |s.batches[i].request.keys| != 1))
  {
    hide Cancel, Mark, Acceptable, BatchOk, Rising;
    if CanFlush(s) { assert s.queue[0] in s.queue && IsDeferred(s, s.queue[0]); }
  }

  lemma FlushesMade(s: Sys)
    ensures CanFlush(s) ==> s.queue != [] && s.queue[0] < |s.batches|
  {
  }

  lemma {:induction false} StrandedByFlush(es: seq<Event>, i: nat)
    requires i < |Run(es).batches|
    ensures Stranded(Run(es).batches[i]) <==>
            |Run(es).batches[i].request.keys| != 1 && exists j: nat :: j < |es| && RefusesAt(es, j, i)
  {
    var n := |es| - 1;
    var before := es[..n];
    RunOk(before);
    StepKeeps(Run(before), es[n]);
    StepStrands(Run(before), es[n], i);
    forall j: nat | j < n ensures RefusesAt(es, j, i) <==> RefusesAt(before, j, i) { assert before[..j] == es[..j]; }
    RunLast(es);
    hide Stranded, Step, Inv, RunFrom, CanFlush;
    if i < |Run(before).batches| {
      StrandedByFlush(before, i);
      var here := RefusesAt(es, n, i);
      assert (exists j: nat :: j < |es| && RefusesAt(es, j, i)) <==>
             here || exists j: nat :: j < n && RefusesAt(before, j, i);
      assert SameBatch(Run(before).batches[i], Run(es).batches[i]);
    } else {
      forall j: nat | j <= n ensures !RefusesAt(es, j, i) {
        RunKeeps(before, j);
        assert before[..j] == es[..j];
        FlushesMade(Run(before[..j]));
      }
    }
  }

  lemma RefusedLateExact(es: seq<Event>)
    ensures (exists i :: 0 <= i < |Run(es).batches| && Stranded(Run(es).batches[i])) <==>
            (exists m: nat, j: nat :: RefusedLate(es, m, j))
  {
    hide RunFrom, Stranded, EdgeOf, Acceptable;
    forall i: nat | i < |Run(es).batches|
      ensures Stranded(Run(es).batches[i]) ==> exists m: nat, j: nat :: RefusedLate(es, m, j)
    {
      StrandedByFlush(es, i);
      if Stranded(Run(es).batches[i]) {
        var j: nat :| j < |es| && RefusesAt(es, j, i);
        var m := FlushedWasEarly(es, j);
        DeferredExact(es, m);
        assert RefusedLate(es, m, j);
      }
    }
    forall m: nat, j: nat | RefusedLate(es, m, j)
      ensures exists i :: 0 <= i < |Run(es).batches| && Stranded(Run(es).batches[i])
    {
      DeferredExact(es, m);
      StrandedByFlush(es, Number(es, m));
    }
  }

  /** A flush takes a batch that was submitted before it, early. */
  lemma FlushedWasEarly(es: seq<Event>, j: nat) returns (m: nat)
    requires j < |es| && CanFlush(Run(es[..j]))
    ensures m < j && EarlyAt(es, m) && Number(es, m) == Run(es[..j]).queue[0]
  {
    hide RunFrom, EdgeOf, Acceptable, BatchOk, Rising;
    var before := es[..j];
    var s := Run(before);
    RunOk(before);
    assert s.queue[0] in s.queue && IsDeferred(s, s.queue[0]);
    m := MadeBySubmit(before, s.queue[0]);
    DeferredExact(before, m);
    assert before[..m] == es[..m];
  }

  /** When nothing is left to happen, every batch of the run has been told, as often as is due, if and
      only if no batch was submitted early to a connection that was then not made by a configuration,
      and no batch of several keys that was submitted early was refused by the library when it was
      flushed. */
  lemma AllToldExact(es: seq<Event>)
    requires Quiet(Run(es))
    ensures var s := Run(es);
            (forall i :: 0 <= i < |s.batches| ==> Told(s.batches[i])) <==>
            (EarlySubmit(es) ==> EdgeOf(es) == ByConfiguration) && !exists m: nat, j: nat :: RefusedLate(es, m, j)
  {
    var s := Run(es);
    RunOk(es);
    ConnectExact(es);
    SomeDeferred(es);
    RefusedLateExact(es);
    forall i | 0 <= i < |s.batches| ensures Told(s.batches[i]) <==> Over(s.batches[i]) { BatchFate(es, i); }
    hide RunFrom, EarlySubmit, EdgeOf, Told, Acceptable, RefusedLate;
    forall i | 0 <= i < |s.batches|
      ensures Over(s.batches[i]) <==> i !in s.queue && !Stranded(s.batches[i])
    {
      assert BatchOk(s.batches[i]);
    }
    if s.queue != [] { assert s.queue[0] in s.queue && s.queue[0] < |s.batches|; }
    if HasDeferred(s) && EdgeOf(es) != ByConfiguration {
      var i: nat :| IsDeferred(s, i);
      assert i in s.flushed + s.queue;
      assert i in s.queue;
    }
    if s.queue != [] && EarlySubmit(es) {
      assert EdgeOf(es) != ByConfiguration;
    }
    if s.queue != [] { assert IsDeferred(s, s.queue[0]); }
  }

  /** Once a configuration has released the queue and it is empty, exactly the batches submitted before
      it that were acceptable have been executed, once each and in the order of submission. */
  lemma FlushExact(es: seq<Event>)
    requires EdgeOf(es) == ByConfiguration && Run(es).queue == []
    ensures var s := Run(es);
            && (forall i, j :: 0 <= i < j < |s.flushed| ==> s.flushed[i] < s.flushed[j])
            && (forall i: nat :: i in s.flushed <==> exists j: nat :: j < |es| && EarlyAt(es, j) && Number(es, j) == i)
            && (forall i: nat :: i in s.flushed ==>
                  i < |s.batches| && s.batches[i].Made? && !s.batches[i].phase.Queued?)
  {
    RunOk(es);
    hide RunFrom, BatchOk, EdgeOf, Acceptable;
    var s := Run(es);
    assert s.flushed + s.queue == s.flushed;
    forall i: nat ensures i in s.flushed <==> exists j: nat :: j < |es| && EarlyAt(es, j) && Number(es, j) == i {
      if i in s.flushed {
        var j := MadeBySubmit(es, i);
        DeferredExact(es, j);
        assert EarlyAt(es, j);
      }
      forall j: nat | j < |es| && EarlyAt(es, j) && Number(es, j) == i ensures i in s.flushed {
        DeferredExact(es, j);
      }
    }
  }

  /** An error before the first configuration leaves the queue for ever: whatever follows, no batch
      leaves it. */
  lemma {:induction false} ErrorStrandsQueue(es: seq<Event>, later: seq<Event>)
    requires EdgeOf(es).ByError?
    ensures Run(es + later).queue == Run(es).queue && EdgeOf(es + later) == EdgeOf(es)
  {
    if later == [] {
      assert es + later == es;
    } else {
      var n := |later| - 1;
      ErrorStrandsQueue(es, later[..n]);
      assert (es + later)[..|es + later| - 1] == es + later[..n];
      ConnectExact(es + later[..n]);
      hide Execute, Acceptable;
      RunLast(es + later);
    }
  }
}
