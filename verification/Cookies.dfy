/** The cookie of a batch: it counts responses, calls back, and deletes itself. */
module Cookies {
  import opened Common

  /** An unsigned 32-bit counter. */
  type Uint32 = x: int | 0 <= x < 0x1_0000_0000

  type Status = int

  const SUCCESS: Status := 0

  datatype Mode = Single | Spooled

  /** What a successful response carries besides its key: the CAS, or a value. */
  type Payload = Option<int>

  /** A response from the server names its key by its bytes, which may be missing; a cancellation
      names it by the JavaScript value. */
  datatype Info = Wire(key: string, status: Status, payload: Payload) | Cancelled(name: string, status: Status)
  {
    predicate HasKey() { Wire? && key != "" }

    function Key(): string { if Wire? then key else name }

    function Result(): Entry {
      Entry(if Wire? then payload else None, if status == SUCCESS then None else Some(status))
    }
  }

  datatype Entry = Entry(payload: Payload, error: Option<Status>)

  /** A call of the user's callback: for one key; for a whole batch, with a flag for "check the
      results"; or with nothing but an error, when the batch was never made. */
  datatype Call =
    | One(error: Option<Status>, payload: Payload)
    | Whole(check: bool, results: map<string, Entry>)
    | Bail

  /** The cookie's fields, the calls it has made, how often it has been deleted, and whether a deleted
      cookie has been touched. */
  datatype State = State(
    remaining: Uint32,
    mode: Mode,
    hasError: bool,
    isCancelled: bool,
    spooled: map<string, Entry>,
    calls: seq<Call>,
    deletes: nat,
    touchedDead: bool)

  function Fresh(n: Uint32, mode: Mode): State {
    State(n, mode, false, false, map[], [], 0, false)
  }

  function Decrement(x: Uint32): Uint32 {
    if x == 0 then 0xFFFF_FFFF else x - 1
  }

  function CallWhole(c: State): State {
    c.(calls := c.calls + [Whole(c.hasError, c.spooled)])
  }

  /** The branch for a response without a key, which does not return. */
  function Terminate(c: State, info: Info): State {
    if !c.isCancelled && !info.HasKey() && c.mode.Spooled?
    then CallWhole(c).(deletes := c.deletes + 1, touchedDead := true)
    else c
  }

  function Record(c: State, info: Info): State {
    var c1 := if info.status != SUCCESS then c.(hasError := true) else c;
    match c.mode
    case Single => c1.(calls := c1.calls + [One(info.Result().error, info.Result().payload)])
    case Spooled => c1.(spooled := c1.spooled[info.Key() := info.Result()])
  }

  function Finish(c: State): State {
    if c.remaining != 0 then c
    else
      var c1 := if c.mode.Spooled? then CallWhole(c) else c;
      c1.(deletes := c1.deletes + 1)
  }

  /** One response, or one cancelled key. */
  function Mark(c: State, info: Info): State {
    var c1 := c.(remaining := Decrement(c.remaining), touchedDead := c.touchedDead || c.deletes > 0);
    Finish(Record(Terminate(c1, info), info))
  }

  function MarkAll(c: State, infos: seq<Info>): State {
    if infos == [] then c else Mark(MarkAll(c, infos[..|infos| - 1]), infos[|infos| - 1])
  }

  function CancelInfos(err: Status, keys: seq<string>): (infos: seq<Info>)
    ensures |infos| == |keys|
    ensures forall i :: 0 <= i < |keys| ==> infos[i] == Cancelled(keys[i], err)
  {
    seq(|keys|, i requires 0 <= i < |keys| => Cancelled(keys[i], err))
  }

  function Cancel(c: State, err: Status, keys: seq<string>): State {
    MarkAll(c.(isCancelled := true), CancelInfos(err, keys))
  }

  /** The cookie object. */
  class Cookie {
    var remaining: Uint32
    var cbType: Mode
    var hasError: bool
    var isCancelled: bool
    var spooledInfo: map<string, Entry>
    // The world around the cookie: calls made, deletions, and uses after deletion.
    var calls: seq<Call>
    var deletes: nat
    var touchedDead: bool

    function Abs(): State
      reads this
    {
      State(remaining, cbType, hasError, isCancelled, spooledInfo, calls, deletes, touchedDead)
    }

    constructor (numRemaining: Uint32)
      ensures Abs() == Fresh(numRemaining, Single)
    {
      remaining, cbType, hasError, isCancelled := numRemaining, Single, false, false;
      spooledInfo, calls, deletes, touchedDead := map[], [], 0, false;
    }

    method SetCallback(mode: Mode)
      modifies this
      ensures Abs() == old(Abs()).(mode := mode)
    {
      cbType := mode;
    }

    method InvokeSpooledCallback()
      modifies this`calls
      ensures Abs() == CallWhole(old(Abs()))
    {
      calls := calls + [Whole(hasError, spooledInfo)];
    }

    method InvokeSingleCallback(info: Info)
      modifies this`calls
      ensures Abs() == old(Abs()).(calls := old(calls) + [One(info.Result().error, info.Result().payload)])
    {
      calls := calls + [One(info.Result().error, info.Result().payload)];
    }

    method AddSpooledInfo(info: Info)
      modifies this`spooledInfo
      ensures Abs() == old(Abs()).(spooled := old(spooledInfo)[info.Key() := info.Result()])
    {
      spooledInfo := spooledInfo[info.Key() := info.Result()];
    }

    method TerminateOnNull(info: Info)
      modifies this
      ensures Abs() == Terminate(old(Abs()), info) && remaining == old(remaining)
    {
      if !isCancelled && !info.HasKey() {
        if cbType.Spooled? {
          InvokeSpooledCallback();
          deletes := deletes + 1;
          touchedDead := true;  // the caller goes on
        }
      }
    }

    method RecordResult(info: Info)
      modifies this
      ensures Abs() == Record(old(Abs()), info) && remaining == old(remaining)
    {
      if info.status != SUCCESS {
        hasError := true;
      }
      if cbType.Single? {
        InvokeSingleCallback(info);
      } else {
        AddSpooledInfo(info);
      }
    }

    method FinishIfDone()
      modifies this
      ensures Abs() == Finish(old(Abs())) && remaining == old(remaining)
    {
      if remaining == 0 && cbType.Spooled? {
        InvokeSpooledCallback();
      }
      if !(remaining > 0) {
        deletes := deletes + 1;
      }
    }

    /** The four stages of `markProgress`. */
    method MarkProgress(info: Info)
      modifies this
      ensures Abs() == Mark(old(Abs()), info)
      ensures remaining == if old(remaining) == 0 then 0xFFFF_FFFF else old(remaining) - 1
    {
      hide Terminate, Record, Finish;
      touchedDead := touchedDead || deletes > 0;
      remaining := Decrement(remaining);
      TerminateOnNull(info);
      RecordResult(info);
      FinishIfDone();
    }

    method CancelKeys(err: Status, keys: seq<string>)
      modifies this
      ensures Abs() == Cancel(old(Abs()), err, keys)
    {
      isCancelled := true;
      ghost var infos := CancelInfos(err, keys);
      ghost var start := Abs();
      for i := 0 to |keys|
        invariant Abs() == MarkAll(start, infos[..i])
      {
        assert infos[..i + 1][..i] == infos[..i];
        MarkProgress(Cancelled(keys[i], err));
      }
      assert infos[..|keys|] == infos;
    }
  }

  // ---- What a batch's responses amount to ----

  /** Response i is the last one for its key. */
  predicate LastFor(infos: seq<Info>, i: nat) {
    i < |infos| && forall j :: i < j < |infos| ==> infos[j].Key() != infos[i].Key()
  }

  /** The results name exactly the keys answered, each with its last response. */
  ghost predicate ResultsOf(results: map<string, Entry>, infos: seq<Info>) {
    && (forall k :: k in results <==> exists i :: 0 <= i < |infos| && infos[i].Key() == k)
    && (forall i: nat :: LastFor(infos, i) ==>
          infos[i].Key() in results && results[infos[i].Key()] == infos[i].Result())
  }

  predicate AnyFailed(infos: seq<Info>) {
    exists i :: 0 <= i < |infos| && infos[i].status != SUCCESS
  }

  /** One call for each response, in order. */
  predicate OneEach(calls: seq<Call>, infos: seq<Info>) {
    && |calls| == |infos|
    && forall i :: 0 <= i < |infos| ==> calls[i] == One(infos[i].Result().error, infos[i].Result().payload)
  }

  /** The state after some of n answers. */
  ghost predicate Progressed(c: State, n: Uint32, mode: Mode, infos: seq<Info>) {
    && c.mode == mode
    && c.remaining == n - |infos|
    && (c.hasError <==> AnyFailed(infos))
    && (mode.Spooled? ==> ResultsOf(c.spooled, infos))
    && c.deletes == (if |infos| == n then 1 else 0)
    && !c.touchedDead
    && (match mode
        case Single => OneEach(c.calls, infos)
        case Spooled => if |infos| < n then c.calls == [] else c.calls == [Whole(c.hasError, c.spooled)])
  }

  /** The start of a batch: fresh, or just cancelled. */
  predicate Starting(c: State, n: Uint32, mode: Mode) {
    c == Fresh(n, mode) || c == Fresh(n, mode).(isCancelled := true)
  }

  predicate Answerable(c: State, infos: seq<Info>) {
    c.isCancelled || forall i :: 0 <= i < |infos| ==> infos[i].HasKey()
  }

  lemma ResultsMore(results: map<string, Entry>, infos: seq<Info>, info: Info)
    requires ResultsOf(results, infos)
    ensures ResultsOf(results[info.Key() := info.Result()], infos + [info])
  {
    var more, m := infos + [info], results[info.Key() := info.Result()];
    forall k ensures k in m <==> exists i :: 0 <= i < |more| && more[i].Key() == k {
      if k in m {
        if k == info.Key() {
          assert more[|infos|].Key() == k;
        } else {
          var i :| 0 <= i < |infos| && infos[i].Key() == k;
          assert more[i].Key() == k;
        }
      }
    }
    forall i: nat | LastFor(more, i)
      ensures more[i].Key() in m && m[more[i].Key()] == more[i].Result()
    {
      if i < |infos| {
        assert more[|infos|].Key() != more[i].Key();
        forall j | i < j < |infos| ensures infos[j].Key() != infos[i].Key() { assert more[j] == infos[j]; }
        assert LastFor(infos, i);
      }
    }
  }

  lemma FailedMore(infos: seq<Info>, info: Info)
    ensures AnyFailed(infos + [info]) <==> AnyFailed(infos) || info.status != SUCCESS
  {
    var more := infos + [info];
    if AnyFailed(infos) {
      var i :| 0 <= i < |infos| && infos[i].status != SUCCESS;
      assert more[i].status != SUCCESS;
    }
    if info.status != SUCCESS { assert more[|infos|].status != SUCCESS; }
  }

  lemma MarkProgressed(c: State, n: Uint32, mode: Mode, infos: seq<Info>, info: Info)
    requires Progressed(c, n, mode, infos) && |infos| < n
    requires c.isCancelled || info.HasKey()
    ensures Progressed(Mark(c, info), n, mode, infos + [info])
    ensures Mark(c, info).isCancelled == c.isCancelled
  {
    FailedMore(infos, info);
    if mode.Spooled? { ResultsMore(c.spooled, infos, info); }
    hide ResultsOf, AnyFailed;
  }

  lemma StartProgressed(c: State, n: Uint32, mode: Mode)
    requires Starting(c, n, mode) && n > 0
    ensures Progressed(c, n, mode, [])
  {
  }

  /** A cookie for n answers, given some of them, has counted them, made the calls that are due, and
      been deleted just if they are all in. */
  lemma {:induction false} BatchProgress(c: State, n: Uint32, mode: Mode, infos: seq<Info>)
    requires Starting(c, n, mode) && n > 0 && |infos| <= n && Answerable(c, infos)
    ensures Progressed(MarkAll(c, infos), n, mode, infos)
    ensures MarkAll(c, infos).isCancelled == c.isCancelled
  {
    hide Mark, Progressed;
    if infos == [] {
      StartProgressed(c, n, mode);
    } else {
      var k := |infos| - 1;
      BatchProgress(c, n, mode, infos[..k]);
      assert infos[..k] + [infos[k]] == infos;
      MarkProgressed(MarkAll(c, infos[..k]), n, mode, infos[..k], infos[k]);
    }
  }

  lemma {:induction false} LastIndex(infos: seq<Info>, i: nat) returns (l: nat)
    requires i < |infos|
    ensures LastFor(infos, l) && infos[l].Key() == infos[i].Key()
  {
    l := i;
    for j := i + 1 to |infos|
      invariant i <= l < j && infos[l].Key() == infos[i].Key()
      invariant forall m :: l < m < j ==> infos[m].Key() != infos[l].Key()
    {
      if infos[j].Key() == infos[i].Key() { l := j; }
    }
  }

  /** What the callback of a batch is told when it is cancelled by some keys with an error: if it is
      spooled, nothing before all n answers are in. */
  predicate ToldOfCancel(calls: seq<Call>, n: nat, mode: Mode, keys: seq<string>, err: Status) {
    match mode
    case Single => |calls| == |keys| && forall i :: 0 <= i < |calls| ==> calls[i] == One(Some(err), None)
    case Spooled =>
      if |keys| < n then calls == []
      else
        && |calls| == 1 && calls[0].Whole? && calls[0].check
        && (forall k :: k in keys ==> k in calls[0].results)
        && (forall k :: k in calls[0].results ==> k in keys && calls[0].results[k] == Entry(None, Some(err)))
  }

  lemma CancelResults(results: map<string, Entry>, err: Status, keys: seq<string>)
    requires ResultsOf(results, CancelInfos(err, keys)) && err != 0
    ensures forall k :: k in keys ==> k in results
    ensures forall k :: k in results ==> k in keys && results[k] == Entry(None, Some(err))
  {
    var infos := CancelInfos(err, keys);
    forall k | k in keys ensures k in results {
      var i :| 0 <= i < |keys| && keys[i] == k;
      assert infos[i].Key() == k;
    }
    forall k | k in results ensures k in keys && results[k] == Entry(None, Some(err)) {
      var i :| 0 <= i < |infos| && infos[i].Key() == k;
      var l := LastIndex(infos, i);
    }
  }

  lemma CancelExact(n: Uint32, mode: Mode, err: Status, keys: seq<string>)
    requires 0 < |keys| <= n && err != 0
    ensures ToldOfCancel(Cancel(Fresh(n, mode), err, keys).calls, n, mode, keys, err)
  {
    var infos, c := CancelInfos(err, keys), Cancel(Fresh(n, mode), err, keys);
    BatchProgress(Fresh(n, mode).(isCancelled := true), n, mode, infos);
    assert infos[0].status != SUCCESS;
    assert AnyFailed(infos);
    hide MarkAll, AnyFailed, ResultsOf;
    if mode.Spooled? { CancelResults(c.spooled, err, keys); }
  }

  /** Cancelling a fresh batch by its own n keys tells every key, in order, and deletes the cookie
      once. */
  lemma CancelTellsAll(n: Uint32, mode: Mode, err: Status, keys: seq<string>)
    requires n > 0 && |keys| == n
    ensures Progressed(Cancel(Fresh(n, mode), err, keys), n, mode, CancelInfos(err, keys))
  {
    BatchProgress(Fresh(n, mode).(isCancelled := true), n, mode, CancelInfos(err, keys));
  }

  // ---- Responses without a key ----

  lemma MarkKeepsTouched(c: State, info: Info)
    requires c.touchedDead
    ensures Mark(c, info).touchedDead
  {
  }

  lemma {:induction false} DeadStaysTouched(c: State, infos: seq<Info>, i: nat)
    requires i <= |infos| && MarkAll(c, infos[..i]).touchedDead
    ensures MarkAll(c, infos).touchedDead
  {
    hide Terminate, Record, Finish;
    if i == |infos| {
      assert infos[..i] == infos;
    } else {
      assert infos[..|infos| - 1][..i] == infos[..i];
      DeadStaysTouched(c, infos[..|infos| - 1], i);
      MarkKeepsTouched(MarkAll(c, infos[..|infos| - 1]), infos[|infos| - 1]);
    }
  }

  /** A spooled batch is safe, and calls back exactly once, if and only if every one of its n
      responses has a key. */
  lemma KeysExact(n: Uint32, infos: seq<Info>)
    requires n > 0 && |infos| == n
    ensures var c := MarkAll(Fresh(n, Spooled), infos);
            !c.touchedDead && |c.calls| == 1 <==>
            forall i :: 0 <= i < |infos| ==> infos[i].Wire? && infos[i].key != ""
  {
    var c := Fresh(n, Spooled);
    if forall i :: 0 <= i < |infos| ==> infos[i].HasKey() {
      BatchProgress(c, n, Spooled, infos);
    } else {
      var i := FirstKeyless(infos);
      BatchProgress(c, n, Spooled, infos[..i]);
      assert infos[..i + 1][..i] == infos[..i];
      assert MarkAll(c, infos[..i + 1]) == Mark(MarkAll(c, infos[..i]), infos[i]);
      DeadStaysTouched(c, infos, i + 1);
    }
  }

  lemma {:induction false} FirstKeyless(infos: seq<Info>) returns (i: nat)
    requires exists i :: 0 <= i < |infos| && !infos[i].HasKey()
    ensures i < |infos| && !infos[i].HasKey() && forall j :: 0 <= j < i ==> infos[j].HasKey()
  {
    i := 0;
    while infos[i].HasKey()
      invariant i < |infos| && forall j :: 0 <= j < i ==> infos[j].HasKey()
      decreases |infos| - i
    {
      i := i + 1;
    }
  }
}
