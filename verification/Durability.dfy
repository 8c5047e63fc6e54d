/** Durability requirements on a spooled operation: if there are any, its callback is intercepted, the
    keys it stored are handed to a second operation, and the errors of both are merged for the user. */
module Durability {
  import opened Common
  import opened Cookies
  import opened Connections
  import O = Options

  type Results = map<string, Entry>

  /** A call of the user's callback. A refused operation has no results. */
  datatype UserCall = UserCall(error: bool, results: Option<Results>)

  /** What the second operation is asked for: the keys without an error, each with its own CAS. */
  function Endured(results: Results): map<string, Payload> {
    map k | k in results && results[k].error.None? :: results[k].payload
  }

  /** The errors of the second operation written over the entries of the first. */
  function Merged(results: Results, endured: Results): Results {
    map k | k in results ::
      if k in endured && endured[k].error.Some? then results[k].(error := endured[k].error) else results[k]
  }

  /** The error flag of a call, and its results if it has any. */
  function Flag(call: Call): bool {
    call.Whole? ==> call.check
  }

  function ResultsOrNone(call: Call): Option<Results> {
    if call.Whole? then Some(call.results) else None
  }

  /** The inner callback, after a call of the outer one. */
  function OnEndured(store: Call, endure: Call): UserCall {
    match ResultsOrNone(store)
    case None => UserCall(Flag(store) || Flag(endure), None)
    case Some(results) =>
      UserCall(Flag(store) || Flag(endure), Some(if endure.Whole? then Merged(results, endure.results) else results))
  }

  /** All calls of an intercepted callback: each call of the first operation's callback starts a second
      operation, and each call of that one's callback calls the user. */
  function UserCalls(store: seq<Call>, endure: seq<Call>): seq<UserCall> {
    if store == [] then []
    else UserCalls(store[..|store| - 1], endure) + InnerCalls(store[|store| - 1], endure)
  }

  function InnerCalls(store: Call, endure: seq<Call>): seq<UserCall> {
    if endure == [] then []
    else InnerCalls(store, endure[..|endure| - 1]) + [OnEndured(store, endure[|endure| - 1])]
  }

  /** The results that the callback of a spooled batch was given. */
  function ResultsIn(b: Batch): Results {
    if |Calls(b)| == 1 && Calls(b)[0].Whole? then Calls(b)[0].results else map[]
  }

  predicate Distinct(keys: seq<string>) {
    forall i, j :: 0 <= i < j < |keys| ==> keys[i] != keys[j]
  }

  /** The options given with the first operation. */
  type Given = map<string, O.Value>

  /** A property of an object; a missing one is undefined. */
  function Property(given: Given, name: string): O.Value {
    if name in given then given[name] else O.Undefined
  }

  /** The callback is intercepted if a durability option is true. */
  predicate Intercepted(given: Given) {
    O.IsTrue(Property(given, O.PERSIST_TO)) || O.IsTrue(Property(given, O.REPLICATE_TO))
  }

  /** The options passed on to the second operation. */
  function PassedOn(given: Given, isDelete: bool): O.Value {
    O.Obj(map[O.PERSIST_TO := Property(given, O.PERSIST_TO), O.REPLICATE_TO := Property(given, O.REPLICATE_TO),
              O.SPOOLED := Property(given, O.SPOOLED), O.IS_DELETE := O.Bool(isDelete)])
  }

  /** The second operation parses a durability option that is a false value, or a number of 32 bits. */
  predicate Parses(v: O.Value) {
    v in [O.Undefined, O.Null, O.Bool(false)] || (v.Num? && -0x8000_0000 <= v.i < 0x8000_0000)
  }

  /** The second operation parses the two options just if each of the user's does; it is spooled just if
      the user's option is on, and for deletions just if the caller says so. */
  lemma PassedOnExact(given: Given, isDelete: bool)
    ensures var dict := Some(PassedOn(given, isDelete));
            && (O.DurabilityOk(dict) <==>
                  Parses(Property(given, "persist_to")) && Parses(Property(given, "replicate_to")))
            && (O.IsOn(dict, "spooled") <==> O.IsTrue(Property(given, "spooled")))
            && (O.IsOn(dict, "is_delete") <==> isDelete)
  {
    hide Property;
    var dict := PassedOn(given, isDelete);
    assert O.TIMEOUT !in dict.props;
  }

  /** What the library is asked for: on how many servers the values are to be persisted and replicated,
      or deleted; and whether fewer will do if there are not so many. */
  datatype Asked = Asked(persistTo: int, replicateTo: int, checkDelete: bool, capMax: bool)

  /** A number that the user gives, else zero. */
  function Number(given: Given, name: string): int {
    if name in given && given[name].Num? then given[name].i else 0
  }

  /** The second operation's own options, parsed from what is passed on: it asks for just what the user
      gave under each name. */
  method AskEndure(given: Given, isDelete: bool) returns (asked: Option<Asked>)
    ensures asked.Some? <==> Parses(Property(given, "persist_to")) && Parses(Property(given, "replicate_to"))
    ensures asked.Some? ==>
              var persistTo, replicateTo := Number(given, "persist_to"), Number(given, "replicate_to");
              asked.value == Asked(persistTo, replicateTo, isDelete, persistTo < 1 || replicateTo < 1)
  {
    PassedOnExact(given, isDelete);
    var options := new O.DurabilityOptions();
    var dict := Some(PassedOn(given, isDelete));
    var ok := options.ParseObject(dict);
    if !ok {
      return None;
    }
    var capMax := options.persistTo.v < 1 || options.replicateTo.v < 1;
    return Some(Asked(options.persistTo.v, options.replicateTo.v, options.isDelete, capMax));
  }

  /** The second operation that the interceptor starts on an open connection, when it is over. Its keys
      are the property names of an object; it is refused if there is none, or if its options do not
      parse. */
  ghost predicate EndureBatch(given: Given, isDelete: bool, b: Batch, results: Results) {
    && BatchOk(b) && Over(b) && (b.Made? ==> !b.deferred)
    && (b.request.mode.Spooled? <==> O.IsOn(Some(PassedOn(given, isDelete)), O.SPOOLED))
    && (b.request.parses <==> O.DurabilityOk(Some(PassedOn(given, isDelete))))
    && SameElements(b.request.keys, Endured(results).Keys)
    && Distinct(b.request.keys) && |b.request.keys| < 0x1_0000_0000
  }

  /** So it is spooled like the first. */
  lemma EndureFinished(given: Given, isDelete: bool, b: Batch, results: Results)
    requires EndureBatch(given, isDelete, b, results) && O.IsTrue(Property(given, "spooled"))
    ensures Finished(b)
  {
    PassedOnExact(given, isDelete);
    hide BatchOk, Over;
  }

  /** A spooled operation with these options, and the second operation if there is one, when both are
      over. */
  ghost predicate Composed(given: Given, isDelete: bool, store: Batch, endure: Option<Batch>) {
    && Finished(store) && O.IsTrue(Property(given, "spooled"))
    && (endure.Some? <==> Intercepted(given))
    && (endure.Some? ==> EndureBatch(given, isDelete, endure.value, ResultsIn(store)))
  }

  /** The call of the user's callback if it is not intercepted. */
  function Direct(store: Call): UserCall {
    UserCall(Flag(store), ResultsOrNone(store))
  }

  /** All calls of the user's callback. */
  function Seen(store: Batch, endure: Option<Batch>): seq<UserCall> {
    match endure
    case None => seq(|Calls(store)|, i requires 0 <= i < |Calls(store)| => Direct(Calls(store)[i]))
    case Some(b) => UserCalls(Calls(store), Calls(b))
  }

  predicate SameElements(keys: seq<string>, s: set<string>) {
    (forall k :: k in keys ==> k in s) && (forall k :: k in s ==> k in keys)
  }

  class ResultTable {
    var m: Results

    constructor (m: Results)
      ensures this.m == m
    {
      this.m := m;
    }
  }

  method CollectEndured(results: ResultTable) returns (kv: map<string, Payload>)
    ensures kv == Endured(results.m)
  {
    kv := map[];
    var todo := results.m.Keys;
    while todo != {}
      invariant todo <= results.m.Keys
      invariant kv == map k | k in results.m && k !in todo && results.m[k].error.None? :: results.m[k].payload
      decreases |todo|
    {
      var k :| k in todo;
      if results.m[k].error.None? {
        kv := kv[k := results.m[k].payload];
      }
      todo := todo - {k};
    }
  }

  method MergeErrors(results: ResultTable, endured: Results)
    requires endured.Keys <= results.m.Keys
    modifies results
    ensures results.m == Merged(old(results.m), endured)
  {
    var todo := endured.Keys;
    ghost var was := results.m;
    while todo != {}
      invariant todo <= endured.Keys
      invariant results.m == map k | k in was ::
                  if k in endured && k !in todo && endured[k].error.Some? then was[k].(error := endured[k].error)
                  else was[k]
      decreases |todo|
    {
      var k :| k in todo;
      if endured[k].error.Some? {
        results.m := results.m[k := results.m[k].(error := endured[k].error)];
      }
      todo := todo - {k};
    }
  }

  // ---- The composition ----

  /** A spooled batch for which nothing more will happen. */
  ghost predicate Finished(b: Batch) {
    BatchOk(b) && Over(b) && b.request.mode.Spooled?
  }

  lemma FinishedCalls(b: Batch)
    requires Finished(b)
    ensures |Calls(b)| == 1
    ensures b.Refused? ==> Calls(b) == [Bail]
    ensures b.Made? ==> Calls(b) == [Whole(b.cookie.hasError, ResultsIn(b))]
    ensures b.Made? ==> (b.cookie.hasError <==> AnyFailed(b.got)) && ResultsOf(ResultsIn(b), b.got)
  {
    if b.Made? {
      BatchStands(b);
      hide BatchOk, ResultsOf, AnyFailed;
    }
  }

  lemma OneCall(store: Call, endure: Call)
    ensures UserCalls([store], [endure]) == [OnEndured(store, endure)]
  {
    assert [store][..0] == [] && [endure][..0] == [];
    assert UserCalls([store][..0], [endure]) == [] && InnerCalls(store, [endure][..0]) == [];
  }

  /** The last response of a batch for a key failed. */
  predicate FailedFor(b: Batch, k: string) {
    b.Made? && exists i: nat :: i < |b.got| && FailedAt(b.got, i, k)
  }

  predicate FailedAt(got: seq<Info>, i: nat, k: string) {
    LastFor(got, i) && got[i].Key() == k && got[i].status != SUCCESS
  }

  /** The entry for a key has an error just if its last response failed. */
  lemma FailedForExact(b: Batch, results: Results, k: string)
    requires b.Made? && ResultsOf(results, b.got)
    ensures FailedFor(b, k) <==> k in results && results[k].error.Some?
    ensures FailedFor(b, k) ==> AnyFailed(b.got)
  {
    if k in results {
      var i :| 0 <= i < |b.got| && b.got[i].Key() == k;
      var l := LastIndex(b.got, i);
      assert results[k] == b.got[l].Result();
      assert FailedAt(b.got, l, k) <==> results[k].error.Some?;
      if FailedFor(b, k) {
        var j: nat :| j < |b.got| && FailedAt(b.got, j, k);
        assert l == j;
      }
    }
  }

  lemma RefusedFails(b: Batch, k: string)
    requires b.Refused?
    ensures !FailedFor(b, k)
  {
  }

  /** The second operation failed for the key, if there was one. */
  predicate EndureFailedFor(endure: Option<Batch>, k: string) {
    endure.Some? && FailedFor(endure.value, k)
  }

  /** The second operation answers for exactly the keys it was asked for. */
  lemma EnduredKeys(given: Given, isDelete: bool, endure: Batch, results: Results)
    requires EndureBatch(given, isDelete, endure, results) && endure.Made? && O.IsTrue(Property(given, "spooled"))
    ensures Finished(endure) && ResultsIn(endure).Keys == Endured(results).Keys
  {
    EndureFinished(given, isDelete, endure, results);
    FinishedCalls(endure);
    ResultKeys(endure, ResultsIn(endure));
    hide BatchOk, ResultsOf, AnyFailed;
  }

  lemma MergeEntry(results: Results, endured: Results, k: string)
    requires endured.Keys == Endured(results).Keys && k in results
    ensures var m := Merged(results, endured);
            && k in m
            && m[k].payload == results[k].payload
            && (m[k].error.Some? <==> results[k].error.Some? || (k in endured && endured[k].error.Some?))
            && (results[k].error.Some? ==> m[k] == results[k] && k !in endured)
            && (k in endured && endured[k].error.Some? ==> m[k].error == endured[k].error)
  {
  }

  /** The keys endured are exactly those whose store succeeded, each with the CAS of that store. */
  lemma EnduredExact(store: Batch, i: nat)
    requires Finished(store) && store.Made? && LastFor(store.got, i)
    ensures var info, kv := store.got[i], Endured(ResultsIn(store));
            && (info.Key() in kv <==> info.status == 0)
            && (info.Key() in kv && info.Wire? ==> kv[info.Key()] == info.payload)
  {
    FinishedCalls(store);
    hide BatchOk, Over, AnyFailed;
  }

  /** Whatever the operations come to, refused ones included, the user is called back exactly once. */
  lemma CalledOnce(given: Given, isDelete: bool, store: Batch, endure: Option<Batch>)
    requires Composed(given, isDelete, store, endure)
    ensures |Calls(store)| == 1 && (endure.Some? ==> |Calls(endure.value)| == 1)
    ensures Seen(store, endure) ==
            [if endure.None? then Direct(Calls(store)[0]) else OnEndured(Calls(store)[0], Calls(endure.value)[0])]
  {
    FinishedCalls(store);
    hide BatchOk, Over, Calls;
    assert Calls(store) == [Calls(store)[0]];
    if endure.Some? {
      EndureFinished(given, isDelete, endure.value, ResultsIn(store));
      FinishedCalls(endure.value);
      OneCall(Calls(store)[0], Calls(endure.value)[0]);
      assert Calls(endure.value) == [Calls(endure.value)[0]];
    }
  }

  /** If the first operation is refused, the user gets an error and nothing else. */
  lemma RefusedStore(given: Given, isDelete: bool, store: Batch, endure: Option<Batch>)
    requires Composed(given, isDelete, store, endure) && store.Refused?
    ensures Seen(store, endure) == [UserCall(true, None)]
  {
    CalledOnce(given, isDelete, store, endure);
    FinishedCalls(store);
    if endure.Some? {
      EndureFinished(given, isDelete, endure.value, ResultsIn(store));
      FinishedCalls(endure.value);
    }
    hide Seen, BatchOk, Over;
  }

  /** The one call, for an operation that was made: the results name the keys of the first operation.
      An entry carries an error exactly if its store failed or its endure failed; a store's error is
      kept; the rest of the entry is the store's. */
  lemma MergeExact(given: Given, isDelete: bool, store: Batch, endure: Option<Batch>, k: string)
    requires Composed(given, isDelete, store, endure) && store.Made?
    ensures var user := Seen(store, endure);
            && |user| == 1 && user[0].results.Some?
            && var results := user[0].results.value;
               && (k in results <==> k in ResultsIn(store))
               && (k in results ==>
                     && results[k].payload == ResultsIn(store)[k].payload
                     && (results[k].error.Some? <==> FailedFor(store, k) || EndureFailedFor(endure, k))
                     && (FailedFor(store, k) ==> results[k] == ResultsIn(store)[k] && !EndureFailedFor(endure, k))
                     && (EndureFailedFor(endure, k) ==>
                           k in ResultsIn(endure.value) && results[k].error == ResultsIn(endure.value)[k].error))
  {
    CalledOnce(given, isDelete, store, endure);
    FinishedCalls(store);
    if endure.Some? { EndureFinished(given, isDelete, endure.value, ResultsIn(store)); }
    hide BatchOk, Over, FailedFor, ResultsIn, ResultsOf, AnyFailed, Seen, Calls, EndureBatch, Endured, Merged, O.IsTrue;
    FailedForExact(store, ResultsIn(store), k);
    if endure.Some? && endure.value.Made? {
      EnduredKeys(given, isDelete, endure.value, ResultsIn(store));
      FinishedCalls(endure.value);
      FailedForExact(endure.value, ResultsIn(endure.value), k);
      if k in ResultsIn(store) { MergeEntry(ResultsIn(store), ResultsIn(endure.value), k); }
    } else if endure.Some? {
      RefusedFails(endure.value, k);
      assert Calls(endure.value) == [Bail];
    }
  }

  lemma {:induction false} CountOfTwo(keys: seq<string>, i: nat, j: nat)
    requires i < j < |keys| && keys[i] == keys[j]
    ensures multiset(keys)[keys[i]] >= 2
  {
    assert keys == keys[..j] + keys[j..];
    assert keys[..j][i] in multiset(keys[..j]) && keys[j..][0] in multiset(keys[j..]);
  }

  lemma {:induction false} DistinctCount(keys: seq<string>, k: string)
    requires Distinct(keys)
    ensures multiset(keys)[k] <= 1
  {
    if keys != [] {
      var n := |keys| - 1;
      DistinctCount(keys[..n], k);
      assert keys == keys[..n] + [keys[n]];
      assert keys[n] !in keys[..n];
    }
  }

  lemma {:induction false} KeysOfAt(got: seq<Info>, i: nat)
    requires i < |got|
    ensures |KeysOf(got)| == |got| && KeysOf(got)[i] == got[i].Key()
  {
    KeysOfLength(got);
    KeysOfLength(got[..|got| - 1]);
    if i < |got| - 1 { KeysOfAt(got[..|got| - 1], i); }
  }

  /** In a batch of distinct keys every response is the last one for its key. */
  lemma AnsweredOnce(b: Batch, i: nat)
    requires BatchOk(b) && b.Made? && Distinct(b.request.keys) && i < |b.got|
    ensures LastFor(b.got, i)
  {
    hide MarkAll, Acceptable;
    forall j | i < j < |b.got| ensures b.got[j].Key() != b.got[i].Key() {
      KeysOfAt(b.got, i);
      KeysOfAt(b.got, j);
      if b.got[j].Key() == b.got[i].Key() && b.phase.Executed? {
        CountOfTwo(KeysOf(b.got), i, j);
        DistinctCount(b.request.keys, b.got[i].Key());
      }
    }
  }

  lemma FailureIsSeen(b: Batch)
    requires Finished(b) && b.Made? && Distinct(b.request.keys) && AnyFailed(b.got)
    ensures exists k :: k in ResultsIn(b) && FailedFor(b, k)
  {
    var i :| 0 <= i < |b.got| && b.got[i].status != SUCCESS;
    AnsweredOnce(b, i);
    assert FailedAt(b.got, i, b.got[i].Key());
    FinishedCalls(b);
    hide BatchOk, Over;
    assert FailedFor(b, b.got[i].Key());
  }

  /** Some entry of the results has an error. */
  predicate SomeError(results: Results) {
    exists k :: k in results && results[k].error.Some?
  }

  /** No overall error means that no entry has one. For a store of distinct keys, an overall error comes
      without an error of any entry exactly if every store succeeded and the second operation was
      refused for its options: one of them is true, and one is neither a false value nor a number of
      32 bits. */
  lemma OverallErrorExact(given: Given, isDelete: bool, store: Batch, endure: Option<Batch>)
    requires Composed(given, isDelete, store, endure) && store.Made?
    ensures var user := Seen(store, endure);
            && |user| == 1 && user[0].results.Some?
            && var results := user[0].results.value;
               && (!user[0].error ==> !SomeError(results))
               && (Distinct(store.request.keys) ==>
                     (user[0].error && !SomeError(results) <==>
                      && !AnyFailed(store.got)
                      && (O.IsTrue(Property(given, "persist_to")) || O.IsTrue(Property(given, "replicate_to")))
                      && !(Parses(Property(given, "persist_to")) && Parses(Property(given, "replicate_to")))))
  {
    MergeExact(given, isDelete, store, endure, "");
    CalledOnce(given, isDelete, store, endure);
    PassedOnExact(given, isDelete);
    FinishedCalls(store);
    hide Intercepted, Parses, PassedOn, UserCalls, Seen, SomeError;
    var results := Seen(store, endure)[0].results.value;
    SomeErrorExact(given, isDelete, store, endure, results);
    NoneFailed(store);
    if endure.Some? {
      EndureFinished(given, isDelete, endure.value, ResultsIn(store));
      FinishedCalls(endure.value);
      NoneFailed(endure.value);
      if endure.value.Refused? && endure.value.request.parses { NothingToEndure(given, isDelete, store, endure.value); }
    }
    if Distinct(store.request.keys) { SomeEntryFails(given, isDelete, store, endure); }
  }

  lemma SomeErrorExact(given: Given, isDelete: bool, store: Batch, endure: Option<Batch>, results: Results)
    requires Composed(given, isDelete, store, endure) && store.Made?
    requires |Seen(store, endure)| == 1 && Seen(store, endure)[0].results == Some(results)
    ensures SomeError(results) <==>
            exists k :: k in ResultsIn(store) && (FailedFor(store, k) || EndureFailedFor(endure, k))
  {
    hide Composed, Seen, FailedFor, EndureFailedFor, ResultsIn;
    forall k ensures k in results <==> k in ResultsIn(store)
             ensures k in results ==> (results[k].error.Some? <==> FailedFor(store, k) || EndureFailedFor(endure, k)) {
      MergeExact(given, isDelete, store, endure, k);
    }
  }

  lemma NoneFailed(b: Batch)
    ensures b.Made? && !AnyFailed(b.got) ==> forall k :: !FailedFor(b, k)
  {
  }

  /** For distinct keys, a failure of either operation is seen in an entry. */
  lemma SomeEntryFails(given: Given, isDelete: bool, store: Batch, endure: Option<Batch>)
    requires Composed(given, isDelete, store, endure) && store.Made? && Distinct(store.request.keys)
    ensures AnyFailed(store.got) || (endure.Some? && endure.value.Made? && AnyFailed(endure.value.got)) ==>
              exists k :: k in ResultsIn(store) && (FailedFor(store, k) || EndureFailedFor(endure, k))
  {
    hide FailedFor, AnyFailed, BatchOk, Over, ResultsIn;
    if AnyFailed(store.got) {
      FailureIsSeen(store);
    } else if endure.Some? && endure.value.Made? && AnyFailed(endure.value.got) {
      EndureFinished(given, isDelete, endure.value, ResultsIn(store));
      FailureIsSeen(endure.value);
      EnduredKeys(given, isDelete, endure.value, ResultsIn(store));
      var k :| k in ResultsIn(endure.value) && FailedFor(endure.value, k);
      assert k in ResultsIn(store) && EndureFailedFor(endure, k);
    }
  }

  /** A batch has a result, and none under an empty key. */
  lemma SomeResult(b: Batch) returns (k: string)
    requires Finished(b) && b.Made?
    ensures k in ResultsIn(b) && "" !in ResultsIn(b)
  {
    FinishedCalls(b);
    ResultKeys(b, ResultsIn(b));
    hide MarkAll, ResultsOf, AnyFailed, ResultsIn, Over;
    var keys := if b.phase.Failed? then KeyList(b.request, b.deferred) else b.request.keys;
    k := keys[0];
  }

  lemma RefusedKeys(b: Batch)
    requires BatchOk(b) && b.Refused? && b.request.parses && |b.request.keys| < 0x1_0000_0000
    ensures b.request.keys == [] || "" in b.request.keys
  {
  }

  /** If its options parse, the second operation is refused only if nothing was stored. */
  lemma NothingToEndure(given: Given, isDelete: bool, store: Batch, endure: Batch)
    requires Finished(store) && store.Made? && EndureBatch(given, isDelete, endure, ResultsIn(store))
    requires endure.Refused? && endure.request.parses
    ensures AnyFailed(store.got)
  {
    var k := SomeResult(store);
    FinishedCalls(store);
    FailedForExact(store, ResultsIn(store), k);
    hide ResultsIn, AnyFailed, ResultsOf, FailedFor, Over, MarkAll;
    RefusedKeys(endure);
    hide BatchOk;
    assert "" !in Endured(ResultsIn(store));
    assert k !in Endured(ResultsIn(store));
  }
}
