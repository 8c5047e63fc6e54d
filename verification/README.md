# Verified model of couchnode

Couchnode is a Couchbase client for Node.js: a JavaScript layer (`lib/`) over a C++ binding
(`src/`) of libcouchbase. This project models four pieces of it that keep state, and proves what
every run of them keeps. Verify it with `dafny verify dfyconfig.toml`.

* **Paging through a view** (`Rows`, `Paging`, `PagingFixed`, `PagingForward`, `PagingChanging`,
  `ViewQueries`). A paginator asks for one row more than a page, remembers where the next page starts,
  and keeps a stack of the starts before. The server answers with the first rows at or after a start.
  On a view that stays as it is, the paginator is a page counter in every run exactly when the view is
  *pageable*: page starts after the first have a truthy key and id and differ from the row before
  them, and the first row of several pages has a key and an id that are not null. On a view that
  changes, going forward still delivers in order and without repetition, and everything that stayed
  exactly if every row with a page of rows before it has a truthy key and id; and with any moves,
  changes and failed requests `prev` never moves forward.
* **The life of an operation** (`Cookies`, `Connections`, `Fates`, `CouchbaseImpl`, `Requests`). A batch
  of keys
  is refused for its keys or its options, queued until the first configuration, executed, answered key
  by key in any order, or cancelled. Its cookie counts, calls back and deletes itself. A run is any
  list of events; the theorems say, in terms of the events, which batches are called back, how often,
  with which payloads and errors, and when the queue is flushed.
* **Building a batch** (`Buffers`, `Commands`, `Options`, `Specs`, `Batches`). Keys are copied by a bump
  allocator, command structs point at the copies, options are parsed and merged, and a batch that must
  wait is moved to the heap by constructors that empty their source.
* **Durability and formats** (`Durability`, `ValueFormats`). A spooled store with durability
  requirements runs a second operation for the keys it stored, which may itself be refused, and merges
  the errors. A value is stored as bytes and flags and read back by the flags, or by the format asked
  for, key by key in a get of several keys.

`Common` holds two shared definitions, and `Counterexamples` gives an input for each promise that the
code does not keep; the exact condition is proved beside the property.

Each class follows the object of the source: its methods update the fields in place and are proved
equal to a function on the abstract state, and the theorems are about that function; they are stated
in terms of the inputs, the events and the values themselves. `delete this` is
a counter, with a flag for any use after it, and a destructor returns the blocks it frees.

## What the code does not keep

* A page start with a false key (`0`, `""`, `false`, `null`) or id ends the enumeration and loses the
  rest (`ForwardExact`, and `StabilityExact` for views that change): `FalseKeyEndsPaging`. A page size
  of zero delivers nothing: `EmptyPagesDeliverNothing`.
* A row repeated across a page boundary is delivered again, and if it also fills a page the
  enumeration never ends (`ForwardExact`, `TrackingExact`): `RepeatedRowNeverEnds`. A null key in front
  cannot be returned to (`TrackingExact`): `NullKeyIsForgotten`.
* A queued operation is never executed if an error comes before the first configuration, and a
  deferred batch of several keys that the library refuses is never called back (`AllToldExact`):
  `ErrorFirst`, `DeferredRefusal`. A deferred batch of one key is called back under the name
  "undefined" (`SpooledCall`): `DeferredUndefined`.
* A response without a key calls a spooled batch back too early and deletes the cookie twice
  (`KeysExact`): `KeylessResponse`. No run produces one, because empty keys are refused (`BatchFate`).
* An object of parameters with a JSON field that is set cannot be used twice (`ReuseExact`):
  `ParametersReused`. A limit given only to `firstPage` is not the size of the later pages
  (`PageSizeExact`): `LimitOnlyForFirstPage`.
* The documentation of multi-key callbacks (lib/couchbase.js:722-726) says that with an overall error at
  least one entry failed. It is not so if all stores succeed and the durability request after them is
  refused for its options, for example for `persist_to: "1"` (`OverallErrorExact`):
  `DurabilityRefused`.
* A `get` does not reject an unknown format; it reads raw bytes, as it does under the known format UTF16
  (`OverrideExact`): `UnknownFormatReadsRaw`.

## Model

| member | source | states |
|---|---|---|
| `Paging.Paginator.constructor` | lib/viewQuery.js:178-186 | a new paginator stands nowhere, with an empty back stack |
| `Paging.Paginator.OnFirst` | lib/viewQuery.js:129-145 | the first response sets the current start, and the next start if it holds the extra row; missing results are passed on |
| `Paging.Paginator.PaginateResults` | lib/viewQuery.js:195-214 | any later response: push the current start if neither its key nor its id is null, set both starts, strip the extra row; null results deliver an empty page |
| `Paging.Paginator.HasNextPage` | lib/viewQuery.js:221-223 | whether the next key is not null |
| `Paging.Paginator.GoNext` | lib/viewQuery.js:230-247 | asks from the next start if both parts are truthy, else delivers an empty page at once and clears the next start |
| `Paging.Paginator.GoPrev` | lib/viewQuery.js:254-271 | pops the back stack when it asks; with an empty stack delivers an empty page and changes nothing |
| `Paging.Paginator.OnNext` | lib/viewQuery.js:237-241 | the response to `next` |
| `Paging.Paginator.OnPrev` | lib/viewQuery.js:260-264 | the response to `prev`, which forgets the current start first |
| `Paging.Paginator.Go` | lib/viewQuery.js:230-272 | a whole move of the object is the step of the abstract state |
| `Paging.FailureExact` | lib/viewQuery.js:195-271 | a failed request delivers nothing; the first one and `next` change nothing, while `prev` has lost the start it asked for and the current one |
| `PagingFixed.PageableTracks` | lib/viewQuery.js:195-272 | on a pageable view every sequence of moves leaves exactly the state of the page counter, and delivers the page turned to, or nothing past an end |
| `PagingFixed.TrackingExact` | lib/viewQuery.js:195-272 | all runs track the page counter if and only if every later page start has a key and an id that are not false (`0`, `""`, `false`, `null`) and differs from the row before it, and the first row of several pages has neither part null; for all sorted views, repetitions included |
| `PagingFixed.MovesAreInverse` | lib/viewQuery.js:225-272 | after any moves, `next` then `prev` (or the reverse) restores state and page; a move past an end delivers nothing and changes nothing |
| `PagingForward.ForwardExact` | lib/viewQuery.js:117-247 | `firstPage`, then `next` while `hasNext`, ends and delivers exactly the view if and only if the view is empty, or the page size is positive and every later page start has a truthy key and id and differs from the row before it; rows may be repeated |
| `PagingForward.ForwardShape` | lib/viewQuery.js:124-147 | of such an enumeration all pages but the last are full, and the last is not empty |
| `PagingForward.PageCount` | lib/viewQuery.js:124-147 | it has n / limit pages, rounded up, or one if there is no row, and no other number fits |
| `PagingForward.CollectPages` | lib/viewQuery.js:221-247 | the client loop on the paginator object ends, by the rows after the current page, with the whole view |
| `PagingChanging.PageFrom` | lib/viewQuery.js:195-214 | a response is a page in order between its start and the next start, and leaves out nothing of the view in between |
| `PagingChanging.ForwardStability` | lib/viewQuery.js:117-247 | over a view that changes and with failed and repeated requests, going forward delivers rows in strictly increasing order, and at the end, if no start was met that cannot be asked for, every row that stayed, once |
| `PagingChanging.StabilityExact` | lib/viewQuery.js:117-247 | for any set of rows from which the views are drawn: every forward run that has ended has delivered every row that stayed, if and only if every row of the set with a page or more of the set before it has a truthy key and id |
| `PagingChanging.RunEnds` | lib/viewQuery.js:117-247 | every such run ends, whatever the views and keys: there is no next page once the answered requests, at a page each, could have delivered all rows of the set |
| `PagingChanging.RunDelivers` | lib/viewQuery.js:117-247 | if every row with a page of rows before it has a truthy key and id, so many answers have delivered every row that stayed |
| `PagingChanging.RunOrdered` | lib/viewQuery.js:195-272 | over all moves, changes and failures the back stack increases, stays below the current and the next start where these are set, and holds only first rows of delivered pages |
| `PagingChanging.PrevMovesBack` | lib/viewQuery.js:254-272 | what `prev` asks for began an earlier page and lies before the current and the next start |
| `ViewQueries.Extend` | lib/viewQuery.js:276-283 | copies all properties of one object over those of another |
| `ViewQueries.NormalizeQuery` | lib/viewQuery.js:292-301 | drops unknown fields and encodes JSON fields that are set in the caller's object |
| `ViewQueries.ViewQuery.constructor` | lib/viewQuery.js:29-35 | the query keeps the caller's own, normalised object |
| `ViewQueries.ViewQuery.Query` | lib/viewQuery.js:78-86 | sends the stored parameters overridden by the normalised given ones |
| `ViewQueries.ViewQuery.Clone` | lib/viewQuery.js:98-103 | the new query has an object of its own; this query's stored parameters change only if it is given the very object it keeps |
| `ViewQueries.ViewQuery.FirstPage` | lib/viewQuery.js:117-127 | resolves the limit, stores a default for a missing, null or undefined one, and adds 1, which a text limit is extended by |
| `ViewQueries.FirstPageExact` | lib/viewQuery.js:123-127 | every field but the limit is sent iff stored or given, with the given value first; the limit sent is one more than the given one, else the stored one, else 10, and null and undefined count as none but hide a stored one; the stored parameters change in the limit only, and only if none is in force |
| `ViewQueries.SentExact` | lib/viewQuery.js:78-103 | a chain of clones ending in a query sends exactly the known fields given anywhere, each with the value given last, JSON fields encoded exactly once, and undefined not at all |
| `ViewQueries.SendChain` | lib/viewQuery.js:78-103 | the objects carry out such a chain of any length, and each query made on the way still holds at the end what the chain up to it has given |
| `ViewQueries.ReuseExact` | lib/viewQuery.js:292-301 | normalising twice equals normalising once if and only if no JSON field is set |
| `ViewQueries.PageSizeExact` | lib/viewQuery.js:123-127 | the first page has the size of the later ones if and only if its own parameters give no limit, or one that counts as much as the stored one |
| `Cookies.Cookie.constructor` | src/cookie.h:93-95 | a new cookie waits for n answers in single mode |
| `Cookies.Cookie.SetCallback` | src/cookie.h:97-105 | sets the mode and nothing else |
| `Cookies.Cookie.MarkProgress` | src/cookie.cc:96-128 | one answer: count, the branch for a missing key that does not return, record, finish |
| `Cookies.Cookie.CancelKeys` | src/cookie.cc:130-138 | marks the cookie cancelled, then answers every key with the error |
| `Cookies.ResultsMore` | src/cookie.cc:47-59 | one more answer keeps the result map equal to the last answer for each key |
| `Cookies.BatchProgress` | src/cookie.cc:96-138 | after m of n answers: remaining is n - m; the error flag is set iff some answer failed; spooled, the map holds exactly the answered keys with their last answers and the one call is made at the end; single, one call for each; deleted iff m = n, never touched after |
| `Cookies.CancelTellsAll` | src/cookie.cc:130-138 | cancelling a fresh batch by its own keys completes it |
| `Cookies.KeysExact` | src/cookie.cc:100-106 | a spooled batch is safe and called back once if and only if every answer has a key |
| `Connections.RunOk` | src/couchbase_impl.cc:265-386 | every run keeps: each batch's cookie is the fold of its answers, answers and open keys make up the request, and the deferred batches are the flushed and then the queued ones, in order |
| `Connections.BatchFate` | src/couchbase_impl.cc:352-386 | in every run no batch is called back more than is due, no cookie is deleted twice or used after; remaining and answers add up to n; a batch is told exactly if it is over |
| `Connections.SpooledCall` | src/cookie.cc:73-89 | the one call of a spooled batch names exactly the requested keys, each with its last answer, and says "check the results" iff one failed; a refused deferred batch of one key is named "undefined" |
| `Connections.SingleCalls` | src/cookie.cc:61-71 | in single mode there is one call for each answer, in order of arrival |
| `Fates.DirectExact` | src/couchbase_impl.cc:368-385 | an operation on an open connection that the library refuses is called back with that very error for each of its keys; one that it takes is executed; one that cannot be made is called back with an error alone |
| `Fates.FlushedExact` | src/couchbase_impl.cc:329-348 | an operation taken from the queue is executed, or, if the library refuses it then, cancelled with that very error under the one name "undefined" |
| `Fates.WaitingExact` | src/couchbase_impl.cc:329-373 | a deferred batch still waits iff no flush has taken it |
| `Fates.HeardExact` | src/cookie.cc:96-128 | an executed batch has been given exactly the responses of the run to it, in order |
| `Fates.AnsweredExact` | src/cookie.cc:47-128 | each response is told with its own payload and error: one call each in single mode; spooled, one call when all keys are answered, with the last response for each key |
| `Cookies.CancelExact` | src/cookie.cc:130-138 | what a cancelled batch is told: the error given, for each key, without a payload |
| `Connections.ConnectExact` | src/couchbase_impl.cc:265-327 | the connect handler is called at most once, with the outcome of the first error or new configuration; the queue is released iff that was a configuration |
| `Connections.DeferredExact` | src/couchbase_impl.cc:352-386 | the batch that an event submits keeps its number and its request; it is refused iff its options do not parse, there is no key or a key is empty, and deferred iff it is not refused and no event before has connected |
| `Connections.AllToldExact` | src/couchbase_impl.cc:265-386 | when nothing is left to happen, all batches have been told as often as is due if and only if no early batch met an error first, and no flush event found the library refusing a batch of several keys that was submitted early |
| `Connections.FlushExact` | src/couchbase_impl.cc:314-348 | a released and empty queue has executed exactly the batches of the acceptable submissions before the connection, once each, in order |
| `Connections.ErrorStrandsQueue` | src/couchbase_impl.cc:290-295 | after an error before the first configuration the queue never changes again |
| `Requests.AcceptableExact` | src/couchbase_impl.cc:352-363 | the connection accepts an arithmetic operation iff its batch can be built from the keys and options given |
| `Requests.RequestExact` | src/commandbase.cc:286-299 | a request names its keys by their bytes, in order, and is spooled iff that option is a true value |
| `CouchbaseImpl.CouchbaseImpl.MakeOperation` | src/couchbase_impl.cc:352-386 | refuses a batch for its options or keys, queues it, or executes it, and says which; a batch that the library refuses is told the library's error |
| `CouchbaseImpl.CouchbaseImpl.OnConnect` | src/couchbase_impl.cc:265-288 | sets the flag and calls the handler, once; the handler's operations do not reach the queue |
| `CouchbaseImpl.CouchbaseImpl.ErrorCallback` | src/couchbase_impl.cc:290-312 | connects without flushing, calling the connect handler if nothing has connected before, and then calls the error handler, each once with the error, and each followed by what it submits |
| `CouchbaseImpl.CouchbaseImpl.RunScheduledOperations` | src/couchbase_impl.cc:329-348 | whatever its callbacks submit, the loop ends, the queue is empty, and the queued batches were taken once each in order, each meeting the error given for all of them, or else its own |
| `CouchbaseImpl.CouchbaseImpl.OnConfig` | src/couchbase_impl.cc:314-327 | the first new configuration connects and flushes; any other is ignored |
| `Durability.CollectEndured` | lib/couchbase.js:214-223 | collects the keys without an error, each with its CAS |
| `Durability.MergeErrors` | lib/couchbase.js:231-235 | writes the second operation's errors over the entries of the first |
| `Durability.PassedOnExact` | lib/couchbase.js:201-207 | the second operation parses the options passed on to it iff each is a false value or a 32-bit number; it is spooled iff the user's option is true, and for deletions iff the caller says so |
| `Durability.AskEndure` | src/commands.cc:377-421 | the library is asked for the user's own `persist_to` and `replicate_to`, each in its place, and for the caller's kind of operation |
| `Durability.CalledOnce` | lib/couchbase.js:181-237 | whatever the operations come to, intercepted or not, and refused for keys or options included, the user is called back exactly once |
| `Durability.RefusedStore` | lib/couchbase.js:209-237 | a first operation that is refused gives the user one call, with an error and no results |
| `Durability.EnduredExact` | lib/couchbase.js:216-223 | the keys endured are exactly those whose store succeeded, with the CAS of that store |
| `Durability.MergeExact` | lib/couchbase.js:230-237 | an entry carries an error iff its store or its endure failed; a store error is never overwritten, any other error is the endure's; the rest of the entry is the store's |
| `Durability.OverallErrorExact` | lib/couchbase.js:195-237 | no overall error means no entry has one; for a store of distinct keys, an overall error comes without any entry error if and only if every store succeeded, a durability option is true, and one is neither a false value nor a 32-bit number |
| `Buffers.BufferList.GetBuffer` | src/buflist.h:36-68 | hands out a region inside a recorded block that overlaps no region handed out before, and refills at most once |
| `Buffers.BufferList.Store` | src/buflist.h:36-68 | bytes copied to a new region stay readable there, and all earlier regions keep their content |
| `Buffers.BufferList.HasContent` | src/buflist.h:36-68 | a region to which bytes were copied addresses exactly these bytes |
| `Buffers.BufferList.Move` | src/buflist.h:84-94 | the new list owns all blocks and regions; the old one is empty and stays usable |
| `Buffers.BufferList.Destroy` | src/buflist.h:72-76 | frees every recorded block once |
| `Commands.CommandList.Initialize` | src/commandlist.h:37-63 | makes room for n commands, inline for one, in two new arrays for more, with every command zeroed; fails for none |
| `Commands.CommandList.GetAt` | src/commandlist.h:65-76 | makes entry ix of the list point at command ix and keeps the other entries and all commands; null for the index behind the last |
| `Commands.CommandList.Put` | src/commandlist.h:65-76 | writing command ix through its pointer changes that command and no other, and no entry of the list |
| `Commands.CommandList.Move` | src/commandlist.h:90-106 | the new list holds the same commands and every entry points at the same one, from the list's own slot if there is one; the old list is empty |
| `Commands.CommandList.Destroy` | src/commandlist.h:109-115 | frees the two arrays of a list of more than one command, and nothing otherwise |
| `Options.ParseNumberExact` | src/options.h:69-85 | a number is accepted iff it fits; 32-bit and signed slots, of both widths, hold it without wrap; undefined, null and false leave the slot's value; all else is an error |
| `Options.TrueExact` | src/options.cc:42-47 | undefined, null, false, zero, not-a-number and the empty text count as false, and nothing else |
| `Options.NumericSlot.ParseValue` | src/options.h:69-85 | the slot object parses accordingly |
| `Options.ParseAll` | src/options.cc:32-67 | succeeds iff the dictionary is usable and every property given is accepted; then each slot holds its property and the others are left alone |
| `Options.DurabilityOptions.ParseObject` | src/commands.cc:377-383 | the three slots hold what the dictionary supplies, 32-bit signed numbers included |
| `Options.ArithmeticOptions.ParseObject` | src/commands.cc:178-182 | the three slots hold what the dictionary supplies |
| `Options.ArithmeticOptions.Merge` | src/commands.cc:184-197 | each slot keeps its own option if found and takes the other's if not |
| `Specs.CommandExact` | src/commands.cc:199-225 | the command of a key has its bytes, the hash key, offset, initial value and expiry given for it, else the global ones, and `create` iff either gives an initial value |
| `Specs.CommandsExact` | src/commandbase.cc:192-247 | one key, an array of keys and an object of keys give the commands of their keys in order, each key of an object with its own dictionary |
| `Specs.ItemExact` | src/commandbase.cc:158-190 | which keys have a command, and with which error the others fail, in the order in which the source looks |
| `Specs.MakeableExact` | src/commandbase.cc:132-247 | an operation can be made iff there is a key, the global options are in order, and so is every key with its own, written out on the arguments |
| `Batches.ArithmeticCommand.Initialize` | src/commandbase.cc:132-155 | takes keys and global options; fails iff there is no key or an option is bad, with that error |
| `Batches.ArithmeticCommand.GetBufBackedString` | src/commandbase.cc:88-130 | non-empty strings and numbers get a region with their bytes; all else is an internal error |
| `Batches.ArithmeticCommand.HandleSingle` | src/commands.cc:199-225 | command ix gets the options in force: the key's own, else the global ones; `create` is set iff an initial value is in force, and never cleared |
| `Batches.ArithmeticCommand.ProcessSingle` | src/commandbase.cc:158-190 | one key succeeds iff its specification does, the commands before it stay as they were, and those after it stay zeroed |
| `Batches.ArithmeticCommand.Process` | src/commandbase.cc:192-247 | succeeds iff every key's specification does, and then every entry points at its command; otherwise it stops at the first bad key with that key's error and the keys before it built |
| `Batches.ArithmeticCommand.EntryIsKey` | src/commandbase.cc:186-189 | the key pointers read through entry i address exactly the bytes of key i and its hash key |
| `Batches.ArithmeticCommand.MakePersistent` | src/commandbase.cc:304-313 | the heap copy owns all blocks and reads the same commands and bytes; the original owns nothing; the keys are not carried over |
| `Batches.ArithmeticCommand.ReadEntry` | src/commands.cc:227-230 | following the pointers of entry i gives the specified command with its bytes |
| `Batches.ArithmeticCommand.OwnedOnce` | src/commandlist.h:109-115 | no block is owned twice |
| `Batches.DeferredLife` | src/couchbase_impl.cc:329-373 | from arguments to deletion of a deferred batch: the library is sent one command for each key given, in order, with the key's own options before the global ones; and, whether building succeeds or fails, the blocks freed are exactly those owned when it ended, once each, with both arrays and the block behind every key pointer among them |
| `ValueFormats.Encode` | src/valueformat.cc:118-196 | the encoder writes the specified flags and bytes into the batch's buffers, or fails exactly where it should |
| `ValueFormats.StoredExact` | src/valueformat.cc:118-196 | which values can be stored under which format, with which flags and bytes |
| `ValueFormats.RoundTripExact` | src/valueformat.cc:41-196 | under a given format exactly texts as UTF-8, non-empty Buffers as raw bytes, and what JSON keeps as JSON, are read back as they were |
| `ValueFormats.AutoRoundTripExact` | src/valueformat.cc:96-133 | under the automatic format exactly texts, non-empty Buffers, and numbers, arrays and objects that JSON keeps |
| `ValueFormats.RawTextExact` | src/valueformat.cc:165-174 | a text stored as raw bytes is read back as a Buffer of its UTF-8 bytes, and as the text if UTF-8 is asked for |
| `ValueFormats.FormatExact` | src/valueformat.h:41-78 | what each name, number and false value means as a format |
| `ValueFormats.KeptExact` | src/commands.cc:68-74 | the cookie keeps the format in force of every key given, repeated or not, unless that is automatic |
| `ValueFormats.MultiGet` | src/cookie.cc:279-303 | the loop over the keys and the loop over the responses compute the results of the specification |
| `ValueFormats.OverrideExact` | src/cookie.cc:289-303 | over a whole get, whatever responses arrive in whatever order: the results hold exactly the keys responded to, and each requested key has its last response, read by the key's own format or else the global one: by a valid format, by its own stored flags under the automatic format, and as raw bytes under an unknown one and under UTF16 |
| `ValueFormats.OrderIsIrrelevant` | src/cookie.cc:47-59 | with one response for each key, the order of arrival does not change the results |
| `Counterexamples.FalseKeyEndsPaging` | lib/viewQuery.js:231-245 | a view of two rows that is not enumerated |
| `Counterexamples.NullKeyIsForgotten` | lib/viewQuery.js:198-200 | a view of two pages whose first page cannot be returned to |
| `Counterexamples.RepeatedRowNeverEnds` | lib/viewQuery.js:230-247 | a view of one row twice, on which `next` stays at the same start and `hasNext` stays true for ever |
| `Counterexamples.EmptyPagesDeliverNothing` | lib/viewQuery.js:124-147 | a view of one row that a page size of zero does not deliver |
| `Counterexamples.LimitOnlyForFirstPage` | lib/viewQuery.js:123-127 | a limit of the first page that the stored parameters do not hold |
| `Counterexamples.ErrorFirst` | src/couchbase_impl.cc:290-318 | a run in which a queued batch is never told |
| `Counterexamples.DeferredRefusal` | src/couchbase_impl.cc:341-343 | a run in which a refused deferred batch is never told |
| `Counterexamples.DeferredUndefined` | src/couchbase_impl.cc:341-343 | a run in which a refused deferred batch of one key is called back for the key "undefined" |
| `Counterexamples.DurabilityRefused` | lib/couchbase.js:195-237 | a store that succeeds, with a durability option that is no 32-bit number: an overall error and no entry error |
| `Counterexamples.KeylessResponse` | src/cookie.cc:100-127 | an answer without a key that calls back twice and deletes twice |
| `Counterexamples.ParametersReused` | lib/viewQuery.js:292-301 | parameters whose second use encodes a key twice |
| `Counterexamples.UnknownFormatReadsRaw` | src/valueformat.cc:41-68 | a text stored as UTF-8 that a get with the format "xml" reads as raw bytes |

## Left out

- V8 handles and scopes, libuv, libcouchbase and the server: replaced by events, by outcomes of execution given from outside, and by one response for each key of an executed batch; a failed execution delivers no response.
- HTTP and the REST handler (`lib/http.js`), and query strings. `next` and `prev` put their start into the query without JSON encoding; keys are ordered values here, with their truthiness, and texts and composite keys are known by their place in the collation.
- Overlapping requests of one paginator, `skip`, grouping, pages of a size that is not a natural number, and later pages when `firstPage` alone was given a limit.
- Queries with `descending`, which make the server answer in the reverse order; the views here are in ascending order.
- Paging.Paginator.constructor: the page size is fixed when the paginator is made, while the source reads it from the query object at each request.
- PagingChanging.ForwardStability: the first request succeeds, and rows of one view state are distinct; repeated rows are covered by PagingForward.ForwardExact and PagingFixed.TrackingExact.
- PagingChanging.StabilityExact: likewise.
- ViewQueries.ViewQuery.FirstPage: limits that are fractions, and parameters that are functions, are not modelled.
- CouchbaseImpl.CouchbaseImpl.MakeOperation: the connection holds its cookies by value, so aliasing of cookie objects is not modelled, and a callback is always given. The handlers of the "connect" and "error" events are always set; shutdown and the constructor of the connection are left out.
- Operations submitted inside a callback of a response are events after that response; those inside the flush and the connect handler are modelled where they happen.
- StatsCookie, HttpCookie and ObserveCookie, which do not count, and the observe results, which are always written to one place.
- Connections.DeferredExact: for operations other than the arithmetic one, whether the options parse is given with the request.
- Durability for single keys and for operations that are not spooled, where the source uses a null key; the second operation runs on an open connection. The CAS of a successful store is taken to parse.
- Durability.CollectEndured: the CAS objects of JavaScript are opaque numbers.
- Batches.ArithmeticCommand.Process: only the arithmetic operation is modelled of those that share the batch code; error messages are reduced to their kind.
- Options.ParseNumberExact: the conversion of a JavaScript number to a 64-bit integer is V8's and is not modelled; unsigned 64-bit options take negative numbers modulo 2^64.
- Get with an expiry, which the source reads from the lock time; the flags override of a store.
- ValueFormats.RoundTripExact: UTF-8 and JSON are parameters with the laws that UTF-8 loses nothing of a text, and that JSON can read what it writes and never reads a Buffer.
- Exhausted memory: an allocation always succeeds.
