/** Stored values: how a JavaScript value becomes bytes and flags, and what the flags make of bytes. */
module ValueFormats {
  import opened Common
  import opened Buffers

  /** A JavaScript value. The number of an array or object stands for the value up to its structure, so
      that a copy of equal structure is the same value here. */
  datatype Js =
    | Undefined
    | Null
    | Bool(b: bool)
    | Number(n: int)
    | Text(s: string)
    | Buffer(bytes: seq<Byte>)
    | Array(id: int)
    | Object(id: int)

  /** JSON.stringify throws, or returns something that is not a text, or a text. */
  datatype Json = Throws | NoText | JsonText(s: string)

  /** The conversions of the JavaScript engine. */
  datatype Engine = Engine(
    toUtf8: string -> seq<Byte>,
    fromUtf8: seq<Byte> -> string,
    stringify: Js -> Json,
    parse: string -> Option<Js>)

  const INVALID := -1
  const JSON := 0
  const UTF16 := 1
  const RAW := 2
  const UTF8 := 4
  const AUTO := 0x777777

  predicate IsTrue(v: Js) {
    match v
    case Undefined => false
    case Null => false
    case Bool(b) => b
    case Number(n) => n != 0
    case Text(s) => s != ""
    case _ => true
  }

  /** The specifier that a format option names. */
  function ToSpec(input: Option<Js>): int {
    match input
    case None => AUTO
    case Some(Text(s)) =>
      if s == "auto" then AUTO else if s == "raw" then RAW else if s == "json" then JSON
      else if s == "utf8" then UTF8 else INVALID
    case Some(Number(n)) => if n in {AUTO, JSON, UTF8, UTF16, RAW} then n else INVALID
    case Some(v) => if !IsTrue(v) then AUTO else INVALID
  }

  function GetAutoSpec(v: Js): int {
    match v
    case Text(_) => UTF8
    case Number(_) => JSON
    case Array(_) => JSON
    case Object(_) => JSON
    case Buffer(_) => RAW
    case _ => UTF8
  }

  /** What a value is stored as: the flags and the bytes, if it can be stored. */
  function Encoded(e: Engine, input: Js, spec: int): Option<(int, seq<Byte>)> {
    var spec1 := if spec == AUTO then GetAutoSpec(input) else spec;
    if spec1 == UTF8 then
      if input.Text? then Some((UTF8, e.toUtf8(input.s))) else None
    else if spec1 == RAW then
      if input.Buffer? then (if input.bytes == [] then None else Some((RAW, input.bytes)))
      else if input.Text? then Some((RAW, e.toUtf8(input.s))) else None
    else if spec1 == JSON then
      match e.stringify(input)
      case JsonText(s) => Some((JSON, e.toUtf8(s)))
      case _ => None
    else None
  }

  /** What bytes with flags are read as; there is an answer for all bytes and all flags. */
  function Decode(e: Engine, bytes: seq<Byte>, flags: int): Js {
    if flags == UTF8 then Text(e.fromUtf8(bytes))
    else if flags == RAW then Buffer(bytes)
    else if flags == JSON then
      match e.parse(e.fromUtf8(bytes))
      case Some(v) => v
      case None => Buffer(bytes)
    else Buffer(bytes)
  }

  /** The C++ encoder, which writes the bytes into the buffers of the batch. The empty text has no
      region; flags may be set even if it fails. */
  method Encode(e: Engine, input: Js, spec: int, buf: BufferList) returns (ok: bool, flags: int, k: Option<Region>)
    requires buf.Valid() && buf.Intact()
    modifies buf, buf.Blocks()
    ensures buf.Valid() && buf.Intact()
    ensures ok <==> Encoded(e, input, spec).Some?
    ensures ok ==> var (f, bytes) := Encoded(e, input, spec).value;
                   && flags == f
                   && if bytes == [] then k.None? else k.Some? && Has(buf.regions, buf.stored, k.value, bytes)
    decreases if spec == UTF8 then 0 else 1
  {
    hide BufferList.RegionOk;
    ok, flags, k := false, 0, None;
    var spec1 := spec;
    if spec1 == INVALID {
      return;
    }
    if spec1 == AUTO {
      spec1 := GetAutoSpec(input);
    }
    if spec1 == UTF8 {
      flags := UTF8;
      if !input.Text? {
        return;
      }
      ok, k := WriteText(e, input.s, buf);
    } else if spec1 == RAW {
      if input.Buffer? {
        flags := RAW;
        if input.bytes == [] {
          return;
        }
        var r := buf.Store(input.bytes);
        assert buf.regions[|buf.regions| - 1] == r;
        ok, k := true, Some(r);
      } else {
        ok, flags, k := Encode(e, input, UTF8, buf);
        flags := RAW;
      }
    } else if spec1 == JSON {
      var text := e.stringify(input);
      if !text.JsonText? {
        return;
      }
      ok, flags, k := Encode(e, Text(text.s), UTF8, buf);
      flags := JSON;
    }
  }

  method WriteText(e: Engine, s: string, buf: BufferList) returns (ok: bool, k: Option<Region>)
    requires buf.Valid() && buf.Intact()
    modifies buf, buf.Blocks()
    ensures buf.Valid() && buf.Intact() && ok
    ensures var bytes := e.toUtf8(s);
            if bytes == [] then k.None? else k.Some? && Has(buf.regions, buf.stored, k.value, bytes)
  {
    var bytes := e.toUtf8(s);
    if bytes == [] {
      return true, None;
    }
    var r := buf.Store(bytes);
    assert buf.regions[|buf.regions| - 1] == r;
    return true, Some(r);
  }

  /** Which values can be stored under which format, with which flags and bytes. */
  lemma StoredExact(e: Engine, v: Js, spec: int)
    ensures Encoded(e, v, spec).Some? <==>
            || (spec == 4 && v.Text?)
            || (spec == 2 && (v.Text? || (v.Buffer? && v.bytes != [])))
            || (spec == 0 && e.stringify(v).JsonText?)
            || (spec == 0x777777 && (v.Text? || (v.Buffer? && v.bytes != [])))
            || (spec == 0x777777 && (v.Number? || v.Array? || v.Object?) && e.stringify(v).JsonText?)
    ensures Encoded(e, v, spec).Some? ==>
              var (flags, bytes) := Encoded(e, v, spec).value;
              && flags == (if spec != 0x777777 then spec else if v.Text? then 4 else if v.Buffer? then 2 else 0)
              && bytes == if flags == 0 then e.toUtf8(e.stringify(v).s) else if v.Text? then e.toUtf8(v.s) else v.bytes
  {
  }

  // ---- Round trips ----

  /** UTF-8 loses nothing of a text. */
  ghost predicate KeepsText(e: Engine) {
    forall s :: e.fromUtf8(e.toUtf8(s)) == s
  }

  /** JSON loses nothing of a value. */
  predicate Jsonable(e: Engine, v: Js) {
    e.stringify(v).JsonText? && e.parse(e.stringify(v).s) == Some(v)
  }

  /** What JSON writes it can read, and never as a Buffer. */
  ghost predicate ReadsOwnJson(e: Engine) {
    forall v :: e.stringify(v).JsonText? ==>
      e.parse(e.stringify(v).s).Some? && !e.parse(e.stringify(v).s).value.Buffer?
  }

  /** The value can be stored, and is read back as it was. */
  predicate RoundTrips(e: Engine, v: Js, spec: int) {
    var stored := Encoded(e, v, spec);
    stored.Some? && Decode(e, stored.value.1, stored.value.0) == v
  }

  lemma JsonReadBack(e: Engine, v: Js)
    requires KeepsText(e) && ReadsOwnJson(e) && e.stringify(v).JsonText?
    ensures Some(Decode(e, e.toUtf8(e.stringify(v).s), JSON)) == e.parse(e.stringify(v).s)
  {
    assert e.fromUtf8(e.toUtf8(e.stringify(v).s)) == e.stringify(v).s;
  }

  /** Under a given format exactly these values are stored and read back as they were: texts as UTF-8,
      non-empty Buffers as raw bytes, and as JSON what JSON keeps. */
  lemma RoundTripExact(e: Engine, v: Js, spec: int)
    requires KeepsText(e) && ReadsOwnJson(e) && spec != AUTO
    ensures RoundTrips(e, v, spec) <==>
            (spec == UTF8 && v.Text?) || (spec == RAW && v.Buffer? && v.bytes != []) || (spec == JSON && Jsonable(e, v))
  {
    if spec == JSON && e.stringify(v).JsonText? { JsonReadBack(e, v); }
  }

  /** A text stored as raw bytes is read back as a Buffer of its UTF-8 bytes; a get that asks for UTF-8
      has the text again. */
  lemma RawTextExact(e: Engine, s: string)
    requires KeepsText(e)
    ensures var stored := Encoded(e, Text(s), RAW);
            && stored.Some?
            && Decode(e, stored.value.1, stored.value.0) == Buffer(e.toUtf8(s))
            && Decode(e, stored.value.1, UTF8) == Text(s)
  {
    assert e.fromUtf8(e.toUtf8(s)) == s;
  }

  /** Under the automatic format exactly these values are: texts, non-empty Buffers, and the numbers,
      arrays and objects that JSON keeps. */
  lemma AutoRoundTripExact(e: Engine, v: Js)
    requires KeepsText(e) && ReadsOwnJson(e)
    ensures RoundTrips(e, v, AUTO) <==>
            v.Text? || (v.Buffer? && v.bytes != []) || ((v.Number? || v.Array? || v.Object?) && Jsonable(e, v))
  {
    RoundTripExact(e, v, GetAutoSpec(v));
  }

  // ---- Formats given with a get ----

  /** A key of a get, with the format option given for it, if any. */
  datatype Wanted = Wanted(key: string, format: Option<Js>)

  /** One response of a get: the stored bytes and flags, or an error. */
  datatype Response = Value(key: string, bytes: seq<Byte>, flags: int) | Failure(key: string)

  /** The format in force: the key's own, else the global one. */
  function FormatOf(w: Wanted, global: Option<Js>): int {
    ToSpec(if w.format.Some? then w.format else global)
  }

  /** What a format option means, whether it is a name, a number, or a false value. */
  lemma FormatExact(input: Option<Js>)
    ensures ToSpec(input) == 4 <==> input in [Some(Text("utf8")), Some(Number(4))]
    ensures ToSpec(input) == 2 <==> input in [Some(Text("raw")), Some(Number(2))]
    ensures ToSpec(input) == 1 <==> input == Some(Number(1))
    ensures ToSpec(input) == 0 <==> input in [Some(Text("json")), Some(Number(0))]
    ensures ToSpec(input) == 0x777777 <==>
            input in [None, Some(Text("auto")), Some(Number(0x777777)), Some(Undefined), Some(Null), Some(Bool(false))]
    ensures ToSpec(input) in [0, 1, 2, 4, 0x777777, -1]
  {
  }

  /** Number to unsigned 32-bit. */
  function ToUint32(n: int): int {
    n % 0x1_0000_0000
  }

  /** The formats that the cookie of a get keeps for its keys: those in force that are not automatic,
      even invalid ones; for a repeated key the last. */
  function Kept(batch: seq<Wanted>, global: Option<Js>): map<string, int> {
    if batch == [] then map[]
    else
      var last := batch[|batch| - 1];
      var before := Kept(batch[..|batch| - 1], global);
      if FormatOf(last, global) == AUTO then before else before[last.key := FormatOf(last, global)]
  }

  /** How the value of a response is read: by the format kept for the key, else by the stored flags. */
  function ReadValue(e: Engine, kept: map<string, int>, r: Response): Option<Js> {
    match r
    case Failure(_) => None
    case Value(key, bytes, flags) => Some(Decode(e, bytes, if key in kept then ToUint32(kept[key]) else flags))
  }

  /** The values in the results of a get after these responses; an entry without a value had an error. */
  function ReadAll(e: Engine, kept: map<string, int>, responses: seq<Response>): map<string, Option<Js>> {
    if responses == [] then map[]
    else
      var r := responses[|responses| - 1];
      ReadAll(e, kept, responses[..|responses| - 1])[r.key := ReadValue(e, kept, r)]
  }

  /** A whole get of several keys: the formats are kept while the batch is built, and each response is
      read when it arrives. */
  method MultiGet(e: Engine, batch: seq<Wanted>, global: Option<Js>, responses: seq<Response>)
    returns (results: map<string, Option<Js>>)
    ensures results == ReadAll(e, Kept(batch, global), responses)
  {
    hide ToSpec, Decode;
    var kept := map[];
    for i := 0 to |batch|
      invariant kept == Kept(batch[..i], global)
    {
      assert batch[..i + 1][..i] == batch[..i];
      var spec := FormatOf(batch[i], global);
      if spec != AUTO {
        kept := kept[batch[i].key := spec];
      }
    }
    assert batch[..|batch|] == batch;
    results := map[];
    for j := 0 to |responses|
      invariant results == ReadAll(e, kept, responses[..j])
    {
      assert responses[..j + 1][..j] == responses[..j];
      results := results[responses[j].key := ReadValue(e, kept, responses[j])];
    }
    assert responses[..|responses|] == responses;
  }

  /** A repeated key has the same format in force everywhere: so it is in an array of keys, where only
      the global format is given, and the keys of an object are not repeated. */
  predicate Consistent(batch: seq<Wanted>, global: Option<Js>) {
    forall i, j :: 0 <= i < j < |batch| && batch[i].key == batch[j].key ==>
      FormatOf(batch[i], global) == FormatOf(batch[j], global)
  }

  lemma {:induction false} KeptExact(batch: seq<Wanted>, global: Option<Js>, i: nat)
    requires i < |batch| && Consistent(batch, global)
    ensures var kept := Kept(batch, global);
            if FormatOf(batch[i], global) == AUTO then batch[i].key !in kept
            else batch[i].key in kept && kept[batch[i].key] == FormatOf(batch[i], global)
  {
    hide ToSpec;
    var last := |batch| - 1;
    if i < last {
      KeptExact(batch[..last], global, i);
    } else if FormatOf(batch[i], global) == AUTO {
      if batch[i].key in Kept(batch, global) {
        var _ := KeptFrom(batch, global, batch[i].key);
      }
    }
  }

  lemma {:induction false} KeptFrom(batch: seq<Wanted>, global: Option<Js>, key: string) returns (j: nat)
    requires key in Kept(batch, global)
    ensures j < |batch| && batch[j].key == key && FormatOf(batch[j], global) != AUTO
  {
    hide ToSpec;
    j := |batch| - 1;
    if FormatOf(batch[j], global) == AUTO || batch[j].key != key {
      j := KeptFrom(batch[..j], global, key);
    }
  }

  /** The last response for a key. */
  function LastFor(responses: seq<Response>, key: string): (r: Option<Response>)
    ensures r.Some? ==> r.value in responses && r.value.key == key
    ensures r.None? <==> forall j :: 0 <= j < |responses| ==> responses[j].key != key
  {
    if responses == [] then None
    else if responses[|responses| - 1].key == key then Some(responses[|responses| - 1])
    else LastFor(responses[..|responses| - 1], key)
  }

  /** What bytes are under a format: a text under UTF-8, a JSON value or else the bytes under JSON, and
      the bytes themselves under any other, known or not; so also under UTF16. */
  function ReadAs(e: Engine, format: int, bytes: seq<Byte>): Js {
    if format == 4 then Text(e.fromUtf8(bytes))
    else if format == 0 && e.parse(e.fromUtf8(bytes)).Some? then e.parse(e.fromUtf8(bytes)).value
    else Buffer(bytes)
  }

  /** What a user is to get for a response: under the automatic format the value by its own flags. */
  function ReadBy(e: Engine, format: int, r: Response): Option<Js> {
    match r
    case Failure(_) => None
    case Value(_, bytes, flags) => Some(ReadAs(e, if format == 0x777777 then flags else format, bytes))
  }

  lemma ReadByFormat(e: Engine, w: Wanted, global: Option<Js>, kept: map<string, int>, r: Response)
    requires r.key == w.key
    requires if FormatOf(w, global) == AUTO then w.key !in kept
             else w.key in kept && kept[w.key] == FormatOf(w, global)
    ensures ReadValue(e, kept, r) == ReadBy(e, FormatOf(w, global), r)
  {
    FormatExact(if w.format.Some? then w.format else global);
  }

  lemma {:induction false} ReadAllKeepsLast(e: Engine, kept: map<string, int>, responses: seq<Response>, key: string)
    ensures var results := ReadAll(e, kept, responses);
            match LastFor(responses, key)
            case None => key !in results
            case Some(r) => key in results && results[key] == ReadValue(e, kept, r)
  {
    hide ReadValue;
    if responses != [] { ReadAllKeepsLast(e, kept, responses[..|responses| - 1], key); }
  }

  /** Whatever responses arrive and in whatever order, the results have an entry for exactly the keys
      responded to, and the entry of every requested key is the last response for it, read by the
      format in force wherever the key is given. */
  lemma {:induction false} OverrideExact(e: Engine, batch: seq<Wanted>, global: Option<Js>, responses: seq<Response>,
                                         key: string)
    requires Consistent(batch, global)
    ensures var results, last := ReadAll(e, Kept(batch, global), responses), LastFor(responses, key);
            && (key in results <==> last.Some?)
            && forall i :: 0 <= i < |batch| && batch[i].key == key && last.Some? ==>
                 var option := if batch[i].format.Some? then batch[i].format else global;
                 results[key] == ReadBy(e, ToSpec(option), last.value)
  {
    hide ToSpec, ReadAll, Kept, LastFor, Decode, ReadBy, ReadValue;
    var kept, last := Kept(batch, global), LastFor(responses, key);
    ReadAllKeepsLast(e, kept, responses, key);
    forall i | 0 <= i < |batch| && batch[i].key == key && last.Some?
      ensures ReadValue(e, kept, last.value) == ReadBy(e, FormatOf(batch[i], global), last.value)
    {
      KeptExact(batch, global, i);
      ReadByFormat(e, batch[i], global, kept, last.value);
    }
  }

  /** If there is one response for each key, the order of arrival makes no difference. */
  lemma OrderIsIrrelevant(e: Engine, kept: map<string, int>, responses: seq<Response>, others: seq<Response>)
    requires multiset(responses) == multiset(others)
    requires forall r, s :: r in responses && s in responses && r.key == s.key ==> r == s
    ensures ReadAll(e, kept, responses) == ReadAll(e, kept, others)
  {
    hide ReadAll, ReadValue;
    forall r ensures r in responses <==> r in others {
      assert r in multiset(responses) <==> r in multiset(others);
    }
    forall key
      ensures key in ReadAll(e, kept, responses) <==> key in ReadAll(e, kept, others)
      ensures key in ReadAll(e, kept, responses) ==>
                ReadAll(e, kept, responses)[key] == ReadAll(e, kept, others)[key]
    {
      ReadAllKeepsLast(e, kept, responses, key);
      ReadAllKeepsLast(e, kept, others, key);
    }
  }
}
