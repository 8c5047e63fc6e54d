/** Query objects: how parameter objects are normalised in place, copied and combined. */
module ViewQueries {

  /** A parameter value. An object or array has an identity and a text it converts to; the text that
      JSON.stringify makes of a value, and such a text with "1" appended, are known by that value. */
  datatype Param =
    | Undefined
    | Null
    | Bool(b: bool)
    | Num(n: int)
    | Text(s: string)
    | Object(id: int, text: string)
    | Encoded(of: Param)
    | Suffixed(of: Param)

  type Params = map<string, Param>

  predicate IsViewField(k: string) {
    k in {"descending", "endkey", "endkey_docid", "full_set", "group", "group_level", "inclusive_end",
          "include_docs", "key", "keys", "limit", "on_error", "reduce", "skip", "stale", "startkey",
          "startkey_docid"}
  }

  predicate IsJsonField(k: string) {
    k in {"endkey", "key", "keys", "startkey"}
  }

  const DEFAULT_LIMIT := 10

  /** JSON.stringify; it makes nothing of undefined. */
  function Stringify(v: Param): Param {
    if v.Undefined? then Undefined else Encoded(v)
  }

  /** What normalisation leaves of one field. */
  function Norm(k: string, v: Param): Param {
    if IsJsonField(k) then Stringify(v) else v
  }

  function Normalized(m: Params): Params {
    map k | k in m && IsViewField(k) :: Norm(k, m[k])
  }

  /** A JavaScript object that holds parameters. */
  class Dict {
    var m: Params

    constructor (m: Params)
      ensures this.m == m
    {
      this.m := m;
    }
  }

  lemma CopyOne(base: Params, src: Params, todo: set<string>, k: string)
    requires todo <= src.Keys && k in todo
    ensures (base + (src - todo))[k := src[k]] == base + (src - (todo - {k}))
  {
    var l, r := (base + (src - todo))[k := src[k]], base + (src - (todo - {k}));
    assert forall x :: x in l <==> x in r;
    assert forall x :: x in l ==> l[x] == r[x];
  }

  /** Copies the properties of src over those of dest. */
  method Extend(dest: Dict, src: Dict?)
    requires dest != src
    modifies dest
    ensures dest.m == old(dest.m) + (if src == null then map[] else old(src.m))
  {
    if src != null {
      var todo := src.m.Keys;
      while todo != {}
        invariant todo <= src.m.Keys
        invariant dest.m == old(dest.m) + (src.m - todo)
        decreases |todo|
      {
        var k :| k in todo;
        CopyOne(old(dest.m), src.m, todo, k);
        dest.m := dest.m[k := src.m[k]];
        todo := todo - {k};
      }
    }
  }

  /** Drops unknown fields and encodes the JSON fields, in the caller's object. */
  method NormalizeQuery(query: Dict?)
    modifies query
    ensures query != null ==> query.m == Normalized(old(query.m))
  {
    hide IsJsonField, IsViewField;
    if query != null {
      var todo := query.m.Keys;
      ghost var was := query.m;
      while todo != {}
        invariant todo <= was.Keys
        invariant query.m == (map k | k in was.Keys && (k in todo || IsViewField(k)) ::
                                if k in todo then was[k] else Norm(k, was[k]))
        decreases |todo|
      {
        var k :| k in todo;
        if !IsViewField(k) {
          query.m := query.m - {k};
        } else if IsJsonField(k) {
          query.m := query.m[k := Stringify(query.m[k])];
        }
        todo := todo - {k};
      }
    }
  }

  /** What a call's own parameters contribute. */
  ghost function Given(params: Dict?): Params
    reads params
  {
    if params == null then map[] else Normalized(params.m)
  }

  class ViewQuery {
    var q: Dict

    /** The query keeps the caller's own object. */
    constructor (params: Dict?)
      modifies params
      ensures if params == null then fresh(q) else q == params
      ensures q.m == old(Given(params))
    {
      var p := params;
      if p == null {
        p := new Dict(map[]);
      }
      NormalizeQuery(p);
      q := p;
      new;
      if params == null { assert q.m == map[]; }
    }

    /** Sends a query; the stored parameters are overridden by the given ones. */
    method Query(params: Dict?) returns (sent: Params)
      modifies params
      ensures sent == old(q.m) + old(Given(params))
      ensures params != null ==> params.m == Normalized(old(params.m))
    {
      var all := new Dict(map[]);
      Extend(all, q);
      NormalizeQuery(params);
      Extend(all, params);
      sent := all.m;
    }

    /** A new query with parameters of its own. This query is left alone, unless it is asked to
        override itself with the very object it keeps. */
    method Clone(params: Dict?) returns (c: ViewQuery)
      modifies params
      ensures fresh(c) && fresh(c.q) && q == old(q)
      ensures c.q.m == old(q.m) + old(Given(params))
      ensures params != null ==> params.m == Normalized(old(params.m))
      ensures q.m == if params == q then Normalized(old(q.m)) else old(q.m)
    {
      hide IsJsonField, IsViewField;
      var empty := new Dict(map[]);
      c := new ViewQuery(empty);
      var all := new Dict(map[]);
      Extend(all, q);
      NormalizeQuery(params);
      Extend(all, params);
      c.q := all;
    }

    /** Prepares the first page's request. */
    method FirstPage(params: Dict?) returns (sent: Params)
      modifies params, q
      ensures q == old(q)
      ensures (sent, q.m) ==
              FirstRequest(old(q.m), old(Given(params)), if params == q then old(Given(params)) else old(q.m))
    {
      hide IsJsonField, IsViewField;
      var all := new Dict(map[]);
      Extend(all, q);
      NormalizeQuery(params);
      Extend(all, params);
      ghost var asked := all.m;
      assert asked == old(q.m) + old(Given(params));
      if !HasLimit(all.m) {
        all.m := all.m["limit" := Num(DEFAULT_LIMIT)];
        q.m := q.m["limit" := Num(DEFAULT_LIMIT)];
      }
      var more := PlusOne(all.m["limit"]);
      all.m := all.m["limit" := more];
      sent := all.m;
      assert asked["limit" := Num(DEFAULT_LIMIT)]["limit" := more] == asked["limit" := more];
    }
  }

  /** The limit is neither null nor undefined. */
  predicate HasLimit(m: Params) {
    "limit" in m && !m["limit"].Undefined? && !m["limit"].Null?
  }

  /** What a value that is set adds up as. */
  function Primitive(p: Param): Param {
    match p
    case Bool(b) => Num(if b then 1 else 0)
    case Object(_, text) => Text(text)
    case _ => p
  }

  /** The addition of 1, which appends to a text. */
  function PlusOne(p: Param): Param {
    match Primitive(p)
    case Num(n) => Num(n + 1)
    case Text(s) => Text(s + "1")
    case other => Suffixed(other)
  }

  /** The first page's request, and the stored parameters after it: one row more than the page size is
      asked for, and a missing limit is set to the default in the stored parameters too. `kept` is what
      normalising the given object has left of the stored one. */
  function FirstRequest(stored: Params, given: Params, kept: Params): (Params, Params) {
    var asked := stored + given;
    if HasLimit(asked) then (asked["limit" := PlusOne(asked["limit"])], kept)
    else (asked["limit" := Num(DEFAULT_LIMIT + 1)], kept["limit" := Num(DEFAULT_LIMIT)])
  }

  /** What the first page's request is, and what becomes of the stored parameters. Every field but the
      limit is sent iff it is stored or given, with the given value if there is one. The limit in force
      is the given one, even if that is null or undefined, else the stored one. If it is null or
      undefined, or there is none, 11 is sent and 10 is stored; else 1 is added and nothing is stored. */
  lemma FirstPageExact(stored: Params, given: Params, kept: Params)
    ensures var (sent, after) := FirstRequest(stored, given, kept);
            && (forall k :: k != "limit" ==> (k in sent <==> k in stored || k in given))
            && (forall k :: k != "limit" && k in sent ==> sent[k] == if k in given then given[k] else stored[k])
            && "limit" in sent
            && var limit := if "limit" in given then given["limit"]
                            else if "limit" in stored then stored["limit"] else Undefined;
               && (limit == Undefined || limit == Null ==>
                     sent["limit"] == Num(11) && after == kept["limit" := Num(10)])
               && (limit != Undefined && limit != Null ==> after == kept)
               && (limit.Num? ==> sent["limit"] == Num(limit.n + 1))
               && (limit.Text? ==> sent["limit"] == Text(limit.s + "1"))
               && (limit.Bool? ==> sent["limit"] == Num(if limit.b then 2 else 1))
               && (limit.Object? ==> sent["limit"] == Text(limit.text + "1"))
  {
  }

  lemma PlusOneIsInjective(p: Param, q: Param)
    ensures PlusOne(p) == PlusOne(q) <==> Primitive(p) == Primitive(q)
  {
    if PlusOne(p) == PlusOne(q) && PlusOne(p).Text? {
      var s, t := Primitive(p).s, Primitive(q).s;
      assert s == (s + "1")[..|s + "1"| - 1] && t == (t + "1")[..|t + "1"| - 1];
    }
  }

  /** Later requests are made from the stored parameters, so the first page has the size of the others
      exactly when its own parameters give no limit, or one that counts as much as the stored one. */
  lemma PageSizeExact(stored: Params, given: Params)
    ensures var (sent, after) := FirstRequest(stored, given, stored);
            (HasLimit(after) && sent["limit"] == PlusOne(after["limit"])) <==>
            (HasLimit(given) ==> HasLimit(stored) && Primitive(given["limit"]) == Primitive(stored["limit"]))
  {
    if HasLimit(given) && HasLimit(stored) { PlusOneIsInjective(given["limit"], stored["limit"]); }
    hide PlusOne, Primitive;
    var (sent, after) := FirstRequest(stored, given, stored);
    if !HasLimit(given) && HasLimit(stored + given) {
      assert "limit" !in given;
    }
  }

  /** The parameters sent at the end of a chain: the first object makes the query, each other but the
      last a clone, and the last is given to `query`. */
  function Sent(objects: seq<Params>): Params {
    if objects == [] then map[]
    else Sent(objects[..|objects| - 1]) + Normalized(objects[|objects| - 1])
  }

  /** The last object of the chain that has the field. */
  predicate GivenLast(objects: seq<Params>, k: string, i: nat) {
    i < |objects| && k in objects[i] && forall j :: i < j < |objects| ==> k !in objects[j]
  }

  /** What is sent are exactly the known view fields given anywhere in the chain, each with the value
      given last, JSON-encoded once if it is a JSON field that is set, and not at all if it is not. */
  lemma SentExact(objects: seq<Params>, k: string)
    ensures k in Sent(objects) <==>
            k in ["descending", "endkey", "endkey_docid", "full_set", "group", "group_level", "inclusive_end",
                  "include_docs", "key", "keys", "limit", "on_error", "reduce", "skip", "stale", "startkey",
                  "startkey_docid"]
            && exists i: nat :: GivenLast(objects, k, i)
    ensures forall i: nat :: GivenLast(objects, k, i) && k in Sent(objects) ==>
              Sent(objects)[k] ==
              if k in ["key", "keys", "startkey", "endkey"] && objects[i][k] != Undefined then Encoded(objects[i][k])
              else objects[i][k]
  {
    SentByFields(objects, k);
    hide Sent, GivenLast;
  }

  lemma {:induction false} SentByFields(objects: seq<Params>, k: string)
    ensures k in Sent(objects) <==> IsViewField(k) && exists i: nat :: GivenLast(objects, k, i)
    ensures forall i: nat :: GivenLast(objects, k, i) && IsViewField(k) ==> Sent(objects)[k] == Norm(k, objects[i][k])
  {
    hide IsJsonField, IsViewField, Norm;
    if objects != [] {
      var n := |objects| - 1;
      SentByFields(objects[..n], k);
      if k in objects[n] {
        assert GivenLast(objects, k, n);
        forall i: nat ensures GivenLast(objects, k, i) ==> i == n { }
      } else {
        forall i: nat ensures GivenLast(objects, k, i) <==> GivenLast(objects[..n], k, i) { }
        if k in Sent(objects[..n]) {
          var i: nat :| GivenLast(objects[..n], k, i);
          assert GivenLast(objects, k, i);
        }
      }
    }
  }

  /** A parameter object is changed by its use, so it may be used twice exactly when it holds no JSON
      field that is set. */
  lemma ReuseExact(m: Params)
    ensures Normalized(Normalized(m)) == Normalized(m) <==>
            forall k :: k in m && k in ["key", "keys", "startkey", "endkey"] ==> m[k] == Undefined
  {
    var once := Normalized(m);
    var twice := Normalized(once);
    forall k | k in m && IsJsonField(k) && !m[k].Undefined? ensures twice != once {
      JsonFieldsAreViewFields(k);
      NotItsOwnEncoding(once[k]);
      assert twice[k] == Encoded(once[k]);
    }
    hide IsJsonField, IsViewField;
    assert twice.Keys == once.Keys;
    if forall k :: k in m && IsJsonField(k) ==> m[k].Undefined? {
      forall k | k in once ensures twice[k] == once[k] { }
      assert twice == once;
    }
  }

  lemma JsonFieldsAreViewFields(k: string)
    requires IsJsonField(k)
    ensures IsViewField(k)
  {
  }

  lemma {:induction false} NotItsOwnEncoding(p: Param)
    ensures Encoded(p) != p
  {
    if p.Encoded? { NotItsOwnEncoding(p.of); }
  }

  /** A chain of any length on query objects sends what the specification says, as long as every
      object of parameters is used once; and each query made on the way keeps, to the end, what the
      chain up to it has given. */
  method SendChain(objects: seq<Dict>) returns (sent: Params, queries: seq<ViewQuery>)
    requires |objects| >= 2
    requires forall i, j :: 0 <= i < j < |objects| ==> objects[i] != objects[j]
    modifies objects
    ensures sent == Sent(old(ValuesOf(objects)))
    ensures |queries| == |objects| - 1
    ensures forall i :: 0 <= i < |queries| ==> queries[i].q.m == Sent(old(ValuesOf(objects))[..i + 1])
  {
    hide IsJsonField, IsViewField, Normalized;
    ghost var given := ValuesOf(objects);
    var query := new ViewQuery(objects[0]);
    assert given[..1][..0] == [];
    queries := [query];
    for i := 1 to |objects| - 1
      invariant |queries| == i && queries[i - 1] == query
      invariant forall j :: 0 <= j < i ==> fresh(queries[j]) && queries[j].q.m == Sent(given[..j + 1])
      invariant queries[0].q == objects[0]
      invariant forall j :: 1 <= j < i ==> fresh(queries[j].q)
      invariant forall j :: i <= j < |objects| ==> objects[j].m == given[j]
    {
      assert given[..i + 1][..i] == given[..i];
      query := query.Clone(objects[i]);
      queries := queries + [query];
    }
    var n := |objects| - 1;
    assert given[..n] == given[..|given| - 1];
    sent := query.Query(objects[n]);
  }

  ghost function ValuesOf(objects: seq<Dict>): (values: seq<Params>)
    reads objects
    ensures |values| == |objects|
    ensures forall i :: 0 <= i < |objects| ==> values[i] == objects[i].m
  {
    if objects == [] then [] else [objects[0].m] + ValuesOf(objects[1..])
  }
}
