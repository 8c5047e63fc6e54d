/** What the connection knows of an arithmetic operation, and that it refuses the operation exactly when
    the batch cannot be built. */
module Requests {
  import opened Common
  import opened Buffers
  import opened Options
  import opened Specs
  import Cookies
  import opened Connections

  /** The name of a key is its bytes read as a text; only no bytes are read as the empty text. */
  ghost predicate Names(name: seq<Byte> -> string) {
    forall bytes :: name(bytes) == "" <==> bytes == []
  }

  function NameOf(name: seq<Byte> -> string, key: Value): string {
    match BytesOf(key)
    case None => ""
    case Some(bytes) => name(bytes)
  }

  /** The options given for a key parse, and so does the hash key in force. */
  predicate ItemParses(item: Item, params: Option<Value>) {
    var hash := FirstOf(Lookup(item.options, HASHKEY), Lookup(params, HASHKEY));
    HashOk(item.options) && OptionsOk(item.options) && (hash.Some? ==> BytesOf(hash.value).Some?)
  }

  function RequestOf(name: seq<Byte> -> string, keys: Keys, dict: Option<Value>): Request {
    var items := ItemsOf(keys);
    Request(seq(|items|, i requires 0 <= i < |items| => NameOf(name, items[i].key)),
            if IsOn(dict, SPOOLED) then Cookies.Spooled else Cookies.Single,
            OptionsOk(dict) && HashOk(dict) && forall i :: 0 <= i < |items| ==> ItemParses(items[i], dict))
  }

  lemma GoodExact(item: Item, params: Option<Value>)
    ensures SpecOf(item, params).Good? <==> ItemParses(item, params) && BytesOf(item.key).Some?
  {
    hide OptionsOk, HashOk, BytesOf, Supplied;
  }

  lemma BytesNonEmpty(v: Value)
    ensures BytesOf(v).Some? ==> BytesOf(v).value != []
  {
  }

  /** The request names each key of the argument by its bytes, and is spooled if that option is true. */
  lemma RequestExact(name: seq<Byte> -> string, keys: Keys, dict: Option<Value>, i: nat)
    requires i < |ItemsOf(keys)|
    ensures var r := RequestOf(name, keys, dict);
            && |r.keys| == |ItemsOf(keys)|
            && var key := match keys case SingleKey(k) => k case ArrayKeys(ks) => ks[i] case ObjectKeys(ps) => ps[i].0;
               forall bytes :: HasBytes(key, bytes) ==> r.keys[i] == name(bytes)
    ensures RequestOf(name, keys, dict).mode.Spooled? <==>
            var v := PropertyIn(dict, "spooled");
            && v.Some? && !(v.value in [Undefined, Null, Bool(false), Str([])])
            && !(v.value.Num? && v.value.i == 0 && !v.value.more)
  {
    hide OptionsOk, HashOk, ItemParses;
    LookupExact(dict, "spooled");
    var v := PropertyIn(dict, "spooled");
    if v.Some? { TrueExact(v.value); }
  }

  /** The connection accepts a request exactly if the batch of its arguments can be built. */
  lemma AcceptableExact(name: seq<Byte> -> string, keys: Keys, dict: Option<Value>)
    requires Names(name) && |ItemsOf(keys)| < 0x1_0000_0000
    ensures Acceptable(RequestOf(name, keys, dict)) <==> Makeable(keys, dict)
  {
    hide ItemsOf, SpecOf, ItemParses, OptionsOk, HashOk, BytesOf;
    var items, r := ItemsOf(keys), RequestOf(name, keys, dict);
    forall i | 0 <= i < |items|
      ensures SpecOf(items[i], dict).Good? <==> ItemParses(items[i], dict) && r.keys[i] != ""
    {
      GoodExact(items[i], dict);
      BytesNonEmpty(items[i].key);
    }
  }
}
