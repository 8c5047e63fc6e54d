/** The arguments of an arithmetic operation, and the command that each of its keys should become. */
module Specs {
  import opened Common
  import opened Buffers
  import opened Options

  datatype Err = NoErr | Memory | Arguments | Internal

  /** A key, and the dictionary given for it, if keys are given with dictionaries. */
  datatype Item = Item(key: Value, options: Option<Value>)

  /** The "keys" argument: one key, an array of keys, or an object with a dictionary for each. */
  datatype Keys = SingleKey(key: Value) | ArrayKeys(keys: seq<Value>) | ObjectKeys(props: seq<(Value, Value)>)

  function ItemsOf(keys: Keys): (items: seq<Item>) {
    match keys
    case SingleKey(k) => [Item(k, None)]
    case ArrayKeys(ks) => seq(|ks|, i requires 0 <= i < |ks| => Item(ks[i], None))
    case ObjectKeys(ps) => seq(|ps|, i requires 0 <= i < |ps| => Item(ps[i].0, Some(ps[i].1)))
  }

  /** The bytes of a key or a hash key: only non-empty strings, and numbers, have them. */
  function BytesOf(v: Value): Option<seq<Byte>> {
    match v
    case Num(_, _, text) => if text == [] then None else Some(text)
    case Str(utf8) => if utf8 == [] then None else Some(utf8)
    case _ => None
  }

  const HASHKEY := "hashkey"

  /** The hash key option must be a string or a number where it is given. */
  predicate HashOk(dict: Option<Value>) {
    var hash := Lookup(dict, HASHKEY);
    IsDict(dict) && (hash.Some? ==> hash.value.Num? || hash.value.Str?)
  }

  function FirstOf(own: Option<Value>, global: Option<Value>): Option<Value> {
    if own.Some? then own else global
  }

  /** What a key's command should be, or why there is none. */
  datatype Spec =
    | Good(key: seq<Byte>, hashkey: Option<seq<Byte>>, delta: int, initial: int, create: bool, exptime: int)
    | Bad(err: Err)

  function SpecOf(item: Item, params: Option<Value>): (s: Spec)
    ensures s.Bad? ==> s.err == Arguments || s.err == Internal
  {
    var hash := FirstOf(Lookup(item.options, HASHKEY), Lookup(params, HASHKEY));
    if !HashOk(item.options) then Bad(Arguments)
    else if hash.Some? && BytesOf(hash.value).None? then Bad(Internal)
    else if BytesOf(item.key).None? then Bad(Internal)
    else if !OptionsOk(item.options) then Bad(Arguments)
    else Good(BytesOf(item.key).value,
              if hash.Some? then BytesOf(hash.value) else None,
              InForce(Supplied(I64, item.options, OFFSET), Supplied(I64, params, OFFSET)),
              InForce(Supplied(U64, item.options, INITIAL), Supplied(U64, params, INITIAL)),
              Supplied(U64, item.options, INITIAL).Some? || Supplied(U64, params, INITIAL).Some?,
              InForce(Supplied(U32, item.options, EXPIRY), Supplied(U32, params, EXPIRY)))
  }

  ghost predicate AllGood(batch: seq<Item>, params: Option<Value>, k: nat)
    requires k <= |batch|
  {
    forall i :: 0 <= i < k ==> SpecOf(batch[i], params).Good?
  }

  /** There is a key, and the global options are in order. */
  predicate Startable(keys: Keys, dict: Option<Value>) {
    ItemsOf(keys) != [] && OptionsOk(dict) && HashOk(dict)
  }

  /** Besides, every key is in order with its own options. */
  ghost predicate Makeable(keys: Keys, dict: Option<Value>) {
    Startable(keys, dict) && AllGood(ItemsOf(keys), dict, |ItemsOf(keys)|)
  }

  // ---- What the arguments mean, by their parts ----

  /** The property of a dictionary. */
  function PropertyIn(dict: Option<Value>, name: string): Option<Value> {
    match dict
    case Some(Obj(props)) => if name in props then Some(props[name]) else None
    case _ => None
  }

  /** The number that a dictionary has under a name. */
  function NumberIn(dict: Option<Value>, name: string): Option<int> {
    match PropertyIn(dict, name)
    case Some(Num(i, _, _)) => Some(i)
    case _ => None
  }

  /** The number is the key's own, else the global one, else zero. */
  predicate Chosen(n: int, own: Option<int>, global: Option<int>) {
    && (own.Some? ==> n == own.value)
    && (own.None? && global.Some? ==> n == global.value)
    && (own.None? && global.None? ==> n == 0)
  }

  /** A number modulo 2^64. */
  function Unsigned(n: Option<int>): Option<int> {
    if n.Some? then Some(n.value % 0x1_0000_0000_0000_0000) else None
  }

  /** The value is a string or number of these bytes, and they are not empty. */
  predicate HasBytes(v: Value, bytes: seq<Byte>) {
    bytes != [] && (v == Str(bytes) || (v.Num? && v.text == bytes))
  }

  /** The command is the one for this key, with the key's own options before the global ones. */
  predicate CommandFor(s: Spec, key: Value, own: Option<Value>, global: Option<Value>) {
    && s.Good? && HasBytes(key, s.key)
    && Chosen(s.delta, NumberIn(own, "offset"), NumberIn(global, "offset"))
    && Chosen(s.exptime, NumberIn(own, "expiry"), NumberIn(global, "expiry"))
    && (s.create <==> NumberIn(own, "initial").Some? || NumberIn(global, "initial").Some?)
    && Chosen(s.initial, Unsigned(NumberIn(own, "initial")), Unsigned(NumberIn(global, "initial")))
    && var ownHash, globalHash := PropertyIn(own, "hashkey"), PropertyIn(global, "hashkey");
       && (s.hashkey.Some? <==> ownHash.Some? || globalHash.Some?)
       && (ownHash.Some? ==> HasBytes(ownHash.value, s.hashkey.value))
       && (ownHash.None? && globalHash.Some? ==> HasBytes(globalHash.value, s.hashkey.value))
  }

  /** There is a command for each key of the argument, in order. */
  predicate CommandsFor(sent: seq<Spec>, keys: Keys, dict: Option<Value>) {
    match keys
    case SingleKey(k) => |sent| == 1 && CommandFor(sent[0], k, None, dict)
    case ArrayKeys(ks) => |sent| == |ks| && forall i :: 0 <= i < |ks| ==> CommandFor(sent[i], ks[i], None, dict)
    case ObjectKeys(ps) =>
      |sent| == |ps| && forall i :: 0 <= i < |ps| ==> CommandFor(sent[i], ps[i].0, Some(ps[i].1), dict)
  }

  /** A dictionary can be an object, or a value that is false in its place. */
  predicate Usable(dict: Option<Value>) {
    match dict
    case Some(Num(i, more, _)) => i == 0 && !more
    case Some(Str(s)) => s == []
    case Some(Bool(b)) => !b
    case _ => true
  }

  /** An option may be missing, undefined, null, false, or a number. */
  predicate NumberOrFalse(v: Option<Value>) {
    v.Some? ==> v.value.Num? || v.value in [Undefined, Null, Bool(false)]
  }

  predicate NumbersFine(dict: Option<Value>) {
    && NumberOrFalse(PropertyIn(dict, "offset"))
    && NumberOrFalse(PropertyIn(dict, "initial"))
    && NumberOrFalse(PropertyIn(dict, "expiry"))
    && (NumberIn(dict, "expiry").Some? ==> 0 <= NumberIn(dict, "expiry").value < 0x1_0000_0000)
  }

  predicate HashFine(dict: Option<Value>) {
    Usable(dict) && (var hash := PropertyIn(dict, "hashkey"); hash.Some? ==> hash.value.Num? || hash.value.Str?)
  }

  /** A key is a number or a string, and not empty. */
  predicate KeyFine(v: Value) {
    (v.Str? && v.utf8 != []) || (v.Num? && v.text != [])
  }

  predicate HashNonEmpty(own: Option<Value>, global: Option<Value>) {
    var ownHash, globalHash := PropertyIn(own, "hashkey"), PropertyIn(global, "hashkey");
    (ownHash.Some? ==> KeyFine(ownHash.value)) && (ownHash.None? && globalHash.Some? ==> KeyFine(globalHash.value))
  }

  predicate KeysFine(key: Value, own: Option<Value>, global: Option<Value>) {
    HashFine(own) && HashNonEmpty(own, global) && KeyFine(key)
  }

  predicate ItemFine(key: Value, own: Option<Value>, global: Option<Value>) {
    KeysFine(key, own, global) && NumbersFine(own)
  }

  lemma LookupExact(dict: Option<Value>, name: string)
    ensures Lookup(dict, name) == PropertyIn(dict, name)
  {
  }

  lemma SuppliedExact(w: Width, dict: Option<Value>, name: string)
    requires Accepted(w, Lookup(dict, name))
    ensures (Supplied(w, dict, name).Some? <==> NumberIn(dict, name).Some?)
    ensures NumberIn(dict, name).Some? ==>
              Supplied(w, dict, name).value ==
              if w.U64? then NumberIn(dict, name).value % 0x1_0000_0000_0000_0000 else NumberIn(dict, name).value
  {
    LookupExact(dict, name);
    if NumberIn(dict, name).Some? { ParseNumberExact(w, EMPTY, Lookup(dict, name).value); }
  }

  lemma OptionsExact(dict: Option<Value>)
    ensures OptionsOk(dict) <==> Usable(dict) && NumbersFine(dict)
    ensures HashOk(dict) <==> HashFine(dict)
  {
    LookupExact(dict, "offset");
    LookupExact(dict, "initial");
    LookupExact(dict, "expiry");
    LookupExact(dict, "hashkey");
    if dict.Some? { TrueExact(dict.value); }
  }

  /** Which items have a command, and with which error the others fail: the hash key's kind is looked at
      first, then the bytes of the hash key in force and of the key, then the numbers. */
  lemma ItemExact(item: Item, params: Option<Value>)
    ensures var s := SpecOf(item, params);
            && (s.Good? <==> ItemFine(item.key, item.options, params))
            && (s == Bad(Internal) <==>
                  HashFine(item.options) && !(HashNonEmpty(item.options, params) && KeyFine(item.key)))
            && (s == Bad(Arguments) <==>
                  !HashFine(item.options)
                  || (KeysFine(item.key, item.options, params) && !NumbersFine(item.options)))
  {
    OptionsExact(item.options);
    LookupExact(item.options, "hashkey");
    LookupExact(params, "hashkey");
    if HashFine(item.options) { UsableIfFine(item.options); }
    hide OptionsOk, HashOk, NumbersFine, HashFine, Supplied, Lookup, PropertyIn;
  }

  lemma UsableIfFine(dict: Option<Value>)
    requires HashFine(dict)
    ensures Usable(dict)
  {
  }

  lemma CommandExact(item: Item, params: Option<Value>)
    requires SpecOf(item, params).Good? && OptionsOk(params)
    ensures CommandFor(SpecOf(item, params), item.key, item.options, params)
  {
    LookupExact(item.options, "hashkey");
    LookupExact(params, "hashkey");
    SuppliedExact(I64, item.options, "offset");
    SuppliedExact(I64, params, "offset");
    SuppliedExact(U64, item.options, "initial");
    SuppliedExact(U64, params, "initial");
    SuppliedExact(U32, item.options, "expiry");
    SuppliedExact(U32, params, "expiry");
    hide Supplied, Lookup, PropertyIn, NumberIn, HashOk;
  }

  /** The commands made for the keys of an argument are those of its keys, in order, each with the
      dictionary given for it. */
  lemma CommandsExact(sent: seq<Spec>, keys: Keys, dict: Option<Value>)
    requires Makeable(keys, dict) && |sent| == |ItemsOf(keys)|
    requires forall i :: 0 <= i < |sent| ==> sent[i] == SpecOf(ItemsOf(keys)[i], dict)
    ensures CommandsFor(sent, keys, dict)
  {
    hide SpecOf, CommandFor, OptionsOk, HashOk;
    forall i | 0 <= i < |sent|
      ensures CommandFor(sent[i], ItemsOf(keys)[i].key, ItemsOf(keys)[i].options, dict)
    {
      CommandExact(ItemsOf(keys)[i], dict);
    }
  }

  /** An operation can be made exactly if there is a key, the global options are in order, and so is
      every key with the dictionary given for it. */
  lemma MakeableExact(keys: Keys, dict: Option<Value>)
    ensures Makeable(keys, dict) <==>
            && HashFine(dict) && NumbersFine(dict)
            && match keys
               case SingleKey(k) => ItemFine(k, None, dict)
               case ArrayKeys(ks) => ks != [] && forall i :: 0 <= i < |ks| ==> ItemFine(ks[i], None, dict)
               case ObjectKeys(ps) => ps != [] && forall i :: 0 <= i < |ps| ==> ItemFine(ps[i].0, Some(ps[i].1), dict)
  {
    OptionsExact(dict);
    if HashFine(dict) { UsableIfFine(dict); }
    hide SpecOf, ItemFine, OptionsOk, HashOk, NumbersFine, HashFine, Usable;
    forall i | 0 <= i < |ItemsOf(keys)|
      ensures var item := ItemsOf(keys)[i]; SpecOf(item, dict).Good? <==> ItemFine(item.key, item.options, dict)
    {
      ItemExact(ItemsOf(keys)[i], dict);
    }
    match keys
    case SingleKey(k) => assert ItemsOf(keys)[0] == Item(k, None);
    case ArrayKeys(ks) =>
      forall i | 0 <= i < |ks| ensures SpecOf(ItemsOf(keys)[i], dict).Good? <==> ItemFine(ks[i], None, dict) { }
    case ObjectKeys(ps) =>
      forall i | 0 <= i < |ps|
        ensures SpecOf(ItemsOf(keys)[i], dict).Good? <==> ItemFine(ps[i].0, Some(ps[i].1), dict) { }
  }
}
