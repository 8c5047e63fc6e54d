/** Options given with an operation: JavaScript values parsed into typed slots. */
module Options {
  import opened Common
  import opened Buffers

  type Int64 = x: int | -0x8000_0000_0000_0000 <= x < 0x8000_0000_0000_0000

  /** A JavaScript value. A number is known by its conversion to a 64-bit integer, by whether there is
      more to it than that integer, and by its text; a string by its UTF-8 bytes. */
  datatype Value =
    | Undefined
    | Null
    | Bool(b: bool)
    | Num(i: Int64, more: bool, text: seq<Byte>)
    | Str(utf8: seq<Byte>)
    | Obj(props: map<string, Value>)

  predicate IsTrue(v: Value) {
    match v
    case Undefined => false
    case Null => false
    case Bool(b) => b
    case Num(i, more, _) => i != 0 || more
    case Str(s) => s != []
    case Obj(_) => true
  }

  datatype ParseStatus = OptionEmpty | OptionError | OptionFound | OptionFalse

  datatype Width = U32 | I32 | U64 | I64

  /** The C++ conversions between a 64-bit integer and the slot's type. */
  function Cast(w: Width, x: Int64): int {
    match w
    case U32 => x % 0x1_0000_0000
    case I32 => (x + 0x8000_0000) % 0x1_0000_0000 - 0x8000_0000
    case U64 => x % 0x1_0000_0000_0000_0000
    case I64 => x
  }

  function CastBack(w: Width, v: int): int {
    if w.U64? && v >= 0x8000_0000_0000_0000 then v - 0x1_0000_0000_0000_0000 else v
  }

  datatype Slot = Slot(status: ParseStatus, v: int)

  const EMPTY := Slot(OptionEmpty, 0)

  predicate IsFalse(v: Value) {
    v.Undefined? || v.Null? || v == Bool(false)
  }

  function ParseNumber(w: Width, s: Slot, value: Value): Slot {
    if IsFalse(value) then s.(status := OptionFalse)
    else if !value.Num? then s.(status := OptionError)
    else Slot(if CastBack(w, Cast(w, value.i)) != value.i then OptionError else OptionFound, Cast(w, value.i))
  }

  /** The numbers that the type of a slot represents; an unsigned 64-bit slot takes every number. */
  predicate Fits(w: Width, i: Int64) {
    (w.U32? ==> 0 <= i < 0x1_0000_0000) && (w.I32? ==> -0x8000_0000 <= i < 0x8000_0000)
  }

  /** A value counts as true exactly if it is none of these. */
  lemma TrueExact(v: Value)
    ensures IsTrue(v) <==>
            v != Undefined && v != Null && v != Bool(false) && v != Str([]) && !(v.Num? && v.i == 0 && !v.more)
  {
  }

  /** A number is accepted exactly if it fits; 32-bit and signed slots then hold the number itself, and
      an unsigned 64-bit slot holds it modulo 2^64. */
  lemma ParseNumberExact(w: Width, s: Slot, value: Value)
    ensures var t := ParseNumber(w, s, value);
            && (t.status.OptionFound? <==> value.Num? && Fits(w, value.i))
            && (t.status.OptionFalse? <==> value in [Undefined, Null, Bool(false)])
            && (t.status.OptionError? <==> !t.status.OptionFalse? && !(value.Num? && Fits(w, value.i)))
            && (t.status.OptionFound? ==>
                  if w.U64? then 0 <= t.v < 0x1_0000_0000_0000_0000 && (t.v - value.i) % 0x1_0000_0000_0000_0000 == 0
                  else t.v == value.i)
            && (t.status.OptionFalse? ==> t.v == s.v)
  {
  }

  class NumericSlot {
    const width: Width
    const name: string
    var status: ParseStatus
    var v: int

    ghost function Abs(): Slot
      reads this
    {
      Slot(status, v)
    }

    constructor (width: Width, name: string)
      ensures this.width == width && this.name == name && Abs() == EMPTY
    {
      this.width, this.name, status, v := width, name, OptionEmpty, 0;
    }

    method ParseValue(value: Value) returns (s: ParseStatus)
      modifies this
      ensures Abs() == ParseNumber(width, old(Abs()), value) && s == status
    {
      if IsFalse(value) {
        status := OptionFalse;
        return status;
      }
      if !value.Num? {
        status := OptionError;
        return status;
      }
      v := Cast(width, value.i);
      status := if CastBack(width, v) != value.i then OptionError else OptionFound;
      return status;
    }

    method Assign(other: NumericSlot)
      modifies this
      ensures Abs() == old(other.Abs())
    {
      status, v := other.status, other.v;
    }
  }

  /** The property of a dictionary; no dictionary, and a false value in its place, have none. */
  function Lookup(dict: Option<Value>, name: string): Option<Value> {
    if dict.Some? && dict.value.Obj? && name in dict.value.props then Some(dict.value.props[name]) else None
  }

  /** A true value that is not an object cannot be a dictionary. */
  predicate IsDict(dict: Option<Value>) {
    dict.Some? ==> dict.value.Obj? || !IsTrue(dict.value)
  }

  /** A slot after its property has been parsed. */
  function After(w: Width, s: Slot, value: Option<Value>): Slot {
    match value
    case None => s
    case Some(x) => ParseNumber(w, s, x)
  }

  predicate Accepted(w: Width, value: Option<Value>) {
    value.Some? ==> IsFalse(value.value) || (value.value.Num? && Fits(w, value.value.i))
  }

  /** Parses the properties of a dictionary into slots of their own. It succeeds exactly if there is a
      usable dictionary, or none, and every property is accepted; then each slot that has a property
      holds it, and the others are left alone. */
  method ParseAll(dict: Option<Value>, specs: seq<NumericSlot>) returns (ok: bool)
    requires forall i, j :: 0 <= i < j < |specs| ==> specs[i] != specs[j]
    modifies specs
    ensures ok <==> IsDict(dict) &&
                    forall i :: 0 <= i < |specs| ==> Accepted(specs[i].width, Lookup(dict, specs[i].name))
    ensures ok ==> forall i :: 0 <= i < |specs| ==>
                     specs[i].Abs() == After(specs[i].width, old(specs[i].Abs()), Lookup(dict, specs[i].name))
  {
    if dict.None? {
      return true;
    }
    if !dict.value.Obj? {
      return !IsTrue(dict.value);
    }
    if |dict.value.props| == 0 {
      return true;
    }
    hide ParseNumber;
    for i := 0 to |specs|
      invariant forall j :: 0 <= j < i ==> Accepted(specs[j].width, Lookup(dict, specs[j].name))
      invariant forall j :: 0 <= j < i ==>
                  specs[j].Abs() == After(specs[j].width, old(specs[j].Abs()), Lookup(dict, specs[j].name))
      invariant forall j :: i <= j < |specs| ==> specs[j].Abs() == old(specs[j].Abs())
    {
      var cur := specs[i];
      if cur.name in dict.value.props {
        var value := dict.value.props[cur.name];
        ParseNumberExact(cur.width, cur.Abs(), value);
        var s := cur.ParseValue(value);
        if s == OptionError {
          return false;
        }
      }
    }
    return true;
  }

  /** What a caller supplies for an option: a number that fits. */
  function Supplied(w: Width, dict: Option<Value>, name: string): Option<int> {
    var value := Lookup(dict, name);
    if value.Some? && value.value.Num? && Fits(w, value.value.i) then Some(Cast(w, value.value.i)) else None
  }

  /** The option in force: the key's own, else the global one, else zero. */
  function InForce(own: Option<int>, global: Option<int>): int {
    if own.Some? then own.value else if global.Some? then global.value else 0
  }

  /** What a slot holds once parsed from a dictionary. */
  predicate Holds(s: Slot, supplied: Option<int>) {
    (s.status.OptionFound? <==> supplied.Some?) && s.v == (if supplied.Some? then supplied.value else 0)
  }

  lemma ParsedHolds(w: Width, dict: Option<Value>, name: string)
    requires Accepted(w, Lookup(dict, name))
    ensures Holds(After(w, EMPTY, Lookup(dict, name)), Supplied(w, dict, name))
  {
    if Lookup(dict, name).Some? { ParseNumberExact(w, EMPTY, Lookup(dict, name).value); }
  }

  const EXPIRY := "expiry"
  const INITIAL := "initial"
  const OFFSET := "offset"

  class ArithmeticOptions {
    const exp: NumericSlot
    const initial: NumericSlot
    const delta: NumericSlot

    ghost predicate Valid()
    {
      && exp != initial && exp != delta && initial != delta
      && exp.width == U32 && exp.name == EXPIRY
      && initial.width == U64 && initial.name == INITIAL
      && delta.width == I64 && delta.name == OFFSET
    }

    ghost function Slots(): set<object>
    {
      {exp, initial, delta}
    }

    constructor ()
      ensures Valid() && fresh(Slots())
      ensures exp.Abs() == initial.Abs() == delta.Abs() == EMPTY
    {
      exp := new NumericSlot(U32, EXPIRY);
      initial := new NumericSlot(U64, INITIAL);
      delta := new NumericSlot(I64, OFFSET);
    }

    /** The options are those of a dictionary. */
    ghost predicate From(dict: Option<Value>)
      reads exp, initial, delta
    {
      && Holds(exp.Abs(), Supplied(U32, dict, EXPIRY))
      && Holds(initial.Abs(), Supplied(U64, dict, INITIAL))
      && Holds(delta.Abs(), Supplied(I64, dict, OFFSET))
    }

    method ParseObject(dict: Option<Value>) returns (ok: bool)
      requires Valid() && exp.Abs() == initial.Abs() == delta.Abs() == EMPTY
      modifies exp, initial, delta
      ensures ok <==> OptionsOk(dict)
      ensures ok ==> From(dict)
    {
      hide ParseNumber;
      var specs := [exp, initial, delta];
      assert specs[0] == exp && specs[1] == initial && specs[2] == delta;
      ok := ParseAll(dict, specs);
      if ok {
        ParsedHolds(U32, dict, EXPIRY);
        ParsedHolds(U64, dict, INITIAL);
        ParsedHolds(I64, dict, OFFSET);
      }
    }

    /** Takes the other's options where there is none here. */
    method Merge(other: ArithmeticOptions)
      requires Valid() && other.Valid() && Slots() !! other.Slots()
      modifies exp, initial, delta
      ensures exp.Abs() == if old(exp.status).OptionFound? then old(exp.Abs()) else other.exp.Abs()
      ensures initial.Abs() == if old(initial.status).OptionFound? then old(initial.Abs()) else other.initial.Abs()
      ensures delta.Abs() == if old(delta.status).OptionFound? then old(delta.Abs()) else other.delta.Abs()
    {
      if exp.status != OptionFound {
        exp.Assign(other.exp);
      }
      if initial.status != OptionFound {
        initial.Assign(other.initial);
      }
      if delta.status != OptionFound {
        delta.Assign(other.delta);
      }
    }
  }

  predicate OptionsOk(dict: Option<Value>) {
    && IsDict(dict)
    && Accepted(U32, Lookup(dict, EXPIRY))
    && Accepted(U64, Lookup(dict, INITIAL))
    && Accepted(I64, Lookup(dict, OFFSET))
  }

  const PERSIST_TO := "persist_to"
  const REPLICATE_TO := "replicate_to"
  const TIMEOUT := "timeout"

  const IS_DELETE := "is_delete"
  const SPOOLED := "spooled"

  /** A boolean option is on if it is given and true; it takes any value. */
  predicate IsOn(dict: Option<Value>, name: string) {
    var value := Lookup(dict, name);
    value.Some? && IsTrue(value.value)
  }

  /** The options of a durability request. */
  class DurabilityOptions {
    const persistTo: NumericSlot
    const replicateTo: NumericSlot
    const timeout: NumericSlot
    var isDelete: bool

    ghost predicate Valid()
    {
      && persistTo != replicateTo && persistTo != timeout && replicateTo != timeout
      && persistTo.width == I32 && persistTo.name == PERSIST_TO
      && replicateTo.width == I32 && replicateTo.name == REPLICATE_TO
      && timeout.width == U32 && timeout.name == TIMEOUT
    }

    constructor ()
      ensures Valid() && fresh(persistTo) && fresh(replicateTo) && fresh(timeout)
      ensures persistTo.Abs() == replicateTo.Abs() == timeout.Abs() == EMPTY && !isDelete
    {
      persistTo := new NumericSlot(I32, PERSIST_TO);
      replicateTo := new NumericSlot(I32, REPLICATE_TO);
      timeout := new NumericSlot(U32, TIMEOUT);
      isDelete := false;
    }

    method ParseObject(dict: Option<Value>) returns (ok: bool)
      requires Valid() && persistTo.Abs() == replicateTo.Abs() == timeout.Abs() == EMPTY && !isDelete
      modifies this, persistTo, replicateTo, timeout
      ensures ok <==> DurabilityOk(dict)
      ensures ok ==> Holds(persistTo.Abs(), Supplied(I32, dict, PERSIST_TO))
      ensures ok ==> Holds(replicateTo.Abs(), Supplied(I32, dict, REPLICATE_TO))
      ensures ok ==> Holds(timeout.Abs(), Supplied(U32, dict, TIMEOUT)) && (isDelete <==> IsOn(dict, IS_DELETE))
    {
      hide ParseNumber;
      var specs := [persistTo, replicateTo, timeout];
      assert specs[0] == persistTo && specs[1] == replicateTo && specs[2] == timeout;
      ok := ParseAll(dict, specs);
      if ok {
        isDelete := IsOn(dict, IS_DELETE);
        ParsedHolds(I32, dict, PERSIST_TO);
        ParsedHolds(I32, dict, REPLICATE_TO);
        ParsedHolds(U32, dict, TIMEOUT);
      }
    }
  }

  predicate DurabilityOk(dict: Option<Value>) {
    && IsDict(dict)
    && Accepted(I32, Lookup(dict, PERSIST_TO))
    && Accepted(I32, Lookup(dict, REPLICATE_TO))
    && Accepted(U32, Lookup(dict, TIMEOUT))
  }
}
