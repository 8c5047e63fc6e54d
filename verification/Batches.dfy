/** Building the batch of an arithmetic operation: every key becomes a command struct whose pointers
    address copies of the key's bytes; and moving a batch that has to wait to the heap. */
module Batches {
  import opened Common
  import opened Buffers
  import opened Commands
  import opened Options
  import opened Specs

  /** What was copied to each region. */
  type Copies = seq<Option<seq<Byte>>>

  /** A pointer to one of the regions, to which the given bytes were copied. */
  ghost predicate Addresses(regions: seq<Region>, stored: Copies, p: Option<Region>, bytes: Option<seq<Byte>>) {
    (p.Some? <==> bytes.Some?) && (p.Some? ==> Has(regions, stored, p.value, bytes.value))
  }

  ghost predicate Matches(regions: seq<Region>, stored: Copies, c: Cmd, s: Spec) {
    && s.Good?
    && Addresses(regions, stored, c.key, Some(s.key))
    && Addresses(regions, stored, c.hashkey, s.hashkey)
    && c.delta == s.delta && c.initial == s.initial && c.create == s.create && c.exptime == s.exptime
  }

  /** More regions do no harm. */
  lemma AddressesMore(regions: seq<Region>, stored: Copies, regions': seq<Region>, stored': Copies,
                      p: Option<Region>, bytes: Option<seq<Byte>>)
    requires Addresses(regions, stored, p, bytes) && regions <= regions' && stored <= stored'
    ensures Addresses(regions', stored', p, bytes)
  {
    if p.Some? {
      var i :| 0 <= i < |regions| && i < |stored| && regions[i] == p.value && stored[i] == bytes;
      assert regions'[i] == p.value && stored'[i] == bytes;
    }
  }

  lemma MatchesMore(regions: seq<Region>, stored: Copies, regions': seq<Region>, stored': Copies,
                    c: Cmd, s: Spec)
    requires Matches(regions, stored, c, s) && regions <= regions' && stored <= stored'
    ensures Matches(regions', stored', c, s)
  {
    AddressesMore(regions, stored, regions', stored', c.key, Some(s.key));
    AddressesMore(regions, stored, regions', stored', c.hashkey, s.hashkey);
  }

  /** The first k commands are as specified for the first k keys, and the others are still blank. */
  ghost predicate Specified(regions: seq<Region>, stored: Copies, cmds: seq<Cmd>, batch: seq<Item>,
                            params: Option<Value>, k: nat)
    requires k <= |batch| == |cmds|
  {
    && (forall i :: 0 <= i < k ==> Matches(regions, stored, cmds[i], SpecOf(batch[i], params)))
    && (forall i :: k <= i < |cmds| ==> cmds[i] == BLANK)
  }

  lemma SpecifiedMore(regions: seq<Region>, stored: Copies, regions': seq<Region>, stored': Copies,
                      cmds: seq<Cmd>, batch: seq<Item>, params: Option<Value>, k: nat)
    requires k <= |batch| == |cmds|
    requires Specified(regions, stored, cmds, batch, params, k) && regions <= regions' && stored <= stored'
    ensures Specified(regions', stored', cmds, batch, params, k) && (k < |cmds| ==> cmds[k] == BLANK)
  {
    hide Matches, SpecOf;
    forall i | 0 <= i < k ensures Matches(regions', stored', cmds[i], SpecOf(batch[i], params)) {
      MatchesMore(regions, stored, regions', stored', cmds[i], SpecOf(batch[i], params));
    }
  }

  lemma SpecifiedNext(regions: seq<Region>, stored: Copies, cmds: seq<Cmd>, batch: seq<Item>,
                      params: Option<Value>, k: nat, c: Cmd)
    requires k < |batch| == |cmds| && Specified(regions, stored, cmds, batch, params, k)
    requires Matches(regions, stored, c, SpecOf(batch[k], params))
    ensures Specified(regions, stored, cmds[k := c], batch, params, k + 1)
  {
  }

  class ArithmeticCommand {
    const globals: ArithmeticOptions
    const bufs: BufferList
    const commands: CommandList
    var globalHash: Option<Value>
    var err: Err
    var items: seq<Item>
    ghost var params: Option<Value>

    ghost predicate Valid()
      reads this, globals.Slots(), bufs, bufs.Blocks(), commands
    {
      && globals.Valid() && bufs.Valid() && bufs.Intact() && commands.Valid()
      && globals.From(params) && globalHash == Lookup(params, HASHKEY)
    }

    /** Everything a batch may write to while it is built. */
    ghost function Memory(): set<object>
      requires commands.Valid()
      reads this, bufs, commands
    {
      {this, bufs} + bufs.Blocks() + commands.Repr()
    }

    /** The blocks a batch owns. */
    ghost function Owned(): seq<object>
      requires commands.Valid()
      reads this, bufs, commands
    {
      commands.Blocks() + bufs.bufList
    }

    /** Entries 0 .. k - 1 of the list point at commands that are as they should be, and the other
        commands are still blank. */
    ghost predicate Built(batch: seq<Item>, k: nat)
      requires commands.Valid()
      reads this, bufs, commands, commands.Repr()
    {
      && k <= |batch| == commands.ncmds
      && Specified(bufs.regions, bufs.stored, commands.Stored(), batch, params, k)
      && forall i: nat :: i < k ==> commands.Points(i)
    }

    constructor ()
      ensures Valid() && fresh(Memory()) && fresh(globals.Slots())
      ensures err == NoErr && items == [] && params == None && commands.ncmds == 0
      ensures fresh(bufs) && fresh(commands) && bufs.bufList == [] && globalHash == None
      ensures globals.exp.Abs() == globals.initial.Abs() == globals.delta.Abs() == EMPTY
    {
      globals := new ArithmeticOptions();
      bufs := new BufferList();
      commands := new CommandList();
      globalHash, err, items, params := None, NoErr, [], None;
    }

    /** Takes the arguments: the keys, and the global options. */
    method Initialize(keys: Keys, dict: Option<Value>) returns (ok: bool)
      requires Valid() && params == None && items == [] && commands.ncmds == 0 && err == NoErr && globalHash == None
      requires globals.exp.Abs() == globals.initial.Abs() == globals.delta.Abs() == EMPTY
      modifies this, commands, globals.exp, globals.initial, globals.delta
      ensures ok <==> ItemsOf(keys) != [] && OptionsOk(dict) && HashOk(dict)
      ensures ok ==> Valid() && params == dict && items == ItemsOf(keys) && Built(items, 0) && err == NoErr
      ensures bufs.Valid() && bufs.Intact() && commands.Valid()
      ensures fresh(commands.Repr() - {commands}) && commands.ncmds == |ItemsOf(keys)|
      ensures !ok ==> err == if ItemsOf(keys) == [] then Err.Memory else Arguments
    {
      hide Supplied, OptionsOk, HashOk, ItemsOf, BufferList.RegionOk, Content, Disjoint;
      items := ItemsOf(keys);
      ok := commands.Initialize(|items|);
      if !ok {
        err := Err.Memory;
        return;
      }
      ok := globals.ParseObject(dict);
      if !ok {
        err := Arguments;
        return;
      }
      if !HashOk(dict) {
        err := Arguments;
        return false;
      }
      globalHash := Lookup(dict, HASHKEY);
      params := dict;
    }

    /** Copies the bytes of a string or number into the batch's buffers. */
    method GetBufBackedString(v: Value) returns (r: Option<Region>)
      requires bufs.Valid() && bufs.Intact() && err == NoErr
      modifies this`err, bufs, bufs.Blocks()
      ensures bufs.Valid() && bufs.Intact() && (r.Some? <==> BytesOf(v).Some?)
      ensures r.None? ==> err == Internal && bufs.regions == old(bufs.regions)
      ensures r.Some? ==> err == NoErr && Addresses(bufs.regions, bufs.stored, r, BytesOf(v))
      ensures old(bufs.regions) <= bufs.regions && old(bufs.stored) <= bufs.stored && old(bufs.bufList) <= bufs.bufList
      ensures forall i :: |old(bufs.bufList)| <= i < |bufs.bufList| ==> fresh(bufs.bufList[i])
    {
      if !v.Num? && !v.Str? {
        err := Internal;
        return None;
      }
      var bytes := if v.Num? then v.text else v.utf8;
      if bytes == [] {
        err := Internal;
        return None;
      }
      var region := bufs.Store(bytes);
      assert bufs.regions[|bufs.regions| - 1] == region;
      r := Some(region);
    }

    /** The key's own options where there are any, the global ones otherwise. */
    method MergeOptions(options: Option<Value>) returns (kOptions: ArithmeticOptions, ok: bool)
      requires globals.Valid() && globals.From(params)
      ensures ok <==> OptionsOk(options)
      ensures ok ==> kOptions.delta.v == InForce(Supplied(I64, options, OFFSET), Supplied(I64, params, OFFSET))
      ensures ok ==> kOptions.initial.v == InForce(Supplied(U64, options, INITIAL), Supplied(U64, params, INITIAL))
      ensures ok ==> kOptions.exp.v == InForce(Supplied(U32, options, EXPIRY), Supplied(U32, params, EXPIRY))
      ensures ok ==> (kOptions.initial.status == OptionFound <==>
                        Supplied(U64, options, INITIAL).Some? || Supplied(U64, params, INITIAL).Some?)
    {
      hide Supplied, IsDict, Accepted;
      kOptions := new ArithmeticOptions();
      ok := true;
      NoOptions();
      if options.Some? {
        ok := kOptions.ParseObject(options);
        if !ok {
          return;
        }
      }
      kOptions.Merge(globals);
    }

    /** The handler: fills in command ix; it sets `create` but never clears it. */
    method HandleSingle(key: Option<Region>, hashkey: Option<Region>, options: Option<Value>, ix: nat)
      returns (ok: bool)
      requires commands.Valid() && globals.Valid() && globals.From(params) && ix < commands.ncmds && err == NoErr
      modifies this`err, commands`singleCmd,
               if commands.ncmds > 1 then {commands.cmds.block, commands.cmdlist.list} else {}
      ensures commands.Valid() && commands.Blocks() == old(commands.Blocks())
      ensures ok <==> OptionsOk(options)
      ensures !ok ==> err == Arguments && commands.Stored() == old(commands.Stored())
      ensures ok ==> err == NoErr && commands.Stored() == old(commands.Stored())[ix := Cmd(key, hashkey,
                InForce(Supplied(I64, options, OFFSET), Supplied(I64, params, OFFSET)),
                InForce(Supplied(U64, options, INITIAL), Supplied(U64, params, INITIAL)),
                Supplied(U64, options, INITIAL).Some? || Supplied(U64, params, INITIAL).Some?
                || old(commands.Stored())[ix].create,
                InForce(Supplied(U32, options, EXPIRY), Supplied(U32, params, EXPIRY)))]
      ensures commands.Points(ix) && forall i: nat :: old(commands.Points(i)) ==> commands.Points(i)
    {
      hide Supplied, InForce, OptionsOk;
      var p := commands.GetAt(ix);
      var kOptions: ArithmeticOptions;
      kOptions, ok := MergeOptions(options);
      if !ok {
        err := Arguments;
        return;
      }
      var create := kOptions.initial.status == OptionFound || commands.Stored()[ix].create;
      commands.Put(p, ix, Cmd(key, hashkey, kOptions.delta.v, kOptions.initial.v, create, kOptions.exp.v));
    }

    /** Copies the hash key, if there is one in force, and then the key. */
    method InternKeys(item: Item) returns (ok: bool, key: Option<Region>, hk: Option<Region>)
      requires bufs.Valid() && bufs.Intact() && err == NoErr
      modifies this`err, bufs, bufs.Blocks()
      ensures bufs.Valid() && bufs.Intact()
      ensures old(bufs.regions) <= bufs.regions && old(bufs.stored) <= bufs.stored && old(bufs.bufList) <= bufs.bufList
      ensures forall i :: |old(bufs.bufList)| <= i < |bufs.bufList| ==> fresh(bufs.bufList[i])
      ensures var hash := FirstOf(Lookup(item.options, HASHKEY), globalHash);
              if !HashOk(item.options) then !ok && err == Arguments
              else if (hash.Some? && BytesOf(hash.value).None?) || BytesOf(item.key).None? then !ok && err == Internal
              else ok && err == NoErr && Addresses(bufs.regions, bufs.stored, key, BytesOf(item.key))
                   && Addresses(bufs.regions, bufs.stored, hk, if hash.Some? then BytesOf(hash.value) else None)
    {
      ok, key, hk := false, None, None;
      if !HashOk(item.options) {
        err := Arguments;
        return;
      }
      var hash := FirstOf(Lookup(item.options, HASHKEY), globalHash);
      hide HashOk, BytesOf, BufferList.RegionOk;
      if hash.Some? {
        hk := GetBufBackedString(hash.value);
        if hk.None? {
          return;
        }
      }
      ghost var r0, s0 := bufs.regions, bufs.stored;
      key := GetBufBackedString(item.key);
      ok := key.Some?;
      if ok { AddressesMore(r0, s0, bufs.regions, bufs.stored, hk, if hash.Some? then BytesOf(hash.value) else None); }
    }

    /** The keys of item ix; what is built so far stays built. */
    method InternNext(item: Item, ix: nat) returns (ok: bool, key: Option<Region>, hk: Option<Region>)
      requires Valid() && Built(items, ix) && err == NoErr
      modifies this`err, bufs, bufs.Blocks()
      ensures Valid() && Built(items, ix) && commands.Stored() == old(commands.Stored())
      ensures ix < |items| ==> commands.Stored()[ix] == BLANK
      ensures old(bufs.bufList) <= bufs.bufList
      ensures forall i :: |old(bufs.bufList)| <= i < |bufs.bufList| ==> fresh(bufs.bufList[i])
      ensures var hash := FirstOf(Lookup(item.options, HASHKEY), globalHash);
              if !HashOk(item.options) then !ok && err == Arguments
              else if (hash.Some? && BytesOf(hash.value).None?) || BytesOf(item.key).None? then !ok && err == Internal
              else ok && err == NoErr && Addresses(bufs.regions, bufs.stored, key, BytesOf(item.key))
                   && Addresses(bufs.regions, bufs.stored, hk, if hash.Some? then BytesOf(hash.value) else None)
    {
      hide HashOk, BytesOf, BufferList.RegionOk, Content, Specified, Addresses;
      ok, key, hk := InternKeys(item);
      SpecifiedMore(old(bufs.regions), old(bufs.stored), bufs.regions, bufs.stored,
                    old(commands.Stored()), items, params, ix);
      assert commands.Stored() == old(commands.Stored());
      forall i: nat | i < ix ensures commands.Points(i) { assert old(commands.Points(i)); }
    }

    /** The command of item ix, once its keys have been copied. */
    method FillNext(key: Option<Region>, hk: Option<Region>, item: Item, ix: nat) returns (ok: bool)
      requires Valid() && Built(items, ix) && ix < |items| && item == items[ix] && err == NoErr
      requires commands.Stored()[ix] == BLANK
      requires SpecOf(item, params).Bad? ==> !OptionsOk(item.options)
      requires SpecOf(item, params).Good? ==>
                 && Addresses(bufs.regions, bufs.stored, key, Some(SpecOf(item, params).key))
                 && Addresses(bufs.regions, bufs.stored, hk, SpecOf(item, params).hashkey)
      modifies this`err, commands`singleCmd,
               if commands.ncmds > 1 then {commands.cmds.block, commands.cmdlist.list} else {}
      ensures Valid() && commands.Blocks() == old(commands.Blocks())
      ensures ok <==> SpecOf(item, params).Good?
      ensures if ok then err == NoErr && Built(items, ix + 1) else err == Arguments && Built(items, ix)
    {
      hide HashOk, BytesOf, OptionsOk, Supplied, InForce, BufferList.RegionOk, Content, Specified, Addresses;
      ok := HandleSingle(key, hk, item.options, ix);
      if ok {
        SpecifiedNext(bufs.regions, bufs.stored, old(commands.Stored()), items, params, ix, commands.Stored()[ix]);
      }
    }

    /** One key: its hash key, its own bytes, its command. */
    method ProcessSingle(item: Item, ix: nat) returns (ok: bool)
      requires Valid() && Built(items, ix) && ix < |items| && item == items[ix] && err == NoErr
      modifies this`err, bufs, bufs.Blocks(), commands`singleCmd,
               if commands.ncmds > 1 then {commands.cmds.block, commands.cmdlist.list} else {}
      ensures Valid() && commands.Blocks() == old(commands.Blocks())
      ensures old(bufs.bufList) <= bufs.bufList
      ensures forall i :: |old(bufs.bufList)| <= i < |bufs.bufList| ==> fresh(bufs.bufList[i])
      ensures ok <==> SpecOf(item, params).Good?
      ensures ok ==> err == NoErr && Built(items, ix + 1)
      ensures !ok ==> err == SpecOf(item, params).err && Built(items, ix)
    {
      hide HashOk, BytesOf, OptionsOk, Supplied, InForce, BufferList.RegionOk, Disjoint, Content,
           Specified, Addresses;
      var key, hk;
      ok, key, hk := InternNext(item, ix);
      if ok {
        ok := FillNext(key, hk, item, ix);
      }
    }

    /** All keys, in order, up to the first that cannot be processed. */
    method Process() returns (ok: bool, ghost done: nat)
      requires Valid() && Built(items, 0) && err == NoErr
      modifies this`err, bufs, bufs.Blocks(), commands`singleCmd,
               if commands.ncmds > 1 then {commands.cmds.block, commands.cmdlist.list} else {}
      ensures Valid()
      ensures ok <==> AllGood(items, params, |items|)
      ensures Built(items, done) && if ok then done == |items| && err == NoErr
              else done < |items| && AllGood(items, params, done) && SpecOf(items[done], params) == Bad(err)
      ensures old(bufs.bufList) <= bufs.bufList && commands.Blocks() == old(commands.Blocks())
      ensures forall i :: |old(bufs.bufList)| <= i < |bufs.bufList| ==> fresh(bufs.bufList[i])
    {
      hide SpecOf, BufferList.Valid, BufferList.Intact, CommandList.Points, CommandList.Stored, Specified,
           ArithmeticOptions.From, Supplied, Lookup;
      for i := 0 to |items|
        invariant Valid() && Built(items, i) && err == NoErr && AllGood(items, params, i)
        invariant old(bufs.bufList) <= bufs.bufList && commands.Blocks() == old(commands.Blocks())
        invariant forall j :: |old(bufs.bufList)| <= j < |bufs.bufList| ==> fresh(bufs.bufList[j])
      {
        ok := ProcessSingle(items[i], i);
        if !ok {
          return false, i;
        }
      }
      return true, |items|;
    }

    /** What the library reads through entry i of the list is the command specified for key i, and its
        key pointers address exactly the bytes of the key and of its hash key. */
    lemma EntryIsKey(batch: seq<Item>, k: nat, i: nat)
      requires bufs.Valid() && bufs.Intact() && commands.Valid() && Built(batch, k) && i < k
      ensures commands.Points(i)
      ensures var c, s := commands.Entry(i), SpecOf(batch[i], params);
              && s.Good?
              && c.delta == s.delta && c.initial == s.initial && c.create == s.create && c.exptime == s.exptime
              && c.key.Some? && InBounds(c.key.value) && c.key.value.block in bufs.bufList
              && Content(c.key.value) == s.key
              && (c.hashkey.Some? <==> s.hashkey.Some?)
              && (c.hashkey.Some? ==> InBounds(c.hashkey.value) && c.hashkey.value.block in bufs.bufList
                                      && Content(c.hashkey.value) == s.hashkey.value)
    {
      assert commands.Points(i) && Matches(bufs.regions, bufs.stored, commands.Stored()[i], SpecOf(batch[i], params));
      commands.EntryIsStored(i);
      var c, s := commands.Entry(i), SpecOf(batch[i], params);
      hide SpecOf, CommandList.Entry;
      bufs.HasContent(c.key.value, s.key);
      if s.hashkey.Some? { bufs.HasContent(c.hashkey.value, s.hashkey.value); }
    }

    constructor With(globals: ArithmeticOptions, bufs: BufferList, commands: CommandList, globalHash: Option<Value>,
                     ghost params: Option<Value>)
      ensures this.globals == globals && this.bufs == bufs && this.commands == commands
      ensures this.globalHash == globalHash && this.params == params && err == NoErr && items == []
    {
      this.globals, this.bufs, this.commands := globals, bufs, commands;
      this.globalHash, this.params, err, items := globalHash, params, NoErr, [];
    }

    /** The copy made when the batch must wait: it takes the buffers and the commands, but not the
        keys. */
    method MakePersistent() returns (p: ArithmeticCommand)
      requires Valid() && Built(items, |items|)
      modifies bufs, commands
      ensures fresh(p) && p.bufs.Valid() && p.bufs.Intact() && p.commands.Valid()
      ensures p.params == params && p.items == [] && p.Built(items, |items|)
      ensures p.Owned() == old(Owned())
      ensures bufs.Valid() && commands.Valid() && Owned() == []
    {
      hide SpecOf, Matches, Specified, BufferList.RegionOk, Content;
      var b := new BufferList.Move(bufs);
      var c := new CommandList.Move(commands);
      forall i: nat | i < |items| ensures c.Points(i) { assert old(commands.Points(i)); }
      assert Specified(b.regions, b.stored, c.Stored(), items, params, |items|);
      label moved:
      p := new ArithmeticCommand.With(globals, b, c, globalHash, params);
      assert c.Stored() == old@moved(c.Stored());
      forall i: nat | i < |items| ensures c.Points(i) { assert old@moved(c.Points(i)); }
    }

    /** What the library reads through entry i of the list: the numbers, and the bytes that the key
        pointers address. */
    function ReadEntry(ghost batch: seq<Item>, i: nat): (s: Spec)
      requires bufs.Valid() && bufs.Intact() && commands.Valid() && Built(batch, |batch|) && i < |batch|
      reads this, bufs, bufs.Blocks(), commands, commands.Repr()
      ensures s == SpecOf(batch[i], params)
    {
      EntryIsKey(batch, |batch|, i);
      var c := if commands.cmdlist.PtrArray? then commands.cmdlist.list[i].a[commands.cmdlist.list[i].ix]
               else commands.cmdlist.holder.cmds.owner.singleCmd;
      assert c == commands.Entry(i);
      Good(Content(c.key.value),
           if c.hashkey.Some? then Some(Content(c.hashkey.value)) else None,
           c.delta, c.initial, c.create, c.exptime)
    }

    /** What the library reads through the whole list. */
    method ReadAll(ghost batch: seq<Item>) returns (sent: seq<Spec>)
      requires bufs.Valid() && bufs.Intact() && commands.Valid() && Built(batch, |batch|)
      ensures |sent| == |batch| && forall i :: 0 <= i < |batch| ==> sent[i] == SpecOf(batch[i], params)
    {
      hide SpecOf, Matches, BufferList.RegionOk;
      sent := [];
      for i := 0 to commands.ncmds
        invariant |sent| == i && forall j :: 0 <= j < i ==> sent[j] == SpecOf(batch[j], params)
      {
        sent := sent + [ReadEntry(batch, i)];
      }
    }

    /** No block is owned twice. */
    lemma OwnedOnce()
      requires bufs.Valid() && commands.Valid()
      ensures forall i, j :: 0 <= i < j < |Owned()| ==> Owned()[i] != Owned()[j]
      ensures forall i :: 0 <= i < |Owned()| ==> Owned()[i] in bufs.Blocks() + commands.Repr()
    {
    }

    /** What the commands built so far point to is owned. */
    lemma KeyBlocksOwned(batch: seq<Item>, k: nat)
      requires bufs.Valid() && bufs.Intact() && commands.Valid() && Built(batch, k)
      ensures forall i :: 0 <= i < k ==> KeyBlocksIn(commands.Stored()[i], Owned())
    {
      hide SpecOf, Specified, BufferList.RegionOk, BufferList.Intact;
      forall i | 0 <= i < k ensures KeyBlocksIn(commands.Stored()[i], Owned()) {
        EntryIsKey(batch, k, i);
        commands.EntryIsStored(i);
      }
    }

    /** The destructor frees what the batch owns. */
    method Destroy() returns (freed: seq<object>)
      requires bufs.Valid() && commands.Valid()
      ensures freed == Owned()
    {
      var arrays := commands.Destroy();
      var blocks := bufs.Destroy();
      freed := arrays + blocks;
    }
  }

  /** Makes a batch of the arguments. If a key cannot be processed, the batch is built up to it. */
  method Build(keys: Keys, dict: Option<Value>) returns (op: ArithmeticCommand, err: Err, ghost done: nat)
    ensures fresh(op) && fresh(op.bufs) && fresh(op.commands)
    ensures op.bufs.Valid() && op.bufs.Intact() && op.commands.Valid()
    ensures fresh(op.bufs.Blocks()) && fresh(op.commands.Repr()) && op.commands.ncmds == |ItemsOf(keys)|
    ensures err == NoErr <==> Makeable(keys, dict)
    ensures err == NoErr ==> op.Valid() && op.items == ItemsOf(keys) && done == |op.items|
    ensures !Startable(keys, dict) ==> err == if ItemsOf(keys) == [] then Err.Memory else Arguments
    ensures Startable(keys, dict) ==> op.params == dict && op.Built(ItemsOf(keys), done)
    ensures Startable(keys, dict) && err != NoErr ==>
              && done < |ItemsOf(keys)| && AllGood(ItemsOf(keys), dict, done)
              && SpecOf(ItemsOf(keys)[done], dict) == Bad(err)
  {
    hide SpecOf, HashOk, OptionsOk, BufferList.Valid, BufferList.Intact, CommandList.Points, CommandList.Stored,
         Specified, ArithmeticOptions.From, ItemsOf;
    op := new ArithmeticCommand();
    var ok := op.Initialize(keys, dict);
    done := 0;
    if ok {
      assert op.bufs.bufList == [];
      ok, done := op.Process();
    }
    err := op.err;
  }

  /** What happens to a batch that has to wait, from the move to the deletion: the stack object is
      destroyed, then the library reads the copy, and then the copy is deleted. */
  method SendLater(op: ArithmeticCommand)
    returns (sent: seq<Spec>, freed: seq<object>, ghost last: ArithmeticCommand)
    requires op.Valid() && op.Built(op.items, |op.items|)
    modifies op.bufs, op.commands
    ensures |sent| == |op.items| && forall i :: 0 <= i < |sent| ==> sent[i] == SpecOf(op.items[i], op.params)
    ensures fresh(last) && last.bufs.Valid() && last.bufs.Intact() && last.commands.Valid()
    ensures last.params == op.params && last.Built(op.items, |op.items|)
    ensures freed == old(op.Owned()) == last.Owned()
  {
    hide SpecOf, Matches, Specified, BufferList.RegionOk, Content;
    ghost var batch := op.items;
    var p := op.MakePersistent();
    last := p;
    label moved:
    freed := op.Destroy();
    assert p.commands.Stored() == old@moved(p.commands.Stored());
    forall i: nat | i < |batch| ensures p.commands.Points(i) { assert old@moved(p.commands.Points(i)); }
    sent := p.ReadAll(batch);
    var rest := p.Destroy();
    freed := freed + rest;
    assert p.commands.Stored() == old@moved(p.commands.Stored());
    forall i: nat | i < |batch| ensures p.commands.Points(i) { assert old@moved(p.commands.Points(i)); }
  }

  /** The whole life of a batch that has to wait. The library is sent exactly the command specified for
      each key. `owned` are the blocks owned when building ended, of which each was allocated for the
      batch; `last` is the object destroyed last, and `done` how many keys were processed. All of
      the blocks are freed, once each, on success and on failure: with them the arrays of a batch of
      several keys, and the block behind every key pointer. */
  method DeferredLife(keys: Keys, dict: Option<Value>)
    returns (err: Err, sent: seq<Spec>, freed: seq<object>,
             ghost owned: seq<object>, ghost last: ArithmeticCommand, ghost done: nat)
    ensures err == NoErr <==> Makeable(keys, dict)
    ensures err == NoErr ==> |sent| == |ItemsOf(keys)| == done
    ensures err == NoErr ==> forall i :: 0 <= i < |sent| ==> sent[i] == SpecOf(ItemsOf(keys)[i], dict)
    ensures err == NoErr ==> CommandsFor(sent, keys, dict)
    ensures !Startable(keys, dict) ==> err == if ItemsOf(keys) == [] then Err.Memory else Arguments
    ensures freed == owned
    ensures forall i :: 0 <= i < |freed| ==> fresh(freed[i])
    ensures forall i, j :: 0 <= i < j < |freed| ==> freed[i] != freed[j]
    ensures last.bufs.Valid() && last.commands.Valid() && last.commands.ncmds == |ItemsOf(keys)|
    ensures freed == last.Owned()
    ensures |ItemsOf(keys)| > 1 ==> last.commands.cmds.block in freed && last.commands.cmdlist.list in freed
    ensures Startable(keys, dict) ==> last.params == dict && last.Built(ItemsOf(keys), done)
    ensures Startable(keys, dict) && err != NoErr ==>
              && done < |ItemsOf(keys)| && AllGood(ItemsOf(keys), dict, done)
              && SpecOf(ItemsOf(keys)[done], dict) == Bad(err)
    ensures Startable(keys, dict) ==> forall i :: 0 <= i < done ==> KeyBlocksIn(last.commands.Stored()[i], freed)
  {
    hide SpecOf, Startable, BufferList.RegionOk, Content, Specified, Matches, KeyBlocksIn, CommandsFor;
    var op: ArithmeticCommand;
    op, err, done := Build(keys, dict);
    op.OwnedOnce();
    owned := op.Owned();
    if err != NoErr {
      sent := [];
      last := op;
      freed := op.Destroy();
    } else {
      sent, freed, last := SendLater(op);
      CommandsExact(sent, keys, dict);
    }
    if Startable(keys, dict) { last.KeyBlocksOwned(ItemsOf(keys), done); }
  }

  /** The pointers of a command lead into these blocks. */
  ghost predicate KeyBlocksIn(c: Cmd, blocks: seq<object>) {
    && c.key.Some? && c.key.value.block in blocks
    && (c.hashkey.Some? ==> c.hashkey.value.block in blocks)
  }

  lemma NoOptions()
    ensures OptionsOk(None)
    ensures Supplied(U32, None, EXPIRY) == Supplied(U64, None, INITIAL) == Supplied(I64, None, OFFSET) == None
  {
  }
}
