/** The list of command structs handed to the library. A list of one command keeps it, and the pointer
    to it, inside the list object; a longer list keeps them in two arrays. */
module Commands {
  import opened Common
  import opened Buffers

  /** The command struct of an arithmetic operation; zeroed memory is BLANK. */
  datatype Cmd = Cmd(
    key: Option<Region>,
    hashkey: Option<Region>,
    delta: int,
    initial: int,
    create: bool,
    exptime: int)

  const BLANK := Cmd(None, None, 0, 0, false, 0)

  /** The pointer to the first command, and the pointer to the list of pointers. */
  datatype CmdsPtr = NullCmds | SingleOf(owner: CommandList) | CmdArray(block: array<Cmd>)
  datatype ListPtr = NullList | CmdsFieldOf(holder: CommandList) | PtrArray(list: array<CmdPtr>)

  /** A pointer to one command; an entry of a new array of pointers is not set to anything. */
  datatype CmdPtr = Unset | NullCmd | InSingle(o: CommandList) | InArray(a: array<Cmd>, ix: nat)

  function Blanks(n: nat): seq<Cmd> {
    seq(n, _ => BLANK)
  }

  class CommandList {
    var singleCmd: Cmd
    var cmds: CmdsPtr
    var cmdlist: ListPtr
    var ncmds: nat

    ghost predicate Valid()
      reads this
    {
      && (ncmds == 1 ==> cmds == SingleOf(this) && cmdlist == CmdsFieldOf(this))
      && (ncmds > 1 ==> cmds.CmdArray? && cmds.block.Length == ncmds)
      && (ncmds > 1 ==> cmdlist.PtrArray? && cmdlist.list.Length == ncmds)
    }

    /** The arrays this list owns. */
    ghost function Blocks(): (blocks: seq<object>)
      reads this
      requires Valid()
    {
      if ncmds < 2 then [] else [cmds.block, cmdlist.list]
    }

    ghost function Repr(): set<object>
      reads this
      requires Valid()
    {
      if ncmds < 2 then {this} else {this, cmds.block, cmdlist.list}
    }

    /** The commands themselves. */
    function Stored(): (stored: seq<Cmd>)
      requires Valid()
      reads this, Repr()
      ensures |stored| == ncmds
    {
      if ncmds == 0 then [] else if ncmds == 1 then [singleCmd] else cmds.block[..]
    }

    /** Entry i of the list points at command i. */
    ghost predicate Points(i: nat)
      requires Valid()
      reads this, Repr()
    {
      i < ncmds && (ncmds > 1 ==> cmdlist.list[i] == InArray(cmds.block, i))
    }

    /** What the library reads through entry i of the list. */
    ghost function Entry(i: nat): Cmd
      requires Valid() && Points(i)
      reads this, Repr()
    {
      if ncmds == 1 then cmdlist.holder.cmds.owner.singleCmd
      else cmdlist.list[i].a[cmdlist.list[i].ix]
    }

    /** So following the pointers leads to it. */
    lemma EntryIsStored(i: nat)
      requires Valid() && Points(i)
      ensures Entry(i) == Stored()[i]
    {
    }

    constructor ()
      ensures Valid() && ncmds == 0 && Blocks() == []
    {
      singleCmd, cmds, cmdlist, ncmds := BLANK, NullCmds, NullList, 0;
    }

    /** Makes room for n commands, all blank; a list of none is an error. */
    method Initialize(n: nat) returns (ok: bool)
      requires Valid() && ncmds == 0
      modifies this
      ensures Valid() && ncmds == n && (ok <==> n > 0)
      ensures fresh(Repr() - {this})
      ensures Stored() == Blanks(n)
      ensures forall i :: 0 <= i < n ==> Stored()[i] == Cmd(None, None, 0, 0, false, 0)
    {
      ncmds := n;
      if n == 1 {
        cmds := SingleOf(this);
        cmdlist := CmdsFieldOf(this);
        singleCmd := BLANK;
        return true;
      } else if n > 1 {
        var block := new Cmd[n](_ => BLANK);
        var list := new CmdPtr[n](_ => Unset);
        cmds := CmdArray(block);
        cmdlist := PtrArray(list);
        return true;
      }
      return false;
    }

    ghost function PointerTo(ix: nat): CmdPtr
      reads this
      requires Valid() && ix < ncmds
    {
      if ncmds == 1 then InSingle(this) else InArray(cmds.block, ix)
    }

    /** The pointer to command ix, at which entry ix of the list then points; there is none behind the
        last command. */
    method GetAt(ix: nat) returns (p: CmdPtr)
      requires Valid() && ix <= ncmds
      modifies if ncmds > 1 then {cmdlist.list} else {}
      ensures Valid() && if ix == ncmds then p == NullCmd else Points(ix) && p == PointerTo(ix)
      ensures ncmds > 1 ==>
                cmdlist.list[..] == if ix == ncmds then old(cmdlist.list[..]) else old(cmdlist.list[..])[ix := p]
      ensures Stored() == old(Stored()) && forall i: nat :: old(Points(i)) ==> Points(i)
    {
      if ix == ncmds {
        return NullCmd;
      }
      if ncmds == 1 {
        p := InSingle(this);
      } else {
        p := InArray(cmds.block, ix);
        cmdlist.list[ix] := p;
      }
    }

    /** Writes command ix through the pointer to it, which its entry in the list shares. */
    method Put(p: CmdPtr, ghost ix: nat, cmd: Cmd)
      requires Valid() && ix < ncmds && Points(ix) && p == PointerTo(ix)
      modifies this`singleCmd, if ncmds > 1 then {cmds.block} else {}
      ensures Valid() && Blocks() == old(Blocks())
      ensures Stored() == old(Stored())[ix := cmd] && forall i: nat :: old(Points(i)) ==> Points(i)
    {
      match p
      case InSingle(o) => singleCmd := cmd;
      case InArray(a, k) => a[k] := cmd;
    }

    /** The copy constructor: a list of one command points at its own copy of it, a longer one takes the
        arrays; the other list is left empty. */
    constructor Move(other: CommandList)
      requires other.Valid()
      modifies other
      ensures Valid() && ncmds == old(other.ncmds)
      ensures Blocks() == old(other.Blocks())
      ensures Stored() == old(other.Stored()) && forall i: nat :: old(other.Points(i)) ==> Points(i)
      ensures other.Valid() && other.ncmds == 0 && other.cmds == NullCmds && other.cmdlist == NullList
    {
      ncmds := other.ncmds;
      singleCmd := if other.ncmds < 2 then other.singleCmd else BLANK;
      cmds := other.cmds;
      cmdlist := other.cmdlist;
      new;
      if ncmds < 2 {
        cmds := SingleOf(this);
        cmdlist := CmdsFieldOf(this);
      }
      other.cmds := NullCmds;
      other.cmdlist := NullList;
      other.ncmds := 0;
    }

    /** The destructor frees the two arrays of a list of more than one command. */
    method Destroy() returns (freed: seq<object>)
      requires Valid()
      ensures freed == Blocks()
    {
      if ncmds < 2 {
        return [];
      }
      return [cmds.block, cmdlist.list];
    }
  }
}
