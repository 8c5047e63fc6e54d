/** The bump allocator that backs the key bytes of a batch. */
module Buffers {
  import opened Common

  /** One character of a buffer. */
  type Byte = x: int | 0 <= x < 256

  /** What `getBuffer` hands out: a pointer into a block, and how much of it may be used. */
  datatype Region = Region(block: array<Byte>, off: nat, len: nat)

  predicate InBounds(r: Region) {
    r.len > 0 && r.off + r.len <= r.block.Length
  }

  predicate Disjoint(a: Region, b: Region) {
    a.block != b.block || a.off + a.len <= b.off || b.off + b.len <= a.off
  }

  /** The bytes in a region. */
  function Content(r: Region): (bytes: seq<Byte>)
    requires InBounds(r)
    reads r.block
    ensures |bytes| == r.len
  {
    r.block[r.off..r.off + r.len]
  }

  /** Among the regions is this one, and the bytes were copied to it. */
  ghost predicate Has(regions: seq<Region>, stored: seq<Option<seq<Byte>>>, r: Region, bytes: seq<Byte>) {
    exists i :: 0 <= i < |regions| && i < |stored| && regions[i] == r && stored[i] == Some(bytes)
  }

  const DEFAULT_SIZE: nat := 1024

  class BufferList {
    var bufList: seq<array<Byte>>
    // curBuf is curOff bytes into curBlock, or null
    var curBlock: array?<Byte>
    var curOff: nat
    var bytesUsed: nat
    var bytesAllocated: nat
    ghost var regions: seq<Region>              // everything handed out, in order
    ghost var stored: seq<Option<seq<Byte>>>    // what was copied to each of them, if anything

    /** All regions lie in recorded blocks and do not overlap; in the current block they end before
        the pointer; without a current block nothing is used of it. */
    ghost predicate Valid()
      reads this
    {
      && (forall i, j :: 0 <= i < j < |bufList| ==> bufList[i] != bufList[j])
      && (curBlock == null ==> bytesUsed == 0)
      && (curBlock != null ==> curBlock in bufList && curOff == bytesUsed <= bytesAllocated == curBlock.Length)
      && (forall i :: 0 <= i < |regions| ==> RegionOk(regions[i]))
      && (forall i, j :: 0 <= i < j < |regions| ==> Disjoint(regions[i], regions[j]))
      && |stored| == |regions|
    }

    /** Every region still holds what was copied to it. */
    ghost predicate Intact()
      requires Valid()
      reads this, Blocks()
    {
      forall i :: 0 <= i < |regions| && stored[i].Some? ==> Content(regions[i]) == stored[i].value
    }

    /** So a region to which bytes were copied addresses them. */
    lemma HasContent(r: Region, bytes: seq<Byte>)
      requires Valid() && Intact() && Has(regions, stored, r, bytes)
      ensures InBounds(r) && r.block in bufList && Content(r) == bytes
    {
    }

    ghost predicate RegionOk(r: Region)
      reads this
    {
      InBounds(r) && r.block in bufList && (r.block == curBlock ==> r.off + r.len <= curOff)
    }

    ghost function Blocks(): set<object>
      reads this
    {
      set b | b in bufList
    }

    constructor ()
      ensures Valid() && Intact() && bufList == [] && regions == []
      ensures curBlock == null && bytesAllocated == 1024
    {
      bufList, curBlock, curOff, bytesUsed, bytesAllocated := [], null, 0, 0, DEFAULT_SIZE;
      regions, stored := [], [];
    }

    /** Allocates a block and records it. */
    method AddBlock(size: nat) returns (block: array<Byte>)
      requires Valid()
      modifies this`bufList
      ensures Valid() && fresh(block) && block.Length == size && bufList == old(bufList) + [block]
      ensures forall i :: 0 <= i < |regions| ==> regions[i].block != block
    {
      assert forall i :: 0 <= i < |regions| ==> RegionOk(regions[i]);
      block := new Byte[size];
      bufList := bufList + [block];
    }

    ghost method Record(r: Region)
      requires Valid() && RegionOk(r) && forall i :: 0 <= i < |regions| ==> Disjoint(regions[i], r)
      modifies this`regions, this`stored
      ensures Valid() && regions == old(regions) + [r] && stored == old(stored) + [None]
    {
      regions, stored := regions + [r], stored + [None];
    }

    /** The current block has room for the request, with a byte to spare. */
    ghost predicate Fits(len: nat)
      reads this
    {
      len < bytesAllocated && curBlock != null && bytesAllocated - bytesUsed > len
    }

    /** The next bytes of the current block. */
    method TakeCurrent(len: nat) returns (r: Region)
      requires Valid() && len > 0 && curBlock != null && bytesAllocated - bytesUsed > len
      modifies this`bytesUsed, this`curOff, this`regions, this`stored
      ensures Valid() && InBounds(r) && r == Region(curBlock, old(curOff), len) && curOff == old(curOff) + len
      ensures regions == old(regions) + [r] && stored == old(stored) + [None]
      ensures forall i :: 0 <= i < |old(regions)| ==> Disjoint(old(regions)[i], r)
    {
      r := Region(curBlock, curOff, len);
      assert forall i :: 0 <= i < |regions| ==> RegionOk(regions[i]);
      bytesUsed := bytesUsed + len;
      curOff := curOff + len;
      Record(r);
    }

    /** Hands out a region of the requested length that overlaps no earlier one: from the current block
        if it fits there, else at the start of one new block, which a request as large as a block has
        for itself. The request is made again at most once. */
    method GetBuffer(len: nat) returns (ret: Option<Region>)
      requires Valid()
      modifies this
      ensures Valid()
      ensures ret.None? <==> len == 0
      ensures ret.None? ==> regions == old(regions) && stored == old(stored) && bufList == old(bufList)
      ensures ret.Some? ==> ret.value.len == len
      ensures ret.Some? ==> regions == old(regions) + [ret.value] && stored == old(stored) + [None]
      ensures ret.Some? ==> InBounds(ret.value) && ret.value.block in bufList
      ensures ret.Some? ==> forall i :: 0 <= i < |old(regions)| ==> Disjoint(old(regions)[i], ret.value)
      ensures bytesAllocated == old(bytesAllocated)
      ensures ret.Some? && old(Fits(len)) ==>
                && bufList == old(bufList) && ret.value == Region(old(curBlock), old(curOff), len)
                && curOff == old(curOff) + len
      ensures ret.Some? && !old(Fits(len)) ==>
                && |bufList| == |old(bufList)| + 1 && ret.value.block == bufList[|old(bufList)|] && ret.value.off == 0
                && ret.value.block.Length == (if len >= bytesAllocated then len else bytesAllocated)
      ensures old(bufList) <= bufList && forall i :: |old(bufList)| <= i < |bufList| ==> fresh(bufList[i])
      decreases if curBlock != null && bytesAllocated - bytesUsed <= len then 1 else 0
    {
      if len == 0 {
        return None;
      }
      if len >= bytesAllocated {
        var block := AddBlock(len);
        ret := Some(Region(block, 0, len));
        Record(ret.value);
        return;
      }
      if curBlock == null {
        var block := AddBlock(bytesAllocated);
        curBlock, curOff := block, 0;
      }
      if bytesAllocated - bytesUsed > len {
        var r := TakeCurrent(len);
        ret := Some(r);
      } else {
        curBlock := null;
        bytesUsed := 0;
        ret := GetBuffer(len);
      }
    }

    /** Copies bytes into a region of their own; every earlier region keeps its content. */
    method Store(bytes: seq<Byte>) returns (r: Region)
      requires Valid() && Intact() && bytes != []
      modifies this, Blocks()
      ensures Valid() && Intact()
      ensures regions == old(regions) + [r] && stored == old(stored) + [Some(bytes)] && r.len == |bytes|
      ensures old(bufList) <= bufList && forall i :: |old(bufList)| <= i < |bufList| ==> fresh(bufList[i])
    {
      var ret := GetBuffer(|bytes|);
      r := ret.value;
      ghost var last := |regions| - 1;
      assert regions[last] == r && RegionOk(r);
      assert forall q :: 0 <= q < last ==> Disjoint(regions[q], r) && RegionOk(regions[q]);
      hide RegionOk;
      label before:
      WriteBytes(r, bytes);
      forall q | 0 <= q < last ensures Content(regions[q]) == old@before(Content(regions[q])) {
        assert Disjoint(regions[q], r);
      }
      stored := stored[last := Some(bytes)];
    }

    static method WriteBytes(r: Region, bytes: seq<Byte>)
      requires InBounds(r) && |bytes| == r.len
      modifies r.block
      ensures Content(r) == bytes
      ensures forall k :: 0 <= k < r.block.Length && !(r.off <= k < r.off + r.len) ==> r.block[k] == old(r.block[k])
    {
      for i := 0 to |bytes|
        invariant forall k :: 0 <= k < i ==> r.block[r.off + k] == bytes[k]
        invariant forall k :: 0 <= k < r.block.Length && !(r.off <= k < r.off + r.len) ==> r.block[k] == old(r.block[k])
      {
        r.block[r.off + i] := bytes[i];
      }
    }

    /** The copy constructor takes everything from the other list, which stays usable: it then gives
        every request a block of its own. */
    constructor Move(other: BufferList)
      requires other.Valid()
      modifies other
      ensures Valid() && other.Valid() && (old(other.Intact()) ==> Intact())
      ensures bufList == old(other.bufList) && regions == old(other.regions) && stored == old(other.stored)
      ensures curBlock == old(other.curBlock) && curOff == old(other.curOff)
      ensures bytesUsed == old(other.bytesUsed) && bytesAllocated == old(other.bytesAllocated)
      ensures other.bufList == [] && other.regions == [] && other.curBlock == null && other.bytesAllocated == 0
    {
      bufList, bytesUsed, bytesAllocated := other.bufList, other.bytesUsed, other.bytesAllocated;
      curBlock, curOff := other.curBlock, other.curOff;
      regions, stored := other.regions, other.stored;
      new;
      other.bufList, other.bytesUsed, other.bytesAllocated := [], 0, 0;
      other.curBlock, other.curOff := null, 0;
      other.regions, other.stored := [], [];
    }

    /** The destructor frees every recorded block, once each; the result lists the blocks freed. */
    method Destroy() returns (freed: seq<object>)
      requires Valid()
      ensures freed == bufList
    {
      freed := [];
      for i := 0 to |bufList|
        invariant freed == bufList[..i]
      {
        freed := freed + [bufList[i]];
      }
    }
  }
}
