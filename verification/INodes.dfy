/**
 The inode bitmap and its count.
 */
module INodes {
  import opened Disk
  import opened Allocator
  import opened Tree

  lemma {:induction false} FirstClearFound(bits: seq<bool>, i: nat)
    requires i <= |bits|
    requires exists k :: i <= k < |bits| && !bits[k]
    ensures var p := FirstClear(bits, i);
      i <= p < |bits| && !bits[p] && forall k :: i <= k < p ==> bits[k]
    decreases |bits| - i
  {
    if bits[i] { FirstClearFound(bits, i + 1); }
  }

  lemma ClearBitsStore(bits: seq<bool>, id: int, v: bool)
    requires 0 <= id < |bits| && bits[id] != v
    ensures |ClearBits(bits[id := v])| == |ClearBits(bits)| + (if v then -1 else 1)
  {
    if v {
      assert ClearBits(bits) == ClearBits(bits[id := v]) + {id};
    } else {
      assert ClearBits(bits[id := v]) == ClearBits(bits) + {id};
    }
  }

  lemma INodeIdInjective(a: int, b: int)
    requires IsINode(a) && IsINode(b) && INodeId(a) == INodeId(b)
    ensures a == b
  {
  }

  lemma INodeMarked(s: State, a: int, used: bool)
    requires |s.inodeBits| == INODE_NUM && IsINode(a)
    ensures forall b :: IsINode(b) ==>
      (INodeUsed(MarkINode(s, a, used), b) <==> if b == a then used else INodeUsed(s, b))
  {
    forall b | IsINode(b) && b != a
      ensures INodeId(b) != INodeId(a)
    {
      if INodeId(b) == INodeId(a) { INodeIdInjective(a, b); }
    }
  }

  /** The two invariants that every operation on the bitmaps keeps. */
  ghost predicate DiskInv(s: State) {
    match s
    case State(_, _, _, _) => ChainInv(s) && CountInv(s)
  }

  lemma StackShape(s: State)
    requires DiskInv(s)
    ensures |s.super.stack| == GROUP
  {
  }

  lemma ChainFrameSuper(s: State, s': State)
    requires ChainInv(s)
    requires s'.super == s.super.(freeInodes := s'.super.freeInodes)
    requires s'.blockBits == s.blockBits && s'.img.blocks == s.img.blocks
    requires |s'.inodeBits| == |s.inodeBits| && s'.img.inodes.Keys == s.img.inodes.Keys
    ensures ChainInv(s') && Frees(s') == Frees(s)
    ensures forall a :: Used(s', a) == Used(s, a)
  {
    assert forall a :: Free(s', a) == Free(s, a);
  }

  /** INodeAlloc hands out an inode whose bit was clear, and refuses exactly when the count is 0. */
  lemma AllocINodeFresh(s: State)
    requires DiskInv(s) && s.super.freeInodes > 0
    ensures
      var (s', a) := AllocINode(s);
      && IsINode(a) && !INodeUsed(s, a) && a != -1 && DiskInv(s') && Frees(s') == Frees(s)
      && (forall b :: INodeUsed(s', b) <==> b == a || INodeUsed(s, b))
      && (forall b :: Used(s', b) == Used(s, b))
      && s'.img.inodes == s.img.inodes && s'.img.blocks == s.img.blocks
      && s'.super.freeBlocks == s.super.freeBlocks && s'.super.freeInodes == s.super.freeInodes - 1
      && (forall k :: 0 <= k < INodeId(a) ==> s.inodeBits[k])
  {
    var free := ClearBits(s.inodeBits);
    var k :| k in free;
    FirstClearFound(s.inodeBits, 0);
    var p := FirstClear(s.inodeBits, 0);
    var (s', a) := AllocINode(s);
    assert INodeId(a) == p;
    ClearBitsStore(s.inodeBits, p, true);
    INodeMarked(SaveSuper(s.(super := s.super.(freeInodes := s.super.freeInodes - 1))), a, true);
    ChainFrameSuper(s, s');
  }

  /** INodeFree clears exactly one set bit. */
  lemma FreeINodeFrees(s: State, a: int)
    requires |s.inodeBits| == INODE_NUM && CountInv(s) && INodeUsed(s, a)
    ensures
      var (s', ok) := FreeINode(s, a);
      && ok && CountInv(s') && |s'.inodeBits| == INODE_NUM
      && (forall b :: INodeUsed(s', b) <==> b != a && INodeUsed(s, b))
      && (forall b :: Used(s', b) == Used(s, b))
      && s'.super.freeInodes == s.super.freeInodes + 1
      && s'.img.inodes == s.img.inodes[a := BLANK] && s'.img.blocks == s.img.blocks
      && (ChainInv(s) ==> ChainInv(s') && Frees(s') == Frees(s))
  {
    var (s', ok) := FreeINode(s, a);
    ClearBitsStore(s.inodeBits, INodeId(a), false);
    INodeMarked(SaveSuper(WriteINode(s, a, BLANK).(super := s.super.(freeInodes := s.super.freeInodes + 1))), a, false);
    if ChainInv(s) { ChainFrameSuper(s, s'); }
  }
}
