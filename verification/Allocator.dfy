/**
 The block and inode allocators of src/filesystem_alloc.cpp as functions on the
 state; the class methods in FileSystem.dfy are proved equal to them.
 */
module Allocator {
  import opened Disk

  /** The stack top, recomputed at every call in 32-bit unsigned arithmetic. */
  function Top(freeBlocks: nat): nat { ((freeBlocks - 1) % UINT32) % GROUP }

  function MarkBlock(s: State, a: int, used: bool): State {
    s.(blockBits := SetBit(s.blockBits, BlockId(a), used),
       img := s.img.(blockBits := SetBit(s.img.blockBits, BlockId(a), used)))
  }

  function MarkINode(s: State, a: int, used: bool): State {
    s.(inodeBits := SetBit(s.inodeBits, INodeId(a), used),
       img := s.img.(inodeBits := SetBit(s.img.inodeBits, INodeId(a), used)))
  }

  function WriteBlock(s: State, a: int, b: Block): State {
    s.(img := s.img.(blocks := s.img.blocks[a := b]))
  }

  function WriteINode(s: State, a: int, n: INode): State {
    s.(img := s.img.(inodes := s.img.inodes[a := n]))
  }

  function PoppedSuper(sup: Super, blocks: map<int, Block>): (r: Super)
    requires sup.freeBlocks > 0 && |sup.stack| == GROUP
    ensures |r.stack| == GROUP
  {
    var top := Top(sup.freeBlocks);
    if top == 0 then
      sup.(freeBlocks := sup.freeBlocks - 1, leader := sup.stack[0], stack := StackAt(blocks, sup.stack[0]))
    else
      sup.(freeBlocks := sup.freeBlocks - 1, stack := sup.stack[top := -1])
  }

  /** BlockAlloc: the new state and the address, -1 when the count is 0. */
  function AllocBlock(s: State): (r: (State, int))
    requires |s.super.stack| == GROUP
    ensures |r.0.super.stack| == GROUP
  {
    if s.super.freeBlocks == 0 then (s, -1)
    else
      var top := Top(s.super.freeBlocks);
      var a := if top == 0 then s.super.leader else s.super.stack[top];
      (MarkBlock(SaveSuper(s.(super := PoppedSuper(s.super, s.img.blocks))), a, true), a)
  }

  /** The refusals of FreeBlock; an address outside the data region is refused here. */
  predicate CanFree(s: State, a: int) {
    && IsBlock(a)
    && BlockId(a) < |s.blockBits| && s.blockBits[BlockId(a)]
    && s.super.freeBlocks != BLOCK_NUM
  }

  function SpilledStack(leader: int): (r: seq<int>)
    ensures |r| == GROUP
  {
    [leader] + seq(GROUP - 1, _ => -1)
  }

  /** FreeBlock as written: the spill branch leaves s_free_addr alone. */
  function FreeBlock(s: State, a: int): (r: (State, bool))
    requires |s.super.stack| == GROUP
    ensures |r.0.super.stack| == GROUP
  {
    if !CanFree(s, a) then (s, false)
    else
      var top := Top(s.super.freeBlocks);
      var stack := if top == GROUP - 1 then SpilledStack(s.super.leader) else s.super.stack[top + 1 := a];
      var block := if top == GROUP - 1 then Stack(stack) else Zeroed();
      var sup := s.super.(stack := stack, freeBlocks := s.super.freeBlocks + 1);
      (MarkBlock(SaveSuper(WriteBlock(s, a, block).(super := sup)), a, false), true)
  }

  /** The first clear bit at or after `i`, or 0 when there is none. */
  function FirstClear(bits: seq<bool>, i: nat): int
    decreases |bits| - i
  {
    if i >= |bits| then 0 else if !bits[i] then i else FirstClear(bits, i + 1)
  }

  function AllocINode(s: State): (State, int) {
    if s.super.freeInodes == 0 then (s, -1)
    else
      var a := INodeAddr(FirstClear(s.inodeBits, 0));
      (MarkINode(SaveSuper(s.(super := s.super.(freeInodes := s.super.freeInodes - 1))), a, true), a)
  }

  const BLANK := INode(0, 0, "", "", 0, [0, 0, 0, 0, 0, 0, 0, 0, 0, 0], 0)

  function FreeINode(s: State, a: int): (State, bool) {
    if !IsINode(a) || INodeId(a) >= |s.inodeBits| || !s.inodeBits[INodeId(a)] then (s, false)
    else
      var s1 := SaveSuper(WriteINode(s, a, BLANK).(super := s.super.(freeInodes := s.super.freeInodes + 1)));
      (MarkINode(s1, a, false), true)
  }

  // ---------------------------------------------------------------------
  // The abstract free list
  // ---------------------------------------------------------------------

  /** The index of the top entry when `n` blocks are free. */
  function TopOf(n: nat): (t: nat)
    requires n > 0
    ensures t < GROUP && t < n
  {
    (n - 1) % GROUP
  }

  /** The entries of one group from the top down to entry 1, then its leader. */
  function Group(top: nat, leader: int, stack: seq<int>): (r: seq<int>)
    requires top < GROUP == |stack|
    ensures |r| == top + 1
  {
    seq(top, k requires 0 <= k < top => stack[top - k]) + [leader]
  }

  /** The `n` free blocks: the current group, then the groups linked from entry 0. */
  ghost function FreeList(n: nat, leader: int, stack: seq<int>, blocks: map<int, Block>): (r: seq<int>)
    requires |stack| == GROUP
    ensures |r| == n
  {
    if n == 0 then []
    else Group(TopOf(n), leader, stack) + FreeList(n - TopOf(n) - 1, stack[0], StackAt(blocks, stack[0]), blocks)
  }

  /** The last group links to -1. */
  ghost predicate EndsAt(n: nat, leader: int, stack: seq<int>, blocks: map<int, Block>)
    requires |stack| == GROUP
  {
    if n == 0 then leader == -1
    else EndsAt(n - TopOf(n) - 1, stack[0], StackAt(blocks, stack[0]), blocks)
  }

  ghost function Frees(s: State): seq<int>
    requires |s.super.stack| == GROUP
  {
    FreeList(s.super.freeBlocks, s.super.leader, s.super.stack, s.img.blocks)
  }

  predicate Used(s: State, a: int) {
    IsBlock(a) && BlockId(a) < |s.blockBits| && s.blockBits[BlockId(a)]
  }

  predicate Free(s: State, a: int) {
    IsBlock(a) && BlockId(a) < |s.blockBits| && !s.blockBits[BlockId(a)]
  }

  ghost predicate Distinct(l: seq<int>) { forall i, j :: 0 <= i < j < |l| ==> l[i] != l[j] }

  ghost predicate Shaped(s: State) {
    && |s.super.stack| == GROUP
    && |s.blockBits| == BLOCK_NUM
    && |s.inodeBits| == INODE_NUM
    && s.super.freeBlocks <= BLOCK_NUM
    && (forall a :: a in s.img.blocks <==> IsBlock(a))
    && (forall a :: a in s.img.inodes <==> IsINode(a))
  }

  /** The chain, the count and the block bitmap agree. */
  ghost predicate ChainInv(s: State) {
    && Shaped(s)
    && Distinct(Frees(s))
    && (forall a :: a in Frees(s) <==> Free(s, a))
    && EndsAt(s.super.freeBlocks, s.super.leader, s.super.stack, s.img.blocks)
  }

  function ClearBits(bits: seq<bool>): set<int> { set i | 0 <= i < |bits| && !bits[i] }

  /** The inode count and the inode bitmap agree. */
  ghost predicate CountInv(s: State) {
    |s.inodeBits| == INODE_NUM && s.super.freeInodes == |ClearBits(s.inodeBits)|
  }

  // ---------------------------------------------------------------------
  // What the free list depends on
  // ---------------------------------------------------------------------

  /** The blocks listed after the current group. */
  ghost function Later(n: nat, stack: seq<int>, blocks: map<int, Block>): seq<int>
    requires |stack| == GROUP
  {
    if n == 0 then [] else FreeList(n - TopOf(n) - 1, stack[0], StackAt(blocks, stack[0]), blocks)
  }

  lemma Unfold(n: nat, leader: int, stack: seq<int>, blocks: map<int, Block>)
    requires |stack| == GROUP && n > 0
    ensures FreeList(n, leader, stack, blocks) == Group(TopOf(n), leader, stack) + Later(n, stack, blocks)
    ensures Later(n, stack, blocks) == FreeList(n - TopOf(n) - 1, stack[0], StackAt(blocks, stack[0]), blocks)
    ensures EndsAt(n, leader, stack, blocks) == EndsAt(n - TopOf(n) - 1, stack[0], StackAt(blocks, stack[0]), blocks)
  {
  }

  lemma UnfoldEnd(leader: int, stack: seq<int>, blocks: map<int, Block>)
    requires |stack| == GROUP
    ensures FreeList(0, leader, stack, blocks) == [] && EndsAt(0, leader, stack, blocks) == (leader == -1)
  {
  }

  /** Only leaders of later groups are read, and those are listed. */
  lemma {:induction false} ChainFrame(n: nat, leader: int, stack: seq<int>, blocks: map<int, Block>,
                                      blocks': map<int, Block>)
    requires |stack| == GROUP
    requires forall a :: a in Later(n, stack, blocks) ==> BlockAt(blocks', a) == BlockAt(blocks, a)
    ensures FreeList(n, leader, stack, blocks') == FreeList(n, leader, stack, blocks)
    ensures EndsAt(n, leader, stack, blocks') == EndsAt(n, leader, stack, blocks)
    decreases n, 0
  {
    hide FreeList, EndsAt, Later, Group;
    if n == 0 {
      UnfoldEnd(leader, stack, blocks);
      UnfoldEnd(leader, stack, blocks');
    } else {
      Unfold(n, leader, stack, blocks);
      Unfold(n, leader, stack, blocks');
      RestFrame(n - TopOf(n) - 1, stack[0], blocks, blocks');
    }
  }

  /** The groups that start with this leader. */
  lemma {:induction false} RestFrame(m: nat, leader: int, blocks: map<int, Block>, blocks': map<int, Block>)
    requires forall a :: a in FreeList(m, leader, StackAt(blocks, leader), blocks) ==> BlockAt(blocks', a) == BlockAt(blocks, a)
    ensures FreeList(m, leader, StackAt(blocks', leader), blocks') == FreeList(m, leader, StackAt(blocks, leader), blocks)
    ensures EndsAt(m, leader, StackAt(blocks', leader), blocks') == EndsAt(m, leader, StackAt(blocks, leader), blocks)
    decreases m, 1
  {
    hide FreeList, EndsAt, Later, Group;
    if m == 0 {
      UnfoldEnd(leader, StackAt(blocks, leader), blocks);
      UnfoldEnd(leader, StackAt(blocks', leader), blocks');
    } else {
      LeaderListed(m, leader, StackAt(blocks, leader), blocks);
      Unfold(m, leader, StackAt(blocks, leader), blocks);
      ChainFrame(m, leader, StackAt(blocks, leader), blocks, blocks');
    }
  }

  lemma LeaderListed(n: nat, leader: int, stack: seq<int>, blocks: map<int, Block>)
    requires |stack| == GROUP && n > 0
    ensures leader in FreeList(n, leader, stack, blocks)
    ensures FreeList(n, leader, stack, blocks)[TopOf(n)] == leader
  {
    assert Group(TopOf(n), leader, stack)[TopOf(n)] == leader;
  }
}
