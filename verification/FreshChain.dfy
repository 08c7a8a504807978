/**
 The chain that Format builds (src/filesystem_lifecycle.cpp).
 */
module FreshChain {
  import opened Disk
  import opened Allocator
  import opened Lifo

  const GROUPS: int := BLOCK_NUM / GROUP

  /** The first block of group `g`, and -1 past the last group. */
  function LeaderOf(g: int): int { if g == GROUPS then -1 else BlockAddr(g * GROUP) }

  /** What Format writes into the leader of group `g`. */
  function GroupStack(g: int): (r: seq<int>)
    ensures |r| == GROUP
  {
    seq(GROUP, j => if j == 0 then LeaderOf(g + 1) else BlockAddr(g * GROUP + j))
  }

  ghost predicate GroupsFrom(g: int, blocks: map<int, Block>) {
    forall h {:trigger StackAt(blocks, LeaderOf(h))} :: g <= h < GROUPS ==> StackAt(blocks, LeaderOf(h)) == GroupStack(h)
  }

  /** Superblock, bitmaps and data region right after the chain loop. */
  ghost predicate Fresh(s: State) {
    && Shaped(s)
    && s.super.freeBlocks == BLOCK_NUM
    && s.super.leader == LeaderOf(0) && s.super.stack == GroupStack(0)
    && (forall i :: 0 <= i < BLOCK_NUM ==> !s.blockBits[i])
    && GroupsFrom(0, s.img.blocks)
  }

  /** The k-th block a fresh chain hands out: groups in order, each from its last block down. */
  function FreshBlock(k: nat): int { BlockAddr(GROUP * (k / GROUP) + GROUP - 1 - k % GROUP) }

  /** The list is what a fresh chain hands out from its `start`-th block on. */
  ghost predicate InOrder(l: seq<int>, start: nat) {
    forall k :: 0 <= k < |l| ==> l[k] == FreshBlock(start + k)
  }

  lemma GroupOrder(g: nat)
    requires g < GROUPS
    ensures InOrder(Group(GROUP - 1, LeaderOf(g), GroupStack(g)), g * GROUP)
  {
    var l := Group(GROUP - 1, LeaderOf(g), GroupStack(g));
    forall k | 0 <= k < GROUP ensures l[k] == FreshBlock(g * GROUP + k) {
      assert (g * GROUP + k) / GROUP == g && (g * GROUP + k) % GROUP == k;
    }
  }

  lemma Joined(group: seq<int>, rest: seq<int>, start: nat)
    requires InOrder(group, start) && InOrder(rest, start + |group|)
    ensures InOrder(group + rest, start)
  {
    forall k | |group| <= k < |group + rest| ensures (group + rest)[k] == FreshBlock(start + k) {
      assert rest[k - |group|] == FreshBlock(start + |group| + (k - |group|));
    }
  }

  lemma SplitFull(n: nat, leader: int, stack: seq<int>, after: int, blocks: map<int, Block>)
    requires |stack| == GROUP && n > 0 && n % GROUP == 0 && stack[0] == after
    ensures
      var next := StackAt(blocks, after);
      && n >= GROUP
      && FreeList(n, leader, stack, blocks)
         == Group(GROUP - 1, leader, stack) + FreeList(n - GROUP, after, next, blocks)
      && EndsAt(n, leader, stack, blocks) == EndsAt(n - GROUP, after, next, blocks)
  {
    assert TopOf(n) == GROUP - 1;
  }

  ghost predicate ListedFrom(g: nat, n: nat, leader: int, stack: seq<int>, blocks: map<int, Block>)
    requires |stack| == GROUP
  {
    match FreeList(n, leader, stack, blocks)
    case l => InOrder(l, g * GROUP) && EndsAt(n, leader, stack, blocks)
  }

  lemma FreshStep(g: nat, n: nat, after: int, blocks: map<int, Block>)
    requires g < GROUPS && n > 0 && n % GROUP == 0 && after == LeaderOf(g + 1)
    requires n >= GROUP && ListedFrom(g + 1, n - GROUP, after, StackAt(blocks, after), blocks)
    ensures ListedFrom(g, n, LeaderOf(g), GroupStack(g), blocks)
  {
    GroupOrder(g);
    SplitFull(n, LeaderOf(g), GroupStack(g), after, blocks);
    Joined(Group(GROUP - 1, LeaderOf(g), GroupStack(g)), FreeList(n - GROUP, after, StackAt(blocks, after), blocks), g * GROUP);
  }

  lemma {:induction false} FreshList(g: nat, n: nat, stack: seq<int>, blocks: map<int, Block>)
    requires g <= GROUPS && GroupsFrom(g, blocks) && |stack| == GROUP
    requires n == (GROUPS - g) * GROUP
    requires g < GROUPS ==> stack == GroupStack(g)
    ensures ListedFrom(g, n, LeaderOf(g), stack, blocks)
    decreases GROUPS - g
  {
    if g < GROUPS {
      var after := LeaderOf(g + 1);
      FreshList(g + 1, n - GROUP, StackAt(blocks, after), blocks);
      FreshStep(g, n, after, blocks);
    }
  }

  /** A fresh chain satisfies the invariant and hands its blocks out in the stated order. */
  lemma FreshOrder(s: State)
    requires Fresh(s)
    ensures ChainInv(s)
    ensures forall k :: 0 <= k < s.super.freeBlocks ==> Frees(s)[k] == FreshBlock(k)
  {
    FreshList(0, s.super.freeBlocks, s.super.stack, s.img.blocks);
    assert InOrder(Frees(s), 0);
    FreshSet(Frees(s));
  }

  lemma FreshSet(l: seq<int>)
    requires |l| == BLOCK_NUM && InOrder(l, 0)
    ensures Distinct(l) && forall a :: a in l <==> IsBlock(a)
  {
    forall i, j | 0 <= i < j < |l| ensures l[i] != l[j] {
      assert l[i] == FreshBlock(0 + i) && l[j] == FreshBlock(0 + j);
    }
    forall a | a in l ensures IsBlock(a) {
      var k :| 0 <= k < |l| && l[k] == a;
      FreshValid(k);
    }
    forall a | IsBlock(a) ensures a in l {
      assert l[FreshIndex(a)] == FreshBlock(0 + FreshIndex(a)) == a;
    }
  }

  /** When the block at `a` is handed out. */
  function FreshIndex(a: int): (k: nat)
    requires IsBlock(a)
    ensures k < BLOCK_NUM && FreshBlock(k) == a
  {
    GROUP * (BlockId(a) / GROUP) + GROUP - 1 - BlockId(a) % GROUP
  }

  lemma FreshValid(k: nat)
    requires k < BLOCK_NUM
    ensures IsBlock(FreshBlock(k))
  {
  }

  /** Allocating from a fresh chain without freeing: block k comes k-th, then nothing. */
  function AllocTimes(s: State, k: nat): (r: State)
    requires |s.super.stack| == GROUP
    ensures |r.super.stack| == GROUP
  {
    if k == 0 then s else AllocBlock(AllocTimes(s, k - 1)).0
  }

  lemma {:induction false} AllocTimesDrops(s: State, k: nat)
    requires ChainInv(s) && k <= s.super.freeBlocks
    ensures ChainInv(AllocTimes(s, k)) && Frees(AllocTimes(s, k)) == Frees(s)[k..]
  {
    if k > 0 {
      AllocTimesDrops(s, k - 1);
      AllocPops(AllocTimes(s, k - 1));
    }
  }

  lemma FreshAllocation(s: State, k: nat)
    requires Fresh(s) && k <= BLOCK_NUM
    ensures AllocBlock(AllocTimes(s, k)).1 == if k < BLOCK_NUM then FreshBlock(k) else -1
  {
    FreshOrder(s);
    AllocTimesDrops(s, k);
    var s' := AllocTimes(s, k);
    if k < BLOCK_NUM { AllocPops(s'); } else { AllocEmpty(s'); }
  }

  lemma LeaderAfter(s: State, n: nat)
    requires Fresh(s) && n == GROUP
    ensures ChainInv(AllocTimes(s, n)) && AllocTimes(s, n).super.freeBlocks == BLOCK_NUM - n
    ensures AllocTimes(s, n).super.leader == LeaderOf(1)
  {
    hide FreeList, AllocTimes;
    FreshOrder(s);
    AllocTimesDrops(s, n);
    var s' := AllocTimes(s, n);
    var l := Frees(s');
    LeaderListed(s'.super.freeBlocks, s'.super.leader, s'.super.stack, s'.img.blocks);
    assert s'.super.freeBlocks == |l|;
    assert TopOf(|l|) == GROUP - 1;
    assert l[GROUP - 1] == Frees(s)[n + (GROUP - 1)];
  }

  /** On any superblock BlockAlloc takes the head of the list, sound or not. */
  lemma AllocTakesHead(s: State)
    requires |s.super.stack| == GROUP && 0 < s.super.freeBlocks <= BLOCK_NUM
    ensures AllocBlock(s).1 == Frees(s)[0] && Frees(AllocBlock(s).0) == Frees(s)[1..]
    ensures AllocBlock(s).0.super.freeBlocks == s.super.freeBlocks - 1
  {
    hide FreeList, StackAt, EndsAt;
    PopChain(s.super, s.img.blocks);
  }

  lemma {:induction false} AllocTimesTakes(s: State, k: nat)
    requires |s.super.stack| == GROUP && k <= s.super.freeBlocks <= BLOCK_NUM
    ensures Frees(AllocTimes(s, k)) == Frees(s)[k..] && AllocTimes(s, k).super.freeBlocks == s.super.freeBlocks - k
  {
    hide FreeList, AllocBlock;
    if k > 0 {
      AllocTimesTakes(s, k - 1);
      AllocTakesHead(AllocTimes(s, k - 1));
    }
  }

  /**
   The spill as written hands one block out twice: on any group boundary with
   blocks left, the allocation after a free and the one GROUP later, with no
   free in between, return the same address.
   */
  lemma SpillDoubleAllocates(s: State, a: int, k: nat)
    requires ChainInv(s) && Used(s, a) && s.super.freeBlocks % GROUP == 0 && s.super.freeBlocks > 0 && k == GROUP
    ensures
      var s' := FreeBlock(s, a).0;
      && AllocBlock(s').1 == s.super.leader
      && AllocBlock(AllocTimes(s', k)).1 == s.super.leader
      && IsBlock(s.super.leader)
  {
    hide FreeList, FreeBlock, AllocBlock;
    SpillListsTwice(s, a);
    NotAllFree(s, a);
    var s' := FreeBlock(s, a).0;
    AllocTakesHead(s');
    AllocTimesTakes(s', k);
    AllocTakesHead(AllocTimes(s', k));
  }

  /** From a fresh chain: GROUP allocations, one free, and the leader of the second group goes out twice. */
  lemma FreshSpill(s: State, n: nat, a: int)
    requires Fresh(s) && n == GROUP
    requires Used(AllocTimes(s, n), a)
    ensures
      var s' := FreeBlock(AllocTimes(s, n), a).0;
      AllocBlock(s').1 == AllocBlock(AllocTimes(s', n)).1 == LeaderOf(1)
  {
    hide AllocTimes, FreeBlock, AllocBlock;
    LeaderAfter(s, n);
    SpillDoubleAllocates(AllocTimes(s, n), a, n);
  }

  /**
   Sooner still: where the leader's block on disk lists, at its top, a block that
   has since been allocated, the second allocation after the spill hands that
   block out while it is in use.
   */
  lemma SpillHandsOutUsed(s: State, a: int, x: int)
    requires ChainInv(s) && Used(s, a) && s.super.freeBlocks % GROUP == 0 && s.super.freeBlocks > 0
    requires x == StackAt(s.img.blocks, s.super.leader)[GROUP - 1] && Used(s, x) && x != a
    ensures
      var s1 := FreeBlock(s, a).0;
      var (s2, b) := AllocBlock(s1);
      && b == s.super.leader && Used(s2, x) && AllocBlock(s2).1 == x
  {
    hide FreeList, EndsAt, Distinct, StackAt;
    NotAllFree(s, a);
    var n := s.super.freeBlocks;
    LeaderListed(n, s.super.leader, s.super.stack, s.img.blocks);
    assert Free(s, s.super.leader);
    assert Top(n) == GROUP - 1 && Top(n + 1) == 0;
    var s1 := FreeBlock(s, a).0;
    Marked(s, a, false);
    assert Used(s1, x) == Used(MarkBlock(s, a, false), x);
    var s2 := AllocBlock(s1).0;
    assert s1.img.blocks == s.img.blocks[a := Stack(SpilledStack(s.super.leader))];
    StackElsewhere(s.img.blocks, a, s.super.leader, Stack(SpilledStack(s.super.leader)));
    assert s2.super.stack == StackAt(s1.img.blocks, s.super.leader);
  }

  lemma {:induction false} AllocTimesBlocks(s: State, k: nat)
    requires |s.super.stack| == GROUP
    ensures AllocTimes(s, k).img.blocks == s.img.blocks
  {
    if k > 0 { AllocTimesBlocks(s, k - 1); }
  }

  lemma FreshApart(j: nat, k: nat)
    requires j < BLOCK_NUM && k < BLOCK_NUM && FreshBlock(j) == FreshBlock(k)
    ensures j == k
  {
  }

  /** After `n` allocations from a fresh chain exactly the first `n` blocks are in use. */
  lemma FreshUsed(s: State, n: nat, k: nat)
    requires Fresh(s) && n <= BLOCK_NUM && k < n
    ensures ChainInv(AllocTimes(s, n)) && Used(AllocTimes(s, n), FreshBlock(k))
    ensures Frees(AllocTimes(s, n)) == Frees(s)[n..] && AllocTimes(s, n).super.freeBlocks == BLOCK_NUM - n
  {
    hide FreeList, EndsAt, AllocTimes, FreshBlock, Distinct;
    FreshOrder(s);
    AllocTimesDrops(s, n);
    FreshValid(k);
    var s', a := AllocTimes(s, n), FreshBlock(k);
    if a in Frees(s') {
      var j :| 0 <= j < |Frees(s')| && Frees(s')[j] == a;
      assert Frees(s)[n + j] == FreshBlock(n + j);
      FreshApart(n + j, k);
    }
    assert |Frees(s')| == |Frees(s)| - n;
    assert !Free(s', a);
  }

  /** Two groups of addresses, and where the second one's leader comes. */
  lemma SecondGroup(n: nat)
    requires n == GROUP
    ensures FreshBlock(n + (n - 1)) == LeaderOf(1) && GroupStack(1)[GROUP - 1] == FreshBlock(n)
    ensures LeaderOf(1) != FreshBlock(n - 1)
  {
  }

  /** From a fresh chain: 65 allocations, two frees, and the second allocation after them hands out a block in use. */
  lemma FreshSpillSoon(s: State, n: nat)
    requires Fresh(s) && n == GROUP
    ensures
      var s65 := AllocTimes(s, n + 1);
      var s0 := FreeBlock(s65, FreshBlock(n - 1)).0;
      var s1 := FreeBlock(s0, FreshBlock(n - 2)).0;
      var s2 := AllocBlock(s1).0;
      Used(s2, FreshBlock(n)) && AllocBlock(s2).1 == FreshBlock(n)
  {
    hide FreeList, EndsAt, AllocTimes, FreshBlock, Distinct, FreeBlock, AllocBlock, StackAt, GroupStack, LeaderOf;
    var s65, a, b, x := AllocTimes(s, n + 1), FreshBlock(n - 1), FreshBlock(n - 2), FreshBlock(n);
    FreshOrder(s);
    FreshUsed(s, n + 1, n - 1);
    FreshUsed(s, n + 1, n - 2);
    FreshUsed(s, n + 1, n);
    AllocTimesBlocks(s, n + 1);
    FreePushes(s65, a);
    var s0 := FreeBlock(s65, a).0;
    LeaderListed(s0.super.freeBlocks, s0.super.leader, s0.super.stack, s0.img.blocks);
    assert Frees(s0)[n - 1] == Frees(s65)[n - 2] == Frees(s)[n + (n - 1)];
    SecondGroup(n);
    StackElsewhere(s.img.blocks, a, LeaderOf(1), Zeroed());
    if b == a { FreshApart(n - 2, n - 1); }
    if x == a { FreshApart(n, n - 1); }
    if x == b { FreshApart(n, n - 2); }
    assert StackAt(s.img.blocks, LeaderOf(1)) == GroupStack(1);
    SpillHandsOutUsed(s0, b, x);
  }

  lemma StackElsewhere(blocks: map<int, Block>, a: int, b: int, block: Block)
    requires a != b
    ensures StackAt(blocks[a := block], b) == StackAt(blocks, b)
  {
  }
}
