/**
 The grouped free chain refines a last-in first-out list.
 */
module Lifo {
  import opened Disk
  import opened Allocator

  lemma BlockIdInjective(a: int, b: int)
    requires IsBlock(a) && IsBlock(b) && BlockId(a) == BlockId(b)
    ensures a == b
  {
  }

  /** What marking a block does to the bitmap, address by address. */
  lemma Marked(s: State, a: int, used: bool)
    requires |s.blockBits| == BLOCK_NUM && IsBlock(a)
    ensures forall b :: IsBlock(b) ==>
      (Used(MarkBlock(s, a, used), b) <==> if b == a then used else Used(s, b))
    ensures forall b :: IsBlock(b) ==>
      (Free(MarkBlock(s, a, used), b) <==> if b == a then !used else Free(s, b))
  {
    forall b | IsBlock(b) && b != a
      ensures BlockId(b) != BlockId(a)
    {
      if BlockId(b) == BlockId(a) { BlockIdInjective(a, b); }
    }
  }

  // ---------------------------------------------------------------------
  // BlockAlloc pops
  // ---------------------------------------------------------------------

  lemma GroupPop(top: nat, leader: int, stack: seq<int>)
    requires 0 < top < GROUP == |stack|
    ensures Group(top, leader, stack) == [stack[top]] + Group(top - 1, leader, stack[top := -1])
  {
  }

  lemma PopLeader(n: nat, leader: int, stack: seq<int>, blocks: map<int, Block>)
    requires |stack| == GROUP && n > 0 && TopOf(n) == 0
    ensures
      var next := StackAt(blocks, stack[0]);
      && FreeList(n, leader, stack, blocks) == [leader] + FreeList(n - 1, stack[0], next, blocks)
      && EndsAt(n, leader, stack, blocks) == EndsAt(n - 1, stack[0], next, blocks)
  {
    assert Group(0, leader, stack) == [leader];
  }

  lemma PopEntry(n: nat, leader: int, stack: seq<int>, blocks: map<int, Block>)
    requires |stack| == GROUP && n > 0 && TopOf(n) > 0
    ensures
      var stack' := stack[TopOf(n) := -1];
      && FreeList(n, leader, stack, blocks) == [stack[TopOf(n)]] + FreeList(n - 1, leader, stack', blocks)
      && EndsAt(n, leader, stack, blocks) == EndsAt(n - 1, leader, stack', blocks)
  {
    var top := TopOf(n);
    var stack' := stack[top := -1];
    assert TopOf(n - 1) == top - 1;
    var rest := Later(n, stack, blocks);
    assert Later(n - 1, stack', blocks) == rest;
    GroupPop(top, leader, stack);
    assert ([stack[top]] + Group(top - 1, leader, stack')) + rest == [stack[top]] + (Group(top - 1, leader, stack') + rest);
  }

  /** Up to the size of the disk the unsigned arithmetic is the plain one. */
  lemma TopIsTopOf(n: nat)
    requires 0 < n <= BLOCK_NUM
    ensures Top(n) == TopOf(n)
  {
  }

  lemma PopChain(sup: Super, blocks: map<int, Block>)
    requires |sup.stack| == GROUP && 0 < sup.freeBlocks <= BLOCK_NUM
    ensures
      var p := PoppedSuper(sup, blocks);
      var head := if Top(sup.freeBlocks) == 0 then sup.leader else sup.stack[Top(sup.freeBlocks)];
      && FreeList(sup.freeBlocks, sup.leader, sup.stack, blocks)
         == [head] + FreeList(p.freeBlocks, p.leader, p.stack, blocks)
      && EndsAt(p.freeBlocks, p.leader, p.stack, blocks) == EndsAt(sup.freeBlocks, sup.leader, sup.stack, blocks)
  {
    hide FreeList, EndsAt;
    var n := sup.freeBlocks;
    var top := TopOf(n);
    TopIsTopOf(n);
    var p := PoppedSuper(sup, blocks);
    if top == 0 {
      assert p == Super(sup.freeInodes, n - 1, sup.stack[0], StackAt(blocks, sup.stack[0]));
      PopLeader(n, sup.leader, sup.stack, blocks);
    } else {
      assert p == Super(sup.freeInodes, n - 1, sup.leader, sup.stack[top := -1]);
      PopEntry(n, sup.leader, sup.stack, blocks);
    }
  }

  /** BlockAlloc hands out the head of the list and keeps the invariant; it touches nothing but the superblock and one bit. */
  lemma AllocPops(s: State)
    requires ChainInv(s) && s.super.freeBlocks > 0
    ensures
      var (s', a) := AllocBlock(s);
      && a == Frees(s)[0] && Frees(s') == Frees(s)[1..]
      && Free(s, a) && ChainInv(s')
      && (forall b :: Used(s', b) <==> b == a || Used(s, b))
      && s'.inodeBits == s.inodeBits && s'.super.freeInodes == s.super.freeInodes
      && s'.super.freeBlocks == s.super.freeBlocks - 1
      && s'.img.inodes == s.img.inodes && s'.img.blocks == s.img.blocks
  {
    PopChain(s.super, s.img.blocks);
    var (s', a) := AllocBlock(s);
    var l := Frees(s);
    assert a == l[0];
    assert a in l;
    Marked(SaveSuper(s.(super := PoppedSuper(s.super, s.img.blocks))), a, true);
    assert Frees(s') == l[1..];
    forall b ensures b in Frees(s') <==> Free(s', b) {
      assert b in l <==> b == a || b in l[1..];
      assert Free(s, b) <==> b in l;
    }
  }

  lemma AllocEmpty(s: State)
    requires ChainInv(s)
    ensures AllocBlock(s).1 == -1 <==> s.super.freeBlocks == 0
    ensures s.super.freeBlocks == 0 ==> AllocBlock(s).0 == s
  {
    if s.super.freeBlocks > 0 { AllocPops(s); }
  }

  // ---------------------------------------------------------------------
  // FreeBlock pushes
  // ---------------------------------------------------------------------

  ghost function UpTo(n: nat): (r: set<int>)
    ensures |r| == n
    ensures forall i :: i in r <==> 0 <= i < n
  {
    if n == 0 then {} else UpTo(n - 1) + {n - 1}
  }

  /** A distinct list of data blocks that misses one is shorter than the region. */
  lemma {:induction false} Pigeonhole(l: seq<int>, ids: set<int>)
    requires Distinct(l)
    requires forall a :: a in l ==> IsBlock(a) && BlockId(a) in ids
    ensures |l| <= |ids|
  {
    if l != [] {
      var a := l[0];
      forall b | b in l[1..] ensures BlockId(b) in ids - {BlockId(a)} {
        if BlockId(b) == BlockId(a) { BlockIdInjective(a, b); }
      }
      Pigeonhole(l[1..], ids - {BlockId(a)});
    }
  }

  lemma Short(l: seq<int>, a: int, n: nat)
    requires n == BLOCK_NUM && Distinct(l) && IsBlock(a) && a !in l
    requires forall b :: b in l ==> IsBlock(b)
    ensures |l| < n
  {
    hide Distinct, IsBlock, BlockId, UpTo;
    var ids := UpTo(n) - {BlockId(a)};
    IdBound(a);
    forall b | b in l ensures BlockId(b) in ids {
      IdBound(b);
      if BlockId(b) == BlockId(a) { BlockIdInjective(a, b); }
    }
    Pigeonhole(l, ids);
  }

  lemma IdBound(a: int)
    requires IsBlock(a)
    ensures 0 <= BlockId(a) < BLOCK_NUM
  {
  }

  lemma NotAllFree(s: State, a: int)
    requires ChainInv(s) && Used(s, a)
    ensures s.super.freeBlocks < BLOCK_NUM
  {
    Short(Frees(s), a, BLOCK_NUM);
  }

  lemma GroupPush(top: nat, leader: int, stack: seq<int>, a: int)
    requires top < GROUP - 1 && |stack| == GROUP
    ensures Group(top + 1, leader, stack[top + 1 := a]) == [a] + Group(top, leader, stack)
  {
  }

  lemma PushChain(n: nat, leader: int, stack: seq<int>, blocks: map<int, Block>, a: int, b: Block)
    requires |stack| == GROUP && 0 < n < BLOCK_NUM && n % GROUP != 0
    requires a !in FreeList(n, leader, stack, blocks)
    ensures
      var stack' := stack[TopOf(n) + 1 := a];
      && FreeList(n + 1, leader, stack', blocks[a := b]) == [a] + FreeList(n, leader, stack, blocks)
      && EndsAt(n + 1, leader, stack', blocks[a := b]) == EndsAt(n, leader, stack, blocks)
  {
    hide FreeList, EndsAt, Later, Group;
    var top := TopOf(n);
    var blocks' := blocks[a := b];
    var stack' := stack[top + 1 := a];
    assert TopOf(n + 1) == top + 1;
    Unfold(n, leader, stack, blocks);
    ChainFrame(n, leader, stack, blocks, blocks');
    Unfold(n, leader, stack, blocks');
    Unfold(n + 1, leader, stack', blocks');
    GroupPush(top, leader, stack, a);
  }

  /** Listing a released block first keeps the invariant. */
  lemma PushedKeeps(s: State, s': State, a: int)
    requires ChainInv(s) && Used(s, a) && Shaped(s')
    requires s'.blockBits == SetBit(s.blockBits, BlockId(a), false)
    requires Frees(s') == [a] + Frees(s)
    requires EndsAt(s'.super.freeBlocks, s'.super.leader, s'.super.stack, s'.img.blocks)
    ensures ChainInv(s')
    ensures forall b :: Used(s', b) <==> b != a && Used(s, b)
  {
    assert a !in Frees(s);
    Marked(s, a, false);
    forall b ensures Free(s', b) == Free(MarkBlock(s, a, false), b) && Used(s', b) == Used(MarkBlock(s, a, false), b) {}
    forall b ensures b in Frees(s') <==> Free(s', b) {
      assert b in Frees(s) <==> Free(s, b);
    }
  }

  /** Away from a group boundary FreeBlock puts the block on the front of the list. */
  lemma FreePushes(s: State, a: int)
    requires ChainInv(s) && Used(s, a) && s.super.freeBlocks % GROUP != 0
    ensures
      var (s', ok) := FreeBlock(s, a);
      && ok && Frees(s') == [a] + Frees(s) && ChainInv(s')
      && (forall b :: Used(s', b) <==> b != a && Used(s, b))
      && s'.inodeBits == s.inodeBits && s'.super.freeInodes == s.super.freeInodes
      && s'.super.freeBlocks == s.super.freeBlocks + 1
      && s'.img.inodes == s.img.inodes && s'.img.blocks == s.img.blocks[a := Zeroed()]
  {
    hide FreeList, EndsAt, Distinct;
    NotAllFree(s, a);
    var n := s.super.freeBlocks;
    TopIsTopOf(n);
    assert Top(n) != GROUP - 1;
    PushChain(n, s.super.leader, s.super.stack, s.img.blocks, a, Zeroed());
    var (s', ok) := FreeBlock(s, a);
    assert Shaped(s');
    PushedKeeps(s, s', a);
  }

  lemma SpillChain(n: nat, leader: int, blocks: map<int, Block>)
    requires n > 0 && n % GROUP == 0
    ensures
      var l := FreeList(n + 1, leader, SpilledStack(leader), blocks);
      l[0] == leader && l[GROUP] == leader
  {
    var stack := SpilledStack(leader);
    assert TopOf(n) == GROUP - 1 && TopOf(n + 1) == 0;
    PopLeader(n + 1, leader, stack, blocks);
    LeaderListed(n, stack[0], StackAt(blocks, stack[0]), blocks);
  }

  /**
   On a group boundary FreeBlock spills without moving s_free_addr, so the old
   leader is listed twice: the first allocation from now on and the one GROUP
   later get the same block.
   */
  lemma SpillListsTwice(s: State, a: int)
    requires ChainInv(s) && Used(s, a) && s.super.freeBlocks % GROUP == 0
    ensures
      var (s', ok) := FreeBlock(s, a);
      && ok && s'.super.freeBlocks == s.super.freeBlocks + 1
      && Frees(s')[0] == s.super.leader
      && (s.super.freeBlocks > 0 ==> Frees(s')[GROUP] == s.super.leader && IsBlock(s.super.leader))
      && (s.super.freeBlocks == 0 ==> Frees(s') == [-1])
  {
    hide FreeList, EndsAt, Distinct;
    NotAllFree(s, a);
    var n := s.super.freeBlocks;
    var (s', ok) := FreeBlock(s, a);
    assert Top(n) == GROUP - 1;
    assert s'.super.stack == SpilledStack(s.super.leader);
    if n > 0 {
      SpillChain(n, s.super.leader, s'.img.blocks);
      LeaderListed(n, s.super.leader, s.super.stack, s.img.blocks);
    } else {
      PopLeader(1, s.super.leader, s'.super.stack, s'.img.blocks);
      UnfoldEnd(s.super.leader, s.super.stack, s.img.blocks);
      UnfoldEnd(s'.super.stack[0], StackAt(s'.img.blocks, s'.super.stack[0]), s'.img.blocks);
    }
  }

  /** FreeBlock keeps the invariant exactly when the count is not a multiple of the group size. */
  lemma FreeKeepsIff(s: State, a: int)
    requires ChainInv(s) && Used(s, a)
    ensures FreeBlock(s, a).1
    ensures ChainInv(FreeBlock(s, a).0) <==> s.super.freeBlocks % GROUP != 0
  {
    if s.super.freeBlocks % GROUP != 0 {
      FreePushes(s, a);
    } else {
      SpillListsTwice(s, a);
      var l := Frees(FreeBlock(s, a).0);
      if s.super.freeBlocks == 0 {
        assert -1 in l;
      } else {
        assert l[0] == l[GROUP];
      }
    }
  }

  /** A write to an allocated block does not reach the chain. */
  lemma WriteKeeps(s: State, a: int, b: Block)
    requires ChainInv(s) && Used(s, a)
    ensures ChainInv(WriteBlock(s, a, b)) && Frees(WriteBlock(s, a, b)) == Frees(s)
  {
    var s' := WriteBlock(s, a, b);
    var sup := s.super;
    forall x | x in Later(sup.freeBlocks, sup.stack, s.img.blocks) ensures x != a {
      assert x in Frees(s);
    }
    ChainFrame(sup.freeBlocks, sup.leader, sup.stack, s.img.blocks, s'.img.blocks);
    assert forall x :: Free(s', x) == Free(s, x);
  }

  // ---------------------------------------------------------------------
  // Whole runs
  // ---------------------------------------------------------------------

  datatype Op = Alloc | Release(a: int) | Write(a: int, b: Block)

  datatype Answer = Got(a: int) | Freed(ok: bool) | Written

  function Apply(s: State, op: Op): (r: State)
    requires |s.super.stack| == GROUP
    ensures |r.super.stack| == GROUP
  {
    match op
    case Alloc => AllocBlock(s).0
    case Release(a) => FreeBlock(s, a).0
    case Write(a, b) => WriteBlock(s, a, b)
  }

  function Reply(s: State, op: Op): Answer
    requires |s.super.stack| == GROUP
  {
    match op
    case Alloc => Got(AllocBlock(s).1)
    case Release(a) => Freed(FreeBlock(s, a).1)
    case Write(a, b) => Written
  }

  function Run(s: State, ops: seq<Op>): (r: State)
    requires |s.super.stack| == GROUP
    ensures |r.super.stack| == GROUP
    decreases |ops|
  {
    if ops == [] then s else Run(Apply(s, ops[0]), ops[1..])
  }

  function Replies(s: State, ops: seq<Op>): (r: seq<Answer>)
    requires |s.super.stack| == GROUP
    ensures |r| == |ops|
    decreases |ops|
  {
    if ops == [] then [] else [Reply(s, ops[0])] + Replies(Apply(s, ops[0]), ops[1..])
  }

  /** Writes go to allocated blocks and no free spills. */
  predicate Orderly(s: State, ops: seq<Op>)
    requires |s.super.stack| == GROUP
    decreases |ops|
  {
    ops == [] ||
    (&& (ops[0].Write? ==> Used(s, ops[0].a))
     && (ops[0].Release? && CanFree(s, ops[0].a) ==> s.super.freeBlocks % GROUP != 0)
     && Orderly(Apply(s, ops[0]), ops[1..]))
  }

  /** The same operations on a plain list. */
  function ListApply(l: seq<int>, op: Op): seq<int> {
    match op
    case Alloc => if l == [] then l else l[1..]
    case Release(a) => if IsBlock(a) && a !in l then [a] + l else l
    case Write(a, b) => l
  }

  function ListReply(l: seq<int>, op: Op): Answer {
    match op
    case Alloc => Got(if l == [] then -1 else l[0])
    case Release(a) => Freed(IsBlock(a) && a !in l)
    case Write(a, b) => Written
  }

  function ListRun(l: seq<int>, ops: seq<Op>): seq<int>
    decreases |ops|
  {
    if ops == [] then l else ListRun(ListApply(l, ops[0]), ops[1..])
  }

  function ListReplies(l: seq<int>, ops: seq<Op>): (r: seq<Answer>)
    ensures |r| == |ops|
    decreases |ops|
  {
    if ops == [] then [] else [ListReply(l, ops[0])] + ListReplies(ListApply(l, ops[0]), ops[1..])
  }

  lemma StepRefines(s: State, op: Op)
    requires ChainInv(s) && Orderly(s, [op])
    ensures ChainInv(Apply(s, op))
    ensures Frees(Apply(s, op)) == ListApply(Frees(s), op)
    ensures Reply(s, op) == ListReply(Frees(s), op)
  {
    match op
    case Alloc =>
      AllocEmpty(s);
      if s.super.freeBlocks > 0 { AllocPops(s); }
    case Release(a) =>
      assert IsBlock(a) && a !in Frees(s) <==> Used(s, a);
      if Used(s, a) {
        NotAllFree(s, a);
        FreePushes(s, a);
      }
    case Write(a, b) =>
      WriteKeeps(s, a, b);
  }

  /** Over every orderly run the chain answers as the list does, and all its structures still agree. */
  lemma {:induction false} RunRefines(s: State, ops: seq<Op>)
    requires ChainInv(s) && Orderly(s, ops)
    ensures ChainInv(Run(s, ops))
    ensures Frees(Run(s, ops)) == ListRun(Frees(s), ops)
    ensures Replies(s, ops) == ListReplies(Frees(s), ops)
    decreases |ops|
  {
    if ops != [] {
      StepRefines(s, ops[0]);
      RunRefines(Apply(s, ops[0]), ops[1..]);
    }
  }

  lemma {:induction false} NotListedNotGot(l: seq<int>, ops: seq<Op>, a: int, j: nat)
    requires a !in l && a != -1 && j < |ops|
    requires forall k :: 0 <= k < j ==> ops[k] != Release(a)
    ensures ListReplies(l, ops)[j] != Got(a)
    decreases |ops|
  {
    if j > 0 {
      NotListedNotGot(ListApply(l, ops[0]), ops[1..], a, j - 1);
    }
  }

  lemma FirstOrderly(s: State, ops: seq<Op>)
    requires |s.super.stack| == GROUP && ops != [] && Orderly(s, ops)
    ensures Orderly(s, [ops[0]])
  {
  }

  /** No block is handed out twice without being freed in between. */
  lemma {:induction false} NoDoubleAllocation(s: State, ops: seq<Op>, a: int, i: nat, j: nat)
    requires ChainInv(s) && Orderly(s, ops)
    requires i < j < |ops| && a != -1
    requires Replies(s, ops)[i] == Got(a)
    requires forall k :: i < k < j ==> ops[k] != Release(a)
    ensures Replies(s, ops)[j] != Got(a)
    decreases |ops|
  {
    hide FreeList, EndsAt, AllocBlock, FreeBlock, WriteBlock;
    FirstOrderly(s, ops);
    StepRefines(s, ops[0]);
    var s' := Apply(s, ops[0]);
    if i > 0 {
      NoDoubleAllocation(s', ops[1..], a, i - 1, j - 1);
    } else {
      RunRefines(s', ops[1..]);
      NotListedNotGot(Frees(s'), ops[1..], a, j - 1);
    }
  }
}
