/**
 The spill branch of FreeBlock as its comment describes it: the freed block
 becomes the new stack, linked to the old one. Two assignments the source lacks
 are added, the write of the current stack into the old leader and the move of
 s_free_addr. With them the list refinement holds over all runs.
 */
module SpillIntended {
  import opened Disk
  import opened Allocator
  import opened Lifo

  function FreeBlockIntended(s: State, a: int): (r: (State, bool))
    requires |s.super.stack| == GROUP
    ensures |r.0.super.stack| == GROUP
  {
    if !CanFree(s, a) || Top(s.super.freeBlocks) != GROUP - 1 then FreeBlock(s, a)
    else
      var leader := s.super.leader;
      var s1 := if IsBlock(leader) then WriteBlock(s, leader, Stack(s.super.stack)) else s;
      var sup := s.super.(leader := a, stack := SpilledStack(leader), freeBlocks := s.super.freeBlocks + 1);
      (MarkBlock(SaveSuper(WriteBlock(s1, a, Stack(sup.stack)).(super := sup)), a, false), true)
  }

  lemma SpillLink(n: nat, leader: int, stack: seq<int>, blocks: map<int, Block>, a: int)
    requires |stack| == GROUP && n > 0 && n % GROUP == 0
    requires Distinct(FreeList(n, leader, stack, blocks)) && a !in FreeList(n, leader, stack, blocks)
    ensures
      var blocks' := blocks[leader := Stack(stack)][a := Stack(SpilledStack(leader))];
      && FreeList(n, leader, StackAt(blocks', leader), blocks') == FreeList(n, leader, stack, blocks)
      && EndsAt(n, leader, StackAt(blocks', leader), blocks') == EndsAt(n, leader, stack, blocks)
  {
    var blocks' := blocks[leader := Stack(stack)][a := Stack(SpilledStack(leader))];
    var l := FreeList(n, leader, stack, blocks);
    LeaderListed(n, leader, stack, blocks);
    assert TopOf(n) == GROUP - 1;
    forall x | x in Later(n, stack, blocks) ensures x != a && x != leader {
      assert x in l;
      var k :| 0 <= k < |Later(n, stack, blocks)| && Later(n, stack, blocks)[k] == x;
      assert l[TopOf(n) + 1 + k] == x;
    }
    ChainFrame(n, leader, stack, blocks, blocks');
    assert StackAt(blocks', leader) == stack;
  }

  lemma SpillPushes(s: State, a: int)
    requires ChainInv(s) && Used(s, a) && s.super.freeBlocks % GROUP == 0
    ensures FreeBlockIntended(s, a).1
    ensures Frees(FreeBlockIntended(s, a).0) == [a] + Frees(s)
    ensures var s' := FreeBlockIntended(s, a).0;
      EndsAt(s'.super.freeBlocks, s'.super.leader, s'.super.stack, s'.img.blocks)
  {
    NotAllFree(s, a);
    var n, leader := s.super.freeBlocks, s.super.leader;
    assert Top(n) == GROUP - 1 && TopOf(n + 1) == 0;
    var s' := FreeBlockIntended(s, a).0;
    assert s'.super == s.super.(leader := a, stack := SpilledStack(leader), freeBlocks := n + 1);
    PopLeader(n + 1, a, s'.super.stack, s'.img.blocks);
    if n > 0 {
      LeaderListed(n, leader, s.super.stack, s.img.blocks);
      assert Free(s, leader);
      var blocks' := s.img.blocks[leader := Stack(s.super.stack)][a := Stack(SpilledStack(leader))];
      assert s'.img.blocks == blocks';
      SpillLink(n, leader, s.super.stack, s.img.blocks, a);
    }
  }

  lemma FreePushesAlways(s: State, a: int)
    requires ChainInv(s) && Used(s, a)
    ensures FreeBlockIntended(s, a).1
    ensures Frees(FreeBlockIntended(s, a).0) == [a] + Frees(s)
    ensures ChainInv(FreeBlockIntended(s, a).0)
  {
    NotAllFree(s, a);
    TopBoundary(s.super.freeBlocks);
    if s.super.freeBlocks % GROUP != 0 {
      FreePushes(s, a);
    } else {
      SpillPushes(s, a);
      SpillKeeps(s, a);
    }
  }

  lemma TopBoundary(n: nat)
    requires n <= BLOCK_NUM
    ensures Top(n) == GROUP - 1 <==> n % GROUP == 0
  {
  }

  lemma SpillKeeps(s: State, a: int)
    requires ChainInv(s) && Used(s, a) && Top(s.super.freeBlocks) == GROUP - 1
    requires s.super.freeBlocks < BLOCK_NUM
    requires var s' := FreeBlockIntended(s, a).0;
      && Frees(s') == [a] + Frees(s)
      && EndsAt(s'.super.freeBlocks, s'.super.leader, s'.super.stack, s'.img.blocks)
    ensures ChainInv(FreeBlockIntended(s, a).0)
  {
    var s' := FreeBlockIntended(s, a).0;
    assert Shaped(s');
    PushedKeeps(s, s', a);
  }

  function ApplyIntended(s: State, op: Op): (r: State)
    requires |s.super.stack| == GROUP
    ensures |r.super.stack| == GROUP
  {
    if op.Release? then FreeBlockIntended(s, op.a).0 else Apply(s, op)
  }

  function RunIntended(s: State, ops: seq<Op>): (r: State)
    requires |s.super.stack| == GROUP
    ensures |r.super.stack| == GROUP
    decreases |ops|
  {
    if ops == [] then s else RunIntended(ApplyIntended(s, ops[0]), ops[1..])
  }

  function RepliesIntended(s: State, ops: seq<Op>): (r: seq<Answer>)
    requires |s.super.stack| == GROUP
    ensures |r| == |ops|
    decreases |ops|
  {
    if ops == [] then []
    else
      var reply := if ops[0].Release? then Freed(FreeBlockIntended(s, ops[0].a).1) else Reply(s, ops[0]);
      [reply] + RepliesIntended(ApplyIntended(s, ops[0]), ops[1..])
  }

  /** Writes go to allocated blocks; frees are unrestricted. */
  predicate WritesAllocated(s: State, ops: seq<Op>)
    requires |s.super.stack| == GROUP
    decreases |ops|
  {
    ops == [] ||
    ((ops[0].Write? ==> Used(s, ops[0].a)) && WritesAllocated(ApplyIntended(s, ops[0]), ops[1..]))
  }

  lemma RefusedAlike(s: State, a: int)
    requires |s.super.stack| == GROUP && !Used(s, a)
    ensures FreeBlockIntended(s, a) == (s, false)
  {
  }

  /**
   With the two assignments every run answers as the plain list does, through
   draining to 0 and refilling, and ends with chain, count and bitmap in agreement.
   */
  lemma {:induction false} IntendedRunRefines(s: State, ops: seq<Op>)
    requires ChainInv(s) && WritesAllocated(s, ops)
    ensures ChainInv(RunIntended(s, ops))
    ensures Frees(RunIntended(s, ops)) == ListRun(Frees(s), ops)
    ensures RepliesIntended(s, ops) == ListReplies(Frees(s), ops)
    decreases |ops|
  {
    hide AllocBlock, FreeBlock, FreeBlockIntended, FreeList, EndsAt, Distinct;
    if ops != [] {
      var op := ops[0];
      var s' := ApplyIntended(s, op);
      if op.Release? {
        assert IsBlock(op.a) && op.a !in Frees(s) <==> Used(s, op.a);
        if Used(s, op.a) {
          FreePushesAlways(s, op.a);
        } else {
          RefusedAlike(s, op.a);
        }
      } else {
        StepRefines(s, op);
      }
      assert ChainInv(s') && Frees(s') == ListApply(Frees(s), op);
      IntendedRunRefines(s', ops[1..]);
    }
  }
}
