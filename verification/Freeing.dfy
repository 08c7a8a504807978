/**
 Runs of FreeBlock: what they keep whatever the count, and when they keep the
 free chain.
 */
module Freeing {
  import opened Disk
  import opened Allocator
  import opened Lifo
  import opened Tree
  import opened INodes

  /** Counts and bitmaps agree; nothing is said about the chain. */
  ghost predicate BitsInv(s: State) {
    match s
    case State(_, _, _, _) =>
      Shaped(s) && CountInv(s) && s.super.freeBlocks == |ClearBits(s.blockBits)|
  }

  function Ids(l: seq<int>): set<int> { set a | a in l :: BlockId(a) }

  lemma {:induction false} IdsCount(l: seq<int>)
    requires Distinct(l) && forall a :: a in l ==> IsBlock(a)
    ensures |Ids(l)| == |l|
  {
    if l != [] {
      var a, rest := l[0], l[1..];
      forall b | b in rest ensures BlockId(b) != BlockId(a) {
        if BlockId(b) == BlockId(a) { BlockIdInjective(a, b); }
      }
      IdsCount(rest);
      assert l == [a] + rest;
      assert Ids(l) == Ids(rest) + {BlockId(a)};
    }
  }

  /** The chain invariant implies that the count is the number of clear bits. */
  lemma DiskBits(s: State)
    requires DiskInv(s)
    ensures BitsInv(s)
  {
    var l, ids := Frees(s), ClearBits(s.blockBits);
    forall a | a in l ensures IsBlock(a) && BlockId(a) in ids {
      assert Free(s, a);
    }
    forall id | id in ids ensures id in Ids(l) {
      assert IsBlock(BlockAddr(id)) && BlockId(BlockAddr(id)) == id;
      assert Free(s, BlockAddr(id));
      assert BlockAddr(id) in l;
    }
    assert ids == Ids(l);
    IdsCount(l);
  }

  lemma NotFull(s: State, a: int)
    requires BitsInv(s) && Used(s, a)
    ensures s.super.freeBlocks < BLOCK_NUM
  {
    ClearFits(s.blockBits, BlockId(a));
  }

  lemma ClearFits(bits: seq<bool>, id: int)
    requires 0 <= id < |bits| && bits[id]
    ensures |ClearBits(bits)| < |bits|
  {
    var all := UpTo(|bits|);
    assert all == ClearBits(bits) + (all - ClearBits(bits));
    assert id in all - ClearBits(bits);
  }

  /** FreeBlock on an allocated block: the count rises, that bit and block change, nothing else. */
  lemma FreeKeepsBits(s: State, a: int)
    requires BitsInv(s) && Used(s, a)
    ensures
      var (s', ok) := FreeBlock(s, a);
      && ok && BitsInv(s')
      && s'.super.freeBlocks == s.super.freeBlocks + 1 && s'.super.freeInodes == s.super.freeInodes
      && (forall b :: Used(s', b) <==> b != a && Used(s, b))
      && s'.inodeBits == s.inodeBits && s'.img.inodes == s.img.inodes
      && (forall b :: b != a ==> BlockAt(s'.img.blocks, b) == BlockAt(s.img.blocks, b))
  {
    NotFull(s, a);
    var (s', ok) := FreeBlock(s, a);
    ClearBitsStore(s.blockBits, BlockId(a), false);
    Marked(s, a, false);
    assert forall b :: Used(s', b) == Used(MarkBlock(s, a, false), b);
  }

  /** FreeBlock frees exactly the allocated blocks, INodeFree the allocated inodes; a refusal changes nothing. */
  lemma FreesWhatIsUsed(s: State, a: int)
    requires BitsInv(s)
    ensures |s.super.stack| == GROUP
    ensures (FreeBlock(s, a).1 <==> Used(s, a)) && (!Used(s, a) ==> FreeBlock(s, a).0 == s)
    ensures (FreeINode(s, a).1 <==> INodeUsed(s, a)) && (!INodeUsed(s, a) ==> FreeINode(s, a).0 == s)
  {
    if Used(s, a) { NotFull(s, a); }
  }

  // ---------------------------------------------------------------------
  // When the chain survives
  // ---------------------------------------------------------------------

  /** `k` frees from `n` free blocks never start on a group boundary. */
  predicate NoSpill(n: nat, k: nat) { k == 0 || (n % GROUP != 0 && n % GROUP + k <= GROUP) }

  /** Undoing a push: the list before is the list after without its head. */
  lemma UnpushChain(n: nat, leader: int, stack: seq<int>, blocks: map<int, Block>, a: int, b: Block)
    requires |stack| == GROUP && 0 < n < BLOCK_NUM && n % GROUP != 0
    requires Distinct(FreeList(n + 1, leader, stack[TopOf(n) + 1 := a], blocks[a := b]))
    ensures
      var stack' := stack[TopOf(n) + 1 := a];
      && FreeList(n + 1, leader, stack', blocks[a := b]) == [a] + FreeList(n, leader, stack, blocks)
      && EndsAt(n + 1, leader, stack', blocks[a := b]) == EndsAt(n, leader, stack, blocks)
  {
    hide FreeList, EndsAt, Later, Group;
    var top := TopOf(n);
    var blocks' := blocks[a := b];
    var stack' := stack[top + 1 := a];
    assert TopOf(n + 1) == top + 1;
    var l := FreeList(n + 1, leader, stack', blocks');
    GroupPush(top, leader, stack, a);
    Unfold(n + 1, leader, stack', blocks');
    Unfold(n, leader, stack, blocks');
    forall x | x in Later(n, stack, blocks') ensures x != a {
      var k :| 0 <= k < |Later(n, stack, blocks')| && Later(n, stack, blocks')[k] == x;
      assert l[0] == a && l[top + 2 + k] == x;
    }
    ChainFrame(n, leader, stack, blocks', blocks);
  }

  /** No FreeBlock can mend a broken chain. */
  lemma FreeNeverMends(s: State, a: int)
    requires BitsInv(s) && Used(s, a)
    ensures ChainInv(FreeBlock(s, a).0) ==> ChainInv(s) && s.super.freeBlocks % GROUP != 0
  {
    NotFull(s, a);
    var s' := FreeBlock(s, a).0;
    if ChainInv(s') {
      if s.super.freeBlocks % GROUP == 0 {
        SpillNotOk(s, a);
      } else {
        UnpushKeeps(s, a);
      }
    }
  }

  lemma SpillNotOk(s: State, a: int)
    requires BitsInv(s) && Used(s, a) && s.super.freeBlocks < BLOCK_NUM && s.super.freeBlocks % GROUP == 0
    ensures !ChainInv(FreeBlock(s, a).0)
  {
    hide ChainInv, FreeList, EndsAt;
    var n := s.super.freeBlocks;
    var s' := FreeBlock(s, a).0;
    assert Top(n) == GROUP - 1;
    if n > 0 {
      SpillChain(n, s.super.leader, s'.img.blocks);
      ListedTwice(s', 0, GROUP);
    } else {
      SpillEmpty(s.super.leader, s'.img.blocks, n + 1);
      LeaderFree(s', 0);
    }
  }

  lemma ListedTwice(s: State, i: nat, j: nat)
    requires |s.super.stack| == GROUP && i < j < |Frees(s)| && Frees(s)[i] == Frees(s)[j]
    ensures !ChainInv(s)
  {
  }

  /** A chain of one block that ends at its leader cannot list a block. */
  lemma LeaderFree(s: State, i: nat)
    requires |s.super.stack| == GROUP && i < |Frees(s)|
    requires EndsAt(s.super.freeBlocks, s.super.leader, s.super.stack, s.img.blocks) ==> Frees(s)[i] == -1
    ensures !ChainInv(s)
  {
    assert Frees(s)[i] in Frees(s);
  }

  lemma SpillEmpty(leader: int, blocks: map<int, Block>, n: nat)
    requires n == 1
    ensures FreeList(n, leader, SpilledStack(leader), blocks)[0] == leader
    ensures EndsAt(n, leader, SpilledStack(leader), blocks) <==> leader == -1
  {
    hide FreeList, EndsAt;
    PopLeader(n, leader, SpilledStack(leader), blocks);
    UnfoldEnd(leader, StackAt(blocks, leader), blocks);
  }

  lemma UnpushKeeps(s: State, a: int)
    requires BitsInv(s) && Used(s, a) && s.super.freeBlocks < BLOCK_NUM && s.super.freeBlocks % GROUP != 0
    requires ChainInv(FreeBlock(s, a).0)
    ensures ChainInv(s)
  {
    hide FreeList, EndsAt, Distinct;
    var s' := FreeBlock(s, a).0;
    var n := s.super.freeBlocks;
    TopIsTopOf(n);
    UnpushChain(n, s.super.leader, s.super.stack, s.img.blocks, a, Zeroed());
    assert Frees(s') == [a] + Frees(s);
    UnpushedKeeps(s, s', a);
  }

  lemma UnpushedKeeps(s: State, s': State, a: int)
    requires Shaped(s) && Used(s, a) && ChainInv(s')
    requires s'.blockBits == SetBit(s.blockBits, BlockId(a), false)
    requires Frees(s') == [a] + Frees(s)
    requires EndsAt(s.super.freeBlocks, s.super.leader, s.super.stack, s.img.blocks)
    ensures ChainInv(s)
  {
    var l, l' := Frees(s), Frees(s');
    Marked(s, a, false);
    forall i, j | 0 <= i < j < |l| ensures l[i] != l[j] {
      assert l'[i + 1] == l[i] && l'[j + 1] == l[j];
    }
    assert forall b :: Free(s', b) == Free(MarkBlock(s, a, false), b);
    forall b ensures b in l <==> Free(s, b) {
      if b in l {
        var k :| 0 <= k < |l| && l[k] == b;
        assert l'[k + 1] == b && l'[0] == a;
      }
      assert b in l' <==> b == a || b in l;
    }
  }

  /** One free: the chain invariant is kept exactly away from a group boundary, and never regained. */
  lemma FreeChainIff(s: State, a: int)
    requires BitsInv(s) && Used(s, a)
    ensures ChainInv(FreeBlock(s, a).0) <==> ChainInv(s) && s.super.freeBlocks % GROUP != 0
  {
    FreeNeverMends(s, a);
    if ChainInv(s) { FreeKeepsIff(s, a); }
  }

  // ---------------------------------------------------------------------
  // Freeing all the blocks of a file
  // ---------------------------------------------------------------------

  /** FreeBlock on every block that `direct` names, from pointer `k` on. */
  function FreeAll(s: State, direct: seq<int>, k: nat): (r: State)
    requires |s.super.stack| == GROUP && k <= |direct|
    ensures |r.super.stack| == GROUP
    decreases |direct| - k
  {
    if k == |direct| then s
    else FreeAll(if direct[k] == -1 then s else FreeBlock(s, direct[k]).0, direct, k + 1)
  }

  function NamedBlocks(direct: seq<int>, k: nat): set<int>
    requires k <= |direct|
  {
    set j | k <= j < |direct| && direct[j] != -1 :: direct[j]
  }

  /** The named blocks from pointer `k` on are allocated and named once. */
  ghost predicate HeldFrom(s: State, direct: seq<int>, k: nat) {
    match direct
    case l =>
      && (forall j :: k <= j < |l| && l[j] != -1 ==> Used(s, l[j]))
      && (forall i, j :: k <= i < j < |l| && l[i] != -1 ==> l[i] != l[j])
  }

  /** `blocks` and only they went from allocated to free. */
  ghost predicate Released(s: State, s': State, blocks: set<int>) {
    match s'
    case State(_, _, _, _) =>
      && BitsInv(s')
      && s'.super.freeBlocks == s.super.freeBlocks + |blocks|
      && (forall b {:trigger Used(s', b)} :: Used(s', b) <==> Used(s, b) && b !in blocks)
      && (forall b {:trigger BlockAt(s'.img.blocks, b)} ::
            b !in blocks ==> BlockAt(s'.img.blocks, b) == BlockAt(s.img.blocks, b))
      && (ChainInv(s') <==> ChainInv(s) && NoSpill(s.super.freeBlocks, |blocks|))
  }

  lemma {:induction false} FreeAllReleases(s: State, direct: seq<int>, k: nat)
    requires BitsInv(s) && k <= |direct| && HeldFrom(s, direct, k)
    ensures
      var s' := FreeAll(s, direct, k);
      && Released(s, s', NamedBlocks(direct, k))
      && s'.inodeBits == s.inodeBits && s'.img.inodes == s.img.inodes && s'.super.freeInodes == s.super.freeInodes
    decreases |direct| - k
  {
    hide ChainInv, CountInv, FreeBlock, Used, BlockAt;
    if k == |direct| {
      assert NamedBlocks(direct, k) == {};
    } else if direct[k] == -1 {
      assert NamedBlocks(direct, k) == NamedBlocks(direct, k + 1);
      FreeAllReleases(s, direct, k + 1);
    } else {
      var s1 := FreeBlock(s, direct[k]).0;
      ReleaseOne(s, direct[k]);
      StillHeld(s, s1, direct, k);
      FreeAllReleases(s1, direct, k + 1);
      ReleaseTwice(s, s1, FreeAll(s1, direct, k + 1), {direct[k]}, NamedBlocks(direct, k + 1));
    }
  }

  lemma StillHeld(s: State, s1: State, direct: seq<int>, k: nat)
    requires k < |direct| && direct[k] != -1 && HeldFrom(s, direct, k) && Released(s, s1, {direct[k]})
    ensures HeldFrom(s1, direct, k + 1)
    ensures {direct[k]} !! NamedBlocks(direct, k + 1)
    ensures NamedBlocks(direct, k) == {direct[k]} + NamedBlocks(direct, k + 1)
  {
  }

  lemma ReleaseOne(s: State, a: int)
    requires BitsInv(s) && Used(s, a)
    ensures Released(s, FreeBlock(s, a).0, {a})
    ensures
      var s' := FreeBlock(s, a).0;
      s'.inodeBits == s.inodeBits && s'.img.inodes == s.img.inodes && s'.super.freeInodes == s.super.freeInodes
    ensures FreeBlock(s, a).1
  {
    FreeKeepsBits(s, a);
    FreeChainIff(s, a);
  }

  lemma ReleaseTwice(s: State, s1: State, s2: State, a: set<int>, b: set<int>)
    requires Released(s, s1, a) && Released(s1, s2, b) && a !! b
    ensures Released(s, s2, a + b)
  {
    assert |a + b| == |a| + |b|;
    NoSpillAdd(s.super.freeBlocks, |a|, |b|);
  }

  lemma NoSpillAdd(n: nat, j: nat, k: nat)
    ensures NoSpill(n, j + k) <==> NoSpill(n, j) && NoSpill(n + j, k)
  {
  }
}
