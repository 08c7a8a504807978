/**
 Format up to the root directory (src/filesystem_lifecycle.cpp): the fresh chain
 and an empty root are a sound disk without leaks.
 */
module Formatting {
  import opened Disk
  import opened Allocator
  import opened Lifo
  import opened FreshChain
  import opened Tree
  import opened INodes
  import opened Directories
  import opened MakeDirectory
  import opened Freeing
  import opened Subtree
  import opened Repair
  import opened SteadyState
  import opened Runs

  function RootEntries(i: int): (r: seq<Entry>)
    ensures |r| == PER_BLOCK
  {
    [Entry(".", i)] + seq(PER_BLOCK - 1, _ => HOLE)
  }

  function RootINode(who: Session, b: int): INode {
    INode(DIR_MODE, 1, who.user, who.group, BLOCK_SIZE, [b, -1, -1, -1, -1, -1, -1, -1, -1, -1], -1)
  }

  /** The root directory is made from the first inode and the first block. */
  function WithRoot(s: State, who: Session): State
    requires |s.super.stack| == GROUP
  {
    var (s1, i) := AllocINode(s);
    var (s2, b) := AllocBlock(s1);
    WriteINode(WriteBlock(s2, b, Entries(RootEntries(i))), i, RootINode(who, b))
  }

  function RootCert(b: int): Cert { Cert(map[ROOT := TOP], map[b := (ROOT, 0)], 0) }

  /** The state Format has reached before it makes the root. */
  ghost predicate Blank(s: State) {
    match s
    case State(_, _, _, _) =>
      && Fresh(s) && Synced(s)
      && s.super.freeInodes == INODE_NUM && (forall k :: 0 <= k < INODE_NUM ==> !s.inodeBits[k])
  }

  lemma BlankSteady(s: State)
    requires Blank(s)
    ensures Steady(s) && DiskInv(s) && s.super.freeInodes > 0 && s.super.freeBlocks > 0 && |s.super.stack| == GROUP
    ensures Frees(s)[0] == FreshBlock(0)
    ensures (forall a :: !Used(s, a)) && (forall i :: !INodeUsed(s, i))
  {
    hide FreeList, EndsAt, Distinct, FreshBlock, GroupsFrom;
    FreshOrder(s);
    assert ClearBits(s.inodeBits) == UpTo(INODE_NUM);
  }

  /** The first inode is the root's, the first block the last of the first group. */
  lemma RootAllocated(s: State)
    requires Blank(s)
    ensures
      var (s1, i) := AllocINode(s);
      && |s1.super.stack| == GROUP && i == ROOT
      && (var (s2, b) := AllocBlock(s1);
          && b == FreshBlock(0) && DiskInv(s2) && Steady(s2) && b != -1
          && s2.super.freeBlocks == s.super.freeBlocks - 1 && s2.super.freeInodes == s.super.freeInodes - 1
          && (forall a :: Used(s2, a) <==> a == b) && (forall j :: INodeUsed(s2, j) <==> j == ROOT))
  {
    hide Blank, Steady, DiskInv, Frees, AllocINode, AllocBlock;
    BlankSteady(s);
    AllocINodeFresh(s);
    INodesSteady(s, 0);
    var (s1, i) := AllocINode(s);
    FirstIsRoot(s);
    StackKept(s);
    StillChained(s1);
    AllocPops(s1);
    AllocBlockSteady(s1);
    GrownBlock(s1);
    var s2 := AllocBlock(s1).0;
    assert forall j :: INodeUsed(s2, j) == INodeUsed(s1, j);
    assert forall a :: Used(s1, a) == Used(s, a);
  }

  lemma StillChained(s: State)
    requires DiskInv(s)
    ensures ChainInv(s)
  {
  }

  lemma FirstIsRoot(s: State)
    requires Blank(s)
    ensures AllocINode(s).1 == ROOT
  {
    assert !s.inodeBits[0];
  }

  lemma RootSlots(blocks: map<int, Block>, who: Session, b: int)
    requires b != -1 && BlockAt(blocks, b) == Entries(RootEntries(ROOT))
    ensures Slots(blocks, RootINode(who, b).direct) == [Entry(".", ROOT)] + seq(SLOTS - 1, _ => HOLE)
  {
    var direct := RootINode(who, b).direct;
    var slots := [Entry(".", ROOT)] + seq(SLOTS - 1, _ => HOLE);
    forall t | 0 <= t < SLOTS ensures Slots(blocks, direct)[t] == slots[t] {
      if t / PER_BLOCK != 0 { assert direct[t / PER_BLOCK] == -1; }
    }
  }

  lemma RootDirOk(c: Cert, slots: seq<Entry>)
    requires ROOT in c.place && slots == [Entry(".", ROOT)] + seq(SLOTS - 1, _ => HOLE)
    ensures DirOk(c, ROOT, 1, slots)
  {
    assert Named(slots) == {0};
    assert forall t :: 1 <= t < SLOTS ==> slots[t].name == "";
  }

  lemma RootTree(s: State, who: Session, b: int)
    requires b != -1 && BlockAt(s.img.blocks, b) == Entries(RootEntries(ROOT)) && INodeAt(s.img.inodes, ROOT) == RootINode(who, b)
    requires Used(s, b) && INodeUsed(s, ROOT)
    ensures TreeInv(s, RootCert(b))
    ensures ViewOf(s.img, ROOT) == DirView(Attr(DIR_MODE, who.user, who.group), [Entry(".", ROOT)] + seq(SLOTS - 1, _ => HOLE))
  {
    hide Slots, EntriesAt, Used, INodeUsed, DirOk;
    var c, n := RootCert(b), RootINode(who, b);
    RootSlots(s.img.blocks, who, b);
    RootDirOk(c, Slots(s.img.blocks, n.direct));
    assert Points(s, c, ROOT, n.direct) by {
      assert OwnedBy(s, c, b, ROOT, 0);
    }
    assert NodeOk(s, c, ROOT);
    assert OwnerOk(s, c, b);
  }

  /** An empty root on a fresh chain: everything agrees, the root is a tree by itself, and nothing is leaked. */
  lemma RootSound(s: State, who: Session)
    requires Blank(s) && |s.super.stack| == GROUP
    ensures Sound(WithRoot(s, who), RootCert(FreshBlock(0))) && LeakFree(WithRoot(s, who), RootCert(FreshBlock(0)))
    ensures ViewOf(WithRoot(s, who).img, ROOT)
      == DirView(Attr(DIR_MODE, who.user, who.group), [Entry(".", ROOT)] + seq(SLOTS - 1, _ => HOLE))
    ensures WithRoot(s, who).super.freeBlocks == BLOCK_NUM - 1 && WithRoot(s, who).super.freeInodes == INODE_NUM - 1
  {
    hide Blank, Steady, DiskInv, AllocINode, AllocBlock, TreeInv, RootINode, RootEntries, FreshBlock;
    BlankCounts(s);
    RootAllocated(s);
    var (s1, i) := AllocINode(s);
    var (s2, b) := AllocBlock(s1);
    var s3 := WriteBlock(s2, b, Entries(RootEntries(ROOT)));
    StillChained(s2);
    WriteKeeps(s2, b, Entries(RootEntries(ROOT)));
    WritesSteady(s2, b, Entries(RootEntries(ROOT)), RootINode(who, b));
    WritesSteady(s3, ROOT, Zeroed(), RootINode(who, b));
    DiskAgain(s2, s3);
    WriteINodeKeeps(s3, ROOT, RootINode(who, b));
    var s' := WithRoot(s, who);
    assert forall j :: INodeUsed(s', j) == INodeUsed(s2, j);
    assert forall a :: Used(s', a) == Used(s2, a);
    RootTree(s', who, b);
  }

  lemma BlankCounts(s: State)
    requires Blank(s)
    ensures s.super.freeBlocks == BLOCK_NUM && s.super.freeInodes == INODE_NUM
  {
  }

  lemma DiskAgain(s: State, s': State)
    requires DiskInv(s) && ChainInv(s') && s'.super == s.super && s'.inodeBits == s.inodeBits
    ensures DiskInv(s')
  {
  }

  // ---------------------------------------------------------------------
  // The chain loop
  // ---------------------------------------------------------------------

  /** The groups from `g` on are on disk. */
  ghost predicate Chained(g: int, blocks: map<int, Block>) {
    match blocks
    case m => GroupsFrom(g, m) && (forall a :: a in m <==> IsBlock(a))
  }

  lemma NoneChained(g: int, blocks: map<int, Block>)
    requires g == GROUPS && forall a :: a in blocks <==> IsBlock(a)
    ensures Chained(g, blocks)
  {
  }

  lemma ChainedMore(g: int, blocks: map<int, Block>)
    requires 0 <= g < GROUPS && Chained(g + 1, blocks)
    ensures Chained(g, blocks[BlockAddr(g * GROUP) := Stack(GroupStack(g))])
  {
    var a := BlockAddr(g * GROUP);
    var blocks' := blocks[a := Stack(GroupStack(g))];
    assert BlockId(a) == g * GROUP;
    forall h {:trigger StackAt(blocks', LeaderOf(h))} | g <= h < GROUPS ensures StackAt(blocks', LeaderOf(h)) == GroupStack(h) {
      if h > g {
        assert StackAt(blocks, LeaderOf(h)) == GroupStack(h);
        assert LeaderOf(h) != a;
      }
    }
  }

  /** Memory and image after the chain loop and the superblock write. */
  lemma BlankBuilt(s: State)
    requires |s.super.stack| == GROUP && s.super.leader == LeaderOf(0) && s.super.stack == GroupStack(0)
    requires s.super.freeBlocks == BLOCK_NUM && s.super.freeInodes == INODE_NUM
    requires |s.inodeBits| == INODE_NUM && |s.blockBits| == BLOCK_NUM
    requires (forall k :: 0 <= k < INODE_NUM ==> !s.inodeBits[k]) && (forall k :: 0 <= k < BLOCK_NUM ==> !s.blockBits[k])
    requires Chained(0, s.img.blocks) && (forall a :: a in s.img.inodes <==> IsINode(a)) && Synced(s)
    ensures Blank(s)
  {
  }
}
