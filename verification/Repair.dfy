/**
 RepairBlockBitmapFromInodes and InitFileSystem (src/filesystem_lifecycle.cpp):
 the block bitmap and count recomputed from the allocated inodes, and what a
 restart restores.
 */
module Repair {
  import opened Disk
  import opened Allocator
  import opened Lifo
  import opened Tree
  import opened INodes
  import opened Directories
  import opened Freeing

  /** How many addresses an indirect block holds. */
  const PER_INDIRECT: int := 128

  // No operation writes an indirect block, so reading one yields what this says.
  const STRAY_POINTERS: Block -> seq<int>

  function PointersAt(blocks: map<int, Block>, a: int): (r: seq<int>)
    ensures |r| == PER_INDIRECT
  {
    var b := BlockAt(blocks, a);
    if |STRAY_POINTERS(b)| == PER_INDIRECT then STRAY_POINTERS(b) else seq(PER_INDIRECT, _ => 0)
  }

  function Elements(l: seq<int>): set<int> { set a | a in l }

  /** The addresses an inode names, directly or through its indirect block. */
  function Refs(img: Image, i: int): set<int> {
    var n := INodeAt(img.inodes, i);
    Elements(n.direct)
    + if n.indirect >= BLOCK_START then {n.indirect} + Elements(PointersAt(img.blocks, n.indirect)) else {}
  }

  /** The addresses named by the allocated inodes before number `t`. */
  function AllRefs(img: Image, bits: seq<bool>, t: nat): set<int>
    requires t <= |bits|
  {
    if t == 0 then {}
    else AllRefs(img, bits, t - 1) + if bits[t - 1] then Refs(img, INodeAddr(t - 1)) else {}
  }

  function Rebuilt(img: Image, bits: seq<bool>): (r: seq<bool>)
    ensures |r| == BLOCK_NUM
  {
    var refs := AllRefs(img, bits, |bits|);
    seq(BLOCK_NUM, id => BlockAddr(id) in refs)
  }

  function Repair(s: State): State {
    var bits := Rebuilt(s.img, s.inodeBits);
    var sup := s.super.(freeBlocks := |ClearBits(bits)|);
    if s.blockBits == bits && s.super == sup then s
    else s.(blockBits := bits, super := sup, img := s.img.(blockBits := bits, super := sup))
  }

  lemma RepairBy(s: State, bits: seq<bool>, n: nat)
    requires bits == Rebuilt(s.img, s.inodeBits) && n == |ClearBits(bits)|
    ensures s.blockBits == bits && s.super.freeBlocks == n ==> Repair(s) == s
    ensures s.blockBits != bits || s.super.freeBlocks != n ==>
      var sup := s.super.(freeBlocks := n);
      Repair(s) == State(sup, s.inodeBits, bits, s.img.(blockBits := bits, super := sup))
  {
  }

  /** InitFileSystem: the superblock and both bitmaps are read back, then repaired. */
  function Restart(img: Image): State { Repair(State(img.super, img.inodeBits, img.blockBits, img)) }

  // ---------------------------------------------------------------------
  // What the rebuilt bitmap says
  // ---------------------------------------------------------------------

  lemma {:induction false} AllRefsMember(img: Image, bits: seq<bool>, t: nat, a: int)
    requires t <= |bits|
    ensures a in AllRefs(img, bits, t) <==> exists k :: 0 <= k < t && bits[k] && a in Refs(img, INodeAddr(k))
  {
    hide Refs;
    if t > 0 { AllRefsMember(img, bits, t - 1, a); }
  }

  /** An address is referenced when some allocated inode names it. */
  ghost predicate Referenced(s: State, a: int) { exists i :: INodeUsed(s, i) && a in Refs(s.img, i) }

  lemma ReferencedIds(s: State, a: int)
    requires |s.inodeBits| == INODE_NUM
    ensures a in AllRefs(s.img, s.inodeBits, |s.inodeBits|) <==> Referenced(s, a)
  {
    hide Refs, AllRefs;
    AllRefsMember(s.img, s.inodeBits, |s.inodeBits|, a);
    if Referenced(s, a) {
      var i :| INodeUsed(s, i) && a in Refs(s.img, i);
      assert s.inodeBits[INodeId(i)] && INodeAddr(INodeId(i)) == i;
    }
    if k :| 0 <= k < |s.inodeBits| && s.inodeBits[k] && a in Refs(s.img, INodeAddr(k)) {
      assert INodeId(INodeAddr(k)) == k;
      assert INodeUsed(s, INodeAddr(k));
    }
  }

  /** Repair is exact: a block is marked if and only if an allocated inode references it, and the count is the clear bits. */
  lemma RepairExact(s: State)
    requires |s.inodeBits| == INODE_NUM
    ensures forall a :: Used(Repair(s), a) <==> IsBlock(a) && Referenced(s, a)
    ensures Repair(s).super.freeBlocks == |ClearBits(Repair(s).blockBits)|
    ensures Repair(s).inodeBits == s.inodeBits && Repair(s).img.inodes == s.img.inodes && Repair(s).img.blocks == s.img.blocks
  {
    hide Referenced, AllRefs;
    forall a ensures Used(Repair(s), a) <==> IsBlock(a) && Referenced(s, a) {
      ReferencedIds(s, a);
      assert IsBlock(a) ==> BlockAddr(BlockId(a)) == a;
    }
  }

  /** A second repair writes nothing. */
  lemma RepairIdempotent(s: State)
    ensures Repair(Repair(s)) == Repair(s)
  {
    hide AllRefs;
    var s1 := Repair(s);
    RefsSame(s.img, s1.img, s.inodeBits, |s.inodeBits|);
    assert Rebuilt(s1.img, s1.inodeBits) == Rebuilt(s.img, s.inodeBits);
  }

  lemma {:induction false} RefsSame(img: Image, img': Image, bits: seq<bool>, t: nat)
    requires img'.inodes == img.inodes && img'.blocks == img.blocks && t <= |bits|
    ensures AllRefs(img', bits, t) == AllRefs(img, bits, t)
  {
    if t > 0 { RefsSame(img, img', bits, t - 1); }
  }

  // ---------------------------------------------------------------------
  // Repair and the tree
  // ---------------------------------------------------------------------

  /** Every allocated inode is reachable. */
  ghost predicate NoLostINode(s: State, c: Cert) { forall i :: INodeUsed(s, i) <==> i in c.place }

  lemma TreeRefs(s: State, c: Cert, a: int)
    requires TreeInv(s, c) && NoLostINode(s, c) && IsBlock(a)
    ensures Referenced(s, a) <==> a in c.owner
  {
    hide TreeInv, DirOk, FileOk, PointersAt;
    if a in c.owner {
      Owner(s, c, a);
      var (i, k) := c.owner[a];
      assert a in INodeAt(s.img.inodes, i).direct;
      assert a in Refs(s.img, i);
    }
    if Referenced(s, a) {
      var i :| INodeUsed(s, i) && a in Refs(s.img, i);
      Reached(s, c, i);
      var n := INodeAt(s.img.inodes, i);
      var k :| 0 <= k < |n.direct| && n.direct[k] == a;
      assert OwnedBy(s, c, a, i, k);
    }
  }

  /**
   With every allocated inode reachable, Repair frees exactly the leaked blocks:
   what stays marked is what the tree owns.
   */
  lemma RepairFreesLeaks(s: State, c: Cert)
    requires TreeInv(s, c) && BitsInv(s) && NoLostINode(s, c)
    ensures forall a :: Used(Repair(s), a) <==> a in c.owner
    ensures TreeInv(Repair(s), c) && BitsInv(Repair(s)) && LeakFree(Repair(s), c)
    ensures forall i :: i in c.place ==> ViewOf(Repair(s).img, i) == ViewOf(s.img, i)
  {
    hide Repair, TreeInv, Referenced;
    RepairExact(s);
    forall a ensures Used(Repair(s), a) <==> a in c.owner {
      if IsBlock(a) { TreeRefs(s, c, a); }
      OwnedUsed(s, c, a);
    }
    RepairShape(s);
    AllOwnedUsed(s, c);
    OwnedFrame(s, Repair(s), c);
  }

  lemma RepairShape(s: State)
    requires BitsInv(s)
    ensures BitsInv(Repair(s)) && (forall i :: INodeUsed(Repair(s), i) == INodeUsed(s, i))
  {
    hide AllRefs;
    ClearAtMost(Rebuilt(s.img, s.inodeBits));
  }

  lemma ClearAtMost(bits: seq<bool>)
    ensures |ClearBits(bits)| <= |bits|
  {
    SubsetSize(ClearBits(bits), UpTo(|bits|));
  }

  /** On a state without leaks Repair is the identity. */
  lemma RepairIdentity(s: State, c: Cert)
    requires TreeInv(s, c) && BitsInv(s) && LeakFree(s, c)
    ensures Repair(s) == s
  {
    hide TreeInv, AllRefs, Referenced;
    forall a | IsBlock(a) ensures Used(s, a) <==> Referenced(s, a) { TreeRefs(s, c, a); }
    SameMarks(s);
  }

  /** A restart after any run that left image and memory agreeing and leaked nothing restores the very same state. */
  lemma RestartTransparent(s: State, c: Cert)
    requires TreeInv(s, c) && BitsInv(s) && LeakFree(s, c) && Synced(s)
    ensures Restart(s.img) == s
  {
    hide TreeInv, Repair;
    RepairIdentity(s, c);
  }

  // ---------------------------------------------------------------------
  // Repair and the free chain
  // ---------------------------------------------------------------------

  /** The stack holds -1 above its top. */
  ghost predicate Tidy(s: State) {
    |s.super.stack| == GROUP && (s.super.freeBlocks > 0 ==>
      forall k :: TopOf(s.super.freeBlocks) < k < GROUP ==> s.super.stack[k] == -1)
  }

  /** BlockAlloc keeps the stack tidy. */
  lemma AllocTidy(s: State)
    requires Tidy(s) && s.super.freeBlocks <= BLOCK_NUM
    ensures Tidy(AllocBlock(s).0)
  {
    hide StackAt;
    var n := s.super.freeBlocks;
    if n > 1 {
      TopIsTopOf(n);
      assert TopOf(n) > 0 ==> TopOf(n - 1) == TopOf(n) - 1;
      assert TopOf(n) == 0 ==> TopOf(n - 1) == GROUP - 1;
    }
  }

  /** FreeBlock keeps the stack tidy, the spill included. */
  lemma FreeTidy(s: State, a: int)
    requires Tidy(s) && s.super.freeBlocks <= BLOCK_NUM
    ensures Tidy(FreeBlock(s, a).0)
  {
    hide IsBlock;
    var n := s.super.freeBlocks;
    if n == 0 {
      assert Top(n) == GROUP - 1 && TopOf(n + 1) == 0;
    } else {
      TopIsTopOf(n);
      assert TopOf(n) < GROUP - 1 ==> TopOf(n + 1) == TopOf(n) + 1;
      assert TopOf(n) == GROUP - 1 ==> TopOf(n + 1) == 0;
    }
  }

  /** A chain asked for more groups than it has runs into its end. */
  lemma {:induction false} RunsOut(q: nat, q': nat, leader: int, stack: seq<int>, blocks: map<int, Block>)
    requires |stack| == GROUP && q < q' && EndsAt(GROUP * q, leader, stack, blocks)
    ensures -1 in FreeList(GROUP * q', leader, stack, blocks)
    decreases q
  {
    hide FreeList, EndsAt, Group;
    LeaderListed(GROUP * q', leader, stack, blocks);
    if q == 0 {
      UnfoldEnd(leader, stack, blocks);
    } else {
      var next := StackAt(blocks, stack[0]);
      Unfold(GROUP * q, leader, stack, blocks);
      Unfold(GROUP * q', leader, stack, blocks);
      WholeGroups(q);
      WholeGroups(q');
      RunsOut(q - 1, q' - 1, stack[0], next, blocks);
    }
  }

  lemma WholeGroups(q: nat)
    requires q > 0
    ensures GROUP * q - TopOf(GROUP * q) - 1 == GROUP * (q - 1)
  {
  }

  /** More free blocks counted than chained: the list reads past its end or above the top of the stack. */
  lemma CountTooHigh(n: nat, n': nat, leader: int, stack: seq<int>, blocks: map<int, Block>)
    requires |stack| == GROUP && n < n' && EndsAt(n, leader, stack, blocks)
    requires n > 0 ==> forall k :: TopOf(n) < k < GROUP ==> stack[k] == -1
    ensures -1 in FreeList(n', leader, stack, blocks)
  {
    hide FreeList, EndsAt, Group;
    if n == 0 {
      UnfoldEnd(leader, stack, blocks);
      LeaderListed(n', leader, stack, blocks);
    } else {
      Unfold(n, leader, stack, blocks);
      Unfold(n', leader, stack, blocks);
      var q, q' := (n - 1) / GROUP, (n' - 1) / GROUP;
      assert n - TopOf(n) - 1 == GROUP * q && n' - TopOf(n') - 1 == GROUP * q';
      if q == q' {
        TopListed(TopOf(n'), leader, stack);
      } else {
        RunsOut(q, q', stack[0], StackAt(blocks, stack[0]), blocks);
      }
    }
  }

  lemma TopListed(top: nat, leader: int, stack: seq<int>)
    requires 0 < top < GROUP == |stack|
    ensures stack[top] in Group(top, leader, stack)
  {
    assert Group(top, leader, stack)[0] == stack[top];
  }

  /** A count at which the chain ends well is the one it was built for, or a smaller one in the same group. */
  lemma {:induction false} CountInGroup(n: nat, n': nat, leader: int, stack: seq<int>, blocks: map<int, Block>)
    requires |stack| == GROUP && EndsAt(n, leader, stack, blocks) && EndsAt(n', leader, stack, blocks)
    requires n > 0 ==> forall k :: TopOf(n) < k < GROUP ==> stack[k] == -1
    requires -1 !in FreeList(n, leader, stack, blocks) && -1 !in FreeList(n', leader, stack, blocks)
    ensures n' <= n && (n == n' || n - n' <= TopOf(n))
  {
    hide FreeList, EndsAt, Group;
    if n' > n {
      CountTooHigh(n, n', leader, stack, blocks);
    } else if n > 0 {
      LeaderListed(n, leader, stack, blocks);
      UnfoldEnd(leader, stack, blocks);
      Unfold(n, leader, stack, blocks);
      var q, q' := (n - 1) / GROUP, if n' > 0 then (n' - 1) / GROUP else 0;
      if n' > 0 {
        Unfold(n', leader, stack, blocks);
        assert n - TopOf(n) - 1 == GROUP * q && n' - TopOf(n') - 1 == GROUP * q';
        if q' < q { RunsOut(q', q, stack[0], StackAt(blocks, stack[0]), blocks); }
      }
    }
  }

  /** Fewer blocks of the same group: the list without its first ones. */
  lemma SameGroupDrops(n: nat, k: nat, leader: int, stack: seq<int>, blocks: map<int, Block>)
    requires |stack| == GROUP && (k == 0 || (n > 0 && k <= TopOf(n)))
    ensures k <= n && FreeList(n - k, leader, stack, blocks) == FreeList(n, leader, stack, blocks)[k..]
    ensures EndsAt(n - k, leader, stack, blocks) == EndsAt(n, leader, stack, blocks)
  {
    hide FreeList, EndsAt;
    if k > 0 {
      assert TopOf(n - k) == TopOf(n) - k;
      Unfold(n, leader, stack, blocks);
      Unfold(n - k, leader, stack, blocks);
      assert Group(TopOf(n) - k, leader, stack) == Group(TopOf(n), leader, stack)[k..];
    }
  }

  /**
   The blocks allocated inodes name are the marked ones and the next `k` that
   BlockAlloc would hand out, all of the current group.
   */
  ghost predicate NamesTop(s: State, k: nat) {
    match s
    case State(super, _, _, _) =>
      && |super.stack| == GROUP && (k == 0 || (super.freeBlocks > 0 && k <= TopOf(super.freeBlocks)))
      && forall a :: IsBlock(a) ==> (Referenced(s, a) <==> Used(s, a) || a in Frees(s)[..k])
  }

  /**
   Repair rewrites the bitmap and the count but not the chain. The chain survives
   if and only if the marked blocks already were those allocated inodes name, or
   lacked of these just the next ones on the stack.
   */
  lemma RepairChainIff(s: State)
    requires DiskInv(s) && Tidy(s)
    ensures ChainInv(Repair(s)) <==> exists k: nat :: NamesTop(s, k)
  {
    hide Repair, FreeList, EndsAt, Refs, Referenced, NamesTop;
    DiskBits(s);
    if ChainInv(Repair(s)) { SurvivorNamesTop(s); }
    if k: nat :| NamesTop(s, k) { NamesTopSurvives(s, k); }
  }

  lemma SurvivorNamesTop(s: State)
    requires DiskInv(s) && Tidy(s) && ChainInv(Repair(s))
    ensures NamesTop(s, if Repair(s).super.freeBlocks <= s.super.freeBlocks then s.super.freeBlocks - Repair(s).super.freeBlocks else 0)
  {
    hide Repair, FreeList, EndsAt, Refs, Referenced;
    var s' := Repair(s);
    RepairSuper(s);
    RepairExact(s);
    var n, n' := s.super.freeBlocks, s'.super.freeBlocks;
    NoneMissing(s);
    NoneMissing(s');
    CountInGroup(n, n', s.super.leader, s.super.stack, s.img.blocks);
    var k := n - n';
    SameGroupDrops(n, k, s.super.leader, s.super.stack, s.img.blocks);
    forall a | IsBlock(a) ensures Referenced(s, a) <==> Used(s, a) || a in Frees(s)[..k] {
      SplitMember(Frees(s), k, a);
      assert a in Frees(s') <==> Free(s', a);
      assert a in Frees(s) <==> Free(s, a);
    }
  }

  /** In a list without repetition an element lies before or after a place. */
  lemma SplitMember(l: seq<int>, k: nat, a: int)
    requires Distinct(l) && k <= |l|
    ensures a in l <==> (a in l[..k] || a in l[k..])
    ensures !(a in l[..k] && a in l[k..])
  {
    assert l == l[..k] + l[k..];
  }

  lemma NoneMissing(s: State)
    requires ChainInv(s)
    ensures -1 !in Frees(s)
  {
    assert -1 in Frees(s) <==> Free(s, -1);
  }

  lemma NamesTopSurvives(s: State, k: nat)
    requires DiskInv(s) && BitsInv(s) && NamesTop(s, k)
    ensures ChainInv(Repair(s))
  {
    hide Repair, FreeList, EndsAt, Refs, Referenced;
    var s' := Repair(s);
    RepairSuper(s);
    RepairExact(s);
    RepairShape(s);
    var l := Frees(s);
    SameGroupDrops(s.super.freeBlocks, k, s.super.leader, s.super.stack, s.img.blocks);
    forall a ensures a in l[k..] <==> Free(s', a) {
      SplitMember(l, k, a);
      assert a in l <==> Free(s, a);
    }
    ListCounts(s', l[k..]);
    assert Frees(s') == l[k..];
  }

  /** A list of exactly the free blocks, each once, is as long as the count. */
  lemma ListCounts(s: State, l: seq<int>)
    requires BitsInv(s) && Distinct(l) && forall a :: a in l <==> Free(s, a)
    ensures |l| == s.super.freeBlocks
  {
    var ids := ClearBits(s.blockBits);
    forall id | id in ids ensures id in Ids(l) {
      assert IsBlock(BlockAddr(id)) && BlockId(BlockAddr(id)) == id;
      assert Free(s, BlockAddr(id));
    }
    assert ids == Ids(l);
    IdsCount(l);
  }

  /** Where no allocated inode names a free block, a repair that changes anything breaks the chain. */
  lemma RepairBreaksChain(s: State)
    requires DiskInv(s) && Tidy(s) && forall a :: IsBlock(a) && Referenced(s, a) ==> Used(s, a)
    ensures ChainInv(Repair(s)) <==> Repair(s) == s
    ensures Repair(s) == s <==> forall a :: IsBlock(a) ==> (Used(s, a) <==> Referenced(s, a))
  {
    hide Repair, FreeList, EndsAt, Refs, Referenced;
    DiskBits(s);
    RepairChainIff(s);
    RepairExact(s);
    if k: nat :| NamesTop(s, k) {
      if k > 0 { TopFree(s, k); }
      SameMarks(s);
    }
    if forall a :: IsBlock(a) ==> (Used(s, a) <==> Referenced(s, a)) { SameMarks(s); }
  }

  lemma TopFree(s: State, k: nat)
    requires ChainInv(s) && 0 < k <= |Frees(s)|
    ensures exists a :: a in Frees(s)[..k] && Free(s, a)
  {
    assert Frees(s)[..k][0] == Frees(s)[0] && Frees(s)[0] in Frees(s);
  }

  /** Nothing to mark and nothing to clear: Repair is the identity. */
  lemma SameMarks(s: State)
    requires BitsInv(s) && forall a :: IsBlock(a) ==> (Used(s, a) <==> Referenced(s, a))
    ensures Repair(s) == s
  {
    hide AllRefs, Referenced;
    var bits := Rebuilt(s.img, s.inodeBits);
    forall id | 0 <= id < BLOCK_NUM ensures bits[id] == s.blockBits[id] {
      var a := BlockAddr(id);
      assert IsBlock(a) && BlockId(a) == id;
      ReferencedIds(s, a);
      assert Used(s, a) <==> s.blockBits[id];
    }
    assert bits == s.blockBits;
  }

  /** With every allocated inode reachable: the chain survives a repair if and only if nothing was leaked. */
  lemma RepairChainTree(s: State, c: Cert)
    requires DiskInv(s) && Tidy(s) && TreeInv(s, c) && NoLostINode(s, c)
    ensures ChainInv(Repair(s)) <==> Repair(s) == s
    ensures Repair(s) == s <==> LeakFree(s, c)
  {
    hide TreeInv, Repair, ChainInv, Refs, Referenced;
    DiskBits(s);
    RepairFreesLeaks(s, c);
    if LeakFree(s, c) { RepairIdentity(s, c); }
    AllOwnedUsed(s, c);
    forall a | IsBlock(a) && Referenced(s, a) ensures Used(s, a) { TreeRefs(s, c, a); }
    RepairBreaksChain(s);
  }

  lemma RepairSuper(s: State)
    requires |s.inodeBits| == INODE_NUM
    ensures Repair(s).super == s.super.(freeBlocks := Repair(s).super.freeBlocks) && Repair(s).img.blocks == s.img.blocks
    ensures Repair(s).blockBits == s.blockBits && Repair(s).super == s.super ==> Repair(s) == s
  {
  }

  // ---------------------------------------------------------------------
  // The loops
  // ---------------------------------------------------------------------

  function SetBits(bits: seq<bool>): set<int> { set i | 0 <= i < |bits| && bits[i] }

  lemma BitsSplit(bits: seq<bool>)
    ensures |SetBits(bits)| + |ClearBits(bits)| == |bits|
  {
    assert SetBits(bits) + ClearBits(bits) == UpTo(|bits|);
  }

  /** Exactly the data blocks among `refs` are marked, and counted. */
  ghost predicate Marks(bits: seq<bool>, used: nat, refs: set<int>) {
    match bits
    case l =>
      |l| == BLOCK_NUM && used == |SetBits(l)| && forall id :: 0 <= id < BLOCK_NUM ==> (l[id] <==> BlockAddr(id) in refs)
  }

  lemma MarksMore(bits: seq<bool>, used: nat, refs: set<int>, a: int)
    requires Marks(bits, used, refs)
    ensures !IsBlock(a) || bits[BlockId(a)] ==> Marks(bits, used, refs + {a})
    ensures IsBlock(a) && !bits[BlockId(a)] ==> Marks(bits[BlockId(a) := true], used + 1, refs + {a})
  {
    assert forall id :: 0 <= id < BLOCK_NUM ==> IsBlock(BlockAddr(id)) && BlockId(BlockAddr(id)) == id;
    if IsBlock(a) && !bits[BlockId(a)] {
      assert BlockAddr(BlockId(a)) == a;
      assert SetBits(bits[BlockId(a) := true]) == SetBits(bits) + {BlockId(a)};
    }
  }

  /** mark_block: an address outside the data region or off a block boundary is ignored. */
  method MarkReferenced(rebuilt: array<bool>, used: nat, a: int, ghost refs: set<int>) returns (used': nat)
    requires Marks(rebuilt[..], used, refs)
    modifies rebuilt
    ensures Marks(rebuilt[..], used', refs + {a})
  {
    hide Marks;
    used' := used;
    MarksLength(rebuilt[..], used, refs);
    MarksMore(rebuilt[..], used, refs, a);
    if !IsBlock(a) {
      return;
    }
    if !rebuilt[BlockId(a)] {
      ghost var was := rebuilt[..];
      rebuilt[BlockId(a)] := true;
      assert rebuilt[..] == was[BlockId(a) := true];
      used' := used' + 1;
    }
  }

  lemma MarksLength(bits: seq<bool>, used: nat, refs: set<int>)
    requires Marks(bits, used, refs)
    ensures |bits| == BLOCK_NUM
  {
  }

  lemma ElementsSnoc(l: seq<int>, k: nat, refs: set<int>)
    requires k < |l|
    ensures refs + Elements(l[..k]) + {l[k]} == refs + Elements(l[..k + 1])
    ensures Elements(l[..|l|]) == Elements(l)
  {
    assert l[..k + 1] == l[..k] + [l[k]];
    assert l[..|l|] == l;
  }

  method MarkList(rebuilt: array<bool>, used: nat, list: seq<int>, ghost refs: set<int>) returns (used': nat)
    requires Marks(rebuilt[..], used, refs)
    modifies rebuilt
    ensures Marks(rebuilt[..], used', refs + Elements(list))
  {
    hide Marks, Elements;
    used' := used;
    NoElements(refs);
    for k := 0 to |list|
      invariant Marks(rebuilt[..], used', refs + Elements(list[..k]))
    {
      ElementsSnoc(list, k, refs);
      used' := MarkReferenced(rebuilt, used', list[k], refs + Elements(list[..k]));
    }
    assert list[..|list|] == list;
  }

  lemma NoElements(refs: set<int>)
    ensures forall l: seq<int> :: l == [] ==> refs + Elements(l) == refs
  {
  }

  /** The scan over the inode table. */
  method RebuildBitmap(img: Image, inodeBits: array<bool>) returns (rebuilt: array<bool>, used: nat)
    ensures fresh(rebuilt) && rebuilt.Length == BLOCK_NUM && rebuilt[..] == Rebuilt(img, inodeBits[..])
    ensures used <= BLOCK_NUM && BLOCK_NUM - used == |ClearBits(rebuilt[..])|
  {
    hide Marks, Elements, AllRefs, Refs, Rebuilt;
    rebuilt := new bool[BLOCK_NUM](_ => false);
    used := 0;
    MarksNone(rebuilt[..], img, inodeBits[..]);
    ghost var bits := inodeBits[..];
    for i := 0 to inodeBits.Length
      invariant fresh(rebuilt) && inodeBits[..] == bits
      invariant Marks(rebuilt[..], used, AllRefs(img, bits, i))
    {
      AllRefsTurn(img, bits, i);
      if !inodeBits[i] {
        continue;
      }
      ghost var refs := AllRefs(img, bits, i);
      var n := INodeAt(img.inodes, INodeAddr(i));
      used := MarkList(rebuilt, used, n.direct, refs);
      if n.indirect >= BLOCK_START {
        used := MarkReferenced(rebuilt, used, n.indirect, refs + Elements(n.direct));
        used := MarkList(rebuilt, used, PointersAt(img.blocks, n.indirect), refs + Elements(n.direct) + {n.indirect});
      }
    }
    MarksDone(rebuilt[..], used, img, bits);
  }

  lemma MarksNone(marks: seq<bool>, img: Image, bits: seq<bool>)
    requires |marks| == BLOCK_NUM && forall id :: 0 <= id < BLOCK_NUM ==> !marks[id]
    ensures Marks(marks, 0, AllRefs(img, bits, 0))
  {
    assert SetBits(marks) == {};
  }

  lemma AllRefsTurn(img: Image, bits: seq<bool>, i: nat)
    requires i < |bits|
    ensures
      var n := INodeAt(img.inodes, INodeAddr(i));
      var refs := AllRefs(img, bits, i) + Elements(n.direct);
      AllRefs(img, bits, i + 1)
        == if !bits[i] then AllRefs(img, bits, i)
           else if n.indirect >= BLOCK_START then refs + {n.indirect} + Elements(PointersAt(img.blocks, n.indirect))
           else refs
  {
    hide Elements, PointersAt;
    var n := INodeAt(img.inodes, INodeAddr(i));
    SetsAssociate(AllRefs(img, bits, i), Elements(n.direct), {n.indirect}, Elements(PointersAt(img.blocks, n.indirect)));
  }

  lemma SetsAssociate(a: set<int>, b: set<int>, c: set<int>, d: set<int>)
    ensures a + (b + (c + d)) == a + b + c + d && a + (b + {}) == a + b && a + {} == a
  {
  }

  lemma MarksDone(marks: seq<bool>, used: nat, img: Image, bits: seq<bool>)
    requires Marks(marks, used, AllRefs(img, bits, |bits|))
    ensures marks == Rebuilt(img, bits) && used <= BLOCK_NUM && BLOCK_NUM - used == |ClearBits(marks)|
  {
    BitsSplit(marks);
  }
}
