/**
 DeleteDir (src/filesystem_directory_ops.cpp): emptying the entry of a deleted
 subtree, and what such a deletion leaves behind.
 */
module DeleteDirectory {
  import opened Disk
  import opened Allocator
  import opened Tree
  import opened INodes
  import opened Directories
  import opened MakeDirectory
  import opened Freeing
  import opened DeleteFile
  import opened Subtree

  /** DeleteDir compares the user's name with the directory's group, and lets root pass. */
  predicate MayDeleteDir(who: Session, n: INode) {
    var shift := if who.user == n.user then 6 else if who.user == n.group then 3 else 0;
    who.user == "root" || ModeBit(n.mode, shift + 1)
  }

  /** The subtree of `i`, which slot `h` of `d` held, is gone; every other node is as before, but for the emptied slot. */
  ghost predicate DirDeleted(s: State, s': State, c: Cert, d: int, name: string, h: int, i: int) {
    match c
    case Cert(place, _, _) =>
      && Placed(c) && d in place && i in place && place[i] == Place(d, h, place[d].depth + 1) && d !in Sub(c, i)
      && |INodeAt(s.img.inodes, d).direct| == DIRECT && 0 <= h < SLOTS
      && Slots(s.img.blocks, INodeAt(s.img.inodes, d).direct)[h] == Entry(name, i)
      && IsDir(INodeAt(s.img.inodes, i))
      && BitsInv(s') && TreeInv(s', PruneCert(c, Sub(c, i)))
      && Removed(s, s', c, d, h, Sub(c, i))
      && s'.super.freeInodes == s.super.freeInodes + |Sub(c, i)|
      && s'.super.freeBlocks == s.super.freeBlocks + |Freed(s, c, Sub(c, i))|
      && (forall b :: Used(s', b) <==> Used(s, b) && b !in Freed(s, c, Sub(c, i)))
      && (ChainInv(s') <==> ChainInv(s) && NoSpill(s.super.freeBlocks, |Freed(s, c, Sub(c, i))|))
  }

  /** An empty name finds no slot for DeleteDir, or one whose stale address reads as a directory of at most two entries. */
  predicate SparesTree(img: Image, direct: seq<int>)
    requires |direct| == DIRECT
  {
    var h := FindKind(img, direct, "", true, 0);
    h < SLOTS ==> FewEntries(img, Slots(img.blocks, direct)[h].ino)
  }

  /** Slot `h` is the first free one of `d` whose stale address reads as a directory, and that has at most two entries. */
  ghost predicate HoleFound(img: Image, d: int, h: int) {
    match INodeAt(img.inodes, d)
    case n =>
      && |n.direct| == DIRECT && 0 <= h < SLOTS && h == FindKind(img, n.direct, "", true, 0)
      && FewEntries(img, Slots(img.blocks, n.direct)[h].ino)
  }

  /** Some free slot of an allocated block has a stale address that reads as a directory. */
  ghost predicate HoleThere(img: Image, d: int) {
    match INodeAt(img.inodes, d)
    case n =>
      && |n.direct| == DIRECT
      && exists h :: 0 <= h < SLOTS && IsMatch(img, n.direct, "", true, h)
  }

  lemma HoleThereIff(img: Image, d: int)
    requires |INodeAt(img.inodes, d).direct| == DIRECT
    ensures HoleThere(img, d) <==> FindKind(img, INodeAt(img.inodes, d).direct, "", true, 0) < SLOTS
  {
    hide Slots, IsMatch;
    var f := FindKind(img, INodeAt(img.inodes, d).direct, "", true, 0);
  }

  /** What DeleteDir leaves when the name is empty and matches a free slot with a stale address. */
  function HoleDropped(s: State, d: int, h: int): State
    requires |s.super.stack| == GROUP && |INodeAt(s.img.inodes, d).direct| == DIRECT && 0 <= h < SLOTS
    requires FewEntries(s.img, Slots(s.img.blocks, INodeAt(s.img.inodes, d).direct)[h].ino)
  {
    var n := INodeAt(s.img.inodes, d);
    StoreHole(SmallDeleted(s, Slots(s.img.blocks, n.direct)[h].ino), d, n, h, Around(s.img.blocks, n.direct, h))
  }

  /** Sweeping a subtree leaves the rest of the tree as it was. */
  lemma SweptOff(s: State, c: Cert, i: int, s1: State)
    requires BitsInv(s) && TreeInv(s, c) && i in c.place && i != ROOT && Placed(c)
    requires Swept(s, s1, Sub(c, i), Freed(s, c, Sub(c, i)))
    ensures Branch(c, i, Sub(c, i)) && TreeOff(s1, c, Sub(c, i))
    ensures forall j :: j in c.place && j !in Sub(c, i) ==> SameNode(s, s1, j) && ViewOf(s1.img, j) == ViewOf(s.img, j)
  {
    SubBranch(c, i);
    forall j | j in c.place && j !in Sub(c, i) ensures SameNode(s, s1, j) {
      FreedSpares(s, c, s1, Sub(c, i), j);
    }
    TreeOffFrame(s, c, s1, i, Sub(c, i));
  }

  lemma DirUnlinkable(s: State, c: Cert, d: int, h: int, i: int, s1: State)
    requires BitsInv(s) && TreeInv(s, c) && Placed(c) && d in c.place && IsDir(INodeAt(s.img.inodes, d))
    requires |INodeAt(s.img.inodes, d).direct| == DIRECT && 0 <= h < SLOTS
    requires Slots(s.img.blocks, INodeAt(s.img.inodes, d).direct)[h].ino == i
    requires Slots(s.img.blocks, INodeAt(s.img.inodes, d).direct)[h].name != ""
    requires Base(d) <= h && i in c.place && i != ROOT && c.place[i] == Place(d, h, c.place[d].depth + 1)
    requires INodeAt(s.img.inodes, d).direct[h / PER_BLOCK] != -1
    requires Swept(s, s1, Sub(c, i), Freed(s, c, Sub(c, i)))
    ensures d !in Sub(c, i) && Unlinkable(s1, c, d, h, i, Sub(c, i))
    ensures INodeAt(s1.img.inodes, d) == INodeAt(s.img.inodes, d)
    ensures Slots(s1.img.blocks, INodeAt(s.img.inodes, d).direct) == Slots(s.img.blocks, INodeAt(s.img.inodes, d).direct)
    ensures Around(s1.img.blocks, INodeAt(s.img.inodes, d).direct, h) == Around(s.img.blocks, INodeAt(s.img.inodes, d).direct, h)
    ensures Used(s1, INodeAt(s.img.inodes, d).direct[h / PER_BLOCK]) && IsINode(d)
  {
    hide SubOk, Swept;
    SweptOff(s, c, i, s1);
    assert NodeOk(s, c, d);
    SlotsFrame(s.img.blocks, s1.img.blocks, INodeAt(s.img.inodes, d).direct);
    assert OwnedBy(s, c, INodeAt(s.img.inodes, d).direct[h / PER_BLOCK], d, h / PER_BLOCK);
  }

  /** Slot `h` of `d` holds directory `i` under the name. */
  ghost predicate DirFound(s: State, c: Cert, d: int, name: string, h: int, i: int) {
    match c
    case Cert(place, _, _) =>
      && BitsInv(s) && TreeInv(s, c) && Placed(c) && d in place && IsDir(INodeAt(s.img.inodes, d))
      && |INodeAt(s.img.inodes, d).direct| == DIRECT && 0 <= h < SLOTS
      && Slots(s.img.blocks, INodeAt(s.img.inodes, d).direct)[h] == Entry(name, i) && name != ""
      && IsDir(INodeAt(s.img.inodes, i))
      && Base(d) <= h && i in place && i != ROOT && place[i] == Place(d, h, place[d].depth + 1)
      && INodeAt(s.img.inodes, d).direct[h / PER_BLOCK] != -1
  }

  lemma FindDirEntry(s: State, c: Cert, d: int, name: string, h: int)
    requires BitsInv(s) && TreeInv(s, c) && d in c.place && IsDir(INodeAt(s.img.inodes, d))
    requires |INodeAt(s.img.inodes, d).direct| == DIRECT && name != "" && name != "." && name != ".."
    requires 0 <= h < SLOTS && IsMatch(s.img, INodeAt(s.img.inodes, d).direct, name, true, h)
    ensures
      var n := INodeAt(s.img.inodes, d);
      var i := Around(s.img.blocks, n.direct, h)[h % PER_BLOCK].ino;
      DirFound(s, c, d, name, h, i) && SubOk(s, c, i)
  {
    EntryPlaced(s, c, d, h);
    TreePlaced(s, c);
    TreeSubOk(s, c, Slots(s.img.blocks, INodeAt(s.img.inodes, d).direct)[h].ino);
  }

  /** DeleteDir after the recursive deletion. */
  lemma DirDone(s: State, c: Cert, d: int, name: string, h: int, i: int, s1: State)
    requires DirFound(s, c, d, name, h, i) && Placed(c) && |INodeAt(s.img.inodes, d).direct| == DIRECT && 0 <= h < SLOTS
    requires Swept(s, s1, Sub(c, i), Freed(s, c, Sub(c, i)))
    ensures
      var n := INodeAt(s.img.inodes, d);
      DirDeleted(s, StoreHole(s1, d, n, h, Around(s.img.blocks, n.direct, h)), c, d, name, h, i)
  {
    hide TreeInv, ChainInv, BitsInv, Freed, Sub, Unlinkable, OwnedIn, Swept, Removed, StoreHole, Around;
    var n := INodeAt(s.img.inodes, d);
    var was := Around(s.img.blocks, n.direct, h);
    var s' := StoreHole(s1, d, n, h, was);
    DirUnlinkable(s, c, d, h, i, s1);
    SweptOff(s, c, i, s1);
    assert s' == UnlinkEntry(s1, d, h);
    UnlinkKeeps(s1, c, d, h, i, Sub(c, i));
    SweptCounts(s, s1, Sub(c, i), Freed(s, c, Sub(c, i)));
    StoreHoleReleased(s, s1, d, n, h, was, Freed(s, c, Sub(c, i)));
    HoleOther(s1, d, n, h, was);
    DirRemoved(s, c, d, h, i, s1, s');
  }

  lemma SweptCounts(s: State, s1: State, gone: set<int>, freed: set<int>)
    requires Swept(s, s1, gone, freed)
    ensures Released(s, s1, freed) && s1.super.freeInodes == s.super.freeInodes + |gone|
  {
  }

  /** Only the directory's own inode is written back. */
  lemma HoleOther(s: State, d: int, n: INode, h: int, was: seq<Entry>)
    requires 0 <= h < SLOTS && |n.direct| == DIRECT && |was| == PER_BLOCK
    ensures forall j :: j != d ==> INodeAt(StoreHole(s, d, n, h, was).img.inodes, j) == INodeAt(s.img.inodes, j)
  {
  }

  lemma DirRemoved(s: State, c: Cert, d: int, h: int, i: int, s1: State, s': State)
    requires Placed(c) && IsDir(INodeAt(s.img.inodes, d)) && |INodeAt(s.img.inodes, d).direct| == DIRECT && 0 <= h < SLOTS
    requires Swept(s, s1, Sub(c, i), Freed(s, c, Sub(c, i))) && d !in Sub(c, i)
    requires forall j :: j in c.place && j !in Sub(c, i) ==> ViewOf(s1.img, j) == ViewOf(s.img, j)
    requires forall j :: j in c.place && j !in Sub(c, i) && j != d ==> ViewOf(s'.img, j) == ViewOf(s1.img, j)
    requires ViewOf(s'.img, d) == DirView(AttrOf(INodeAt(s.img.inodes, d)),
                                          Slots(s.img.blocks, INodeAt(s.img.inodes, d).direct)[h := Entry("", -1)])
    requires forall j :: INodeUsed(s', j) == INodeUsed(s1, j)
    requires forall j :: j != d ==> INodeAt(s'.img.inodes, j) == INodeAt(s1.img.inodes, j)
    ensures Removed(s, s', c, d, h, Sub(c, i))
  {
  }

  // ---------------------------------------------------------------------
  // What is left allocated
  // ---------------------------------------------------------------------

  /**
   Every block of the subtree is one its recursion frees: the first block of a
   node with at most two entries, or a block with a real child of one with more.
   */
  ghost predicate EveryBlockFreed(s: State, c: Cert, i: int)
    requires Placed(c)
  {
    forall j, k :: j in Sub(c, i) && 0 <= k < DIRECT && PointerOf(s, j, k) != -1 ==> FreedBlock(s, j, k)
  }

  ghost predicate FreedBlock(s: State, j: int, k: nat) {
    match INodeAt(s.img.inodes, j)
    case n =>
      || (n.cnt <= 2 && k == 0)
      || (n.cnt > 2 && |n.direct| == DIRECT
          && exists t :: k * PER_BLOCK <= t < (k + 1) * PER_BLOCK && t < SLOTS && RealChild(SlotsAt(s, j)[t]))
  }

  lemma FreedBlockIs(s: State, j: int, k: nat)
    requires |INodeAt(s.img.inodes, j).direct| == DIRECT
    ensures FreedBlock(s, j, k) <==> NodeFrees(s, j, k)
  {
    hide RealChild, Slots;
    var slots := SlotsAt(s, j);
    assert forall t :: 0 <= t < SLOTS ==> (t / PER_BLOCK == k <==> k * PER_BLOCK <= t < (k + 1) * PER_BLOCK);
  }

  /**
   DeleteDir frees blocks of the subtree only. It leaves none allocated if and
   only if before the call no node of the subtree with at most two entries had a
   block but the first, and no other node a block without a real child.
   */
  lemma DeleteLeaksIff(s: State, s': State, c: Cert, d: int, name: string, h: int, i: int)
    requires TreeInv(s, c) && LeakFree(s, c) && DirDeleted(s, s', c, d, name, h, i)
    ensures Placed(c) && Freed(s, c, Sub(c, i)) <= OwnedIn(c, Sub(c, i))
    ensures LeakFree(s', PruneCert(c, Sub(c, i))) <==> EveryBlockFreed(s, c, i)
  {
    hide TreeInv, ChainInv, NodeFrees, EveryBlockFreed;
    AllFreedIff(s, c, i);
    LeaksIff(s, s', c, Sub(c, i));
  }

  lemma AllFreedIff(s: State, c: Cert, i: int)
    requires TreeInv(s, c) && Placed(c)
    ensures Freed(s, c, Sub(c, i)) == OwnedIn(c, Sub(c, i)) <==> EveryBlockFreed(s, c, i)
  {
    hide TreeInv, NodeFrees, FreedBlock, Below, DirOk, FileOk;
    forall j, k | j in Sub(c, i) && 0 <= k < DIRECT && PointerOf(s, j, k) != -1
      ensures PointerOf(s, j, k) in OwnedIn(c, Sub(c, i))
      ensures PointerOf(s, j, k) in Freed(s, c, Sub(c, i)) <==> FreedBlock(s, j, k)
    {
      Reached(s, c, j);
      assert OwnedBy(s, c, PointerOf(s, j, k), j, k);
      FreedBlockIs(s, j, k);
    }
    forall b | b in OwnedIn(c, Sub(c, i))
      ensures var (j, k) := c.owner[b]; 0 <= k < DIRECT && j in Sub(c, i) && PointerOf(s, j, k) == b != -1
    {
      Owner(s, c, b);
    }
  }

  lemma LeaksIff(s: State, s': State, c: Cert, gone: set<int>)
    requires LeakFree(s, c)
    requires forall b :: Used(s', b) <==> Used(s, b) && b !in Freed(s, c, gone)
    requires forall j :: INodeUsed(s', j) <==> INodeUsed(s, j) && j !in gone
    ensures Freed(s, c, gone) <= OwnedIn(c, gone)
    ensures LeakFree(s', PruneCert(c, gone)) <==> Freed(s, c, gone) == OwnedIn(c, gone)
  {
    hide NodeFrees, INodeUsed;
    var c' := PruneCert(c, gone);
    if LeakFree(s', c') {
      forall b | b in OwnedIn(c, gone) ensures b in Freed(s, c, gone) {
        assert Used(s, b) && b !in c'.owner;
      }
    }
    if Freed(s, c, gone) == OwnedIn(c, gone) { PrunedLeakFree(s, c, s', gone); }
  }

  /** A subtree in which every node has a single block is freed completely. */
  lemma SingleBlocksFreed(s: State, c: Cert, i: int)
    requires SubOk(s, c, i)
    requires forall j, k :: j in Sub(c, i) && 0 < k < DIRECT ==> PointerOf(s, j, k) == -1
    ensures Freed(s, c, Sub(c, i)) == OwnedIn(c, Sub(c, i))
  {
    forall b | b in OwnedIn(c, Sub(c, i)) ensures b in Freed(s, c, Sub(c, i)) {
      var (j, k) := c.owner[b];
      assert OwnerOk(s, c, b) && NodeOk(s, c, j);
      assert PointerOf(s, j, k) == b;
      assert k == 0;
      if INodeAt(s.img.inodes, j).cnt > 2 { FirstBlockHasChild(s, c, j); }
    }
  }

  lemma FirstBlockHasChild(s: State, c: Cert, j: int)
    requires NodeOk(s, c, j) && INodeAt(s.img.inodes, j).cnt > 2 && j != ROOT
    requires forall k :: 0 < k < DIRECT ==> PointerOf(s, j, k) == -1
    ensures BlockHasChild(SlotsAt(s, j), 0)
  {
    var slots := SlotsAt(s, j);
    var named := Named(slots);
    if named <= {0, 1} { SubsetSize(named, {0, 1}); }
    forall t | PER_BLOCK <= t < SLOTS ensures slots[t] == HOLE {
      assert PointerOf(s, j, t / PER_BLOCK) == -1;
    }
    var t :| t in named && t != 0 && t != 1;
    assert KidOk(c, j, t, slots[t]);
  }
}
