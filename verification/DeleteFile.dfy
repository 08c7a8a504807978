/**
 DelFile (src/filesystem_file_delete.cpp).
 */
module DeleteFile {
  import opened Disk
  import opened Allocator
  import opened Lifo
  import opened Tree
  import opened INodes
  import opened Directories
  import opened MakeDirectory
  import opened FileData
  import opened Freeing

  predicate MayWrite(who: Session, n: INode) { ModeBit(n.mode, ModeShift(who, n) + 1) }

  /** The first slot of an allocated block, at or after `t`, whose entry has the name and the wanted kind. */
  function FindKind(img: Image, direct: seq<int>, name: string, dir: bool, t: nat): (h: nat)
    requires |direct| == DIRECT && t <= SLOTS
    ensures t <= h <= SLOTS
    ensures h < SLOTS ==> IsMatch(img, direct, name, dir, h)
    ensures forall u :: t <= u < h ==> !IsMatch(img, direct, name, dir, u)
    decreases SLOTS - t, direct
  {
    if t == SLOTS || IsMatch(img, direct, name, dir, t) then t else FindKind(img, direct, name, dir, t + 1)
  }

  predicate IsMatch(img: Image, direct: seq<int>, name: string, dir: bool, t: int)
    requires |direct| == DIRECT && 0 <= t < SLOTS
  {
    && direct[t / PER_BLOCK] != -1
    && Slots(img.blocks, direct)[t].name == name
    && IsDir(INodeAt(img.inodes, Slots(img.blocks, direct)[t].ino)) == dir
  }

  /** Sixteen absent slots cannot match. */
  lemma {:induction false} FindSkips(img: Image, direct: seq<int>, name: string, dir: bool, k: nat, t: nat)
    requires |direct| == DIRECT && k < DIRECT && direct[k] == -1
    requires k * PER_BLOCK <= t <= (k + 1) * PER_BLOCK
    ensures FindKind(img, direct, name, dir, t) == FindKind(img, direct, name, dir, (k + 1) * PER_BLOCK)
    decreases (k + 1) * PER_BLOCK - t
  {
    if t < (k + 1) * PER_BLOCK {
      assert t / PER_BLOCK == k;
      FindSkips(img, direct, name, dir, k, t + 1);
    }
  }

  lemma FindEnd(img: Image, direct: seq<int>, name: string, dir: bool, t: nat)
    requires |direct| == DIRECT && t == SLOTS
    ensures FindKind(img, direct, name, dir, t) == SLOTS
  {
  }

  lemma FindStep(img: Image, direct: seq<int>, name: string, dir: bool, k: nat, j: nat)
    requires |direct| == DIRECT && k < DIRECT && j < PER_BLOCK && direct[k] != -1
    ensures
      var e := EntriesAt(img.blocks, direct[k])[j];
      var t := k * PER_BLOCK + j;
      FindKind(img, direct, name, dir, t)
        == if e.name == name && IsDir(INodeAt(img.inodes, e.ino)) == dir then t else FindKind(img, direct, name, dir, t + 1)
  {
    var t := k * PER_BLOCK + j;
    assert t / PER_BLOCK == k && t % PER_BLOCK == j;
  }

  /** The 160-slot search of DelFile, DeleteDir, FindDir and Cat. */
  method FindEntry(img: Image, direct: seq<int>, name: string, dir: bool) returns (h: nat)
    requires |direct| == DIRECT
    ensures h == FindKind(img, direct, name, dir, 0)
  {
    hide FindKind, IsMatch, Slots;
    var i := 0;
    while i < SLOTS
      invariant 0 <= i <= SLOTS && i % PER_BLOCK == 0
      invariant FindKind(img, direct, name, dir, 0) == FindKind(img, direct, name, dir, i)
    {
      var k := i / PER_BLOCK;
      assert i == k * PER_BLOCK;
      if direct[k] == -1 {
        FindSkips(img, direct, name, dir, k, i);
        i := i + PER_BLOCK;
        continue;
      }
      var entries := EntriesAt(img.blocks, direct[k]);
      for j := 0 to PER_BLOCK
        invariant i == k * PER_BLOCK + j
        invariant FindKind(img, direct, name, dir, 0) == FindKind(img, direct, name, dir, i)
      {
        FindStep(img, direct, name, dir, k, j);
        if entries[j].name == name && IsDir(INodeAt(img.inodes, entries[j].ino)) == dir {
          return i;
        }
        i := i + 1;
      }
    }
    FindEnd(img, direct, name, dir, i);
    h := SLOTS;
  }

  datatype Outcome = Done | Denied | NotFound | TooLong

  function DelFile(s: State, who: Session, d: int, name: string): (r: (State, Outcome))
    requires |s.super.stack| == GROUP && |INodeAt(s.img.inodes, d).direct| == DIRECT
    ensures |r.0.super.stack| == GROUP
  {
    var n := INodeAt(s.img.inodes, d);
    if |name| >= MAX_NAME then (s, TooLong)
    else if !MayWrite(who, n) then (s, Denied)
    else
      var h := FindKind(s.img, n.direct, name, false, 0);
      if h == SLOTS then (s, NotFound)
      else
        var i := Slots(s.img.blocks, n.direct)[h].ino;
        var s1 := FreeAll(s, INodeAt(s.img.inodes, i).direct, 0);
        var s2 := FreeINode(s1, i).0;
        (StoreHole(s2, d, n, h, Around(s.img.blocks, n.direct, h)), Done)
  }

  /** The blocks the certificate gives to inodes of the set. */
  ghost function OwnedIn(c: Cert, gone: set<int>): set<int> {
    set b | b in c.owner && c.owner[b].0 in gone
  }

  /** A file's named blocks are the blocks it owns. */
  lemma FileBlocks(s: State, c: Cert, i: int)
    requires TreeInv(s, c) && i in c.place
    ensures
      var direct := INodeAt(s.img.inodes, i).direct;
      |direct| == DIRECT && HeldFrom(s, direct, 0) && NamedBlocks(direct, 0) == OwnedIn(c, {i})
  {
    assert NodeOk(s, c, i);
    var direct := INodeAt(s.img.inodes, i).direct;
    forall j | 0 <= j < DIRECT && direct[j] != -1 ensures OwnedBy(s, c, direct[j], i, j) {}
    forall b | b in OwnedIn(c, {i}) ensures b in NamedBlocks(direct, 0) {
      assert OwnerOk(s, c, b);
      assert direct[c.owner[b].1] == b;
    }
  }

  /** A real child's entry: the slot is a child slot and the certificate places the child there. */
  lemma EntryPlaced(s: State, c: Cert, d: int, h: int)
    requires TreeInv(s, c) && d in c.place && IsDir(INodeAt(s.img.inodes, d)) && 0 <= h < SLOTS
    requires |INodeAt(s.img.inodes, d).direct| == DIRECT
    requires var e := Slots(s.img.blocks, INodeAt(s.img.inodes, d).direct)[h];
      e.name != "" && e.name != "." && (d == ROOT || e.name != "..")
    ensures
      var e := Slots(s.img.blocks, INodeAt(s.img.inodes, d).direct)[h];
      && Base(d) <= h && KidOk(c, d, h, e) && e.ino != ROOT && e.ino != d
      && INodeAt(s.img.inodes, d).direct[h / PER_BLOCK] != -1
  {
    hide TreeInv, NodeOk, DirOk;
    ReachedDir(s, c, d);
    RootTop(s, c);
    ChildSlot(c, d, INodeAt(s.img.inodes, d).cnt, Slots(s.img.blocks, INodeAt(s.img.inodes, d).direct), h);
  }

  /** A file is a branch by itself. */
  lemma FileBranch(s: State, c: Cert, i: int)
    requires TreeInv(s, c) && i in c.place && i != ROOT && !IsDir(INodeAt(s.img.inodes, i))
    ensures Branch(c, i, {i})
  {
    forall j | j in c.place && j != ROOT ensures c.place[j].parent != i {
      assert ParentOk(s, c, j);
    }
  }

  /** Freeing what a branch owns, and clearing inodes of the branch, spares every other node. */
  lemma FreedSpares(s: State, c: Cert, s': State, gone: set<int>, j: int)
    requires TreeInv(s, c) && j in c.place && j !in gone
    requires INodeAt(s'.img.inodes, j) == INodeAt(s.img.inodes, j)
    requires INodeUsed(s, j) ==> INodeUsed(s', j)
    requires forall b :: b !in OwnedIn(c, gone) ==> BlockAt(s'.img.blocks, b) == BlockAt(s.img.blocks, b)
    requires forall b :: Used(s, b) && b !in OwnedIn(c, gone) ==> Used(s', b)
    ensures SameNode(s, s', j)
  {
    assert NodeOk(s, c, j);
    var n := INodeAt(s.img.inodes, j);
    forall k | 0 <= k < DIRECT && n.direct[k] != -1 ensures n.direct[k] !in OwnedIn(c, gone) {
      assert OwnedBy(s, c, n.direct[k], j, k);
    }
  }

  /** The nodes are gone, their inodes blank; every other node is as before, but for the emptied slot. */
  ghost predicate Removed(s: State, s': State, c: Cert, d: int, h: int, gone: set<int>) {
    match ViewOf(s.img, d)
    case DirView(attr, slots) =>
      && |slots| == SLOTS && 0 <= h < SLOTS
      && ViewOf(s'.img, d) == DirView(attr, slots[h := Entry("", -1)])
      && (forall j {:trigger ViewOf(s'.img, j)} {:trigger ViewOf(s.img, j)} ::
            j in c.place && j !in gone && j != d ==> ViewOf(s'.img, j) == ViewOf(s.img, j))
      && (forall j :: INodeUsed(s', j) <==> INodeUsed(s, j) && j !in gone)
      && (forall j :: j in gone ==> INodeAt(s'.img.inodes, j) == BLANK)
    case _ => false
  }

  /** Both frees done, the entry still there. */
  lemma FileFreed(s: State, c: Cert, d: int, h: int, i: int)
    requires BitsInv(s) && TreeInv(s, c) && d in c.place && i in c.place && i != ROOT && i != d
    requires !IsDir(INodeAt(s.img.inodes, i)) && |INodeAt(s.img.inodes, i).direct| == DIRECT
    ensures
      var s1 := FreeAll(s, INodeAt(s.img.inodes, i).direct, 0);
      var s2 := FreeINode(s1, i).0;
      && Released(s, s2, OwnedIn(c, {i}))
      && s2.super.freeInodes == s.super.freeInodes + 1
      && (forall j :: INodeUsed(s2, j) <==> INodeUsed(s, j) && j != i)
      && s2.img.inodes == s.img.inodes[i := BLANK]
      && (forall j :: j in c.place && j != i ==> SameNode(s, s2, j))
  {
    FileBlocks(s, c, i);
    var s1 := FreeAll(s, INodeAt(s.img.inodes, i).direct, 0);
    FreeAllReleases(s, INodeAt(s.img.inodes, i).direct, 0);
    assert NodeOk(s, c, i);
    var s2 := FreeINode(s1, i).0;
    FreeINodeFrees(s1, i);
    INodeReleased(s, s1, s2, OwnedIn(c, {i}));
    forall j | j in c.place && j != i ensures SameNode(s, s2, j) {
      FreedSpares(s, c, s2, {i}, j);
    }
  }

  lemma INodeReleased(s: State, s1: State, s2: State, blocks: set<int>)
    requires Released(s, s1, blocks)
    requires CountInv(s2) && |s2.inodeBits| == INODE_NUM
    requires s2.blockBits == s1.blockBits && s2.img.blocks == s1.img.blocks
    requires s2.img.inodes.Keys == s1.img.inodes.Keys
    requires s2.super == s1.super.(freeInodes := s2.super.freeInodes)
    ensures Released(s, s2, blocks)
  {
    if ChainInv(s1) { ChainFrameSuper(s1, s2); }
    if ChainInv(s2) { ChainFrameSuper(s2, s1); }
    assert forall b :: Used(s2, b) == Used(s1, b);
  }

  /** "." and ".." name directories. */
  lemma DotsAreDirs(s: State, c: Cert, d: int, t: int)
    requires TreeInv(s, c) && d in c.place && IsDir(INodeAt(s.img.inodes, d)) && 0 <= t < SLOTS
    requires |INodeAt(s.img.inodes, d).direct| == DIRECT
    requires var e := Slots(s.img.blocks, INodeAt(s.img.inodes, d).direct)[t]; e.name == "." || e.name == ".."
    ensures IsDir(INodeAt(s.img.inodes, Slots(s.img.blocks, INodeAt(s.img.inodes, d).direct)[t].ino))
  {
    assert NodeOk(s, c, d);
    var slots := Slots(s.img.blocks, INodeAt(s.img.inodes, d).direct);
    assert DirOk(c, d, INodeAt(s.img.inodes, d).cnt, slots);
    assert t >= Base(d) ==> KidOk(c, d, t, slots[t]);
    if t == 1 && d != ROOT { assert ParentOk(s, c, d); }
  }

  /** Writing the emptied entry back touches neither bits nor counts nor the chain. */
  lemma StoreHoleReleased(s: State, s2: State, d: int, n: INode, h: int, was: seq<Entry>, blocks: set<int>)
    requires Released(s, s2, blocks) && IsINode(d)
    requires 0 <= h < SLOTS && |n.direct| == DIRECT && |was| == PER_BLOCK && Used(s2, n.direct[h / PER_BLOCK])
    ensures
      var s' := StoreHole(s2, d, n, h, was);
      && BitsInv(s') && s'.super == s2.super
      && (forall b :: Used(s', b) == Used(s2, b)) && (forall j :: INodeUsed(s', j) == INodeUsed(s2, j))
      && (ChainInv(s') <==> ChainInv(s) && NoSpill(s.super.freeBlocks, |blocks|))
  {
    var b := n.direct[h / PER_BLOCK];
    var new' := Entries(was[h % PER_BLOCK := Entry("", -1)]);
    var s3 := WriteBlock(s2, b, new');
    var s' := StoreHole(s2, d, n, h, was);
    if ChainInv(s2) {
      WriteKeeps(s2, b, new');
      ChainFrameSuper(s3, s');
    }
    if ChainInv(s') {
      WriteKeeps(s', b, BlockAt(s2.img.blocks, b));
      ChainFrameSuper(WriteBlock(s', b, BlockAt(s2.img.blocks, b)), s2);
    }
  }

  lemma FileUnlinkable(s: State, c: Cert, d: int, h: int, i: int, s2: State)
    requires TreeInv(s, c) && d in c.place && i in c.place && i != ROOT && i != d
    requires IsDir(INodeAt(s.img.inodes, d)) && !IsDir(INodeAt(s.img.inodes, i))
    requires |INodeAt(s.img.inodes, d).direct| == DIRECT && 0 <= h < SLOTS
    requires c.place[i] == Place(d, h, c.place[d].depth + 1) && Base(d) <= h
    requires INodeAt(s.img.inodes, d).direct[h / PER_BLOCK] != -1
    requires Slots(s.img.blocks, INodeAt(s.img.inodes, d).direct)[h].ino == i
    requires Slots(s.img.blocks, INodeAt(s.img.inodes, d).direct)[h].name != ""
    requires forall j :: j in c.place && j != i ==> SameNode(s, s2, j)
    ensures Unlinkable(s2, c, d, h, i, {i})
    ensures INodeAt(s2.img.inodes, d) == INodeAt(s.img.inodes, d)
    ensures Slots(s2.img.blocks, INodeAt(s.img.inodes, d).direct) == Slots(s.img.blocks, INodeAt(s.img.inodes, d).direct)
    ensures Around(s2.img.blocks, INodeAt(s.img.inodes, d).direct, h) == Around(s.img.blocks, INodeAt(s.img.inodes, d).direct, h)
    ensures Used(s2, INodeAt(s.img.inodes, d).direct[h / PER_BLOCK])
    ensures forall j :: j in c.place && j != i ==> ViewOf(s2.img, j) == ViewOf(s.img, j)
  {
    FileBranch(s, c, i);
    TreeOffFrame(s, c, s2, i, {i});
    assert NodeOk(s, c, d);
    SlotsFrame(s.img.blocks, s2.img.blocks, INodeAt(s.img.inodes, d).direct);
    assert OwnedBy(s, c, INodeAt(s.img.inodes, d).direct[h / PER_BLOCK], d, h / PER_BLOCK);
  }

  lemma PrunedLeakFree(s: State, c: Cert, s': State, gone: set<int>)
    requires forall b :: Used(s', b) <==> Used(s, b) && b !in OwnedIn(c, gone)
    requires forall j :: INodeUsed(s', j) <==> INodeUsed(s, j) && j !in gone
    ensures LeakFree(s, c) ==> LeakFree(s', PruneCert(c, gone))
  {
  }

  /** What a completed DelFile has done: file `i` of slot `h` is gone with all its blocks and its inode. */
  ghost predicate FileDeleted(s: State, s': State, c: Cert, d: int, name: string, h: int, i: int) {
    match c
    case Cert(place, _, _) =>
      && d in place && i in place && place[i] == Place(d, h, place[d].depth + 1)
      && BitsInv(s') && TreeInv(s', PruneCert(c, {i}))
      && |INodeAt(s.img.inodes, d).direct| == DIRECT && 0 <= h < SLOTS
      && Slots(s.img.blocks, INodeAt(s.img.inodes, d).direct)[h] == Entry(name, i)
      && !IsDir(INodeAt(s.img.inodes, i))
      && Removed(s, s', c, d, h, {i})
      && s'.super.freeInodes == s.super.freeInodes + 1
      && s'.super.freeBlocks == s.super.freeBlocks + |OwnedIn(c, {i})|
      && (forall b :: Used(s', b) <==> Used(s, b) && b !in OwnedIn(c, {i}))
      && (ChainInv(s') <==> ChainInv(s) && NoSpill(s.super.freeBlocks, |OwnedIn(c, {i})|))
      && (LeakFree(s, c) ==> LeakFree(s', PruneCert(c, {i})))
  }

  /**
   DelFile either changes nothing or removes exactly one file, freeing exactly
   its blocks and its inode. The tree survives whatever the counts; the free
   chain survives exactly when no free starts on a group boundary. An empty name
   that is not refused matches a free slot; see BadNames.
   */
  lemma DelFileKeeps(s: State, c: Cert, who: Session, d: int, name: string) returns (h: int, i: int)
    requires BitsInv(s) && TreeInv(s, c) && d in c.place && IsDir(INodeAt(s.img.inodes, d))
    requires |INodeAt(s.img.inodes, d).direct| == DIRECT
    ensures var (s', out) := DelFile(s, who, d, name);
      && (out != Done ==> s' == s)
      && (out == Done && name != "" ==> FileDeleted(s, s', c, d, name, h, i))
  {
    var n := INodeAt(s.img.inodes, d);
    h := FindKind(s.img, n.direct, name, false, 0);
    i := -1;
    if |name| < MAX_NAME && MayWrite(who, n) && h != SLOTS && name != "" {
      i := Slots(s.img.blocks, n.direct)[h].ino;
      if name == "." || name == ".." { DotsAreDirs(s, c, d, h); }
      EntryPlaced(s, c, d, h);
      Reached(s, c, i);
      DelFileDone(s, c, d, name, h, i);
    }
  }

  lemma DelFileDone(s: State, c: Cert, d: int, name: string, h: int, i: int)
    requires BitsInv(s) && TreeInv(s, c) && d in c.place && IsDir(INodeAt(s.img.inodes, d))
    requires |INodeAt(s.img.inodes, d).direct| == DIRECT && 0 <= h < SLOTS
    requires Slots(s.img.blocks, INodeAt(s.img.inodes, d).direct)[h] == Entry(name, i) && name != ""
    requires Base(d) <= h && KidOk(c, d, h, Entry(name, i)) && i != ROOT && i != d
    requires INodeAt(s.img.inodes, d).direct[h / PER_BLOCK] != -1
    requires !IsDir(INodeAt(s.img.inodes, i)) && |INodeAt(s.img.inodes, i).direct| == DIRECT
    ensures
      var n := INodeAt(s.img.inodes, d);
      var s2 := FreeINode(FreeAll(s, INodeAt(s.img.inodes, i).direct, 0), i).0;
      FileDeleted(s, StoreHole(s2, d, n, h, Around(s.img.blocks, n.direct, h)), c, d, name, h, i)
  {
    hide TreeInv, ChainInv, CountInv, FreeAll, FreeINode, DirOk, FileOk, Released, Unlinkable;
    var n := INodeAt(s.img.inodes, d);
    var s2 := FreeINode(FreeAll(s, INodeAt(s.img.inodes, i).direct, 0), i).0;
    FileFreed(s, c, d, h, i);
    FileUnlinkable(s, c, d, h, i, s2);
    var s' := StoreHole(s2, d, n, h, Around(s.img.blocks, n.direct, h));
    assert s' == UnlinkEntry(s2, d, h);
    UnlinkKeeps(s2, c, d, h, i, {i});
    Reached(s, c, d);
    StoreHoleReleased(s, s2, d, n, h, Around(s.img.blocks, n.direct, h), OwnedIn(c, {i}));
    PrunedLeakFree(s, c, s', {i});
  }
}
