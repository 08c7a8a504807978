/**
 Names MakeDir and Create should refuse and do not: the empty name, which the
 scan cannot tell from a free slot, and ".." in the root, which has no such
 entry of its own. Where one of them gets through, no tree is left.
 */
module BadNames {
  import opened Disk
  import opened Allocator
  import opened Tree
  import opened INodes
  import opened Directories
  import opened MakeDirectory
  import opened FileData
  import opened CreateFile
  import opened Freeing
  import opened DeleteFile
  import opened Subtree
  import opened DeleteDirectory

  /** The entries of the old nodes are all still there. */
  ghost predicate KeepsEntries(s: State, c: Cert, s': State) {
    forall p :: p in c.place && IsDir(INodeAt(s.img.inodes, p)) && |INodeAt(s.img.inodes, p).direct| == DIRECT ==>
      EntriesStay(s, s', p)
  }

  ghost predicate EntriesStay(s: State, s': State, p: int)
    requires |INodeAt(s.img.inodes, p).direct| == DIRECT
  {
    var n, n' := INodeAt(s.img.inodes, p), INodeAt(s'.img.inodes, p);
    && IsDir(n') && |n'.direct| == DIRECT
    && forall t :: 0 <= t < SLOTS && Slots(s.img.blocks, n.direct)[t].name != "" ==>
         Slots(s'.img.blocks, n'.direct)[t] == Slots(s.img.blocks, n.direct)[t]
  }

  /** Whatever certificate the later image had, it would place every old node. */
  lemma {:induction false} StillPlaced(s: State, c: Cert, s': State, c': Cert, x: int)
    requires TreeInv(s, c) && Placed(c) && TreeInv(s', c') && KeepsEntries(s, c, s') && x in c.place
    ensures x in c'.place
    decreases c.place[x].depth
  {
    hide TreeInv, NodeOk, DirOk;
    RootTop(s', c');
    if x != ROOT {
      var p, t := c.place[x].parent, c.place[x].slot;
      StillPlaced(s, c, s', c', p);
      Hangs(s, c, x);
      assert EntriesStay(s, s', p);
      ReachedDir(s', c', p);
      ChildAt(c', p, INodeAt(s'.img.inodes, p).cnt, Slots(s'.img.blocks, INodeAt(s'.img.inodes, p).direct), t);
    }
  }

  lemma LinkKeepsEntries(s: State, c: Cert, d: int, h: int, blk: int, e: Entry)
    requires TreeInv(s, c) && SlotReady(s, c, d, h, blk) && e.ino !in c.place && d in c.place
    ensures KeepsEntries(s, c, LinkEntry(s, d, h, blk, e))
  {
    hide TreeInv, LinkEntry;
    var s' := LinkEntry(s, d, h, blk, e);
    LinkedSlots(s, c, d, h, blk, e);
    forall p | p in c.place && IsDir(INodeAt(s.img.inodes, p)) && |INodeAt(s.img.inodes, p).direct| == DIRECT
      ensures EntriesStay(s, s', p)
    {
      if p != d {
        LinkedOther(s, c, d, h, blk, e, p);
        SlotsFrame(s.img.blocks, s'.img.blocks, INodeAt(s.img.inodes, p).direct);
      }
    }
  }

  /** In the root an entry ".." is no child's; an entry with the empty name is counted but not there. */
  lemma BadDir(c: Cert, c': Cert, d: int, cnt: nat, slots: seq<Entry>, h: int, e: Entry)
    requires d in c.place && d in c'.place && |slots| == SLOTS && 0 <= h < SLOTS && slots[h].name == ""
    requires DirOk(c, d, cnt, slots) && !UsableName(d, e.name)
    ensures !DirOk(c', d, (cnt + 1) % 65536, slots[h := e])
  {
    var slots' := slots[h := e];
    if e.name == "" {
      assert Named(slots') == Named(slots);
      NamedBound(slots);
    } else {
      assert h >= Base(d) && slots'[h].name != "";
      assert !KidOk(c', d, h, slots'[h]);
    }
  }

  lemma BadLinkBreaks(s: State, c: Cert, d: int, h: int, blk: int, e: Entry, c': Cert)
    requires TreeInv(s, c) && SlotReady(s, c, d, h, blk) && e.ino !in c.place && d in c.place && !UsableName(d, e.name)
    ensures !TreeInv(LinkEntry(s, d, h, blk, e), c')
  {
    hide TreeInv, LinkEntry, NodeOk, DirOk, KeepsEntries;
    var s' := LinkEntry(s, d, h, blk, e);
    if TreeInv(s', c') {
      TreePlaced(s, c);
      LinkKeepsEntries(s, c, d, h, blk, e);
      StillPlaced(s, c, s', c', d);
      LinkedSlots(s, c, d, h, blk, e);
      ReachedDir(s, c, d);
      ReachedDir(s', c', d);
      BadDir(c, c', d, INodeAt(s.img.inodes, d).cnt, Slots(s.img.blocks, INodeAt(s.img.inodes, d).direct), h, e);
    }
  }

  /** A MakeDir that gets an unusable name through leaves no tree. */
  lemma MakeDirBadName(s: State, c: Cert, who: Session, d: int, name: string, c': Cert)
    requires DiskInv(s) && TreeInv(s, c) && d in c.place && IsDir(INodeAt(s.img.inodes, d))
    requires |INodeAt(s.img.inodes, d).direct| == DIRECT && |s.super.stack| == GROUP
    requires !UsableName(d, name) && MakeDir(s, who, d, name).1
    ensures !TreeInv(MakeDir(s, who, d, name).0, c')
  {
    hide TreeInv, DiskInv, AllocBlock, AllocINode, Taken, EntryBlock, WriteNewDir, StoreEntry, LinkEntry, UsableName;
    var n := INodeAt(s.img.inodes, d);
    var h := FirstHole(Slots(s.img.blocks, n.direct), 0);
    var s3, blk, i, b := MakeDirPrepares(s, c, d, h);
    var s4 := WriteNewDir(s3, who, i, b, d);
    NewDirKeeps(s3, c, who, d, i, b);
    NewDirSpares(s3, c, who, d, i, b, d);
    NewDirStays(s3, c, who, d, h, blk, i, b);
    assert MakeDir(s, who, d, name).0 == MadeState(s, s3, who, d, h, name, blk, i, b);
    LinkIsStore(s, s4, d, h, blk, Entry(name, i));
    BadLinkBreaks(s4, c, d, h, blk, Entry(name, i), c');
  }

  lemma NewDirStays(s: State, c: Cert, who: Session, d: int, h: int, blk: int, i: int, b: int)
    requires TreeInv(s, c) && SlotReady(s, c, d, h, blk) && b != blk
    requires SameNode(s, WriteNewDir(s, who, i, b, d), d)
    ensures SlotReady(WriteNewDir(s, who, i, b, d), c, d, h, blk)
    ensures var s' := WriteNewDir(s, who, i, b, d);
      && INodeAt(s'.img.inodes, d) == INodeAt(s.img.inodes, d) && |INodeAt(s.img.inodes, d).direct| == DIRECT && 0 <= h < SLOTS
      && Around(s'.img.blocks, INodeAt(s.img.inodes, d).direct, h) == Around(s.img.blocks, INodeAt(s.img.inodes, d).direct, h)
  {
    SlotReadyFrame(s, WriteNewDir(s, who, i, b, d), c, d, h, blk);
  }

  lemma LinkIsStore(s: State, s4: State, d: int, h: int, blk: int, e: Entry)
    requires 0 <= h < SLOTS && |INodeAt(s.img.inodes, d).direct| == DIRECT && INodeAt(s4.img.inodes, d) == INodeAt(s.img.inodes, d)
    requires var n := INodeAt(s.img.inodes, d); Around(s4.img.blocks, n.direct, h) == Around(s.img.blocks, n.direct, h)
    ensures var n := INodeAt(s.img.inodes, d);
      LinkEntry(s4, d, h, blk, e) == StoreEntry(s4, d, n, h, blk, Around(s.img.blocks, n.direct, h), e)
  {
  }

  /** A Create that gets an unusable name through leaves no tree. */
  lemma CreateBadName(s: State, c: Cert, who: Session, d: int, name: string, buf: seq<char>, junk: int, c': Cert)
    requires DiskInv(s) && TreeInv(s, c) && d in c.place && IsDir(INodeAt(s.img.inodes, d))
    requires |INodeAt(s.img.inodes, d).direct| == DIRECT && |s.super.stack| == GROUP && TextBuffer(buf)
    requires !UsableName(d, name) && Create(s, who, d, name, buf, junk).1
    ensures !TreeInv(Create(s, who, d, name, buf, junk).0, c')
  {
    hide TreeInv, DiskInv, AllocINode, Taken, EntryBlock, StoreText, StoreEntry, LinkEntry, UsableName, WithJunk,
      StrLen, WriteINode;
    var n := INodeAt(s.img.inodes, d);
    var h := FirstHole(Slots(s.img.blocks, n.direct), 0);
    var s3, blk, i, direct, ok := CreatePrepares(s, c, d, h, buf);
    var file := NewFileINode(who, StrLen(buf), WithJunk(direct, StrLen(buf), junk));
    var s4 := WriteINode(s3, i, file);
    NewINodeSpares(s, s3, c, d, h, blk, i, direct, file);
    assert Create(s, who, d, name, buf, junk).0
      == CreatedState(s, s3, who, d, h, name, blk, i, StrLen(buf), WithJunk(direct, StrLen(buf), junk));
    LinkIsStore(s, s4, d, h, blk, Entry(name, i));
    BadLinkBreaks(s4, c, d, h, blk, Entry(name, i), c');
  }

  /** Writing an inode outside the tree leaves the found slot and the tree alone. */
  lemma NewINodeSpares(s: State, s3: State, c: Cert, d: int, h: int, blk: int, i: int, direct: seq<int>, file: INode)
    requires PreparedFile(s, s3, c, d, h, blk, i, direct) && d in c.place && |INodeAt(s.img.inodes, d).direct| == DIRECT
    ensures
      var s4 := WriteINode(s3, i, file);
      && TreeInv(s4, c) && SlotReady(s4, c, d, h, blk) && 0 <= h < SLOTS
      && INodeAt(s4.img.inodes, d) == INodeAt(s.img.inodes, d)
      && Around(s4.img.blocks, INodeAt(s.img.inodes, d).direct, h) == Around(s.img.blocks, INodeAt(s.img.inodes, d).direct, h)
  {
    hide TreeInv, DiskInv;
    AllOwnedUsed(s3, c);
    OwnedFrame(s3, WriteINode(s3, i, file), c);
    SlotsFrame(s.img.blocks, s3.img.blocks, INodeAt(s.img.inodes, d).direct);
  }

  /** A successful MakeDir leaves a tree if and only if the name was usable. */
  lemma MakeDirTreeIff(s: State, c: Cert, who: Session, d: int, name: string)
    requires DiskInv(s) && TreeInv(s, c) && d in c.place && IsDir(INodeAt(s.img.inodes, d))
    requires |INodeAt(s.img.inodes, d).direct| == DIRECT && |s.super.stack| == GROUP && MakeDir(s, who, d, name).1
    ensures (exists c' :: TreeInv(MakeDir(s, who, d, name).0, c')) <==> UsableName(d, name)
  {
    hide TreeInv, DiskInv, MakeDir, UsableName;
    if UsableName(d, name) {
      var c', i := MakeDirKeeps(s, c, who, d, name);
    } else {
      forall c' ensures !TreeInv(MakeDir(s, who, d, name).0, c') { MakeDirBadName(s, c, who, d, name, c'); }
    }
  }

  // ---------------------------------------------------------------------
  // DelFile and DeleteDir with the empty name
  // ---------------------------------------------------------------------

  /** Whatever pointers it is given, FreeBlock clears bits and touches the blocks it clears only. */
  lemma {:induction false} FreeAllOnly(s: State, direct: seq<int>, k: nat)
    requires BitsInv(s) && k <= |direct|
    ensures
      var s' := FreeAll(s, direct, k);
      && BitsInv(s') && s'.inodeBits == s.inodeBits && s'.img.inodes == s.img.inodes
      && (forall b :: Used(s', b) ==> Used(s, b) && BlockAt(s'.img.blocks, b) == BlockAt(s.img.blocks, b))
    decreases |direct| - k
  {
    hide BitsInv, FreeBlock, Used;
    if k < |direct| {
      FreeAny(s, direct[k]);
      var s1 := if direct[k] == -1 then s else FreeBlock(s, direct[k]).0;
      FreeAllOnly(s1, direct, k + 1);
    }
  }

  lemma FreeAny(s: State, a: int)
    requires BitsInv(s)
    ensures |s.super.stack| == GROUP
    ensures
      var s' := FreeBlock(s, a).0;
      && BitsInv(s') && s'.inodeBits == s.inodeBits && s'.img.inodes == s.img.inodes
      && (forall b :: Used(s', b) ==> Used(s, b) && BlockAt(s'.img.blocks, b) == BlockAt(s.img.blocks, b))
  {
    if Used(s, a) { FreeKeepsBits(s, a); }
  }

  /**
   `s'` differs from `s` by freed blocks and inodes and by directory `d`: its slot
   `h`, which was free, was emptied and its count lowered.
   */
  ghost predicate HoleDeleted(s: State, s': State, c: Cert, d: int, h: int) {
    match INodeAt(s.img.inodes, d)
    case n =>
      && TreeInv(s, c) && d in c.place && IsDir(n) && |n.direct| == DIRECT && 0 <= h < SLOTS
      && n.direct[h / PER_BLOCK] != -1 && Slots(s.img.blocks, n.direct)[h].name == ""
      && (forall x :: INodeUsed(s', x) && x != d ==> INodeAt(s'.img.inodes, x) == INodeAt(s.img.inodes, x))
      && INodeAt(s'.img.inodes, d) == n.(cnt := (n.cnt - 1) % 65536)
      && BlockAt(s'.img.blocks, n.direct[h / PER_BLOCK])
         == Entries(EntriesAt(s.img.blocks, n.direct[h / PER_BLOCK])[h % PER_BLOCK := Entry("", -1)])
      && (forall b :: Used(s', b) && b != n.direct[h / PER_BLOCK] ==> BlockAt(s'.img.blocks, b) == BlockAt(s.img.blocks, b))
  }

  /** Another directory that a later certificate reaches reads as it did: its blocks are still allocated. */
  lemma OtherDirReads(s: State, s': State, c: Cert, c': Cert, d: int, h: int, p: int)
    requires HoleDeleted(s, s', c, d, h) && TreeInv(s', c') && p in c.place && p in c'.place && p != d
    requires IsDir(INodeAt(s.img.inodes, p)) && |INodeAt(s.img.inodes, p).direct| == DIRECT
    ensures
      var n := INodeAt(s.img.inodes, p);
      INodeAt(s'.img.inodes, p) == n && Slots(s'.img.blocks, n.direct) == Slots(s.img.blocks, n.direct)
  {
    hide TreeInv, DirOk, FileOk;
    Reached(s, c, p);
    Reached(s, c, d);
    Reached(s', c', p);
    var n, m := INodeAt(s.img.inodes, p), INodeAt(s.img.inodes, d);
    forall k | 0 <= k < DIRECT && n.direct[k] != -1
      ensures BlockAt(s'.img.blocks, n.direct[k]) == BlockAt(s.img.blocks, n.direct[k])
    {
      assert OwnedBy(s, c, n.direct[k], p, k) && OwnedBy(s', c', n.direct[k], p, k);
      assert OwnedBy(s, c, m.direct[h / PER_BLOCK], d, h / PER_BLOCK);
    }
    SlotsFrame(s.img.blocks, s'.img.blocks, n.direct);
  }

  /** `d` and the directories above it would all be reached still. */
  lemma {:induction false} ChainPlaced(s: State, s': State, c: Cert, c': Cert, d: int, h: int, x: int)
    requires HoleDeleted(s, s', c, d, h) && TreeInv(s', c') && Placed(c) && x in c.place && Below(c, d, x)
    ensures x in c'.place
    decreases c.place[x].depth
  {
    hide TreeInv, NodeOk, DirOk;
    RootTop(s', c');
    if x != ROOT {
      var p, t := c.place[x].parent, c.place[x].slot;
      Hangs(s, c, x);
      assert Below(c, x, p);
      BelowTrans(c, d, x, p);
      BelowDepth(c, d, x);
      ChainPlaced(s, s', c, c', d, h, p);
      OtherDirReads(s, s', c, c', d, h, p);
      ReachedDir(s', c', p);
      ChildAt(c', p, INodeAt(s'.img.inodes, p).cnt, Slots(s'.img.blocks, INodeAt(s'.img.inodes, p).direct), t);
    }
  }

  /** The count of `d` no longer is the number of its entries. */
  lemma HoleBreaks(s: State, s': State, c: Cert, d: int, h: int, c': Cert)
    requires HoleDeleted(s, s', c, d, h)
    ensures !TreeInv(s', c')
  {
    hide TreeInv, NodeOk;
    if TreeInv(s', c') {
      TreePlaced(s, c);
      SelfPlaced(c, d);
      var slots := Slots(s.img.blocks, INodeAt(s.img.inodes, d).direct);
      assert Named(slots[h := Entry("", -1)]) == Named(slots);
      NamedBound(slots);
      ReachedDir(s, c, d);
      ChainPlaced(s, s', c, c', d, h, d);
      HoleSlots(s, s', c, c', d, h);
      ReachedDir(s', c', d);
    }
  }

  lemma SelfPlaced(c: Cert, d: int)
    requires Placed(c) && d in c.place
    ensures Below(c, d, d)
  {
  }

  lemma HoleSlots(s: State, s': State, c: Cert, c': Cert, d: int, h: int)
    requires HoleDeleted(s, s', c, d, h) && TreeInv(s', c') && d in c'.place
    ensures
      var n := INodeAt(s.img.inodes, d);
      |n.direct| == DIRECT && 0 <= h < SLOTS && Slots(s'.img.blocks, n.direct) == Slots(s.img.blocks, n.direct)[h := Entry("", -1)]
  {
    hide TreeInv, DirOk, FileOk;
    var n := INodeAt(s.img.inodes, d);
    Reached(s, c, d);
    Reached(s', c', d);
    forall k | 0 <= k < DIRECT && k != h / PER_BLOCK && n.direct[k] != -1
      ensures BlockAt(s'.img.blocks, n.direct[k]) == BlockAt(s.img.blocks, n.direct[k])
    {
      assert OwnedBy(s, c, n.direct[k], d, k) && OwnedBy(s', c', n.direct[k], d, k);
      assert OwnedBy(s, c, n.direct[h / PER_BLOCK], d, h / PER_BLOCK);
    }
    SlotsStore(s.img.blocks, s'.img.blocks, n.direct, n.direct, h, Entry("", -1));
  }

  /** A DelFile that takes a free slot for a file leaves counts and bitmaps in agreement, and no tree. */
  lemma DelFileBadName(s: State, c: Cert, who: Session, d: int, c': Cert)
    requires BitsInv(s) && TreeInv(s, c) && d in c.place && IsDir(INodeAt(s.img.inodes, d))
    requires |INodeAt(s.img.inodes, d).direct| == DIRECT && |s.super.stack| == GROUP && DelFile(s, who, d, "").1 == Done
    ensures !TreeInv(DelFile(s, who, d, "").0, c')
  {
    hide TreeInv, BitsInv, FreeAll, FreeBlock, HoleDeleted;
    var n := INodeAt(s.img.inodes, d);
    var h := FindKind(s.img, n.direct, "", false, 0);
    var i := Slots(s.img.blocks, n.direct)[h].ino;
    var s1 := FreeAll(s, INodeAt(s.img.inodes, i).direct, 0);
    FreeAllOnly(s, INodeAt(s.img.inodes, i).direct, 0);
    HoleIsDeleted(s, c, d, h, i, s1);
    HoleBreaks(s, DelFile(s, who, d, "").0, c, d, h, c');
  }

  lemma HoleIsDeleted(s: State, c: Cert, d: int, h: int, i: int, s1: State)
    requires TreeInv(s, c) && d in c.place && IsDir(INodeAt(s.img.inodes, d)) && |INodeAt(s.img.inodes, d).direct| == DIRECT
    requires 0 <= h < SLOTS && INodeAt(s.img.inodes, d).direct[h / PER_BLOCK] != -1
    requires Slots(s.img.blocks, INodeAt(s.img.inodes, d).direct)[h].name == ""
    requires i == Slots(s.img.blocks, INodeAt(s.img.inodes, d).direct)[h].ino
    requires s1.img.inodes == s.img.inodes
    requires forall b :: Used(s1, b) ==> Used(s, b) && BlockAt(s1.img.blocks, b) == BlockAt(s.img.blocks, b)
    ensures
      var n := INodeAt(s.img.inodes, d);
      HoleDeleted(s, StoreHole(FreeINode(s1, i).0, d, n, h, Around(s.img.blocks, n.direct, h)), c, d, h)
  {
    hide TreeInv;
    var n := INodeAt(s.img.inodes, d);
    var s' := StoreHole(FreeINode(s1, i).0, d, n, h, Around(s.img.blocks, n.direct, h));
    assert forall b :: Used(s', b) == Used(s1, b);
  }

  /** A completed DelFile leaves a tree if and only if the name was not empty. */
  lemma DelFileTreeIff(s: State, c: Cert, who: Session, d: int, name: string)
    requires BitsInv(s) && TreeInv(s, c) && d in c.place && IsDir(INodeAt(s.img.inodes, d))
    requires |INodeAt(s.img.inodes, d).direct| == DIRECT && |s.super.stack| == GROUP && DelFile(s, who, d, name).1 == Done
    ensures (exists c' :: TreeInv(DelFile(s, who, d, name).0, c')) <==> name != ""
  {
    hide TreeInv, BitsInv, DelFile;
    if name == "" {
      forall c' ensures !TreeInv(DelFile(s, who, d, name).0, c') { DelFileBadName(s, c, who, d, c'); }
    } else {
      var h, i := DelFileKeeps(s, c, who, d, name);
    }
  }

  /** So does a DeleteDir that takes a free slot for a directory of at most two entries, whatever its stale address. */
  lemma DeleteDirBadName(s: State, c: Cert, d: int, h: int, c': Cert)
    requires BitsInv(s) && TreeInv(s, c) && d in c.place && IsDir(INodeAt(s.img.inodes, d))
    requires |INodeAt(s.img.inodes, d).direct| == DIRECT && |s.super.stack| == GROUP && 0 <= h < SLOTS
    requires IsMatch(s.img, INodeAt(s.img.inodes, d).direct, "", true, h)
    requires FewEntries(s.img, Slots(s.img.blocks, INodeAt(s.img.inodes, d).direct)[h].ino)
    ensures !TreeInv(HoleDropped(s, d, h), c')
  {
    hide TreeInv, BitsInv, FreeBlock, HoleDeleted, StoreHole;
    var n := INodeAt(s.img.inodes, d);
    var i := Slots(s.img.blocks, n.direct)[h].ino;
    var b := INodeAt(s.img.inodes, i).direct[0];
    FreeAny(s, b);
    HoleIsDeleted(s, c, d, h, i, FreeBlock(s, b).0);
    HoleBreaks(s, HoleDropped(s, d, h), c, d, h, c');
  }
}
