/**
 Inputs at which the code falls short, each reached from a formatted disk.
 */
module Witnesses {
  import opened Disk
  import opened Allocator
  import opened Tree
  import opened INodes
  import opened Directories
  import opened MakeDirectory
  import opened FileData
  import opened CreateFile
  import opened BadNames
  import opened UnsetPointer
  import opened Freeing
  import opened DeleteFile
  import opened Subtree
  import opened DeleteDirectory
  import opened Paths
  import opened Resolve
  import opened Navigation
  import opened MoveTree
  import opened Repair
  import opened SteadyState
  import opened Runs
  import opened FreshChain
  import opened Formatting
  import opened Permissions
  import opened Room
  import opened SmallDirs
  import opened FormatTree
  import opened Outline
  import opened CopyTree
  import opened MoveSettling
  import opened Seats
  import opened Outcomes
  import opened CopyPlan
  import opened Verdicts

  /** A buffer with a text of `n` characters. */
  function TextOf(n: nat): (buf: seq<char>)
    requires n <= 1000
    ensures |buf| == 1536
  {
    seq(n, _ => 'x') + seq(1536 - n, _ => '\0')
  }

  lemma TextOfLength(n: nat)
    requires n <= 1000
    ensures TextBuffer(TextOf(n)) && StrLen(TextOf(n)) == n
  {
    StrLenPadded(seq(n, _ => 'x'), seq(1536 - n, _ => '\0'));
  }

  /** The disk Format has made the root directory of, for user root. */
  ghost predicate Start(s: State, who: Session, s1: State) {
    match s1
    case State(_, _, _, _) =>
      && Blank(s) && |s.super.stack| == GROUP && s1 == WithRoot(s, who) && who.user == "root"
  }

  lemma StartShows(s: State, who: Session, s1: State)
    requires Start(s, who, s1)
    ensures Shows(s1, RootCert(FreshBlock(0)), RootNodes(who))
    ensures DirShown(RootNodes(who), ROOT, Attr(DIR_MODE, who.user, who.group), [Entry(".", ROOT)])
    ensures s1.super.freeBlocks == BLOCK_NUM - 1 && s1.super.freeInodes == INODE_NUM - 1
    ensures |s1.super.stack| == GROUP && |INodeAt(s1.img.inodes, ROOT).direct| == DIRECT
  {
    hide Blank, WithRoot, Shows, FreshBlock, RootCert;
    RootShows(s, who);
    ShownCompact(s1, RootCert(FreshBlock(0)), RootNodes(who), ROOT, Attr(DIR_MODE, who.user, who.group), [Entry(".", ROOT)]);
  }

  // ---------------------------------------------------------------------
  // A name MakeDir should refuse
  // ---------------------------------------------------------------------

  /** In a formatted root MakeDir makes "..", and no tree is left. */
  lemma DotDotMade(s: State, who: Session, s1: State)
    requires Start(s, who, s1)
    ensures |s1.super.stack| == GROUP && |INodeAt(s1.img.inodes, ROOT).direct| == DIRECT
    ensures MakeDir(s1, who, ROOT, "..").1
    ensures forall c :: !TreeInv(MakeDir(s1, who, ROOT, "..").0, c)
  {
    hide Shows, MakeDir, TreeInv, DiskInv, Steady, LeakFree, Compact, RootCert, FreshBlock, Taken, FirstHole, Slots;
    StartShows(s, who, s1);
    var c := RootCert(FreshBlock(0));
    var l := [Entry(".", ROOT)];
    ShownSound(s1, c, RootNodes(who));
    ShownCompact(s1, c, RootNodes(who), ROOT, Attr(DIR_MODE, who.user, who.group), l);
    CompactReady(s1, c, ROOT, NamesOf(l), "..");
    MakeDirSucceedsIff(s1, c, who, ROOT, "..");
    MakeDirTreeIff(s1, c, who, ROOT, "..");
  }

  lemma ShownSound(s: State, c: Cert, nodes: map<int, View>)
    requires Shows(s, c, nodes)
    ensures DiskInv(s) && TreeInv(s, c) && Steady(s) && LeakFree(s, c) && c.place.Keys == nodes.Keys
  {
  }

  // ---------------------------------------------------------------------
  // A name DelFile should refuse
  // ---------------------------------------------------------------------

  /** Where what lies at address 0 does not read as a directory, DelFile of "" in a formatted root completes, and no tree is left. */
  lemma EmptyNameDeleted(s: State, who: Session, s1: State)
    requires Start(s, who, s1) && !IsDir(STRAY_INODE(0))
    ensures |s1.super.stack| == GROUP && |INodeAt(s1.img.inodes, ROOT).direct| == DIRECT
    ensures DelFile(s1, who, ROOT, "").1 == Done
    ensures forall c :: !TreeInv(DelFile(s1, who, ROOT, "").0, c)
  {
    hide Shows, TreeInv, DiskInv, Steady, LeakFree, Compact, RootCert, FreshBlock, DelFile, Slots, FirstHole, Taken, BitsInv;
    StartShows(s, who, s1);
    var c := RootCert(FreshBlock(0));
    var l := [Entry(".", ROOT)];
    ShownSound(s1, c, RootNodes(who));
    ShownCompact(s1, c, RootNodes(who), ROOT, Attr(DIR_MODE, who.user, who.group), l);
    CompactReady(s1, c, ROOT, NamesOf(l), "");
    ShownViews(s1, c, RootNodes(who));
    FirstBlock(s1, c, ROOT);
    DiskBits(s1);
    HoleMatches(s1, who);
    DelFileTreeIff(s1, c, who, ROOT, "");
  }

  lemma FirstBlock(s: State, c: Cert, i: int)
    requires TreeInv(s, c) && i in c.place
    ensures |INodeAt(s.img.inodes, i).direct| == DIRECT && INodeAt(s.img.inodes, i).direct[0] != -1
  {
    Reached(s, c, i);
  }

  lemma HoleMatches(s: State, who: Session)
    requires BitsInv(s) && !IsDir(STRAY_INODE(0)) && who.user == "root"
    requires
      var n := INodeAt(s.img.inodes, ROOT);
      && |n.direct| == DIRECT && n.direct[0] != -1 && n.mode == DIR_MODE && Slots(s.img.blocks, n.direct) == Padded([Entry(".", ROOT)])
    ensures |s.super.stack| == GROUP && DelFile(s, who, ROOT, "").1 == Done
  {
    hide FreeAll, FreeINode, StoreHole, Pow2;
    var n := INodeAt(s.img.inodes, ROOT);
    assert Slots(s.img.blocks, n.direct)[1] == HOLE;
    assert !IsINode(0);
    assert IsMatch(s.img, n.direct, "", false, 1);
    assert Pow2(7) == 128 by { Powers(); }
  }

  /** Where what lies at address 0 reads as a directory of at most two entries, DeleteDir of "" takes it, and no tree is left. */
  lemma EmptyDirDeleted(s: State, who: Session, s1: State)
    requires Start(s, who, s1) && IsDir(STRAY_INODE(0)) && STRAY_INODE(0).cnt <= 2 && |STRAY_INODE(0).direct| == DIRECT
    ensures |s1.super.stack| == GROUP && |INodeAt(s1.img.inodes, ROOT).direct| == DIRECT
    ensures MayDeleteDir(who, INodeAt(s1.img.inodes, ROOT)) && HoleFound(s1.img, ROOT, 1)
    ensures forall c :: !TreeInv(HoleDropped(s1, ROOT, 1), c)
  {
    hide Shows, TreeInv, DiskInv, Steady, LeakFree, Compact, RootCert, FreshBlock, Slots, FirstHole, Taken, BitsInv, HoleDropped, FindKind;
    StartShows(s, who, s1);
    var c := RootCert(FreshBlock(0));
    var l := [Entry(".", ROOT)];
    ShownSound(s1, c, RootNodes(who));
    ShownCompact(s1, c, RootNodes(who), ROOT, Attr(DIR_MODE, who.user, who.group), l);
    CompactReady(s1, c, ROOT, NamesOf(l), "");
    ShownViews(s1, c, RootNodes(who));
    FirstBlock(s1, c, ROOT);
    DiskBits(s1);
    NothingAtZero(s1);
    var direct := INodeAt(s1.img.inodes, ROOT).direct;
    assert Slots(s1.img.blocks, direct)[1] == HOLE && Slots(s1.img.blocks, direct)[0].name == ".";
    SecondFound(s1.img, direct);
    forall c' ensures !TreeInv(HoleDropped(s1, ROOT, 1), c') { DeleteDirBadName(s1, c, ROOT, 1, c'); }
  }

  lemma NothingAtZero(s: State)
    requires BitsInv(s)
    ensures INodeAt(s.img.inodes, 0) == STRAY_INODE(0)
  {
    assert !IsINode(0);
  }

  lemma SecondFound(img: Image, direct: seq<int>)
    requires |direct| == DIRECT && IsMatch(img, direct, "", true, 1) && Slots(img.blocks, direct)[0].name == "."
    ensures FindKind(img, direct, "", true, 0) == 1
  {
    hide Slots;
  }

  // ---------------------------------------------------------------------
  // What Chmod should refuse
  // ---------------------------------------------------------------------

  /** In a formatted root Create makes a file and Chmod, with the type bit in its argument, makes it a directory: no tree is left. */
  lemma FileTurned(s: State, who: Session, s1: State)
    requires Start(s, who, s1)
    ensures |s1.super.stack| == GROUP && |INodeAt(s1.img.inodes, ROOT).direct| == DIRECT && TextBuffer(TextOf(1))
    ensures
      var (s2, ok) := Create(s1, who, ROOT, "f", TextOf(1), -1);
      && ok && |INodeAt(s2.img.inodes, ROOT).direct| == DIRECT
      && forall c :: !TreeInv(Chmod(s2, who, ROOT, "f", TYPE_BIT), c)
  {
    hide Shows, Create, Sound, LeakFree, RootCert, FreshBlock, TextOf, StrLen, Padded, UsableName, MayAdd, ViewOf, FindSlot, TreeInv,
      DiskInv, Steady, WithPermissions, Slots, TurnsDir, IsDir;
    StartShows(s, who, s1);
    TextOfLength(1);
    var open := Attr(DIR_MODE, who.user, who.group);
    OwnMay(who);
    NameOk(ROOT, "f");
    var c, f, nodes := MakesFile(s1, RootCert(FreshBlock(0)), RootNodes(who), who, ROOT, open, [Entry(".", ROOT)], "f", TextOf(1), -1);
    var s2 := Create(s1, who, ROOT, "f", TextOf(1), -1).0;
    var top := [Entry(".", ROOT)] + [Entry("f", f)];
    assert top[1] == Entry("f", f);
    ShownSound(s2, c, nodes);
    ShownViews(s2, c, nodes);
    ShownCompact(s2, c, nodes, ROOT, open, top);
    CompactReady(s2, c, ROOT, NamesOf(top), "");
    FileSeen(s2, f);
    PaddedAt(top, 1);
    SlotNamed(s2, c, ROOT, 1);
    SameType(INodeAt(s2.img.inodes, f), TYPE_BIT);
    Turns(INodeAt(s2.img.inodes, f), TYPE_BIT);
    ChmodTreeIff(s2, c, who, ROOT, "f", TYPE_BIT, f);
  }

  lemma PaddedAt(l: seq<Entry>, t: nat)
    requires t < |l| <= SLOTS
    ensures Padded(l)[t] == l[t]
  {
  }

  lemma FileSeen(s: State, i: int)
    requires ViewOf(s.img, i).FileView?
    ensures !IsDir(INodeAt(s.img.inodes, i))
  {
  }

  /** In a formatted root Chmod of the empty name finds a free slot and writes at address 0: the allocator's structures are no longer sound. */
  lemma EmptyNameChmod(s: State, who: Session, s1: State, permissions: nat)
    requires Start(s, who, s1)
    ensures |INodeAt(s1.img.inodes, ROOT).direct| == DIRECT
    ensures Finds(s1, ROOT, "", 0) && !DiskInv(Chmod(s1, who, ROOT, "", permissions))
  {
    hide Shows, TreeInv, DiskInv, Steady, LeakFree, Compact, RootCert, FreshBlock, Slots, FirstHole, Taken, BitsInv, FindSlot,
      WithPermissions;
    StartShows(s, who, s1);
    var c := RootCert(FreshBlock(0));
    var l := [Entry(".", ROOT)];
    ShownSound(s1, c, RootNodes(who));
    ShownCompact(s1, c, RootNodes(who), ROOT, Attr(DIR_MODE, who.user, who.group), l);
    CompactReady(s1, c, ROOT, NamesOf(l), "");
    ShownViews(s1, c, RootNodes(who));
    FirstBlock(s1, c, ROOT);
    var direct := INodeAt(s1.img.inodes, ROOT).direct;
    assert Slots(s1.img.blocks, direct)[1] == HOLE && Slots(s1.img.blocks, direct)[0].name == ".";
    FirstIs(s1.img.blocks, direct, "", 1);
    DiskBits(s1);
    ZeroWritten(s1, permissions);
    ChmodDiskIff(s1, c, who, ROOT, "", permissions, 0);
  }

  lemma ZeroWritten(s: State, permissions: nat)
    requires BitsInv(s)
    ensures WriteMode(s, 0, permissions) != s && !IsINode(0)
  {
    assert 0 in WriteMode(s, 0, permissions).img.inodes;
  }

  // ---------------------------------------------------------------------
  // The pointer Create leaves unassigned
  // ---------------------------------------------------------------------

  /** A text of one whole block in a formatted root, with 0 on the stack: Create succeeds, and no tree is left. */
  lemma WholeBlockCreated(s: State, who: Session, s1: State)
    requires Start(s, who, s1)
    ensures |s1.super.stack| == GROUP && |INodeAt(s1.img.inodes, ROOT).direct| == DIRECT && TextBuffer(TextOf(BLOCK_SIZE))
    ensures Create(s1, who, ROOT, "f", TextOf(BLOCK_SIZE), 0).1
    ensures forall c :: !TreeInv(Create(s1, who, ROOT, "f", TextOf(BLOCK_SIZE), 0).0, c)
  {
    hide Shows, Create, TreeInv, DiskInv, Steady, LeakFree, Compact, RootCert, FreshBlock, Taken, FirstHole, Slots, TextOf, StrLen;
    StartShows(s, who, s1);
    TextOfLength(BLOCK_SIZE);
    var c := RootCert(FreshBlock(0));
    var l := [Entry(".", ROOT)];
    ShownSound(s1, c, RootNodes(who));
    ShownCompact(s1, c, RootNodes(who), ROOT, Attr(DIR_MODE, who.user, who.group), l);
    CompactReady(s1, c, ROOT, NamesOf(l), "f");
    CreateSucceedsIff(s1, c, who, ROOT, "f", TextOf(BLOCK_SIZE), 0);
    CreateTreeIff(s1, c, who, ROOT, "f", TextOf(BLOCK_SIZE), 0);
  }

  // ---------------------------------------------------------------------
  // Blocks DeleteDir leaves behind, and the restart after that
  // ---------------------------------------------------------------------

  /** A directory "d" in the root with a file "f" of two blocks. */
  ghost predicate LongFile(s: State, c: Cert, d: int, f: int) {
    match c
    case Cert(place, _, _) =>
      && Sound(s, c) && LeakFree(s, c) && ROOT != d && ROOT != f && d != f && place.Keys == {ROOT, d, f}
      && (exists attr :: ViewOf(s.img, ROOT) == DirView(attr, Padded([Entry(".", ROOT), Entry("d", d)])))
      && (exists attr :: ViewOf(s.img, d) == DirView(attr, Padded([Entry(".", d), Entry("..", ROOT), Entry("f", f)])))
      && (exists attr :: ViewOf(s.img, f) == FileView(attr, TextOf(600)[..600]))
      && s.super.freeBlocks == BLOCK_NUM - 4
  }

  /** MakeDir and Create lead there from a formatted root. */
  lemma LongFileReached(s: State, who: Session, s1: State) returns (s3: State, c: Cert, d: int, f: int)
    requires Start(s, who, s1)
    ensures |s1.super.stack| == GROUP && |INodeAt(s1.img.inodes, ROOT).direct| == DIRECT && TextBuffer(TextOf(600))
    ensures
      var s2 := MakeDir(s1, who, ROOT, "d").0;
      && |INodeAt(s2.img.inodes, d).direct| == DIRECT && s3 == Create(s2, who, d, "f", TextOf(600), -1).0
    ensures LongFile(s3, c, d, f)
  {
    hide Shows, Create, MakeDir, Sound, LeakFree, RootCert, FreshBlock, TextOf, StrLen, Padded, UsableName, MayAdd, ViewOf;
    StartShows(s, who, s1);
    TextOfLength(600);
    var open := Attr(DIR_MODE, who.user, who.group);
    var nodes;
    OwnMay(who);
    NameOk(ROOT, "d");
    c, d, nodes := MakesDir(s1, RootCert(FreshBlock(0)), RootNodes(who), who, ROOT, open, [Entry(".", ROOT)], "d");
    var s2 := MakeDir(s1, who, ROOT, "d").0;
    NameOk(d, "f");
    c, f, nodes := MakesFile(s2, c, nodes, who, d, open, [Entry(".", d), Entry("..", ROOT)], "f", TextOf(600), -1);
    s3 := Create(s2, who, d, "f", TextOf(600), -1).0;
    assert [Entry(".", ROOT)] + [Entry("d", d)] == [Entry(".", ROOT), Entry("d", d)];
    assert [Entry(".", d), Entry("..", ROOT)] + [Entry("f", f)] == [Entry(".", d), Entry("..", ROOT), Entry("f", f)];
    ShownViews(s3, c, nodes);
    assert nodes.Keys == {ROOT, d, f};
  }

  lemma ShownViews(s: State, c: Cert, nodes: map<int, View>)
    requires Shows(s, c, nodes)
    ensures Sound(s, c) && LeakFree(s, c) && c.place.Keys == nodes.Keys && forall i :: i in nodes ==> ViewOf(s.img, i) == nodes[i]
  {
    hide Sound, LeakFree;
  }

  /** The subtree deleted is the directory, and the second block of the file is not among those freed. */
  lemma SecondBlockStays(s: State, c: Cert, d: int, f: int, s': State, h: int, i: int)
    requires LongFile(s, c, d, f) && DirDeleted(s, s', c, ROOT, "d", h, i)
    ensures Placed(c) && i == d && !EveryBlockFreed(s, c, i)
  {
    hide Sound, LeakFree, TreeInv, BitsInv, ChainInv, Removed, Freed, OwnedIn, TextOf;
    SoundSteady(s, c);
    var top :| ViewOf(s.img, ROOT) == DirView(top, Padded([Entry(".", ROOT), Entry("d", d)]));
    assert Padded([Entry(".", ROOT), Entry("d", d)])[h] == Entry("d", i);
    var attr :| ViewOf(s.img, f) == FileView(attr, TextOf(600)[..600]);
    FileUnder(s, c, d, f);
    SecondPointer(s, c, f);
    assert !FreedBlock(s, f, 1);
  }

  lemma SecondPointer(s: State, c: Cert, f: int)
    requires TreeInv(s, c) && f in c.place && ViewOf(s.img, f).FileView? && |ViewOf(s.img, f).text| == 600
    ensures PointerOf(s, f, 1) != -1 && INodeAt(s.img.inodes, f).cnt == 1
  {
    hide TreeInv;
    Reached(s, c, f);
  }

  /** The file hangs in the directory. */
  lemma FileUnder(s: State, c: Cert, d: int, f: int)
    requires LongFile(s, c, d, f) && TreeInv(s, c) && Placed(c)
    ensures f in Sub(c, d)
  {
    hide Sound, LeakFree, TreeInv, TextOf;
    var top :| ViewOf(s.img, ROOT) == DirView(top, Padded([Entry(".", ROOT), Entry("d", d)]));
    var slots := Padded([Entry(".", ROOT), Entry("d", d)]);
    assert forall t :: 0 <= t < SLOTS && slots[t].name != "" ==> slots[t].ino != f;
    assert Below(c, d, d);
    HangsUnder(s, c, f);
  }

  /** Whatever DeleteDir leaves of that disk, a block nobody owns is still marked. */
  lemma LongFileLeaks(s: State, c: Cert, d: int, f: int, s': State, h: int, i: int)
    requires LongFile(s, c, d, f) && DirDeleted(s, s', c, ROOT, "d", h, i)
    ensures Placed(c) && !LeakFree(s', PruneCert(c, Sub(c, i)))
  {
    hide Sound, LeakFree, TreeInv, Removed, Freed, OwnedIn, Sub, EveryBlockFreed, ViewOf, TextOf, Padded;
    SoundSteady(s, c);
    SecondBlockStays(s, c, d, f, s', h, i);
    DeleteLeaksIff(s, s', c, ROOT, "d", h, i);
  }

  /** There is such a deletion: the recursion of DeleteFileOrDir, as states. */
  lemma {:induction false} SweepExists(s: State, c: Cert, i: int) returns (s1: State)
    requires SubOk(s, c, i) && Steady(s)
    ensures Swept(s, s1, Sub(c, i), Freed(s, c, Sub(c, i))) && Steady(s1)
    decreases c.maxDepth - DepthOf(c, i), 1
  {
    hide Deleting, SubOk, Swept, Freed, Sub, FreeBlock, FreeINode, Steady;
    SubNode(s, c, i);
    if INodeAt(s.img.inodes, i).cnt <= 2 {
      SmallDone(s, c, i);
      FreedSteady(s, PointerOf(s, i, 0));
      s1 := FreeBlock(s, PointerOf(s, i, 0)).0;
    } else {
      DeletingStart(s, c, i);
      s1 := s;
      for k := 0 to DIRECT
        invariant Deleting(s, s1, c, i, k * PER_BLOCK, k) && Steady(s1)
      {
        if PointerOf(s, i, k) == -1 {
          DeletingAbsent(s, s1, c, i, k);
        } else {
          s1 := BlockSweepExists(s, s1, c, i, k);
        }
      }
      DeletingDone(s, s1, c, i, DIRECT * PER_BLOCK, DIRECT);
    }
    DeletingStack(s1);
    FreedSteady(s1, i);
    s1 := FreeINode(s1, i).0;
  }

  lemma DeletingStack(s: State)
    requires Steady(s)
    ensures |s.super.stack| == GROUP
  {
  }

  lemma {:induction false} BlockSweepExists(s: State, s0: State, c: Cert, i: int, k: nat) returns (s1: State)
    requires k < DIRECT && Deleting(s, s0, c, i, k * PER_BLOCK, k) && PointerOf(s, i, k) != -1 && Steady(s0)
    ensures Deleting(s, s1, c, i, (k + 1) * PER_BLOCK, k + 1) && Steady(s1)
    decreases c.maxDepth - DepthOf(c, i), 0
  {
    hide Deleting, EntriesOf, SomeReal, SubOk, Swept, Freed, Sub, FreeBlock, Steady;
    DeletingRead(s, s0, c, i, k);
    var entries := EntriesAt(s0.img.blocks, PointerOf(s, i, k));
    s1 := s0;
    for j := 0 to PER_BLOCK
      invariant Deleting(s, s1, c, i, k * PER_BLOCK + j, k) && Steady(s1)
    {
      var s2 := s1;
      if RealChild(entries[j]) {
        DeletingChild(s, s2, c, i, k, j, entries);
        s1 := SweepExists(s2, c, entries[j].ino);
        DeletingChildDone(s, s2, s1, c, i, k, j, entries);
      } else {
        DeletingSkip(s, s2, c, i, k, j, entries);
      }
    }
    DeletingBlock(s, s1, c, i, k, entries);
    if SomeReal(entries, PER_BLOCK) {
      FreedSteady(s1, PointerOf(s, i, k));
      s1 := FreeBlock(s1, PointerOf(s, i, k)).0;
    }
  }

  /** DeleteDir of "d" ends in a state that leaks; a restart from it loses the free chain. */
  lemma LeakThenRestart(s: State, c: Cert, d: int, f: int) returns (s': State)
    requires LongFile(s, c, d, f)
    ensures DirDeleted(s, s', c, ROOT, "d", 1, d) && Steady(s') && Placed(c) && !LeakFree(s', PruneCert(c, Sub(c, d)))
    ensures ChainInv(s') && !ChainInv(Restart(s'.img))
  {
    hide Sound, LeakFree, TreeInv, Removed, Freed, OwnedIn, Sub, EveryBlockFreed, ViewOf, TextOf, Padded, LongFile, DirDeleted,
      DirFound, SubOk, BitsInv, Swept, Steady, StoreHole, Slots;
    DirectoryFound(s, c, d, f);
    var n := INodeAt(s.img.inodes, ROOT);
    var s1 := SweepExists(s, c, d);
    DirDone(s, c, ROOT, "d", 1, d, s1);
    s' := StoreHole(s1, ROOT, n, 1, Around(s.img.blocks, n.direct, 1));
    HoleSteady(s1, ROOT, n, 1, Around(s.img.blocks, n.direct, 1));
    LongFileLeaks(s, c, d, f, s', 1, d);
    RestartBreaks(s, c, d, f, s');
  }

  lemma DirectoryFound(s: State, c: Cert, d: int, f: int)
    requires LongFile(s, c, d, f)
    ensures DirFound(s, c, ROOT, "d", 1, d) && SubOk(s, c, d) && Placed(c) && |INodeAt(s.img.inodes, ROOT).direct| == DIRECT
    ensures Steady(s)
  {
    hide LeakFree, TreeInv, TextOf, Steady;
    SoundSteady(s, c);
    TreePlaced(s, c);
    RootTop(s, c);
    Reached(s, c, ROOT);
    var top :| ViewOf(s.img, ROOT) == DirView(top, Padded([Entry(".", ROOT), Entry("d", d)]));
    assert Padded([Entry(".", ROOT), Entry("d", d)])[1] == Entry("d", d);
    EntryPlaced(s, c, ROOT, 1);
    KindSeen(s, ROOT);
    KindSeen(s, d);
    TreeSubOk(s, c, d);
  }

  /** The chain survived the deletion, but not the repair. */
  lemma RestartBreaks(s: State, c: Cert, d: int, f: int, s': State)
    requires LongFile(s, c, d, f) && DirDeleted(s, s', c, ROOT, "d", 1, d) && Steady(s')
    requires Placed(c) && !LeakFree(s', PruneCert(c, Sub(c, d)))
    ensures ChainInv(s') && !ChainInv(Restart(s'.img))
  {
    hide TreeInv, Freed, TextOf, Sub, ViewOf, Repair.Repair, Padded, LeakFree;
    FewFreed(s', s, |Freed(s, c, Sub(c, d))|);
    NoneLost(s, c, s', Sub(c, d));
    RepairChainTree(s', PruneCert(c, Sub(c, d)));
  }

  lemma NoneLost(s: State, c: Cert, s': State, gone: set<int>)
    requires LeakFree(s, c) && forall j :: INodeUsed(s', j) <==> INodeUsed(s, j) && j !in gone
    ensures NoLostINode(s', PruneCert(c, gone))
  {
    hide INodeUsed, Used;
  }

  /** At most four blocks more are free, and the count stays within its group. */
  lemma FewFreed(s': State, s: State, n: nat)
    requires BitsInv(s') && s'.super.freeBlocks == s.super.freeBlocks + n && s.super.freeBlocks == BLOCK_NUM - 4
    ensures NoSpill(s.super.freeBlocks, n)
  {
    ClearAtMost(s'.blockBits);
  }

  // ---------------------------------------------------------------------
  // A move that takes the current directory away
  // ---------------------------------------------------------------------

  predicate Apart(a: int, t: int, b: int) { a != ROOT && t != ROOT && b != ROOT && a != t && a != b && t != b }

  /** "/a/b" and "/t", all empty otherwise, with room left. */
  ghost predicate Nested(s: State, c: Cert, who: Session, a: int, t: int, b: int) {
    match c
    case Cert(place, _, _) =>
      var open := Attr(DIR_MODE, who.user, who.group);
      && Sound(s, c) && who.user == "root" && Apart(a, t, b) && place.Keys == {ROOT, a, t, b}
      && ViewOf(s.img, ROOT) == DirView(open, Padded([Entry(".", ROOT), Entry("a", a), Entry("t", t)]))
      && ViewOf(s.img, a) == DirView(open, Padded([Entry(".", a), Entry("..", ROOT), Entry("b", b)]))
      && ViewOf(s.img, t) == DirView(open, Padded([Entry(".", t), Entry("..", ROOT)]))
      && ViewOf(s.img, b) == DirView(open, Padded([Entry(".", b), Entry("..", a)]))
      && s.super.freeBlocks == BLOCK_NUM - 4 && s.super.freeInodes == INODE_NUM - 4
  }

  /** Three MakeDirs lead there from a formatted root. */
  lemma NestedReached(s: State, who: Session, s1: State) returns (s4: State, c: Cert, a: int, t: int, b: int)
    requires Start(s, who, s1)
    ensures |s1.super.stack| == GROUP && |INodeAt(s1.img.inodes, ROOT).direct| == DIRECT
    ensures
      var s2 := MakeDir(s1, who, ROOT, "a").0;
      && |INodeAt(s2.img.inodes, ROOT).direct| == DIRECT
      && (var s3 := MakeDir(s2, who, ROOT, "t").0;
          |INodeAt(s3.img.inodes, a).direct| == DIRECT && s4 == MakeDir(s3, who, a, "b").0)
    ensures Nested(s4, c, who, a, t, b)
  {
    hide Shows, MakeDir, Sound, LeakFree, RootCert, FreshBlock, Padded, UsableName, MayAdd, ViewOf, DirShown;
    StartShows(s, who, s1);
    var open := Attr(DIR_MODE, who.user, who.group);
    var nodes;
    OwnMay(who);
    NameOk(ROOT, "a");
    c, a, nodes := MakesDir(s1, RootCert(FreshBlock(0)), RootNodes(who), who, ROOT, open, [Entry(".", ROOT)], "a");
    var s2 := MakeDir(s1, who, ROOT, "a").0;
    var l := [Entry(".", ROOT)] + [Entry("a", a)];
    NameOk(ROOT, "t");
    var inA := nodes[a];
    ShownKept(nodes, a, open, [Entry(".", a), Entry("..", ROOT)], inA);
    c, t, nodes := MakesDir(s2, c, nodes, who, ROOT, open, l, "t");
    var s3 := MakeDir(s2, who, ROOT, "t").0;
    NameOk(a, "b");
    ShownAgain(nodes, a, open, [Entry(".", a), Entry("..", ROOT)], inA);
    c, b, nodes := MakesDir(s3, c, nodes, who, a, open, [Entry(".", a), Entry("..", ROOT)], "b");
    s4 := MakeDir(s3, who, a, "b").0;
    assert l + [Entry("t", t)] == [Entry(".", ROOT), Entry("a", a), Entry("t", t)];
    assert [Entry(".", a), Entry("..", ROOT)] + [Entry("b", b)] == [Entry(".", a), Entry("..", ROOT), Entry("b", b)];
    ShownViews(s4, c, nodes);
    assert nodes.Keys == {ROOT, a, t, b};
  }

  lemma ShownKept(nodes: map<int, View>, d: int, attr: Attr, l: seq<Entry>, v: View)
    requires DirShown(nodes, d, attr, l) && nodes[d] == v
    ensures v == DirView(attr, Padded(l)) && |l| < PER_BLOCK && forall t :: 0 <= t < |l| ==> l[t].name != ""
  {
  }

  lemma ShownAgain(nodes: map<int, View>, d: int, attr: Attr, l: seq<Entry>, v: View)
    requires d in nodes && nodes[d] == v && |l| < PER_BLOCK && v == DirView(attr, Padded(l))
    requires forall t :: 0 <= t < |l| ==> l[t].name != ""
    ensures DirShown(nodes, d, attr, l)
  {
  }

  /** Where the four directories hang. */
  lemma NestedHangs(s: State, c: Cert, who: Session, a: int, t: int, b: int)
    requires Nested(s, c, who, a, t, b)
    ensures TreeInv(s, c) && Placed(c) && DiskInv(s)
    ensures a in c.place && a != ROOT && c.place[a].parent == ROOT && c.place[a].slot == 1 && NameOf(s, c, a) == "a"
    ensures t in c.place && t != ROOT && c.place[t].parent == ROOT && NameOf(s, c, t) == "t"
    ensures b in c.place && b != ROOT && c.place[b].parent == a && NameOf(s, c, b) == "b"
    ensures a != t && a != b && t != b
  {
    hide TreeInv, NameOf, DiskInv, ViewOf, Steady, Sound;
    SoundTree(s, c);
    var open := Attr(DIR_MODE, who.user, who.group);
    NestedRoot(s, c, who, a, t, b);
    ListedHangs(s, c, ROOT, open, [Entry(".", ROOT), Entry("a", a), Entry("t", t)], 1);
    ListedHangs(s, c, ROOT, open, [Entry(".", ROOT), Entry("a", a), Entry("t", t)], 2);
    ListedHangs(s, c, a, open, [Entry(".", a), Entry("..", ROOT), Entry("b", b)], 2);
  }

  lemma NestedRoot(s: State, c: Cert, who: Session, a: int, t: int, b: int)
    requires Nested(s, c, who, a, t, b)
    ensures Sound(s, c) && ROOT in c.place && a in c.place
  {
    hide Sound, ViewOf, Padded;
  }

  /** A listed entry that is neither "." nor ".." hangs where it is listed. */
  lemma ListedHangs(s: State, c: Cert, d: int, attr: Attr, l: seq<Entry>, t: nat)
    requires TreeInv(s, c) && d in c.place && |l| <= SLOTS && ViewOf(s.img, d) == DirView(attr, Padded(l)) && t < |l|
    requires RealChild(l[t])
    ensures
      var i := l[t].ino;
      i in c.place && i != ROOT && c.place[i].parent == d && c.place[i].slot == t && NameOf(s, c, i) == l[t].name
  {
    hide TreeInv, Slots;
    KindSeen(s, d);
    ReachedDir(s, c, d);
    EntryPlaced(s, c, d, t);
  }

  lemma OnePart(name: string)
    requires name == "a" || name == "t"
    ensures Parts("/" + name) == [name] && Join([name]) == "/" + name && Normal([name]) && LastPart("/" + name) == name
  {
    assert [name][..0] == [];
    assert Slashed([]) == "";
    assert Slashed([name]) == "" + "/" + name;
    SplitInvertsJoin([name]);
  }

  lemma TwoParts()
    ensures Parts("/a/b") == ["a", "b"] && Join(["a", "b"]) == "/a/b" && Normal(["a", "b"])
  {
    var path := ["a", "b"];
    assert path[..1] == ["a"] && path[..1][..0] == [];
    assert Slashed([]) == "";
    assert Slashed(["a"]) == "" + "/" + "a" == "/a";
    assert Join(path) == "/a" + "/" + "b" == "/a/b";
    SplitInvertsJoin(path);
  }

  /** Their paths. */
  lemma NestedPaths(s: State, c: Cert, who: Session, a: int, t: int, b: int)
    requires Nested(s, c, who, a, t, b)
    ensures Placed(c) && Names(s, c, "/a", a) && Names(s, c, "/t", t) && Names(s, c, "/a/b", b)
    ensures ResolvePath(s.img, "/a") == a && ResolvePath(s.img, "/t") == t
    ensures Below(c, b, a) && !Below(c, t, a)
  {
    hide TreeInv, NameOf, DiskInv, Padded, ViewOf, Follow, Parts, Join, Normal, Nested;
    NestedHangs(s, c, who, a, t, b);
    OnePart("a");
    OnePart("t");
    TwoParts();
    assert PathOf(s, c, ROOT) == [];
    assert PathOf(s, c, a) == [] + ["a"] == ["a"];
    assert PathOf(s, c, t) == [] + ["t"] == ["t"];
    assert PathOf(s, c, b) == ["a"] + ["b"] == ["a", "b"];
    assert "/" + "a" == "/a" && "/" + "t" == "/t";
    ResolvesTo(s, c, "/a", a);
    ResolvesTo(s, c, "/t", t);
    assert Below(c, a, a);
    assert !Below(c, ROOT, a);
  }

  /** The session stands in "/a/b". */
  lemma NestedSeat(s: State, c: Cert, who: Session, a: int, t: int, b: int)
    requires Nested(s, c, who, a, t, b)
    ensures Here(s, c, Seat(who, b, "/a/b"))
  {
    hide TreeInv, DiskInv, Padded, Names, NameOf;
    NestedHangs(s, c, who, a, t, b);
    NestedPaths(s, c, who, a, t, b);
    KindSeen(s, b);
    ShownAttr(s, ROOT);
    RootEnters(s, c, who, b);
  }

  lemma {:induction false} RootEnters(s: State, c: Cert, who: Session, d: int)
    requires Placed(c) && d in c.place && who.user == "root"
    ensures MayEnter(who, INodeAt(s.img.inodes, d)) && MayClimb(s, c, who, d)
    decreases c.place[d].depth
  {
    if d != ROOT { RootEnters(s, c, who, c.place[d].parent); }
  }

  /** What "/a" says: a directory "b" with nothing in it. */
  lemma NestedDoc(s: State, c: Cert, who: Session, a: int, t: int, b: int)
    requires Nested(s, c, who, a, t, b)
    ensures Placed(c) && a in c.place && b in c.place
    ensures DocOf(s, c, b) == Folder([]) && DocOf(s, c, a) == Folder([("b", Folder([]))])
  {
    hide TreeInv, DiskInv, NameOf, Kids, Packed;
    NestedHangs(s, c, who, a, t, b);
    FreshPadded(b, a);
    FreshKids(s, c, b, a);
    FreshPadded(a, ROOT);
    FreshKids(s, c, a, ROOT);
    assert FreshSlots(a, ROOT)[2 := Entry("b", b)] == Padded([Entry(".", a), Entry("..", ROOT), Entry("b", b)]);
    KidsAppend(s, c, a, FreshSlots(a, ROOT), Entry("b", b));
  }

  lemma FreshPadded(i: int, parent: int)
    ensures FreshSlots(i, parent) == Padded([Entry(".", i), Entry("..", parent)])
  {
  }

  /** A directory of root's own that is as it was made: MakeDir in it works. */
  lemma MakesIn(s: State, c: Cert, who: Session, d: int, name: string) returns (c': Cert, i: int)
    requires Sound(s, c) && Compact(s, c, d, [".", ".."]) && who.user == "root" && (name == "a" || name == "b")
    requires s.super.freeInodes > 0 && s.super.freeBlocks > 0
    ensures |s.super.stack| == GROUP && |INodeAt(s.img.inodes, d).direct| == DIRECT && d in c.place
    ensures
      var (s', ok) := MakeDir(s, who, d, name);
      && ok && Sound(s', c') && DirMade(s, s', c, c', who, d, name, i) && Compact(s', c', i, [".", ".."])
      && s'.super.freeBlocks == s.super.freeBlocks - 1 && s'.super.freeInodes == s.super.freeInodes - 1
  {
    hide Sound, Compact, MakeDir, LeakFree, DirMade;
    c', i := MakeDirWorks(s, c, who, d, [".", ".."], name);
  }

  /** The copy of "/a" into "/t" that MoveEntry starts with: two MakeDirs, both of which succeed. */
  lemma CopyOut(s: State, c: Cert, who: Session, a: int, t: int, b: int) returns (s2: State, c2: Cert, n: int)
    requires Nested(s, c, who, a, t, b)
    ensures |s.super.stack| == GROUP && |INodeAt(s.img.inodes, t).direct| == DIRECT
    ensures
      var (s1, ok) := MakeDir(s, who, t, "a");
      && ok && |INodeAt(s1.img.inodes, n).direct| == DIRECT && s2 == MakeDir(s1, who, n, "b").0 && MakeDir(s1, who, n, "b").1
    ensures EntryCopied(s, c, s2, c2, "/a", "/t", n) && Sound(s2, c2)
  {
    hide Nested, Sound, TreeInv, DiskInv, Steady, MakeDir, Copying, ClonedAt, DirMade, DocOf, Names, ResolvePath, CanCopy, Compact,
      Below, ViewOf, GrownAt;
    NestedHangs(s, c, who, a, t, b);
    NestedPaths(s, c, who, a, t, b);
    NestedDoc(s, c, who, a, t, b);
    NestedCan(s, c, who, a, t, b);
    var c1;
    c1, n := MakesIn(s, c, who, t, "a");
    var s1 := MakeDir(s, who, t, "a").0;
    SoundTree(s1, c1);
    CopyStart(s, c, s1, c1, who, a, t, "a", n);
    CopyNext(s, c, s1, c1, a, t, "a", n, [], b);
    NewIsIn(s, s1, c, c1, who, t, "a", n);
    var m;
    c2, m := MakesIn(s1, c1, who, n, "b");
    s2 := MakeDir(s1, who, n, "b").0;
    SoundTree(s2, c2);
    CopyStart(s1, c1, s2, c2, who, b, n, "b", m);
    CopyEnd(s1, c1, s2, c2, n, "b", m, Folder([]));
    CopyStep(s, c, s1, c1, s2, c2, a, t, "a", n, [], "b", m, Folder([]));
    assert [] + [("b", Folder([]))] == [("b", Folder([]))];
    CopyEnd(s, c, s2, c2, t, "a", n, Folder([("b", Folder([]))]));
    NestedEnds(s, c, who, a, t, b);
    CloneIsEntry(s, c, s2, c2, "/a", "/t", n);
  }

  lemma NewIsIn(s: State, s': State, c: Cert, c': Cert, who: Session, d: int, name: string, i: int)
    requires d in c.place && DirMade(s, s', c, c', who, d, name, i)
    ensures i in c'.place
  {
  }

  lemma SoundTree(s: State, c: Cert)
    requires Sound(s, c)
    ensures DiskInv(s) && TreeInv(s, c) && Steady(s) && Placed(c)
  {
    hide TreeInv, DiskInv, Steady;
    TreePlaced(s, c);
  }

  lemma NestedCan(s: State, c: Cert, who: Session, a: int, t: int, b: int)
    requires Nested(s, c, who, a, t, b)
    ensures Sound(s, c) && CanCopy(s, c, a, t) && Compact(s, c, t, [".", ".."]) && who.user == "root"
    ensures s.super.freeBlocks == BLOCK_NUM - 4 && s.super.freeInodes == INODE_NUM - 4
  {
    hide TreeInv, DiskInv, NameOf, Names, Below, Sound, Nested, ViewOf;
    NestedHangs(s, c, who, a, t, b);
    NestedPaths(s, c, who, a, t, b);
    NestedTarget(s, c, who, a, t, b);
    KindSeen(s, t);
  }

  lemma NestedTarget(s: State, c: Cert, who: Session, a: int, t: int, b: int)
    requires Nested(s, c, who, a, t, b)
    ensures Sound(s, c) && who.user == "root" && Compact(s, c, t, [".", ".."]) && ViewOf(s.img, t).DirView?
    ensures s.super.freeBlocks == BLOCK_NUM - 4 && s.super.freeInodes == INODE_NUM - 4
  {
    hide Sound, ViewOf;
  }

  lemma NestedEnds(s: State, c: Cert, who: Session, a: int, t: int, b: int)
    requires Nested(s, c, who, a, t, b)
    ensures Ends(s, c, "/a", a, "/t", t) && LastPart("/a") == "a"
  {
    hide TreeInv, DiskInv, Names, NameOf, Parts;
    NestedHangs(s, c, who, a, t, b);
    NestedPaths(s, c, who, a, t, b);
    OnePart("a");
    assert "/" + "a" == "/a";
  }

  /** CopyEntry and MoveEntry of "/a" to "/t" answer that it is done. */
  lemma NestedMoves(s: State, c: Cert, who: Session, a: int, t: int, b: int)
    requires Nested(s, c, who, a, t, b)
    ensures CopyVerdict(s, c, who, "/a", "/t") == Ran(Copied) && MoveVerdict(s, c, who, "/a", "/t") == Moved
  {
    hide Nested, TreeInv, DiskInv, Sound, ResolvePath, Names, Below, DocOf, IsDescendant, CanCopy, Compact, PlanCopy, NameOf,
      LastPart, Slots, FirstHole, EntryNeeds, FindChild, Blocks, Nodes, Plain, Refused;
    NestedHangs(s, c, who, a, t, b);
    NestedPaths(s, c, who, a, t, b);
    NestedDoc(s, c, who, a, t, b);
    NestedCan(s, c, who, a, t, b);
    NestedEnds(s, c, who, a, t, b);
    GuardExact(s, c, "/a", a, "/t", t);
    GuardAdmits(s, c, "/a", "/t");
    PlacedAddress(s, c, a);
    PlacedAddress(s, c, t);
    TargetEmpty(s, c, t, "a");
    PlainName();
    SmallDoc();
    CopiedIff(SpotOf(s, who, t, "a"), "a", DocOf(s, c, a), s.super.freeBlocks, s.super.freeInodes);
    ParentDir(s, c, b);
  }

  lemma TargetEmpty(s: State, c: Cert, d: int, name: string)
    requires TreeInv(s, c) && Compact(s, c, d, [".", ".."]) && KidName(name)
    ensures d in c.place && |INodeAt(s.img.inodes, d).direct| == DIRECT && IsDir(INodeAt(s.img.inodes, d))
    ensures
      var n := INodeAt(s.img.inodes, d);
      var h := FirstHole(Slots(s.img.blocks, n.direct), 0);
      h < SLOTS && EntryNeeds(n, h) == 0 && FindChild(s.img, d, name) == -1
  {
    hide TreeInv, Compact, Slots, FirstHole, EntryNeeds, ChildNamed, FindChild, Taken;
    CompactReady(s, c, d, [".", ".."], name);
    TakenIff(s, c, d, name);
  }

  lemma PlainName()
    ensures !Refused("a") && !Refused("b") && |"a"| < MAX_NAME && KidName("a")
  {
  }

  lemma SmallDoc()
    ensures
      var doc := Folder([("b", Folder([]))]);
      Plain(doc) && Nodes(doc) == 2 && Blocks(doc) == 2
  {
    var inner: Doc := Folder([]);
    var doc := Folder([("b", inner)]);
    PlainName();
    assert Nodes(inner) == 1 && Blocks(inner) == 1;
    assert NodesOf(doc, 1) == NodesOf(doc, 0) + 1 && BlocksOf(doc, 1) == BlocksOf(doc, 0) + 1;
  }

  /** There is a move of "/a" under "/t": the copy, then the recursive deletion, as states. */
  lemma MoveOut(s: State, c: Cert, who: Session, a: int, t: int, b: int) returns (s': State, c': Cert, n: int)
    requires Nested(s, c, who, a, t, b)
    ensures EntryMoved(s, c, s', c', "/a", "/t", n) && Steady(s')
  {
    hide Nested, Sound, TreeInv, DiskInv, Steady, EntryCopied, EntryMoved, DirDeleted, DirFound, Swept, StoreHole, MoveSettled, Around,
      ResolvePath, SubOk, Sub, Freed, NameOf, Slots, BitsInv;
    var s2, c2;
    s2, c2, n := CopyOut(s, c, who, a, t, b);
    NestedHangs(s, c, who, a, t, b);
    NestedPaths(s, c, who, a, t, b);
    NestedEnds(s, c, who, a, t, b);
    SoundTree(s2, c2);
    SourceFound(s, c, s2, c2, who, a, t, b, n);
    var s3 := SweepExists(s2, c2, a);
    DirDone(s2, c2, ROOT, "a", 1, a, s3);
    var d := INodeAt(s2.img.inodes, ROOT);
    s' := StoreHole(s3, ROOT, d, 1, Around(s2.img.blocks, d.direct, 1));
    HoleSteady(s3, ROOT, d, 1, Around(s2.img.blocks, d.direct, 1));
    c' := PruneCert(c2, Sub(c2, a));
    DirMoved(s, c, s2, c2, s', "/a", "/t", n, 1, a);
  }

  /** After the copy "a" is still where it was, for DeleteDir to find. */
  lemma SourceFound(s: State, c: Cert, s2: State, c2: Cert, who: Session, a: int, t: int, b: int, n: int)
    requires Nested(s, c, who, a, t, b) && EntryCopied(s, c, s2, c2, "/a", "/t", n) && Sound(s2, c2)
    ensures DirFound(s2, c2, ROOT, "a", 1, a) && SubOk(s2, c2, a) && Placed(c2) && |INodeAt(s2.img.inodes, ROOT).direct| == DIRECT
    ensures TreeInv(s2, c2) && a in c.place && c.place[a].parent == ROOT
  {
    hide Nested, TreeInv, DiskInv, Steady, EntryCopied, ResolvePath, SubOk, NameOf, BitsInv;
    NestedHangs(s, c, who, a, t, b);
    NestedPaths(s, c, who, a, t, b);
    NestedEnds(s, c, who, a, t, b);
    SoundSteady(s2, c2);
    ParentFound(s, c, s2, c2, "/a", "/t", n);
    HangsUnder(s2, c2, a);
    RootTop(s2, c2);
    SourceStillDir(s, c, s2, c2, who, a, t, b, n);
    EntryPlaced(s2, c2, ROOT, 1);
    TreeSubOk(s2, c2, a);
  }

  lemma SourceStillDir(s: State, c: Cert, s2: State, c2: Cert, who: Session, a: int, t: int, b: int, n: int)
    requires Nested(s, c, who, a, t, b) && EntryCopied(s, c, s2, c2, "/a", "/t", n)
    requires ResolvePath(s.img, "/a") == a && ResolvePath(s.img, "/t") == t && a != t && a in c.place
    ensures IsDir(INodeAt(s2.img.inodes, a))
  {
    hide TreeInv, DiskInv, Names, DocOf, NameOf, Padded, ResolvePath;
    KindSeen(s2, a);
  }

  /**
   In "/a/b", "/a" is moved under "/t": the session is left on a blank inode that no
   tree holds, and unless what lies at address 0 reads as an entry "..", `cd /` never
   arrives.
   */
  lemma MovedSeatLost(s: State, c: Cert, who: Session, a: int, t: int, b: int) returns (s': State, c': Cert, n: int)
    requires Nested(s, c, who, a, t, b)
    ensures Here(s, c, Seat(who, b, "/a/b")) && EntryMoved(s, c, s', c', "/a", "/t", n)
    ensures INodeAt(s'.img.inodes, b) == BLANK && forall c'' :: TreeInv(s', c'') ==> b !in c''.place
    ensures (forall j :: 0 <= j < PER_BLOCK ==> EntriesAt(s'.img.blocks, 0)[j].name != "..") ==>
      Cd(s'.img, who, b, "/a/b", "/").answer == Stuck
  {
    hide Nested, EntryMoved, TreeInv, DiskInv, Here, Cd, EntriesAt, IsDescendant, ResolvePath, Names;
    s', c', n := MoveOut(s, c, who, a, t, b);
    var seat := Seat(who, b, "/a/b");
    NestedSeat(s, c, who, a, t, b);
    NestedHangs(s, c, who, a, t, b);
    NestedPaths(s, c, who, a, t, b);
    SeatAt(s, c, seat);
    MovesSeatIs(s, c, s', c', "/a", "/t", n, seat);
    MoveSeatIff(s, c, s', c', "/a", "/t", n, seat);
    if forall j :: 0 <= j < PER_BLOCK ==> EntriesAt(s'.img.blocks, 0)[j].name != ".." { LostSeatStuck(s'.img, seat, "/"); }
  }

  lemma SeatAt(s: State, c: Cert, seat: Seat)
    requires Here(s, c, seat)
    ensures At(s, c, seat.dir, seat.name)
  {
  }

  // ---------------------------------------------------------------------
  // A name with a slash
  // ---------------------------------------------------------------------

  /** In a formatted root MakeDir makes "a/b"; no path string leads to it. */
  lemma SlashMade(s: State, who: Session, s1: State) returns (c: Cert, i: int)
    requires Start(s, who, s1)
    ensures |s1.super.stack| == GROUP && |INodeAt(s1.img.inodes, ROOT).direct| == DIRECT
    ensures
      var (s2, ok) := MakeDir(s1, who, ROOT, "a/b");
      && ok && TreeInv(s2, c) && Placed(c) && i in c.place && PathOf(s2, c, i) == ["a/b"]
      && forall path :: ResolvePath(s2.img, path) != i
  {
    hide Shows, MakeDir, Sound, LeakFree, RootCert, FreshBlock, Padded, UsableName, MayAdd, ViewOf, DirShown, TreeInv,
      NameOf, Follow, Walk, PartsFrom, DiskInv, Steady;
    StartShows(s, who, s1);
    var nodes;
    OwnMay(who);
    NameOk(ROOT, "a/b");
    var open := Attr(DIR_MODE, who.user, who.group);
    c, i, nodes := MakesDir(s1, RootCert(FreshBlock(0)), RootNodes(who), who, ROOT, open, [Entry(".", ROOT)], "a/b");
    var s2 := MakeDir(s1, who, ROOT, "a/b").0;
    ShownSound(s2, c, nodes);
    TreePlaced(s2, c);
    SlashHangs(s2, c, who, i, nodes);
    assert PathOf(s2, c, ROOT) == [];
    assert [] + ["a/b"] == ["a/b"];
    NotClean();
    forall path ensures ResolvePath(s2.img, path) != i {
      if ResolvePath(s2.img, path) == i { ResolvedClean(s2, c, i, path); }
    }
  }

  lemma NotClean()
    ensures !AllClean(["a/b"])
  {
    assert "a/b"[1] == '/';
    assert !Clean(["a/b"][0]);
  }

  lemma SlashHangs(s: State, c: Cert, who: Session, i: int, nodes: map<int, View>)
    requires Shows(s, c, nodes) && TreeInv(s, c) && i != ROOT && nodes.Keys == {ROOT, i}
    requires exists attr :: nodes[ROOT] == DirView(attr, Padded([Entry(".", ROOT)] + [Entry("a/b", i)]))
    requires exists attr :: nodes[i] == DirView(attr, Padded([Entry(".", i), Entry("..", ROOT)]))
    ensures i in c.place && c.place[i].parent == ROOT && NameOf(s, c, i) == "a/b"
  {
    hide TreeInv, NameOf, Sound, LeakFree;
    HangsUnder(s, c, i);
  }

  // ---------------------------------------------------------------------
  // A name that does not fit the buffer
  // ---------------------------------------------------------------------

  /** From a formatted root: MakeDir with a name of the greatest length, then `cd` into it writes past cur_dir_name. */
  lemma LongNameOverruns(s: State, who: Session, s1: State, long: string)
    requires Start(s, who, s1) && |long| == MAX_NAME - 1 && '/' !in long
    ensures |s1.super.stack| == GROUP && |INodeAt(s1.img.inodes, ROOT).direct| == DIRECT
    ensures
      var (s2, ok) := MakeDir(s1, who, ROOT, long);
      ok && Cd(s2.img, who, ROOT, "/", long).answer == Overrun
  {
    hide Shows, MakeDir, Sound, LeakFree, RootCert, FreshBlock, Padded, UsableName, MayAdd, ViewOf, Enter, PartsFrom, DiskInv, Steady;
    StartShows(s, who, s1);
    var nodes, c, i;
    var open := Attr(DIR_MODE, who.user, who.group);
    OwnMay(who);
    NameOk(ROOT, long);
    c, i, nodes := MakesDir(s1, RootCert(FreshBlock(0)), RootNodes(who), who, ROOT, open, [Entry(".", ROOT)], long);
    var s2 := MakeDir(s1, who, ROOT, long).0;
    var top := [Entry(".", ROOT)] + [Entry(long, i)];
    assert top[1] == Entry(long, i);
    EntersChild(s2, c, nodes, who, ROOT, open, top, 1, "/");
    PartsPlain(long, "");
    assert "" + long == long;
    assert Parts(long) == [long];
    assert Renamed("/", long) == "/" + long;
    OneStep(s2.img, who, i, long);
  }

  lemma OneStep(img: Image, who: Session, i: int, part: string)
    requires |part| == MAX_NAME - 1 && Enter(img, who, ROOT, "/", part) == Entered(i, "/" + part)
    ensures CdParts(img, who, ROOT, "/", [part]).answer == Overrun
  {
    hide Enter;
  }
}
