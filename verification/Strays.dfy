/**
 Stray pointers. Create leaves one pointer of some files unassigned, and a copy
 of such files repeats that. A state with stray pointers is compared with its
 clean twin, the state that the same calls would have led to had every
 unassigned pointer held -1. The two differ in no other respect, every node
 reads the same in both, and nothing the copy does can tell them apart.
 */
module Strays {
  import opened Disk
  import opened Allocator
  import opened Tree
  import opened INodes
  import opened Directories
  import opened MakeDirectory
  import opened FileData
  import opened CreateFile
  import opened BadNames
  import opened Freeing
  import opened DeleteFile
  import opened Subtree
  import opened DeleteDirectory
  import opened Resolve

  /** A file's inode, but for pointers past its text where the clean one has none. */
  predicate StrayNode(m: INode, n: INode) {
    m == n ||
    (&& !IsDir(n) && n.size <= MAX_FILE && |m.direct| == |n.direct| == DIRECT
     && m == n.(direct := m.direct)
     && forall k :: 0 <= k < DIRECT && m.direct[k] != n.direct[k] ==> n.direct[k] == -1 && n.size <= k * BLOCK_SIZE)
  }

  /** `t` is the clean twin of `s`; the inodes in `clean` have no stray pointer. */
  ghost predicate Strayed(s: State, t: State, clean: set<int>) {
    match t
    case State(super, inodeBits, blockBits, img) =>
      && s.super == super && s.inodeBits == inodeBits && s.blockBits == blockBits
      && s.img == img.(inodes := s.img.inodes)
      && s.img.inodes.Keys == img.inodes.Keys
      && (forall i :: StrayNode(INodeAt(s.img.inodes, i), INodeAt(img.inodes, i)))
      && (forall i :: i in clean ==> INodeAt(s.img.inodes, i) == INodeAt(img.inodes, i))
  }

  lemma NoStrays(s: State, clean: set<int>)
    ensures Strayed(s, s, clean)
  {
  }

  // ---------------------------------------------------------------------
  // Everything reads the same
  // ---------------------------------------------------------------------

  /** Kinds, directories and texts do not show stray pointers. */
  lemma StrayReads(s: State, t: State, clean: set<int>, i: int)
    requires Strayed(s, t, clean)
    ensures ViewOf(s.img, i) == ViewOf(t.img, i)
    ensures FileText(s.img.blocks, INodeAt(s.img.inodes, i)) == FileText(t.img.blocks, INodeAt(t.img.inodes, i))
    ensures IsDir(INodeAt(s.img.inodes, i)) == IsDir(INodeAt(t.img.inodes, i))
    ensures INodeAt(s.img.inodes, i).size == INodeAt(t.img.inodes, i).size
    ensures IsDir(INodeAt(t.img.inodes, i)) ==> INodeAt(s.img.inodes, i) == INodeAt(t.img.inodes, i)
  {
    hide BytesAt;
    var m, n := INodeAt(s.img.inodes, i), INodeAt(t.img.inodes, i);
    assert StrayNode(m, n);
    if m != n {
      forall p | 0 <= p < n.size ensures m.direct[p / BLOCK_SIZE] == n.direct[p / BLOCK_SIZE] {
        assert p / BLOCK_SIZE * BLOCK_SIZE <= p;
      }
      assert Content(s.img.blocks, m.direct, n.size) == Content(t.img.blocks, n.direct, n.size);
      assert MissingBlock(m) <==> MissingBlock(n);
    }
  }

  lemma StrayChild(s: State, t: State, clean: set<int>, d: int, name: string)
    requires Strayed(s, t, clean)
    ensures FindChild(s.img, d, name) == FindChild(t.img, d, name)
  {
    StrayReads(s, t, clean, d);
  }

  lemma {:induction false} StrayFollow(s: State, t: State, clean: set<int>, d: int, parts: seq<string>)
    requires Strayed(s, t, clean)
    ensures Follow(s.img, d, parts) == Follow(t.img, d, parts)
    decreases |parts|
  {
    hide FindChild;
    if parts != [] {
      StrayChild(s, t, clean, d, parts[0]);
      var k := FindChild(s.img, d, parts[0]);
      StrayReads(s, t, clean, k);
      StrayFollow(s, t, clean, k, parts[1..]);
    }
  }

  /** The search sees kinds and names only. */
  lemma StrayFind(s: State, t: State, clean: set<int>, direct: seq<int>, name: string, dir: bool)
    requires Strayed(s, t, clean) && |direct| == DIRECT
    ensures FindKind(s.img, direct, name, dir, 0) == FindKind(t.img, direct, name, dir, 0)
  {
    hide Slots, StrayNode, Strayed;
    SameImage(s, t, clean);
    forall h | 0 <= h < SLOTS ensures IsMatch(s.img, direct, name, dir, h) == IsMatch(t.img, direct, name, dir, h) {
      StrayReads(s, t, clean, Slots(t.img.blocks, direct)[h].ino);
    }
    var f, g := FindKind(s.img, direct, name, dir, 0), FindKind(t.img, direct, name, dir, 0);
    assert f < SLOTS ==> IsMatch(t.img, direct, name, dir, f);
    assert g < SLOTS ==> IsMatch(s.img, direct, name, dir, g);
  }

  // ---------------------------------------------------------------------
  // The operations do not tell them apart
  // ---------------------------------------------------------------------

  lemma StrayAlloc(s: State, t: State, clean: set<int>)
    requires Strayed(s, t, clean) && |t.super.stack| == GROUP
    ensures AllocBlock(s).1 == AllocBlock(t).1 && Strayed(AllocBlock(s).0, AllocBlock(t).0, clean)
    ensures AllocINode(s).1 == AllocINode(t).1 && Strayed(AllocINode(s).0, AllocINode(t).0, clean)
  {
    hide StackAt, FirstClear, StrayNode;
  }

  lemma StrayWrite(s: State, t: State, clean: set<int>, a: int, b: Block)
    requires Strayed(s, t, clean)
    ensures Strayed(WriteBlock(s, a, b), WriteBlock(t, a, b), clean)
  {
    hide StrayNode;
  }

  lemma StrayINode(s: State, t: State, clean: set<int>, i: int, m: INode, n: INode)
    requires Strayed(s, t, clean) && StrayNode(m, n) && (i in clean ==> m == n)
    ensures Strayed(WriteINode(s, i, m), WriteINode(t, i, n), clean)
  {
    hide StrayNode;
    var s', t' := WriteINode(s, i, m), WriteINode(t, i, n);
    forall x ensures StrayNode(INodeAt(s'.img.inodes, x), INodeAt(t'.img.inodes, x)) {
      assert StrayNode(INodeAt(s.img.inodes, x), INodeAt(t.img.inodes, x));
    }
  }

  lemma SameStray(n: INode)
    ensures StrayNode(n, n)
  {
  }

  lemma StrayFree(s: State, t: State, clean: set<int>, a: int)
    requires Strayed(s, t, clean) && |t.super.stack| == GROUP
    ensures FreeBlock(s, a).1 == FreeBlock(t, a).1 && Strayed(FreeBlock(s, a).0, FreeBlock(t, a).0, clean)
  {
    hide IsBlock, StrayNode;
  }

  lemma StrayFreeINode(s: State, t: State, clean: set<int>, a: int)
    requires Strayed(s, t, clean)
    ensures Strayed(FreeINode(s, a).0, FreeINode(t, a).0, clean)
  {
    hide IsINode, StrayNode;
    SameStray(BLANK);
    StrayINode(s, t, clean, a, BLANK, BLANK);
  }

  lemma StrayStore(s: State, t: State, clean: set<int>, d: int, n: INode, h: int, blk: int, was: seq<Entry>, e: Entry)
    requires Strayed(s, t, clean) && 0 <= h < SLOTS && |n.direct| == DIRECT && |was| == PER_BLOCK
    ensures Strayed(StoreEntry(s, d, n, h, blk, was, e), StoreEntry(t, d, n, h, blk, was, e), clean)
    ensures Strayed(StoreHole(s, d, n, h, was), StoreHole(t, d, n, h, was), clean)
  {
    hide Strayed, StrayNode, WriteBlock, WriteINode;
    var more := n.(direct := n.direct[h / PER_BLOCK := blk], cnt := (n.cnt + 1) % 65536);
    var fewer := n.(cnt := (n.cnt - 1) % 65536);
    SameStray(more);
    SameStray(fewer);
    var full, hole := Entries(was[h % PER_BLOCK := e]), Entries(was[h % PER_BLOCK := Entry("", -1)]);
    StrayWrite(s, t, clean, blk, full);
    StrayINode(WriteBlock(s, blk, full), WriteBlock(t, blk, full), clean, d, more, more);
    var b := n.direct[h / PER_BLOCK];
    StrayWrite(s, t, clean, b, hole);
    StrayINode(WriteBlock(s, b, hole), WriteBlock(t, b, hole), clean, d, fewer, fewer);
  }

  lemma StrayMakeDir(s: State, t: State, clean: set<int>, c: Cert, who: Session, d: int, name: string)
    requires Strayed(s, t, clean) && DiskInv(t) && TreeInv(t, c) && clean <= c.place.Keys
    requires d in c.place && IsDir(INodeAt(t.img.inodes, d)) && |INodeAt(t.img.inodes, d).direct| == DIRECT
    requires |t.super.stack| == GROUP
    ensures INodeAt(s.img.inodes, d) == INodeAt(t.img.inodes, d)
    ensures MakeDir(s, who, d, name).1 == MakeDir(t, who, d, name).1
    ensures Strayed(MakeDir(s, who, d, name).0, MakeDir(t, who, d, name).0, clean)
  {
    hide Strayed, StrayNode, TreeInv, DiskInv, AllocBlock, AllocINode, WriteBlock, WriteINode, Taken, StoreEntry, Around;
    StrayReads(s, t, clean, d);
    SameImage(s, t, clean);
    var n := INodeAt(t.img.inodes, d);
    var h := FirstHole(Slots(t.img.blocks, n.direct), 0);
    if h < SLOTS {
      StrayEntryBlock(s, t, clean, n, h);
      var (s1, blk) := EntryBlock(s, n, h);
      var t1 := EntryBlock(t, n, h).0;
      EntryBlockReady(t, c, d, h);
      StrayAlloc(s1, t1, clean);
      GrownINode(t1);
      var (s2, i) := AllocINode(s1);
      var t2 := AllocINode(t1).0;
      SameImage(s2, t2, clean);
      StackShape(t2);
      StrayAlloc(s2, t2, clean);
      var (s3, b) := AllocBlock(s2);
      var t3 := AllocBlock(t2).0;
      var new' := Entries(EmptyDir(i, d));
      SameStray(NewDirINode(who, b));
      StrayWrite(s3, t3, clean, b, new');
      StrayINode(WriteBlock(s3, b, new'), WriteBlock(t3, b, new'), clean, i, NewDirINode(who, b), NewDirINode(who, b));
      StrayStore(WriteNewDir(s3, who, i, b, d), WriteNewDir(t3, who, i, b, d), clean, d, n, h, blk,
                 Around(t.img.blocks, n.direct, h), Entry(name, i));
    }
  }

  lemma SameImage(s: State, t: State, clean: set<int>)
    requires Strayed(s, t, clean)
    ensures s.super == t.super && s.img.blocks == t.img.blocks
  {
  }

  lemma StrayEntryBlock(s: State, t: State, clean: set<int>, n: INode, h: int)
    requires Strayed(s, t, clean) && |t.super.stack| == GROUP && 0 <= h < SLOTS && |n.direct| == DIRECT
    ensures |s.super.stack| == GROUP
    ensures EntryBlock(s, n, h).1 == EntryBlock(t, n, h).1 && Strayed(EntryBlock(s, n, h).0, EntryBlock(t, n, h).0, clean)
  {
    hide AllocBlock, StrayNode;
    StrayAlloc(s, t, clean);
  }

  lemma {:induction false} StrayFill(s: State, t: State, clean: set<int>, buf: seq<char>, direct: seq<int>, k: nat)
    requires Strayed(s, t, clean) && |s.super.stack| == |t.super.stack| == GROUP
    requires |direct| == DIRECT && TextBuffer(buf) && k <= DIRECT
    ensures
      var (s', direct', ok) := Fill(s, buf, direct, k);
      var (t', direct'', ok') := Fill(t, buf, direct, k);
      Strayed(s', t', clean) && direct' == direct'' && ok == ok'
    decreases DIRECT - k
  {
    hide Fill, AllocBlock, StrLen, WriteBlock, Strayed, Chunk;
    FillTurn(s, buf, direct, k);
    FillTurn(t, buf, direct, k);
    if k * BLOCK_SIZE < StrLen(buf) {
      StrayAlloc(s, t, clean);
      var (s1, b) := if direct[k] == -1 then AllocBlock(s) else (s, direct[k]);
      var t1 := if direct[k] == -1 then AllocBlock(t).0 else t;
      if b != -1 {
        var piece := Bytes(Chunk(buf, k));
        StrayWrite(s1, t1, clean, b, piece);
        StackSame(s1, b, piece);
        StackSame(t1, b, piece);
        StrayFill(WriteBlock(s1, b, piece), WriteBlock(t1, b, piece), clean, buf, direct[k := b], k + 1);
      }
    }
  }

  lemma StackSame(s: State, a: int, b: Block)
    ensures WriteBlock(s, a, b).super == s.super
  {
  }

  lemma StrayText(s: State, t: State, clean: set<int>, buf: seq<char>, none: seq<int>)
    requires Strayed(s, t, clean) && |s.super.stack| == |t.super.stack| == GROUP && |none| == DIRECT && TextBuffer(buf)
    ensures
      var (s', direct', ok) := StoreText(s, buf, none);
      var (t', direct'', ok') := StoreText(t, buf, none);
      Strayed(s', t', clean) && direct' == direct'' && ok == ok'
  {
    hide Fill, AllocBlock, StrLen, WriteBlock, Strayed, Chunk;
    StrayFill(s, t, clean, buf, none, 0);
    StrayAlloc(s, t, clean);
    var (s1, b) := AllocBlock(s);
    StrayWrite(s1, AllocBlock(t).0, clean, b, Bytes(Chunk(buf, 0)));
  }

  /** The inode of a new file, with whatever the unassigned pointer held. */
  lemma StrayFile(who: Session, len: nat, direct: seq<int>, junk: int)
    requires |direct| == DIRECT && len <= MAX_FILE
    ensures StrayNode(NewFileINode(who, len, WithJunk(direct, len, junk)), NewFileINode(who, len, WithJunk(direct, len, -1)))
  {
    var m, n := NewFileINode(who, len, WithJunk(direct, len, junk)), NewFileINode(who, len, WithJunk(direct, len, -1));
    assert m == n.(direct := m.direct);
  }

  /** A Create with stray pointers, its own included, does what it does without. */
  lemma StrayCreate(s: State, t: State, clean: set<int>, c: Cert, who: Session, d: int, name: string, buf: seq<char>, junk: int)
    requires Strayed(s, t, clean) && DiskInv(t) && TreeInv(t, c) && clean <= c.place.Keys
    requires d in c.place && IsDir(INodeAt(t.img.inodes, d)) && |INodeAt(t.img.inodes, d).direct| == DIRECT
    requires |t.super.stack| == GROUP && TextBuffer(buf)
    ensures INodeAt(s.img.inodes, d) == INodeAt(t.img.inodes, d)
    ensures Create(s, who, d, name, buf, junk).1 == Create(t, who, d, name, buf, -1).1
    ensures Strayed(Create(s, who, d, name, buf, junk).0, Create(t, who, d, name, buf, -1).0, clean)
  {
    hide Strayed, StrayNode, TreeInv, DiskInv, AllocBlock, AllocINode, WriteBlock, WriteINode, Taken, StoreEntry, Around,
      EntryBlock, StoreText, StrLen, WithJunk, NewFileINode;
    StrayReads(s, t, clean, d);
    SameImage(s, t, clean);
    var n := INodeAt(t.img.inodes, d);
    var h := FirstHole(Slots(t.img.blocks, n.direct), 0);
    if h < SLOTS {
      StrayEntryBlock(s, t, clean, n, h);
      EntryBlockReady(t, c, d, h);
      var (s1, blk) := EntryBlock(s, n, h);
      var t1 := EntryBlock(t, n, h).0;
      StrayAlloc(s1, t1, clean);
      GrownINode(t1);
      var (s2, i) := AllocINode(s1);
      var t2 := AllocINode(t1).0;
      if blk != -1 && i != -1 {
        PlacedUsed(t1, c, i);
        SameImage(s2, t2, clean);
        StackShape(t2);
        StrayText(s2, t2, clean, buf, NO_BLOCKS);
        var (s3, direct, ok) := StoreText(s2, buf, NO_BLOCKS);
        var t3 := StoreText(t2, buf, NO_BLOCKS).0;
        var len := StrLen(buf);
        StrayFile(who, len, direct, junk);
        var m, m' := NewFileINode(who, len, WithJunk(direct, len, junk)), NewFileINode(who, len, WithJunk(direct, len, -1));
        StrayINode(s3, t3, clean, i, m, m');
        StrayStore(WriteINode(s3, i, m), WriteINode(t3, i, m'), clean, d, n, h, blk, Around(t.img.blocks, n.direct, h), Entry(name, i));
      }
    }
  }

  // ---------------------------------------------------------------------
  // When stray pointers break the tree
  // ---------------------------------------------------------------------

  lemma StrayKeepsEntries(s: State, t: State, clean: set<int>, c: Cert)
    requires Strayed(s, t, clean)
    ensures KeepsEntries(t, c, s)
  {
    hide StrayNode, Strayed;
    forall p | p in c.place && IsDir(INodeAt(t.img.inodes, p)) && |INodeAt(t.img.inodes, p).direct| == DIRECT
      ensures EntriesStay(t, s, p)
    {
      StrayReads(s, t, clean, p);
      SameImage(s, t, clean);
    }
  }

  lemma PointerOwned(s: State, c: Cert, x: int, k: int)
    requires TreeInv(s, c) && x in c.place && 0 <= k < DIRECT
    ensures
      var direct := INodeAt(s.img.inodes, x).direct;
      |direct| == DIRECT && (direct[k] != -1 ==> Used(s, direct[k]) && direct[k] in c.owner && c.owner[direct[k]] == (x, k))
  {
    Reached(s, c, x);
    var direct := INodeAt(s.img.inodes, x).direct;
    assert direct[k] != -1 ==> OwnedBy(s, c, direct[k], x, k);
  }

  /** With every allocated block owned, a stray pointer names a block of someone else's, or nobody's. */
  lemma StrayBreaks(s: State, t: State, clean: set<int>, c: Cert, i: int, c': Cert)
    requires Strayed(s, t, clean) && TreeInv(t, c) && (forall b :: Used(t, b) ==> b in c.owner)
    requires i in c.place && INodeAt(s.img.inodes, i) != INodeAt(t.img.inodes, i)
    ensures !TreeInv(s, c')
  {
    hide TreeInv, DirOk, FileOk, KeepsEntries;
    var m, n := INodeAt(s.img.inodes, i), INodeAt(t.img.inodes, i);
    assert StrayNode(m, n);
    if TreeInv(s, c') {
      assert m.direct != n.direct;
      var k :| 0 <= k < DIRECT && m.direct[k] != n.direct[k];
      TreePlaced(t, c);
      StrayKeepsEntries(s, t, clean, c);
      StillPlaced(t, c, s, c', i);
      PointerOwned(s, c', i, k);
      var (x, kk) := c.owner[m.direct[k]];
      Owner(t, c, m.direct[k]);
      StillPlaced(t, c, s, c', x);
      assert StrayNode(INodeAt(s.img.inodes, x), INodeAt(t.img.inodes, x));
      PointerOwned(s, c', x, kk);
    }
  }

  /** On a disk that leaks nothing a state with stray pointers is a tree if and only if no node of the tree has one. */
  lemma StrayTreeIff(s: State, t: State, clean: set<int>, c: Cert)
    requires Strayed(s, t, clean) && TreeInv(t, c) && LeakFree(t, c)
    ensures (exists c' :: TreeInv(s, c')) <==> (forall i :: i in c.place ==> INodeAt(s.img.inodes, i) == INodeAt(t.img.inodes, i))
  {
    hide TreeInv, StrayNode;
    if forall i :: i in c.place ==> INodeAt(s.img.inodes, i) == INodeAt(t.img.inodes, i) {
      TreeFrame(t, s, c);
    } else {
      var i :| i in c.place && INodeAt(s.img.inodes, i) != INodeAt(t.img.inodes, i);
      forall c' ensures !TreeInv(s, c') { StrayBreaks(s, t, clean, c, i, c'); }
    }
  }

  // ---------------------------------------------------------------------
  // Deleting what has no stray pointer
  // ---------------------------------------------------------------------

  lemma {:induction false} StrayFreeAll(s: State, t: State, clean: set<int>, direct: seq<int>, k: nat)
    requires Strayed(s, t, clean) && |s.super.stack| == |t.super.stack| == GROUP && k <= |direct|
    ensures Strayed(FreeAll(s, direct, k), FreeAll(t, direct, k), clean)
    decreases |direct| - k
  {
    hide Strayed, FreeBlock;
    if k < |direct| {
      StrayFree(s, t, clean, direct[k]);
      if direct[k] == -1 {
        StrayFreeAll(s, t, clean, direct, k + 1);
      } else {
        StrayFreeAll(FreeBlock(s, direct[k]).0, FreeBlock(t, direct[k]).0, clean, direct, k + 1);
      }
    }
  }

  /** DelFile of a file without stray pointers. */
  lemma StrayDelFile(s: State, t: State, clean: set<int>, who: Session, d: int, name: string)
    requires Strayed(s, t, clean) && |t.super.stack| == GROUP
    requires IsDir(INodeAt(t.img.inodes, d)) && |INodeAt(t.img.inodes, d).direct| == DIRECT
    requires
      var n := INodeAt(t.img.inodes, d);
      var h := FindKind(t.img, n.direct, name, false, 0);
      h < SLOTS ==> Slots(t.img.blocks, n.direct)[h].ino in clean
    ensures |s.super.stack| == GROUP && INodeAt(s.img.inodes, d) == INodeAt(t.img.inodes, d)
    ensures DelFile(s, who, d, name).1 == DelFile(t, who, d, name).1
    ensures Strayed(DelFile(s, who, d, name).0, DelFile(t, who, d, name).0, clean)
  {
    hide FreeAll, FreeINode, FindKind, StoreHole, Slots, StrayNode, MayWrite, Around, IsDir;
    StrayReads(s, t, clean, d);
    var n := INodeAt(t.img.inodes, d);
    StrayFind(s, t, clean, n.direct, name, false);
    var h := FindKind(t.img, n.direct, name, false, 0);
    if h < SLOTS {
      var i := Slots(t.img.blocks, n.direct)[h].ino;
      var direct := INodeAt(t.img.inodes, i).direct;
      StrayFreeAll(s, t, clean, direct, 0);
      var s1, t1 := FreeAll(s, direct, 0), FreeAll(t, direct, 0);
      StrayFreeINode(s1, t1, clean, i);
      StrayStore(FreeINode(s1, i).0, FreeINode(t1, i).0, clean, d, n, h, 0, Around(t.img.blocks, n.direct, h), HOLE);
    }
  }

  /** The short branch of DeleteFileOrDir on an address that reads as a directory. */
  lemma StraySmall(s: State, t: State, clean: set<int>, i: int)
    requires Strayed(s, t, clean) && |t.super.stack| == GROUP && FewEntries(t.img, i) && IsDir(INodeAt(t.img.inodes, i))
    ensures |s.super.stack| == GROUP && FewEntries(s.img, i)
    ensures Strayed(SmallDeleted(s, i), SmallDeleted(t, i), clean)
  {
    hide Strayed, StrayNode, FreeBlock, FreeINode, IsDir;
    StrayReads(s, t, clean, i);
    SameImage(s, t, clean);
    var b := INodeAt(t.img.inodes, i).direct[0];
    StrayFree(s, t, clean, b);
    StrayFreeINode(FreeBlock(s, b).0, FreeBlock(t, b).0, clean, i);
  }

  /** The first half of a DeleteDir that takes a free slot for a directory. */
  lemma HoleTaken(s: State, t: State, clean: set<int>, d: int, h: int, i: int) returns (t1: State)
    requires Strayed(s, t, clean) && |t.super.stack| == GROUP && |INodeAt(t.img.inodes, d).direct| == DIRECT
    requires
      var direct := INodeAt(t.img.inodes, d).direct;
      && SparesTree(t.img, direct) && h == FindKind(t.img, direct, "", true, 0) && h < SLOTS
      && i == Around(t.img.blocks, direct, h)[h % PER_BLOCK].ino
    ensures FewEntries(s.img, i) && |s.super.stack| == GROUP && Strayed(SmallDeleted(s, i), t1, clean)
    ensures s == t ==> SmallDeleted(s, i) == t1
    ensures HoleFound(t.img, d, h)
    ensures
      var n := INodeAt(t.img.inodes, d);
      HoleDropped(t, d, h) == StoreHole(t1, d, n, h, Around(t.img.blocks, n.direct, h))
  {
    hide Strayed, FindKind, SmallDeleted, StoreHole;
    StraySmall(s, t, clean, i);
    t1 := SmallDeleted(t, i);
  }

  lemma StrayBits(s: State, t: State, clean: set<int>)
    requires Strayed(s, t, clean)
    ensures BitsInv(s) <==> BitsInv(t)
    ensures forall b :: Used(s, b) == Used(t, b)
    ensures forall i :: INodeUsed(s, i) == INodeUsed(t, i)
  {
    hide StrayNode;
  }

  /** A subtree without stray pointers is intact in both. */
  lemma CleanSubtree(s: State, t: State, clean: set<int>, c: Cert, i: int)
    requires Strayed(s, t, clean) && SubOk(t, c, i) && Sub(c, i) <= clean
    ensures SubOk(s, c, i) && Freed(s, c, Sub(c, i)) == Freed(t, c, Sub(c, i))
  {
    hide StrayNode, Below, BitsInv, NodeFrees;
    StrayBits(s, t, clean);
    SameImage(s, t, clean);
    forall j | j in Sub(c, i) ensures NodeOk(s, c, j) && SameNode(t, s, j) && |INodeAt(t.img.inodes, j).direct| == DIRECT {
      assert NodeOk(t, c, j);
      NodeFrame(t, c, s, c, j);
    }
    forall j | j in Sub(c, i) && j != i ensures ParentOk(s, c, j) {
      assert ParentOk(t, c, j);
      ParentInSub(t, c, i, j);
      ParentFrame(t, c, s, c, j);
    }
    forall b | b in c.owner && c.owner[b].0 in Sub(c, i) ensures OwnerOk(s, c, b) {
      assert OwnerOk(t, c, b);
    }
    FreedSame(t, s, c, Sub(c, i));
  }

  lemma ParentInSub(s: State, c: Cert, i: int, j: int)
    requires Placed(c) && j in Sub(c, i) && j != i
    ensures c.place[j].parent in c.place && c.place[j].parent in Sub(c, i)
  {
    BelowDepth(c, j, i);
  }

  lemma StrayChain(s: State, t: State, clean: set<int>)
    requires Strayed(s, t, clean)
    ensures ChainInv(s) <==> ChainInv(t)
  {
    hide StrayNode, FreeList, EndsAt, Distinct;
    StrayBits(s, t, clean);
    assert forall a :: Free(s, a) == Free(t, a);
  }

  /** The clean twin of the state after inodes `gone` were swept. */
  lemma SweptTwin(s: State, t: State, clean: set<int>, s1: State, gone: set<int>, freed: set<int>) returns (t1: State)
    requires Strayed(s, t, clean) && BitsInv(t) && Swept(s, s1, gone, freed)
    ensures Strayed(s1, t1, clean) && Swept(t, t1, gone, freed)
    ensures s == t ==> s1 == t1
  {
    hide ChainInv;
    var inodes := map x | x in s1.img.inodes :: if x in gone then s1.img.inodes[x] else INodeAt(t.img.inodes, x);
    t1 := s1.(img := s1.img.(inodes := inodes));
    StrayBits(s, t, clean);
    SameKeys(s, s1);
    assert t1.img.inodes.Keys == s1.img.inodes.Keys;
    TwinINodes(s, t, clean, s1, t1, gone);
    TwinSwept(s, t, clean, s1, t1, gone, freed);
    if s == t {
      forall x | x in s1.img.inodes ensures inodes[x] == s1.img.inodes[x] {
        assert INodeAt(s1.img.inodes, x) == s1.img.inodes[x];
      }
      assert inodes == s1.img.inodes;
    }
  }

  lemma SameKeys(s: State, s1: State)
    requires BitsInv(s) && BitsInv(s1)
    ensures s.img.inodes.Keys == s1.img.inodes.Keys
  {
    hide IsINode;
    forall x ensures x in s.img.inodes <==> x in s1.img.inodes {}
  }

  lemma TwinINodes(s: State, t: State, clean: set<int>, s1: State, t1: State, gone: set<int>)
    requires Strayed(s, t, clean) && s.img.inodes.Keys == s1.img.inodes.Keys
    requires t1 == s1.(img := s1.img.(inodes := t1.img.inodes)) && t1.img.inodes.Keys == s1.img.inodes.Keys
    requires forall x :: x in s1.img.inodes ==>
      t1.img.inodes[x] == if x in gone then s1.img.inodes[x] else INodeAt(t.img.inodes, x)
    requires forall x :: INodeAt(s1.img.inodes, x) == if x in gone then BLANK else INodeAt(s.img.inodes, x)
    ensures Strayed(s1, t1, clean)
    ensures forall x :: INodeAt(t1.img.inodes, x) == if x in gone then BLANK else INodeAt(t.img.inodes, x)
  {
    hide StrayNode;
    forall x
      ensures StrayNode(INodeAt(s1.img.inodes, x), INodeAt(t1.img.inodes, x))
      ensures x in clean ==> INodeAt(s1.img.inodes, x) == INodeAt(t1.img.inodes, x)
      ensures INodeAt(t1.img.inodes, x) == if x in gone then BLANK else INodeAt(t.img.inodes, x)
    {
      SameStray(INodeAt(s1.img.inodes, x));
      assert StrayNode(INodeAt(s.img.inodes, x), INodeAt(t.img.inodes, x));
    }
  }

  lemma TwinSwept(s: State, t: State, clean: set<int>, s1: State, t1: State, gone: set<int>, freed: set<int>)
    requires Strayed(s, t, clean) && Strayed(s1, t1, clean) && BitsInv(t) && Swept(s, s1, gone, freed)
    requires forall x :: INodeAt(t1.img.inodes, x) == if x in gone then BLANK else INodeAt(t.img.inodes, x)
    ensures Swept(t, t1, gone, freed)
  {
    hide StrayNode, ChainInv, CountInv, BitsInv, Used, INodeUsed, NoSpill;
    StrayBits(s, t, clean);
    StrayBits(s1, t1, clean);
    StrayChain(s, t, clean);
    StrayChain(s1, t1, clean);
  }
}
