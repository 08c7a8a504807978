/**
 Create (src/filesystem_file_create.cpp): a new file with its content.
 */
module CreateFile {
  import opened Disk
  import opened Allocator
  import opened Lifo
  import opened Tree
  import opened INodes
  import opened Directories
  import opened MakeDirectory
  import opened FileData

  const FILE_MODE: nat := 436

  const NO_BLOCKS: seq<int> := [-1, -1, -1, -1, -1, -1, -1, -1, -1, -1]

  /** Blocks for the text of a new file; an empty text gets one block too. `none` holds ten unassigned pointers. */
  function StoreText(s: State, buf: seq<char>, none: seq<int>): (r: (State, seq<int>, bool))
    requires |s.super.stack| == GROUP && TextBuffer(buf) && |none| == DIRECT
    ensures |r.0.super.stack| == GROUP && |r.1| == DIRECT
  {
    if StrLen(buf) == 0 then
      var (s1, b) := AllocBlock(s);
      if b == -1 then (s1, none, false)
      else (WriteBlock(s1, b, Bytes(Chunk(buf, 0))), none[0 := b], true)
    else Fill(s, buf, none, 0)
  }

  /** The lengths for which one pointer of the new inode is never assigned. */
  predicate LeavesJunk(len: nat) { 0 < len < MAX_FILE && len % BLOCK_SIZE == 0 }

  /** What the pointer that Create never assigns holds, where there is one. */
  function UnsetPointer(buf: seq<char>, junk: seq<int>): int
    requires |junk| == DIRECT && StrLen(buf) <= MAX_FILE
  {
    if LeavesJunk(StrLen(buf)) then junk[StrLen(buf) / BLOCK_SIZE] else -1
  }

  /** The pointers written: `junk` is what the unassigned one happened to hold. */
  function WithJunk(direct: seq<int>, len: nat, junk: int): (r: seq<int>)
    requires |direct| == DIRECT
    ensures |r| == DIRECT
  {
    if LeavesJunk(len) then direct[len / BLOCK_SIZE := junk] else direct
  }

  function NewFileINode(who: Session, len: nat, direct: seq<int>): INode {
    INode(FILE_MODE, 1, who.user, who.group, len, direct, -1)
  }

  function Create(s: State, who: Session, d: int, name: string, buf: seq<char>, junk: int): (r: (State, bool))
    requires |s.super.stack| == GROUP && |INodeAt(s.img.inodes, d).direct| == DIRECT && TextBuffer(buf)
    ensures |r.0.super.stack| == GROUP
  {
    var n := INodeAt(s.img.inodes, d);
    var h := FirstHole(Slots(s.img.blocks, n.direct), 0);
    if |name| >= MAX_NAME || Taken(s.img.blocks, n.direct, name, h) || h == SLOTS then (s, false)
    else
      var (s1, blk) := EntryBlock(s, n, h);
      if blk == -1 then (s1, false)
      else
        var (s2, i) := AllocINode(s1);
        if i == -1 then (s2, false)
        else
          var (s3, direct, ok) := StoreText(s2, buf, NO_BLOCKS);
          if !ok then (s3, false)
          else (CreatedState(s, s3, who, d, h, name, blk, i, StrLen(buf), WithJunk(direct, StrLen(buf), junk)), true)
  }

  /** The state Create ends in, from the one after its allocations. */
  function CreatedState(s: State, s3: State, who: Session, d: int, h: int, name: string, blk: int, i: int,
                        len: nat, direct: seq<int>): (r: State)
    requires 0 <= h < SLOTS && |INodeAt(s.img.inodes, d).direct| == DIRECT
    ensures r.super == s3.super
  {
    var n := INodeAt(s.img.inodes, d);
    StoreEntry(WriteINode(s3, i, NewFileINode(who, len, direct)), d, n, h, blk,
               Around(s.img.blocks, n.direct, h), Entry(name, i))
  }

  // ---------------------------------------------------------------------
  // The text
  // ---------------------------------------------------------------------

  /** The text is stored in blocks that were free. */
  ghost predicate TextStored(s: State, buf: seq<char>, s': State, direct: seq<int>, ok: bool)
    requires TextBuffer(buf) && |direct| == DIRECT
  {
    match s'
    case State(_, _, _, _) =>
      && DiskInv(s') && Held(s', direct)
      && (forall k :: 0 <= k < DIRECT && direct[k] != -1 ==> !Used(s, direct[k]))
      && WroteOnly(s, s', direct, 0) && BitsGrow(s, s', direct)
      && (ok ==> direct[0] != -1 && Stored(s'.img.blocks, buf, direct, 0))
      && (LeavesJunk(StrLen(buf)) ==> direct[StrLen(buf) / BLOCK_SIZE] == -1)
  }

  predicate NoBlocks(direct: seq<int>) {
    match direct
    case l => |l| == DIRECT && forall k :: 0 <= k < DIRECT ==> l[k] == -1
  }

  lemma StoreEmpty(s: State, buf: seq<char>, none: seq<int>)
    requires DiskInv(s) && TextBuffer(buf) && StrLen(buf) == 0 && NoBlocks(none)
    ensures var (s1, b) := AllocBlock(s);
      if b == -1 then TextStored(s, buf, s1, none, false)
      else TextStored(s, buf, WriteBlock(s1, b, Bytes(Chunk(buf, 0))), none[0 := b], true)
  {
    var (s1, b) := AllocBlock(s);
    FillBlock(s, buf, none, 0);
    if b != -1 { FillStep(s, s1, buf, none, 0, b); }
  }

  lemma StoreFilled(s: State, buf: seq<char>, none: seq<int>, s': State, direct: seq<int>, ok: bool)
    requires TextBuffer(buf) && StrLen(buf) > 0 && NoBlocks(none) && |direct| == DIRECT
    requires Filled(s, buf, none, 0, s', direct, ok)
    ensures TextStored(s, buf, s', direct, ok)
  {
    if ok { assert StoredPiece(s'.img.blocks, buf, direct, 0); }
  }

  lemma StoreTextKeeps(s: State, buf: seq<char>, none: seq<int>)
    requires DiskInv(s) && TextBuffer(buf) && NoBlocks(none)
    ensures var (s', direct, ok) := StoreText(s, buf, none); TextStored(s, buf, s', direct, ok)
  {
    if StrLen(buf) == 0 {
      StoreEmpty(s, buf, none);
    } else {
      FillKeeps(s, buf, none, 0);
      var (s', direct, ok) := Fill(s, buf, none, 0);
      StoreFilled(s, buf, none, s', direct, ok);
    }
  }

  /** Writes to blocks that were free leave the tree alone. */
  lemma TextSpares(s: State, c: Cert, buf: seq<char>, s': State, direct: seq<int>, ok: bool)
    requires TreeInv(s, c) && TextBuffer(buf) && |direct| == DIRECT && TextStored(s, buf, s', direct, ok)
    ensures TreeInv(s', c)
    ensures forall j :: j in c.place ==> ViewOf(s'.img, j) == ViewOf(s.img, j)
    ensures forall b :: b in c.owner ==> b !in direct && BlockAt(s'.img.blocks, b) == BlockAt(s.img.blocks, b)
  {
    forall b | b in c.owner ensures b !in direct && Used(s', b) {
      OwnedUsed(s, c, b);
    }
    OwnedFrame(s, s', c);
  }

  // ---------------------------------------------------------------------
  // The new file
  // ---------------------------------------------------------------------

  /** What the allocations and block writes before the link establish. */
  ghost predicate PreparedFile(s: State, s3: State, c: Cert, d: int, h: int, blk: int, i: int, direct: seq<int>) {
    match s3
    case State(_, _, _, _) =>
      && DiskInv(s3) && TreeInv(s3, c) && SlotReady(s3, c, d, h, blk)
      && SameNode(s, s3, d)
      && (forall j :: j in c.place ==> ViewOf(s3.img, j) == ViewOf(s.img, j))
      && i !in c.place && IsINode(i) && INodeUsed(s3, i)
      && |direct| == DIRECT && Held(s3, direct) && blk !in direct
      && (forall b :: b in direct ==> b !in c.owner)
      && (forall x :: Used(s3, x) <==> (x != -1 && x in direct) || x == blk || Used(s, x))
      && (forall x :: INodeUsed(s3, x) <==> x == i || INodeUsed(s, x))
      && (forall b :: b in direct && b != -1 ==> !Used(s, b)) && !INodeUsed(s, i) && EntryOwned(s, c, d, h, blk)
  }

  lemma TextPrepares(s: State, s2: State, c: Cert, d: int, h: int, blk: int, i: int, buf: seq<char>)
    requires TreeInv(s, c) && Grown(s, s2) && DiskInv(s2) && TreeInv(s2, c) && TextBuffer(buf)
    requires SlotReady(s2, c, d, h, blk)
    requires i !in c.place && IsINode(i) && INodeUsed(s2, i)
    requires forall x :: Used(s2, x) <==> x == blk || Used(s, x)
    requires forall x :: INodeUsed(s2, x) <==> x == i || INodeUsed(s, x)
    requires !INodeUsed(s, i) && EntryOwned(s, c, d, h, blk)
    ensures
      var (s3, direct, ok) := StoreText(s2, buf, NO_BLOCKS);
      PreparedFile(s, s3, c, d, h, blk, i, direct) && TextStored(s2, buf, s3, direct, ok)
  {
    var (s3, direct, ok) := StoreText(s2, buf, NO_BLOCKS);
    StoreTextKeeps(s2, buf, NO_BLOCKS);
    TextSpares(s2, c, buf, s3, direct, ok);
    GrownKeeps(s, s2, c);
    TextSameDir(s, s2, s3, c, d, direct);
    SlotReadyFrame(s2, s3, c, d, h, blk);
    TextBits(s, s2, s3, c, blk, i, direct);
  }

  lemma TextSameDir(s: State, s2: State, s3: State, c: Cert, d: int, direct: seq<int>)
    requires TreeInv(s2, c) && Grown(s, s2) && d in c.place && WroteOnly(s2, s3, direct, 0)
    requires forall i :: INodeUsed(s3, i) == INodeUsed(s2, i)
    requires forall b :: b in c.owner ==> b !in direct
    requires forall x :: Used(s2, x) ==> Used(s3, x)
    ensures SameNode(s, s3, d) && SameNode(s2, s3, d)
  {
    assert NodeOk(s2, c, d);
    var n := INodeAt(s2.img.inodes, d);
    forall k | 0 <= k < DIRECT && n.direct[k] != -1 ensures n.direct[k] !in direct {
      assert OwnedBy(s2, c, n.direct[k], d, k);
    }
  }

  lemma TextBits(s: State, s2: State, s3: State, c: Cert, blk: int, i: int, direct: seq<int>)
    requires TreeInv(s2, c) && Held(s3, direct) && BitsGrow(s2, s3, direct) && Used(s2, blk) && blk != -1
    requires forall k :: 0 <= k < |direct| && direct[k] != -1 ==> !Used(s2, direct[k])
    requires forall x :: Used(s2, x) <==> x == blk || Used(s, x)
    ensures blk !in direct
    ensures forall b :: b in direct ==> b !in c.owner
    ensures forall x :: Used(s3, x) <==> (x != -1 && x in direct) || x == blk || Used(s, x)
  {
    forall b | b in direct ensures b !in c.owner {
      OwnedUsed(s2, c, b);
    }
  }

  /** `own` is `OwnMap(i, direct)`, as facts. */
  ghost predicate Owns(own: map<int, (int, int)>, i: int, direct: seq<int>) {
    match own
    case m =>
      && (forall b :: b in m <==> b != -1 && b in direct)
      && (forall k :: 0 <= k < |direct| && direct[k] != -1 ==> direct[k] in m && m[direct[k]] == (i, k))
      && (forall b :: b in m ==> m[b].0 == i && 0 <= m[b].1 < |direct| && direct[m[b].1] == b)
  }

  lemma NewOwner(s: State, i: int, direct: seq<int>) returns (own: map<int, (int, int)>)
    requires Held(s, direct)
    ensures Owns(own, i, direct)
  {
    own := OwnMap(i, direct);
  }

  lemma NewFileReady(s: State, c: Cert, who: Session, d: int, h: int, blk: int, i: int, buf: seq<char>,
                     direct: seq<int>, own: map<int, (int, int)>)
    requires TreeInv(s, c) && d in c.place && 0 <= h < SLOTS && TextBuffer(buf)
    requires i !in c.place && INodeUsed(s, i)
    requires |direct| == DIRECT && Held(s, direct) && blk !in direct && direct[0] != -1
    requires forall b :: b in direct ==> b !in c.owner
    requires Stored(s.img.blocks, buf, direct, 0) && Owns(own, i, direct)
    ensures
      var s' := WriteINode(s, i, NewFileINode(who, StrLen(buf), direct));
      ChildReady(s', c, d, h, blk, i, own)
  {
    var s' := WriteINode(s, i, NewFileINode(who, StrLen(buf), direct));
    var c' := LinkCert(c, d, h, i, own, blk);
    forall k | 0 <= k < DIRECT && direct[k] != -1 ensures OwnedBy(s', c', direct[k], i, k) {
      assert Used(s, direct[k]);
    }
    NewFileNode(s', c', who, i, buf, direct);
    forall b | b in own ensures OwnerOk(s', c', b) {
      assert b != blk;
    }
    forall b | b in own ensures b !in c.owner {}
    assert blk !in own;
  }

  lemma NewFileText(s: State, who: Session, i: int, buf: seq<char>, direct: seq<int>)
    requires TextBuffer(buf) && |direct| == DIRECT && Stored(s.img.blocks, buf, direct, 0)
    ensures ViewOf(WriteINode(s, i, NewFileINode(who, StrLen(buf), direct)).img, i)
      == FileView(Attr(FILE_MODE, who.user, who.group), buf[..StrLen(buf)])
  {
    StoredReads(s.img.blocks, buf, direct);
  }

  lemma NewFileNode(s: State, c: Cert, who: Session, i: int, buf: seq<char>, direct: seq<int>)
    requires |direct| == DIRECT && TextBuffer(buf) && i in c.place && INodeUsed(s, i)
    requires INodeAt(s.img.inodes, i) == NewFileINode(who, StrLen(buf), direct)
    requires forall k :: 0 <= k < DIRECT && direct[k] != -1 ==> OwnedBy(s, c, direct[k], i, k)
    requires direct[0] != -1 && Stored(s.img.blocks, buf, direct, 0)
    ensures NodeOk(s, c, i)
  {
    StoredCovers(s.img.blocks, buf, direct);
  }

  // ---------------------------------------------------------------------
  // The whole operation
  // ---------------------------------------------------------------------

  /** One new file `i` with the text hangs in `d` under the name; nothing else changed and nothing leaked. */
  ghost predicate FileMade(s: State, s': State, c: Cert, c': Cert, who: Session, d: int, name: string, i: int,
                           text: string)
    requires d in c.place
  {
    match c'
    case Cert(place, _, _) =>
      && i !in c.place && i in place
      && place == c.place[i := Place(d, place[i].slot, c.place[d].depth + 1)]
      && Added(s, s', c, d, Entry(name, i))
      && ViewOf(s'.img, i) == FileView(Attr(FILE_MODE, who.user, who.group), text)
      && Grew(s, s', c, c') && GainedAt(c, c', d)
      && (LeakFree(s, c) ==> LeakFree(s', c'))
  }

  lemma CreateLinksTree(s: State, c: Cert, who: Session, d: int, h: int, name: string, s3: State, blk: int, i: int,
                        buf: seq<char>, direct: seq<int>, own: map<int, (int, int)>)
    requires TreeInv(s, c) && d in c.place && |INodeAt(s.img.inodes, d).direct| == DIRECT && TextBuffer(buf)
    requires h == FirstHole(Slots(s.img.blocks, INodeAt(s.img.inodes, d).direct), 0) && h < SLOTS
    requires PreparedFile(s, s3, c, d, h, blk, i, direct) && direct[0] != -1 && Stored(s3.img.blocks, buf, direct, 0)
    requires Owns(own, i, direct)
    requires NameFits(Slots(s.img.blocks, INodeAt(s.img.inodes, d).direct), name)
    ensures
      var s' := CreatedState(s, s3, who, d, h, name, blk, i, StrLen(buf), direct);
      && TreeInv(s', LinkCert(c, d, h, i, own, blk))
      && Added(s, s', c, d, Entry(name, i))
      && ViewOf(s'.img, i) == FileView(Attr(FILE_MODE, who.user, who.group), buf[..StrLen(buf)])
  {
    var e := Entry(name, i);
    var s4 := WriteINode(s3, i, NewFileINode(who, StrLen(buf), direct));
    NewFileLinkable(s, c, who, d, h, name, s3, blk, i, buf, direct, own);
    LinkKeeps(s4, c, d, h, blk, e, own);
    var s' := CreatedState(s, s3, who, d, h, name, blk, i, StrLen(buf), direct);
    assert LinkEntry(s4, d, h, blk, e) == s';
    AddedBy(s, c, s4, s', d, h, e);
  }

  lemma NewFileLinkable(s: State, c: Cert, who: Session, d: int, h: int, name: string, s3: State, blk: int, i: int,
                        buf: seq<char>, direct: seq<int>, own: map<int, (int, int)>)
    requires TreeInv(s, c) && d in c.place && |INodeAt(s.img.inodes, d).direct| == DIRECT && TextBuffer(buf)
    requires h < SLOTS
    requires PreparedFile(s, s3, c, d, h, blk, i, direct) && direct[0] != -1 && Stored(s3.img.blocks, buf, direct, 0)
    requires Owns(own, i, direct)
    requires NameFits(Slots(s.img.blocks, INodeAt(s.img.inodes, d).direct), name)
    ensures
      var n := INodeAt(s.img.inodes, d);
      var s4 := WriteINode(s3, i, NewFileINode(who, StrLen(buf), direct));
      && Linkable(s4, c, d, h, blk, name, i, own)
      && (forall j :: j in c.place ==> ViewOf(s4.img, j) == ViewOf(s.img, j))
      && ViewOf(s4.img, i) == FileView(Attr(FILE_MODE, who.user, who.group), buf[..StrLen(buf)])
      && INodeAt(s4.img.inodes, d) == n
      && Slots(s4.img.blocks, n.direct) == Slots(s.img.blocks, n.direct)
      && Around(s4.img.blocks, n.direct, h) == Around(s.img.blocks, n.direct, h)
  {
    hide TreeInv, DiskInv, StrLen, ChildReady, Stored;
    var s4 := WriteINode(s3, i, NewFileINode(who, StrLen(buf), direct));
    AllOwnedUsed(s3, c);
    OwnedFrame(s3, s4, c);
    SlotsFrame(s.img.blocks, s3.img.blocks, INodeAt(s.img.inodes, d).direct);
    NewFileReady(s3, c, who, d, h, blk, i, buf, direct, own);
    NewFileText(s3, who, i, buf, direct);
    assert SlotReady(s4, c, d, h, blk);
  }

  lemma CreateLinksDisk(s: State, c: Cert, who: Session, d: int, h: int, name: string, s3: State, blk: int, i: int,
                        len: nat, direct: seq<int>, direct': seq<int>)
    requires TreeInv(s, c) && d in c.place && |INodeAt(s.img.inodes, d).direct| == DIRECT && 0 <= h < SLOTS
    requires PreparedFile(s, s3, c, d, h, blk, i, direct)
    ensures
      var s' := CreatedState(s, s3, who, d, h, name, blk, i, len, direct');
      && DiskInv(s')
      && (forall x :: Used(s', x) <==> (x != -1 && x in direct) || x == blk || Used(s, x))
      && (forall x :: INodeUsed(s', x) <==> x == i || INodeUsed(s, x))
  {
    var n := INodeAt(s.img.inodes, d);
    WriteINodeKeeps(s3, i, NewFileINode(who, len, direct'));
    assert NodeOk(s, c, d);
    StoreKeepsDisk(WriteINode(s3, i, NewFileINode(who, len, direct')), d, n, h, blk, Around(s.img.blocks, n.direct, h), Entry(name, i));
  }

  lemma CreateLinks(s: State, c: Cert, who: Session, d: int, h: int, name: string, s3: State, blk: int, i: int,
                    buf: seq<char>, direct: seq<int>) returns (c': Cert)
    requires TreeInv(s, c) && d in c.place && |INodeAt(s.img.inodes, d).direct| == DIRECT && TextBuffer(buf)
    requires h == FirstHole(Slots(s.img.blocks, INodeAt(s.img.inodes, d).direct), 0) && h < SLOTS
    requires PreparedFile(s, s3, c, d, h, blk, i, direct) && direct[0] != -1 && Stored(s3.img.blocks, buf, direct, 0)
    requires NameFits(Slots(s.img.blocks, INodeAt(s.img.inodes, d).direct), name)
    ensures
      var s' := CreatedState(s, s3, who, d, h, name, blk, i, StrLen(buf), direct);
      DiskInv(s') && TreeInv(s', c') && FileMade(s, s', c, c', who, d, name, i, buf[..StrLen(buf)])
  {
    var own := NewOwner(s3, i, direct);
    c' := LinkCert(c, d, h, i, own, blk);
    var s' := CreatedState(s, s3, who, d, h, name, blk, i, StrLen(buf), direct);
    CreateLinksDisk(s, c, who, d, h, name, s3, blk, i, StrLen(buf), direct, direct);
    CreateLinksTree(s, c, who, d, h, name, s3, blk, i, buf, direct, own);
    LinkLeakFree(s, c, s', d, h, i, own, blk);
    OwnsFresh(s, c, i, direct, own);
    LinkGrew(s, c, s', d, h, i, own, blk);
    LinkGained(c, d, h, i, own, blk);
  }

  lemma OwnsFresh(s: State, c: Cert, i: int, direct: seq<int>, own: map<int, (int, int)>)
    requires Owns(own, i, direct)
    requires forall b :: b in direct ==> b !in c.owner
    requires forall b :: b in direct && b != -1 ==> !Used(s, b)
    ensures forall b :: b in own ==> b !in c.owner && !Used(s, b)
  {
    forall b | b in own ensures b !in c.owner && !Used(s, b) {
      assert b in direct && b != -1;
    }
  }

  /** Create up to its link: the state there, the entry's block, the inode, the pointers, and whether the text fitted. */
  lemma CreatePrepares(s: State, c: Cert, d: int, h: int, buf: seq<char>)
    returns (s3: State, blk: int, i: int, direct: seq<int>, ok: bool)
    requires DiskInv(s) && TreeInv(s, c) && d in c.place && IsDir(INodeAt(s.img.inodes, d)) && 0 <= h < SLOTS
    requires |INodeAt(s.img.inodes, d).direct| == DIRECT && TextBuffer(buf)
    requires Slots(s.img.blocks, INodeAt(s.img.inodes, d).direct)[h].name == ""
    ensures
      var (s1, blk') := EntryBlock(s, INodeAt(s.img.inodes, d), h);
      var (s2, i') := AllocINode(s1);
      && blk == blk'
      && (blk != -1 ==> i == i')
      && (blk == -1 ==> s3 == s1)
      && (blk != -1 && i == -1 ==> s3 == s2)
      && (blk != -1 && i != -1 ==> (s3, direct, ok) == StoreText(s2, buf, NO_BLOCKS))
    ensures DiskInv(s3) && TreeInv(s3, c) && (forall j :: j in c.place ==> ViewOf(s3.img, j) == ViewOf(s.img, j))
    ensures |direct| == DIRECT && Grew(s, s3, c, c)
    ensures blk != -1 && i != -1 && ok ==>
      && PreparedFile(s, s3, c, d, h, blk, i, direct)
      && direct[0] != -1 && Stored(s3.img.blocks, buf, direct, 0)
      && (LeavesJunk(StrLen(buf)) ==> direct[StrLen(buf) / BLOCK_SIZE] == -1)
  {
    var (s1, blk0) := EntryBlock(s, INodeAt(s.img.inodes, d), h);
    EntryBlockReady(s, c, d, h);
    GrownKeeps(s, s1, c);
    s3, blk, i, direct, ok := s1, blk0, -1, NO_BLOCKS, false;
    if blk != -1 {
      var (s2, i0) := AllocINode(s1);
      GrownINode(s1);
      GrownTwice(s, s1, s2);
      GrownKeeps(s, s2, c);
      s3, i := s2, i0;
      if i != -1 {
        PlacedUsed(s1, c, i);
        SlotReadyFrame(s1, s2, c, d, h, blk);
        TextPrepares(s, s2, c, d, h, blk, i, buf);
        var (s3', direct', ok') := StoreText(s2, buf, NO_BLOCKS);
        s3, direct, ok := s3', direct', ok';
      }
    }
    GrewNone(s, s3, c);
  }

  /**
   Create keeps the allocator's structures at every exit, whatever the name and
   whatever the unassigned pointer held. When it refuses or the disk fills up
   part-way, the tree stands and every node looks as before; when it succeeds on a
   usable name, with the unassigned pointer, where there is one, at -1, one entry
   is added for one new file that holds exactly the text.
   */
  lemma CreateKeeps(s: State, c: Cert, who: Session, d: int, name: string, buf: seq<char>, junk: int) returns (c': Cert, i: int)
    requires DiskInv(s) && TreeInv(s, c) && d in c.place && IsDir(INodeAt(s.img.inodes, d))
    requires |INodeAt(s.img.inodes, d).direct| == DIRECT && TextBuffer(buf)
    ensures var (s', ok) := Create(s, who, d, name, buf, junk);
      && DiskInv(s')
      && (!ok ==>
           && c' == c && TreeInv(s', c) && Grew(s, s', c, c)
           && forall j :: j in c.place ==> ViewOf(s'.img, j) == ViewOf(s.img, j))
      && (ok && UsableName(d, name) && (LeavesJunk(StrLen(buf)) ==> junk == -1) ==>
           i == NewINode(s, d) && TreeInv(s', c') && FileMade(s, s', c, c', who, d, name, i, buf[..StrLen(buf)]))
  {
    hide TreeInv, DiskInv, StoreText, EntryBlock, AllocINode, PreparedFile, FileMade, StoreEntry;
    StackShape(s);
    var n := INodeAt(s.img.inodes, d);
    var h := FirstHole(Slots(s.img.blocks, n.direct), 0);
    c', i := c, -1;
    if |name| >= MAX_NAME || Taken(s.img.blocks, n.direct, name, h) || h == SLOTS {
      assert Create(s, who, d, name, buf, junk) == (s, false);
    } else {
      var s3, blk, i0, direct, ok := CreatePrepares(s, c, d, h, buf);
      if blk != -1 && i0 != -1 && ok {
        i := i0;
        var direct' := WithJunk(direct, StrLen(buf), junk);
        assert Create(s, who, d, name, buf, junk) == (CreatedState(s, s3, who, d, h, name, blk, i, StrLen(buf), direct'), true);
        CreateLinksDisk(s, c, who, d, h, name, s3, blk, i, StrLen(buf), direct, direct');
        if UsableName(d, name) && (LeavesJunk(StrLen(buf)) ==> junk == -1) {
          assert direct' == direct;
          NameUsable(s, c, d, name, h);
          c' := CreateLinks(s, c, who, d, h, name, s3, blk, i, buf, direct);
        }
      } else {
        assert Create(s, who, d, name, buf, junk) == (s3, false);
      }
    }
  }
}
