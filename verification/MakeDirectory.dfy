/**
 MakeDir (src/filesystem_directory_ops.cpp): what it computes and why the tree
 survives it, at every exit.
 */
module MakeDirectory {
  import opened Disk
  import opened Allocator
  import opened Lifo
  import opened Tree
  import opened INodes
  import opened Directories

  /** The logged-in user. */
  datatype Session = Session(user: string, group: string)

  const DIR_MODE: nat := 512 + 493

  /** Shift of the permission triple that applies: owner 6, group 3, others 0. */
  function ModeShift(who: Session, n: INode): nat {
    if who.user == n.user || who.user == "root" then 6 else if who.group == n.group then 3 else 0
  }

  predicate MayMakeDir(who: Session, n: INode) { who.user == "root" || ModeBit(n.mode, ModeShift(who, n) + 2) }

  /** A name is usable in `d` unless it is empty or, in the root, "..". */
  predicate UsableName(d: int, name: string) { name != "" && !(d == ROOT && name == "..") }

  lemma NameOk(d: int, name: string)
    requires name != "" && (name == ".." ==> d != ROOT)
    ensures UsableName(d, name)
  {
  }

  function EmptyDir(i: int, parent: int): (r: seq<Entry>)
    ensures |r| == PER_BLOCK
  {
    [Entry(".", i), Entry("..", parent)] + seq(PER_BLOCK - 2, _ => HOLE)
  }

  function NewDirINode(who: Session, b: int): INode {
    INode(DIR_MODE, 2, who.user, who.group, BLOCK_SIZE, [b, -1, -1, -1, -1, -1, -1, -1, -1, -1], -1)
  }

  /** The new directory's block and inode, before it has an entry anywhere. */
  function WriteNewDir(s: State, who: Session, i: int, b: int, parent: int): State {
    WriteINode(WriteBlock(s, b, Entries(EmptyDir(i, parent))), i, NewDirINode(who, b))
  }

  /** The directory block for slot `h`: the one there is, or a fresh one; -1 when none is left. */
  function EntryBlock(s: State, n: INode, h: int): (r: (State, int))
    requires |s.super.stack| == GROUP && 0 <= h < SLOTS && |n.direct| == DIRECT
    ensures |r.0.super.stack| == GROUP
  {
    if n.direct[h / PER_BLOCK] == -1 then AllocBlock(s) else (s, n.direct[h / PER_BLOCK])
  }

  function MakeDir(s: State, who: Session, d: int, name: string): (r: (State, bool))
    requires |s.super.stack| == GROUP && |INodeAt(s.img.inodes, d).direct| == DIRECT
    ensures |r.0.super.stack| == GROUP
  {
    var n := INodeAt(s.img.inodes, d);
    var h := FirstHole(Slots(s.img.blocks, n.direct), 0);
    if |name| >= MAX_NAME || !MayMakeDir(who, n) || Taken(s.img.blocks, n.direct, name, -1) || h == SLOTS then (s, false)
    else
      var (s1, blk) := EntryBlock(s, n, h);
      if blk == -1 then (s1, false)
      else
        var (s2, i) := AllocINode(s1);
        if i == -1 then (s2, false)
        else
          var (s3, b) := AllocBlock(s2);
          if b == -1 then (s3, false)
          else
            var was := Around(s.img.blocks, n.direct, h);
            (StoreEntry(WriteNewDir(s3, who, i, b, d), d, n, h, blk, was, Entry(name, i)), true)
  }

  /** The inode MakeDir and Create give what they make. */
  function NewINode(s: State, d: int): int
    requires |s.super.stack| == GROUP && |INodeAt(s.img.inodes, d).direct| == DIRECT
  {
    var n := INodeAt(s.img.inodes, d);
    var h := FirstHole(Slots(s.img.blocks, n.direct), 0);
    if h == SLOTS then -1 else AllocINode(EntryBlock(s, n, h).0).1
  }

  // ---------------------------------------------------------------------
  // Allocation steps
  // ---------------------------------------------------------------------

  /** Bits may be set; inodes and blocks read the same. */
  ghost predicate Grown(s: State, s': State) {
    match s'.img
    case Image(_, _, _, inodes, blocks) =>
      && inodes == s.img.inodes && blocks == s.img.blocks
      && (forall b :: Used(s, b) ==> Used(s', b))
      && (forall i :: INodeUsed(s, i) ==> INodeUsed(s', i))
  }

  lemma GrownKeeps(s: State, s': State, c: Cert)
    requires TreeInv(s, c) && Grown(s, s')
    ensures TreeInv(s', c)
    ensures forall i :: i in c.place ==> ViewOf(s'.img, i) == ViewOf(s.img, i)
  {
    forall i | i in c.place ensures SameNode(s, s', i) {}
    TreeFrame(s, s', c);
  }

  lemma GrownBlock(s: State)
    requires DiskInv(s)
    ensures
      var (s', b) := AllocBlock(s);
      && DiskInv(s') && Grown(s, s')
      && s'.inodeBits == s.inodeBits
      && (b != -1 ==> Free(s, b) && Used(s', b) && forall x :: Used(s', x) <==> x == b || Used(s, x))
      && (b == -1 <==> s.super.freeBlocks == 0)
      && (b != -1 ==> s'.super.freeBlocks == s.super.freeBlocks - 1)
      && (b == -1 ==> s' == s)
  {
    AllocEmpty(s);
    if s.super.freeBlocks > 0 { AllocPops(s); }
  }

  lemma GrownINode(s: State)
    requires DiskInv(s)
    ensures
      var (s', i) := AllocINode(s);
      && DiskInv(s') && Grown(s, s')
      && (forall x :: Used(s', x) == Used(s, x))
      && (i != -1 ==> IsINode(i) && !INodeUsed(s, i) && INodeUsed(s', i) && forall x :: INodeUsed(s', x) <==> x == i || INodeUsed(s, x))
      && (i == -1 <==> s.super.freeInodes == 0)
      && (i == -1 ==> s' == s)
  {
    if s.super.freeInodes > 0 { AllocINodeFresh(s); }
  }

  lemma GrownTwice(s: State, s1: State, s2: State)
    requires Grown(s, s1) && Grown(s1, s2)
    ensures Grown(s, s2)
  {
  }

  // ---------------------------------------------------------------------
  // The new directory
  // ---------------------------------------------------------------------

  /** The slots of a directory that was just made. */
  function FreshSlots(i: int, parent: int): (r: seq<Entry>)
    ensures |r| == SLOTS
  {
    [Entry(".", i), Entry("..", parent)] + seq(SLOTS - 2, _ => HOLE)
  }

  lemma NewDirSlots(blocks: map<int, Block>, who: Session, i: int, b: int, parent: int)
    requires b != -1 && BlockAt(blocks, b) == Entries(EmptyDir(i, parent))
    ensures Slots(blocks, NewDirINode(who, b).direct) == FreshSlots(i, parent)
  {
    var direct := NewDirINode(who, b).direct;
    forall t | 0 <= t < SLOTS ensures Slots(blocks, direct)[t] == FreshSlots(i, parent)[t] {
      if t / PER_BLOCK != 0 { assert direct[t / PER_BLOCK] == -1; }
    }
  }

  lemma FreshNamed(i: int, parent: int)
    ensures |Named(FreshSlots(i, parent))| == 2
  {
    assert Named(FreshSlots(i, parent)) == {0, 1};
  }

  lemma FreshDirOk(c: Cert, i: int, parent: int)
    requires i in c.place && c.place[i].parent == parent && i != ROOT
    ensures DirOk(c, i, 2, FreshSlots(i, parent))
  {
    FreshNamed(i, parent);
    var slots := FreshSlots(i, parent);
    assert forall t :: 2 <= t < SLOTS ==> slots[t].name == "";
  }

  lemma NewDirReady(s: State, c: Cert, who: Session, d: int, h: int, blk: int, i: int, b: int)
    requires TreeInv(s, c) && d in c.place && 0 <= h < SLOTS
    requires i !in c.place && INodeUsed(s, i)
    requires Used(s, b) && b !in c.owner && b != blk && b != -1
    ensures ChildReady(WriteNewDir(s, who, i, b, d), c, d, h, blk, i, map[b := (i, 0)])
  {
    var s' := WriteNewDir(s, who, i, b, d);
    var own := map[b := (i, 0)];
    var c' := LinkCert(c, d, h, i, own, blk);
    NewDirSlots(s'.img.blocks, who, i, b, d);
    FreshDirOk(c', i, d);
    var n := NewDirINode(who, b);
    assert Points(s', c', i, n.direct) by {
      assert OwnedBy(s', c', b, i, 0);
    }
    DirNode(s', c', i, n, FreshSlots(i, d));
    assert OwnerOk(s', c', b);
  }

  lemma NewDirKeeps(s: State, c: Cert, who: Session, d: int, i: int, b: int)
    requires TreeInv(s, c) && i !in c.place && b !in c.owner
    ensures TreeInv(WriteNewDir(s, who, i, b, d), c)
    ensures forall j :: j in c.place ==> ViewOf(WriteNewDir(s, who, i, b, d).img, j) == ViewOf(s.img, j)
  {
    OwnedFrame(s, WriteNewDir(s, who, i, b, d), c);
  }

  // ---------------------------------------------------------------------
  // The slot found
  // ---------------------------------------------------------------------

  lemma LacksName(blocks: map<int, Block>, direct: seq<int>, name: string, skip: int)
    requires |direct| == DIRECT && name != "" && !Taken(blocks, direct, name, skip)
    requires 0 <= skip < SLOTS ==> Slots(blocks, direct)[skip].name != name
    ensures Lacks(Slots(blocks, direct), name)
  {
    var slots := Slots(blocks, direct);
    forall t | 0 <= t < SLOTS ensures slots[t].name != name {
      if direct[t / PER_BLOCK] == -1 { assert slots[t] == HOLE; }
    }
  }

  /** Allocations and writes outside the tree keep a found slot ready. */
  lemma SlotReadyFrame(s: State, s': State, c: Cert, d: int, h: int, blk: int)
    requires TreeInv(s, c) && SlotReady(s, c, d, h, blk)
    requires SameNode(s, s', d) && Used(s', blk)
    ensures SlotReady(s', c, d, h, blk)
    ensures Around(s'.img.blocks, INodeAt(s.img.inodes, d).direct, h) == Around(s.img.blocks, INodeAt(s.img.inodes, d).direct, h)
  {
    SlotsFrame(s.img.blocks, s'.img.blocks, INodeAt(s.img.inodes, d).direct);
  }

  /** The entry's block is the directory's already, or was free. */
  ghost predicate EntryOwned(s: State, c: Cert, d: int, h: int, blk: int) {
    match c
    case Cert(_, owner, _) =>
      (blk in owner ==> owner[blk] == (d, h / PER_BLOCK)) && (blk !in owner ==> !Used(s, blk))
  }

  /** The scan and the allocation of the entry's block leave the slot ready. */
  lemma EntryBlockReady(s: State, c: Cert, d: int, h: int)
    requires DiskInv(s) && TreeInv(s, c) && d in c.place && IsDir(INodeAt(s.img.inodes, d)) && 0 <= h < SLOTS
    requires |INodeAt(s.img.inodes, d).direct| == DIRECT
    requires Slots(s.img.blocks, INodeAt(s.img.inodes, d).direct)[h].name == ""
    ensures
      var (s1, blk) := EntryBlock(s, INodeAt(s.img.inodes, d), h);
      && DiskInv(s1) && Grown(s, s1) && TreeInv(s1, c)
      && (forall i :: INodeUsed(s1, i) == INodeUsed(s, i))
      && (blk == -1 ==> s1 == s)
      && (blk != -1 ==> SlotReady(s1, c, d, h, blk) && forall x :: Used(s1, x) <==> x == blk || Used(s, x))
      && (blk != -1 ==> EntryOwned(s, c, d, h, blk))
  {
    var n := INodeAt(s.img.inodes, d);
    var (s1, blk) := EntryBlock(s, n, h);
    assert NodeOk(s, c, d);
    if n.direct[h / PER_BLOCK] == -1 {
      GrownBlock(s);
      GrownKeeps(s, s1, c);
      OwnedUsed(s, c, blk);
    } else {
      assert OwnedBy(s, c, blk, d, h / PER_BLOCK);
    }
  }

  lemma PlacedUsed(s: State, c: Cert, i: int)
    requires TreeInv(s, c)
    ensures i in c.place ==> INodeUsed(s, i)
  {
    if i in c.place { assert NodeOk(s, c, i); }
  }

  // ---------------------------------------------------------------------
  // The whole operation
  // ---------------------------------------------------------------------

  /** Entry `e` now fills the first empty slot of `d`; every other node looks as before. */
  ghost predicate Added(s: State, s': State, c: Cert, d: int, e: Entry) {
    match ViewOf(s.img, d)
    case DirView(attr, slots) =>
      var h := FirstHole(slots, 0);
      && h < SLOTS && |slots| == SLOTS
      && ViewOf(s'.img, d) == DirView(attr, slots[h := e])
      && forall i :: i in c.place && i != d ==> ViewOf(s'.img, i) == ViewOf(s.img, i)
    case _ => false
  }

  /** Before linking: the entry's block, the new inode and its block are allocated and the slot is still ready. */
  lemma MakeDirPrepares(s: State, c: Cert, d: int, h: int)
    returns (s3: State, blk: int, i: int, b: int)
    requires DiskInv(s) && TreeInv(s, c) && d in c.place && IsDir(INodeAt(s.img.inodes, d)) && 0 <= h < SLOTS
    requires |INodeAt(s.img.inodes, d).direct| == DIRECT
    requires Slots(s.img.blocks, INodeAt(s.img.inodes, d).direct)[h].name == ""
    ensures
      var (s1, blk') := EntryBlock(s, INodeAt(s.img.inodes, d), h);
      var (s2, i') := AllocINode(s1);
      && blk == blk'
      && (blk != -1 ==> i == i')
      && (blk != -1 && i != -1 ==> (s3, b) == AllocBlock(s2))
      && (blk == -1 ==> s3 == s1)
      && (blk != -1 && i == -1 ==> s3 == s2)
    ensures DiskInv(s3) && Grown(s, s3) && TreeInv(s3, c)
    ensures blk != -1 && i != -1 && b != -1 ==>
      && SlotReady(s3, c, d, h, blk)
      && i !in c.place && IsINode(i) && INodeUsed(s3, i)
      && Used(s3, b) && b !in c.owner && b != blk
      && (forall x :: Used(s3, x) <==> x == b || x == blk || Used(s, x))
      && (forall x :: INodeUsed(s3, x) <==> x == i || INodeUsed(s, x))
      && !Used(s, b) && !INodeUsed(s, i) && EntryOwned(s, c, d, h, blk)
  {
    var (s1, blk0) := EntryBlock(s, INodeAt(s.img.inodes, d), h);
    EntryBlockReady(s, c, d, h);
    s3, blk, i, b := s1, blk0, -1, -1;
    if blk != -1 {
      var (s2, i0) := AllocINode(s1);
      GrownINode(s1);
      GrownKeeps(s1, s2, c);
      GrownTwice(s, s1, s2);
      s3, i := s2, i0;
      if i != -1 {
        PlacedUsed(s1, c, i);
        var (s3', b0) := AllocBlock(s2);
        GrownBlock(s2);
        GrownKeeps(s2, s3', c);
        GrownTwice(s, s2, s3');
        s3, b := s3', b0;
        OwnedUsed(s2, c, b);
        SlotReadyFrame(s1, s2, c, d, h, blk);
        SlotReadyFrame(s2, s3, c, d, h, blk);
      }
    }
  }

  /** A name that passes the scan is usable as a child's name, unless it is "" or, in the root, "..". */
  lemma NameUsable(s: State, c: Cert, d: int, name: string, skip: int)
    requires TreeInv(s, c) && d in c.place && IsDir(INodeAt(s.img.inodes, d))
    requires |INodeAt(s.img.inodes, d).direct| == DIRECT
    requires |name| < MAX_NAME && UsableName(d, name)
    requires !Taken(s.img.blocks, INodeAt(s.img.inodes, d).direct, name, skip)
    requires 0 <= skip < SLOTS ==> Slots(s.img.blocks, INodeAt(s.img.inodes, d).direct)[skip].name == ""
    ensures NameFits(Slots(s.img.blocks, INodeAt(s.img.inodes, d).direct), name)
  {
    var n := INodeAt(s.img.inodes, d);
    assert NodeOk(s, c, d);
    LacksName(s.img.blocks, n.direct, name, skip);
    var slots := Slots(s.img.blocks, n.direct);
    assert slots[0].name == "." && (d != ROOT ==> slots[1].name == "..");
    assert slots[0].name != name && slots[1].name != name;
  }

  lemma WriteINodeKeeps(s: State, a: int, n: INode)
    requires DiskInv(s) && IsINode(a)
    ensures DiskInv(WriteINode(s, a, n))
  {
    ChainFrameSuper(s, WriteINode(s, a, n));
  }

  lemma StoreKeepsDisk(s: State, d: int, n: INode, h: int, blk: int, was: seq<Entry>, e: Entry)
    requires DiskInv(s) && IsINode(d) && Used(s, blk)
    requires 0 <= h < SLOTS && |n.direct| == DIRECT && |was| == PER_BLOCK
    ensures DiskInv(StoreEntry(s, d, n, h, blk, was, e))
  {
    var b := Entries(was[h % PER_BLOCK := e]);
    WriteKeeps(s, blk, b);
    WriteINodeKeeps(WriteBlock(s, blk, b), d, n.(direct := n.direct[h / PER_BLOCK := blk], cnt := (n.cnt + 1) % 65536));
  }

  /** The certificate grew by inodes and blocks that were free; no bit was cleared. */
  ghost predicate Grew(s: State, s': State, c: Cert, c': Cert) {
    match c'
    case Cert(place, owner, _) =>
      && (forall j :: j in c.place ==> j in place && place[j] == c.place[j])
      && (forall b :: b in c.owner ==> b in owner && owner[b] == c.owner[b])
      && (forall b :: b in owner && b !in c.owner ==> !Used(s, b))
      && (forall j :: j in place && j !in c.place ==> !INodeUsed(s, j))
      && (forall b :: Used(s, b) ==> Used(s', b))
      && (forall j :: INodeUsed(s, j) ==> INodeUsed(s', j))
  }

  /** Of the nodes there were, only `d` has gained blocks. */
  ghost predicate GainedAt(c: Cert, c': Cert, d: int) {
    match c'
    case Cert(_, owner, _) => forall b :: b in owner && b !in c.owner && owner[b].0 in c.place ==> owner[b].0 == d
  }

  lemma LinkGained(c: Cert, d: int, h: int, i: int, own: map<int, (int, int)>, blk: int)
    requires d in c.place && i !in c.place && forall b :: b in own ==> own[b].0 == i
    ensures GainedAt(c, LinkCert(c, d, h, i, own, blk), d)
  {
  }

  lemma GrewTrans(s: State, s1: State, s2: State, c: Cert, c1: Cert, c2: Cert)
    requires Grew(s, s1, c, c1) && Grew(s1, s2, c1, c2)
    ensures Grew(s, s2, c, c2)
  {
  }

  lemma GrewNone(s: State, s': State, c: Cert)
    requires forall b :: Used(s, b) ==> Used(s', b)
    requires forall j :: INodeUsed(s, j) ==> INodeUsed(s', j)
    ensures Grew(s, s', c, c)
  {
  }

  lemma LinkGrew(s: State, c: Cert, s': State, d: int, h: int, i: int, own: map<int, (int, int)>, blk: int)
    requires d in c.place && i !in c.place
    requires EntryOwned(s, c, d, h, blk) && !INodeUsed(s, i)
    requires forall b :: b in own ==> b !in c.owner && !Used(s, b)
    requires forall x :: Used(s, x) ==> Used(s', x)
    requires forall x :: INodeUsed(s, x) ==> INodeUsed(s', x)
    ensures Grew(s, s', c, LinkCert(c, d, h, i, own, blk))
  {
  }

  /** One new directory `i`, with only "." and "..", hangs in `d` under the name; nothing else changed and nothing leaked. */
  ghost predicate DirMade(s: State, s': State, c: Cert, c': Cert, who: Session, d: int, name: string, i: int)
    requires d in c.place
  {
    match c'
    case Cert(place, _, _) =>
      && i !in c.place && i in place
      && place == c.place[i := Place(d, place[i].slot, c.place[d].depth + 1)]
      && Added(s, s', c, d, Entry(name, i))
      && ViewOf(s'.img, i) == DirView(Attr(DIR_MODE, who.user, who.group), FreshSlots(i, d))
      && Grew(s, s', c, c') && GainedAt(c, c', d)
      && (LeakFree(s, c) ==> LeakFree(s', c'))
  }

  /**
   MakeDir keeps the allocator's structures at every exit, whatever the name. When
   it refuses or runs out part-way, the tree stands and no inode and no block has
   changed; when it succeeds on a usable name, one entry is added for one new
   directory.
   */
  lemma MakeDirKeeps(s: State, c: Cert, who: Session, d: int, name: string) returns (c': Cert, i: int)
    requires DiskInv(s) && TreeInv(s, c) && d in c.place && IsDir(INodeAt(s.img.inodes, d))
    requires |INodeAt(s.img.inodes, d).direct| == DIRECT
    ensures var (s', ok) := MakeDir(s, who, d, name);
      && DiskInv(s')
      && (!ok ==> c' == c && TreeInv(s', c) && Grown(s, s'))
      && (ok && UsableName(d, name) ==>
            |s.super.stack| == GROUP && i == NewINode(s, d) && TreeInv(s', c') && DirMade(s, s', c, c', who, d, name, i))
  {
    var n := INodeAt(s.img.inodes, d);
    var h := FirstHole(Slots(s.img.blocks, n.direct), 0);
    c', i := c, -1;
    if |name| >= MAX_NAME || !MayMakeDir(who, n) || Taken(s.img.blocks, n.direct, name, -1) || h == SLOTS {
      assert MakeDir(s, who, d, name) == (s, false);
    } else {
      var s3, blk, i0, b := MakeDirPrepares(s, c, d, h);
      if blk != -1 && i0 != -1 && b != -1 {
        i := i0;
        c' := LinkCert(c, d, h, i, map[b := (i, 0)], blk);
        assert MakeDir(s, who, d, name) == (MadeState(s, s3, who, d, h, name, blk, i, b), true);
        MakeDirLinksDisk(s, c, who, d, h, name, s3, blk, i, b);
        if UsableName(d, name) {
          NameUsable(s, c, d, name, -1);
          MakeDirLinks(s, c, who, d, h, name, s3, blk, i, b);
        }
      } else {
        assert MakeDir(s, who, d, name) == (s3, false);
      }
    }
  }

  /** What the allocations before the link establish. */
  ghost predicate Prepared(s: State, s3: State, c: Cert, d: int, h: int, blk: int, i: int, b: int) {
    match s3
    case State(_, _, _, _) =>
      && DiskInv(s3) && Grown(s, s3) && TreeInv(s3, c)
      && SlotReady(s3, c, d, h, blk)
      && i !in c.place && IsINode(i) && INodeUsed(s3, i)
      && Used(s3, b) && b !in c.owner && b != blk
      && (forall x :: Used(s3, x) <==> x == b || x == blk || Used(s, x))
      && (forall x :: INodeUsed(s3, x) <==> x == i || INodeUsed(s, x))
      && !Used(s, b) && !INodeUsed(s, i) && EntryOwned(s, c, d, h, blk)
  }

  /** The state MakeDir ends in, from the one after its allocations. */
  function MadeState(s: State, s3: State, who: Session, d: int, h: int, name: string, blk: int, i: int, b: int): State
    requires 0 <= h < SLOTS && |INodeAt(s.img.inodes, d).direct| == DIRECT
  {
    var n := INodeAt(s.img.inodes, d);
    StoreEntry(WriteNewDir(s3, who, i, b, d), d, n, h, blk, Around(s.img.blocks, n.direct, h), Entry(name, i))
  }

  lemma MakeDirLinks(s: State, c: Cert, who: Session, d: int, h: int, name: string, s3: State, blk: int, i: int, b: int)
    requires TreeInv(s, c) && d in c.place && |INodeAt(s.img.inodes, d).direct| == DIRECT
    requires h == FirstHole(Slots(s.img.blocks, INodeAt(s.img.inodes, d).direct), 0)
    requires Prepared(s, s3, c, d, h, blk, i, b)
    requires NameFits(Slots(s.img.blocks, INodeAt(s.img.inodes, d).direct), name)
    ensures
      var c' := LinkCert(c, d, h, i, map[b := (i, 0)], blk);
      var s' := MadeState(s, s3, who, d, h, name, blk, i, b);
      DiskInv(s') && TreeInv(s', c') && DirMade(s, s', c, c', who, d, name, i)
  {
    var own := map[b := (i, 0)];
    var s' := MadeState(s, s3, who, d, h, name, blk, i, b);
    MakeDirLinksDisk(s, c, who, d, h, name, s3, blk, i, b);
    MakeDirLinksTree(s, c, who, d, h, name, s3, blk, i, b);
    LinkLeakFree(s, c, s', d, h, i, own, blk);
    LinkGrew(s, c, s', d, h, i, own, blk);
    LinkGained(c, d, h, i, own, blk);
  }

  lemma MakeDirLinksDisk(s: State, c: Cert, who: Session, d: int, h: int, name: string, s3: State, blk: int,
                         i: int, b: int)
    requires TreeInv(s, c) && d in c.place && |INodeAt(s.img.inodes, d).direct| == DIRECT
    requires h < SLOTS && Prepared(s, s3, c, d, h, blk, i, b)
    ensures
      var s' := MadeState(s, s3, who, d, h, name, blk, i, b);
      && DiskInv(s')
      && (forall x :: Used(s', x) <==> x == b || x == blk || Used(s, x))
      && (forall x :: INodeUsed(s', x) <==> x == i || INodeUsed(s, x))
  {
    var n := INodeAt(s.img.inodes, d);
    NewDirDisk(s3, who, d, i, b);
    assert NodeOk(s, c, d);
    StoreKeepsDisk(WriteNewDir(s3, who, i, b, d), d, n, h, blk, Around(s.img.blocks, n.direct, h), Entry(name, i));
  }

  lemma MakeDirLinksTree(s: State, c: Cert, who: Session, d: int, h: int, name: string, s3: State, blk: int,
                         i: int, b: int)
    requires TreeInv(s, c) && d in c.place && |INodeAt(s.img.inodes, d).direct| == DIRECT
    requires h == FirstHole(Slots(s.img.blocks, INodeAt(s.img.inodes, d).direct), 0)
    requires Prepared(s, s3, c, d, h, blk, i, b)
    requires NameFits(Slots(s.img.blocks, INodeAt(s.img.inodes, d).direct), name)
    ensures
      var s' := MadeState(s, s3, who, d, h, name, blk, i, b);
      && TreeInv(s', LinkCert(c, d, h, i, map[b := (i, 0)], blk))
      && Added(s, s', c, d, Entry(name, i))
      && ViewOf(s'.img, i) == DirView(Attr(DIR_MODE, who.user, who.group), FreshSlots(i, d))
  {
    var own := map[b := (i, 0)];
    var e := Entry(name, i);
    var s4 := WriteNewDir(s3, who, i, b, d);
    NewDirLinkable(s3, c, who, d, h, name, blk, i, b);
    LinkKeeps(s4, c, d, h, blk, e, own);
    var s' := MadeState(s, s3, who, d, h, name, blk, i, b);
    assert LinkEntry(s4, d, h, blk, e) == s';
    GrownKeeps(s, s3, c);
    AddedBy(s, c, s4, s', d, h, e);
    NewDirSlots(s4.img.blocks, who, i, b, d);
  }

  /** The pieces of `Added`: steps off the tree, then a link. */
  lemma AddedBy(s: State, c: Cert, s4: State, s': State, d: int, h: int, e: Entry)
    requires d in c.place
    requires IsDir(INodeAt(s.img.inodes, d)) && |INodeAt(s.img.inodes, d).direct| == DIRECT
    requires h == FirstHole(Slots(s.img.blocks, INodeAt(s.img.inodes, d).direct), 0) && h < SLOTS
    requires forall j :: j in c.place ==> ViewOf(s4.img, j) == ViewOf(s.img, j)
    requires forall j :: j in c.place && j != d ==> ViewOf(s'.img, j) == ViewOf(s4.img, j)
    requires ViewOf(s'.img, d) == DirView(AttrOf(INodeAt(s.img.inodes, d)), Slots(s.img.blocks, INodeAt(s.img.inodes, d).direct)[h := e])
    ensures Added(s, s', c, d, e)
  {
  }

  lemma LinkLeakFree(s: State, c: Cert, s': State, d: int, h: int, i: int, own: map<int, (int, int)>, blk: int)
    requires d in c.place
    requires forall x :: Used(s', x) <==> x in own || x == blk || Used(s, x)
    requires forall x :: INodeUsed(s', x) <==> x == i || INodeUsed(s, x)
    ensures LeakFree(s, c) ==> LeakFree(s', LinkCert(c, d, h, i, own, blk))
  {
  }

  lemma NewDirLinkable(s: State, c: Cert, who: Session, d: int, h: int, name: string, blk: int, i: int, b: int)
    requires TreeInv(s, c) && SlotReady(s, c, d, h, blk)
    requires i !in c.place && INodeUsed(s, i)
    requires Used(s, b) && b !in c.owner && b != blk
    requires NameFits(Slots(s.img.blocks, INodeAt(s.img.inodes, d).direct), name)
    ensures
      var s' := WriteNewDir(s, who, i, b, d);
      && Linkable(s', c, d, h, blk, name, i, map[b := (i, 0)])
      && (forall j :: j in c.place ==> ViewOf(s'.img, j) == ViewOf(s.img, j))
      && INodeAt(s'.img.inodes, d) == INodeAt(s.img.inodes, d)
      && Slots(s'.img.blocks, INodeAt(s.img.inodes, d).direct) == Slots(s.img.blocks, INodeAt(s.img.inodes, d).direct)
      && Around(s'.img.blocks, INodeAt(s.img.inodes, d).direct, h) == Around(s.img.blocks, INodeAt(s.img.inodes, d).direct, h)
  {
    var s' := WriteNewDir(s, who, i, b, d);
    NewDirKeeps(s, c, who, d, i, b);
    NewDirSpares(s, c, who, d, i, b, d);
    SlotReadyFrame(s, s', c, d, h, blk);
    SlotsFrame(s.img.blocks, s'.img.blocks, INodeAt(s.img.inodes, d).direct);
    NewDirReady(s, c, who, d, h, blk, i, b);
  }

  lemma NewDirSpares(s: State, c: Cert, who: Session, d: int, i: int, b: int, j: int)
    requires TreeInv(s, c) && j in c.place && i !in c.place && b !in c.owner
    ensures SameNode(s, WriteNewDir(s, who, i, b, d), j)
  {
    assert NodeOk(s, c, j);
    var n := INodeAt(s.img.inodes, j);
    forall k | 0 <= k < DIRECT && n.direct[k] != -1 ensures n.direct[k] != b {
      assert OwnedBy(s, c, n.direct[k], j, k);
    }
  }

  lemma NewDirDisk(s: State, who: Session, d: int, i: int, b: int)
    requires DiskInv(s) && IsINode(i) && Used(s, b)
    ensures DiskInv(WriteNewDir(s, who, i, b, d))
  {
    WriteKeeps(s, b, Entries(EmptyDir(i, d)));
    WriteINodeKeeps(WriteBlock(s, b, Entries(EmptyDir(i, d))), i, NewDirINode(who, b));
  }
}
