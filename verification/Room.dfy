/**
 When MakeDir and Create succeed: exactly when nothing is refused and there is
 room for what they allocate.
 */
module Room {
  import opened Disk
  import opened Allocator
  import opened Tree
  import opened INodes
  import opened Directories
  import opened MakeDirectory
  import opened FileData
  import opened CreateFile

  /** Blocks the directory needs for a new entry: one if its first free slot lies in a block it does not have. */
  function EntryNeeds(n: INode, h: int): nat
    requires 0 <= h < SLOTS && |n.direct| == DIRECT
  {
    if n.direct[h / PER_BLOCK] == -1 then 1 else 0
  }

  /** Blocks for the text of a new file; an empty text takes one too. */
  function TextNeeds(len: nat): nat { if len == 0 then 1 else BlocksFor(len) }

  lemma EntryRoom(s: State, n: INode, h: int)
    requires DiskInv(s) && |s.super.stack| == GROUP && 0 <= h < SLOTS && |n.direct| == DIRECT
    ensures
      var (s1, blk) := EntryBlock(s, n, h);
      && (blk != -1 <==> EntryNeeds(n, h) <= s.super.freeBlocks)
      && DiskInv(s1) && s1.super.freeInodes == s.super.freeInodes
      && (blk != -1 ==> s1.super.freeBlocks == s.super.freeBlocks - EntryNeeds(n, h))
  {
    GrownBlock(s);
    BlockAllocCounts(s);
  }

  lemma BlockAllocCounts(s: State)
    requires |s.super.stack| == GROUP
    ensures AllocBlock(s).0.super.freeInodes == s.super.freeInodes
  {
  }

  lemma INodeRoom(s: State)
    requires DiskInv(s)
    ensures
      var (s1, i) := AllocINode(s);
      && (i != -1 <==> s.super.freeInodes > 0)
      && DiskInv(s1) && s1.super.freeBlocks == s.super.freeBlocks && s1.super.stack == s.super.stack
      && (i != -1 ==> s1.super.freeInodes == s.super.freeInodes - 1)
  {
    GrownINode(s);
  }

  /** MakeDir succeeds if and only if it refuses nothing and finds an inode and the blocks; it then has taken just those. */
  lemma MakeDirSucceedsIff(s: State, c: Cert, who: Session, d: int, name: string)
    requires DiskInv(s) && TreeInv(s, c) && d in c.place && IsDir(INodeAt(s.img.inodes, d))
    requires |INodeAt(s.img.inodes, d).direct| == DIRECT && |s.super.stack| == GROUP
    ensures
      var n := INodeAt(s.img.inodes, d);
      var h := FirstHole(Slots(s.img.blocks, n.direct), 0);
      var (s', ok) := MakeDir(s, who, d, name);
      && (ok <==>
            && |name| < MAX_NAME && MayMakeDir(who, n) && !Taken(s.img.blocks, n.direct, name, -1) && h < SLOTS
            && s.super.freeInodes > 0 && EntryNeeds(n, h) + 1 <= s.super.freeBlocks)
      && (ok && h < SLOTS ==>
            && s'.super.freeBlocks == s.super.freeBlocks - EntryNeeds(n, h) - 1
            && s'.super.freeInodes == s.super.freeInodes - 1)
  {
    hide TreeInv, DiskInv, AllocBlock, AllocINode, EntryBlock, EntryNeeds, Taken, MayMakeDir, Slots, Around;
    var n := INodeAt(s.img.inodes, d);
    var h := FirstHole(Slots(s.img.blocks, n.direct), 0);
    if h < SLOTS {
      EntryRoom(s, n, h);
      var (s1, blk) := EntryBlock(s, n, h);
      INodeRoom(s1);
      var (s2, i) := AllocINode(s1);
      StackShape(s2);
      GrownBlock(s2);
      BlockAllocCounts(s2);
    }
  }

  // ---------------------------------------------------------------------
  // Create
  // ---------------------------------------------------------------------

  /** A text that finds its blocks has taken as many as its pieces lacked. */
  lemma {:induction false} FillCounts(s: State, buf: seq<char>, direct: seq<int>, k: nat)
    requires DiskInv(s) && |direct| == DIRECT && TextBuffer(buf) && k <= DIRECT && Held(s, direct)
    requires |s.super.stack| == GROUP && Fill(s, buf, direct, k).2
    ensures Lacking(direct, StrLen(buf), k) <= s.super.freeBlocks
    ensures Fill(s, buf, direct, k).0.super.freeBlocks == s.super.freeBlocks - Lacking(direct, StrLen(buf), k)
    ensures Fill(s, buf, direct, k).0.super.freeInodes == s.super.freeInodes
    decreases DIRECT - k
  {
    hide Fill, AllocBlock, StrLen, Held, DiskInv;
    FillTurn(s, buf, direct, k);
    if k * BLOCK_SIZE < StrLen(buf) {
      var (s1, b) := if direct[k] == -1 then AllocBlock(s) else (s, direct[k]);
      FillBlock(s, buf, direct, k);
      if direct[k] == -1 {
        GrownBlock(s);
        BlockAllocCounts(s);
      }
      LackingLater(direct, b, StrLen(buf), k, k + 1);
      FillStep(s, s1, buf, direct, k, b);
      FillCounts(WriteBlock(s1, b, Bytes(Chunk(buf, k))), buf, direct[k := b], k + 1);
    }
  }

  lemma {:induction false} AllLacking(direct: seq<int>, len: nat, k: nat)
    requires NoBlocks(direct) && k <= DIRECT && len <= MAX_FILE
    ensures Lacking(direct, len, k) == if BlocksFor(len) > k then BlocksFor(len) - k else 0
    decreases DIRECT - k
  {
    if k < DIRECT && k * BLOCK_SIZE < len {
      BlocksForCovers(len, k);
      AllLacking(direct, len, k + 1);
    }
  }

  lemma TextRoom(s: State, buf: seq<char>)
    requires DiskInv(s) && |s.super.stack| == GROUP && TextBuffer(buf)
    ensures
      var (s', _, ok) := StoreText(s, buf, NO_BLOCKS);
      && (ok <==> TextNeeds(StrLen(buf)) <= s.super.freeBlocks)
      && (ok ==> s'.super.freeBlocks == s.super.freeBlocks - TextNeeds(StrLen(buf)) && s'.super.freeInodes == s.super.freeInodes)
  {
    hide Fill, AllocBlock, StrLen, DiskInv, BlocksFor, Chunk, Lacking;
    if StrLen(buf) == 0 {
      GrownBlock(s);
      BlockAllocCounts(s);
    } else {
      FillSucceedsIff(s, buf, NO_BLOCKS, 0);
      if Fill(s, buf, NO_BLOCKS, 0).2 { FillCounts(s, buf, NO_BLOCKS, 0); }
      AllLacking(NO_BLOCKS, StrLen(buf), 0);
      SomeBlocks(StrLen(buf));
    }
  }

  lemma SomeBlocks(len: nat)
    requires len > 0
    ensures BlocksFor(len) > 0
  {
  }

  /** Create succeeds if and only if it refuses nothing and finds an inode and the blocks; it then has taken just those. */
  lemma CreateSucceedsIff(s: State, c: Cert, who: Session, d: int, name: string, buf: seq<char>, junk: int)
    requires DiskInv(s) && TreeInv(s, c) && d in c.place && IsDir(INodeAt(s.img.inodes, d))
    requires |INodeAt(s.img.inodes, d).direct| == DIRECT && |s.super.stack| == GROUP && TextBuffer(buf)
    ensures
      var n := INodeAt(s.img.inodes, d);
      var h := FirstHole(Slots(s.img.blocks, n.direct), 0);
      var (s', ok) := Create(s, who, d, name, buf, junk);
      && (ok <==>
            && |name| < MAX_NAME && !Taken(s.img.blocks, n.direct, name, h) && h < SLOTS
            && s.super.freeInodes > 0 && EntryNeeds(n, h) + TextNeeds(StrLen(buf)) <= s.super.freeBlocks)
      && (ok && h < SLOTS ==>
            && s'.super.freeBlocks == s.super.freeBlocks - EntryNeeds(n, h) - TextNeeds(StrLen(buf))
            && s'.super.freeInodes == s.super.freeInodes - 1)
  {
    hide TreeInv, DiskInv, AllocBlock, AllocINode, EntryBlock, EntryNeeds, TextNeeds, Taken, Slots, StoreText, StrLen, WithJunk;
    var n := INodeAt(s.img.inodes, d);
    var h := FirstHole(Slots(s.img.blocks, n.direct), 0);
    if h < SLOTS {
      EntryRoom(s, n, h);
      var (s1, blk) := EntryBlock(s, n, h);
      INodeRoom(s1);
      var (s2, i) := AllocINode(s1);
      StackShape(s2);
      TextRoom(s2, buf);
      TextAtLeast(StrLen(buf));
    }
  }

  lemma TextAtLeast(len: nat)
    ensures TextNeeds(len) > 0
  {
  }
}
