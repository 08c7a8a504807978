/**
 What every operation keeps on any image, sound or not: memory and image agree on
 the superblock and both bitmaps, and the stack holds -1 above its top.
 */
module SteadyState {
  import opened Disk
  import opened Allocator
  import opened Tree
  import opened INodes
  import opened Directories
  import opened MakeDirectory
  import opened FileData
  import opened CreateFile
  import opened Freeing
  import opened DeleteFile
  import opened Repair

  ghost predicate Steady(s: State) { Synced(s) && Tidy(s) && s.super.freeBlocks <= BLOCK_NUM }

  lemma AllocBlockSteady(s: State)
    requires Steady(s)
    ensures Steady(AllocBlock(s).0)
  {
    AllocTidy(s);
  }

  lemma FreeBlockSteady(s: State, a: int)
    requires Steady(s)
    ensures Steady(FreeBlock(s, a).0)
  {
    FreeTidy(s, a);
  }

  lemma INodesSteady(s: State, a: int)
    requires Steady(s)
    ensures Steady(AllocINode(s).0) && Steady(FreeINode(s, a).0)
  {
  }

  lemma WritesSteady(s: State, a: int, b: Block, n: INode)
    requires Steady(s)
    ensures Steady(WriteBlock(s, a, b)) && Steady(WriteINode(s, a, n))
  {
  }

  lemma StoreSteady(s: State, d: int, n: INode, h: int, blk: int, was: seq<Entry>, e: Entry)
    requires Steady(s) && 0 <= h < SLOTS && |n.direct| == DIRECT && |was| == PER_BLOCK
    ensures Steady(StoreEntry(s, d, n, h, blk, was, e)) && Steady(StoreHole(s, d, n, h, was))
  {
  }

  lemma EntryBlockSteady(s: State, n: INode, h: int)
    requires Steady(s) && |s.super.stack| == GROUP && 0 <= h < SLOTS && |n.direct| == DIRECT
    ensures Steady(EntryBlock(s, n, h).0)
  {
    AllocBlockSteady(s);
  }

  lemma MakeDirSteady(s: State, who: Session, d: int, name: string)
    requires Steady(s) && |s.super.stack| == GROUP && |INodeAt(s.img.inodes, d).direct| == DIRECT
    ensures Steady(MakeDir(s, who, d, name).0)
  {
    hide Steady, AllocBlock, AllocINode, Taken, FirstHole, MayMakeDir, Around, StoreEntry, EntryBlock, WriteINode,
      WriteBlock;
    var n := INodeAt(s.img.inodes, d);
    var h := FirstHole(Slots(s.img.blocks, n.direct), 0);
    if h < SLOTS {
      EntryBlockSteady(s, n, h);
      var (s1, blk) := EntryBlock(s, n, h);
      INodesSteady(s1, 0);
      var (s2, i) := AllocINode(s1);
      StackKept(s1);
      AllocBlockSteady(s2);
      var (s3, b) := AllocBlock(s2);
      WritesSteady(s3, b, Entries(EmptyDir(i, d)), n);
      WritesSteady(WriteBlock(s3, b, Entries(EmptyDir(i, d))), i, Zeroed(), NewDirINode(who, b));
      StoreSteady(WriteNewDir(s3, who, i, b, d), d, n, h, blk, Around(s.img.blocks, n.direct, h), Entry(name, i));
    }
  }

  lemma StackKept(s: State)
    ensures AllocINode(s).0.super.stack == s.super.stack
  {
  }

  lemma {:induction false} FillSteady(s: State, buf: seq<char>, direct: seq<int>, k: nat)
    requires Steady(s) && |s.super.stack| == GROUP && |direct| == DIRECT && TextBuffer(buf) && k <= DIRECT
    ensures Steady(Fill(s, buf, direct, k).0)
    decreases DIRECT - k
  {
    hide Steady, Fill, AllocBlock, WriteBlock, Chunk;
    FillTurn(s, buf, direct, k);
    if k * BLOCK_SIZE < StrLen(buf) {
      AllocBlockSteady(s);
      var (s1, b) := if direct[k] == -1 then AllocBlock(s) else (s, direct[k]);
      if b != -1 {
        WritesSteady(s1, b, Bytes(Chunk(buf, k)), BLANK);
        WriteStack(s1, b, Bytes(Chunk(buf, k)));
        FillSteady(WriteBlock(s1, b, Bytes(Chunk(buf, k))), buf, direct[k := b], k + 1);
      }
    }
  }

  lemma WriteStack(s: State, a: int, b: Block)
    ensures WriteBlock(s, a, b).super == s.super
  {
  }

  lemma StoreTextSteady(s: State, buf: seq<char>, none: seq<int>)
    requires Steady(s) && |s.super.stack| == GROUP && TextBuffer(buf) && |none| == DIRECT
    ensures Steady(StoreText(s, buf, none).0)
  {
    hide Steady, Fill, AllocBlock, WriteBlock, Chunk, StrLen;
    FillSteady(s, buf, none, 0);
    AllocBlockSteady(s);
    var (s1, b) := AllocBlock(s);
    WritesSteady(s1, b, Bytes(Chunk(buf, 0)), BLANK);
  }

  lemma CreateSteady(s: State, who: Session, d: int, name: string, buf: seq<char>, junk: int)
    requires Steady(s) && |s.super.stack| == GROUP && |INodeAt(s.img.inodes, d).direct| == DIRECT && TextBuffer(buf)
    ensures Steady(Create(s, who, d, name, buf, junk).0)
  {
    hide Steady, AllocINode, Taken, FirstHole, Around, StoreEntry, EntryBlock, WriteINode, StoreText, StrLen, WithJunk;
    var n := INodeAt(s.img.inodes, d);
    var h := FirstHole(Slots(s.img.blocks, n.direct), 0);
    if h < SLOTS {
      EntryBlockSteady(s, n, h);
      var (s1, blk) := EntryBlock(s, n, h);
      INodesSteady(s1, 0);
      var (s2, i) := AllocINode(s1);
      StackKept(s1);
      StoreTextSteady(s2, buf, NO_BLOCKS);
      var (s3, direct, ok) := StoreText(s2, buf, NO_BLOCKS);
      var file := NewFileINode(who, StrLen(buf), WithJunk(direct, StrLen(buf), junk));
      WritesSteady(s3, i, Zeroed(), file);
      StoreSteady(WriteINode(s3, i, file), d, n, h, blk, Around(s.img.blocks, n.direct, h), Entry(name, i));
    }
  }

  lemma WriteFileSteady(s: State, n: INode, i: int, buf: seq<char>)
    requires Steady(s) && |s.super.stack| == GROUP && |n.direct| == DIRECT && TextBuffer(buf)
    ensures Steady(WriteFile(s, n, i, buf))
  {
    hide Steady, Fill, WriteINode, StrLen;
    FillSteady(s, buf, n.direct, 0);
    var (s1, direct, ok) := Fill(s, buf, n.direct, 0);
    WritesSteady(s1, i, Zeroed(), n.(direct := direct, size := StrLen(buf)));
  }

  lemma {:induction false} FreeAllSteady(s: State, direct: seq<int>, k: nat)
    requires Steady(s) && |s.super.stack| == GROUP && k <= |direct|
    ensures Steady(FreeAll(s, direct, k))
    decreases |direct| - k
  {
    hide Steady, FreeBlock;
    if k < |direct| {
      if direct[k] == -1 {
        FreeAllSteady(s, direct, k + 1);
      } else {
        FreeBlockSteady(s, direct[k]);
        FreeAllSteady(FreeBlock(s, direct[k]).0, direct, k + 1);
      }
    }
  }

  lemma DelFileSteady(s: State, who: Session, d: int, name: string)
    requires Steady(s) && |s.super.stack| == GROUP && |INodeAt(s.img.inodes, d).direct| == DIRECT
    ensures Steady(DelFile(s, who, d, name).0)
  {
    hide Steady, FreeAll, FreeINode, FindKind, MayWrite, Around, StoreHole;
    var n := INodeAt(s.img.inodes, d);
    var h := FindKind(s.img, n.direct, name, false, 0);
    if h < SLOTS {
      var i := Slots(s.img.blocks, n.direct)[h].ino;
      FreeAllSteady(s, INodeAt(s.img.inodes, i).direct, 0);
      var s1 := FreeAll(s, INodeAt(s.img.inodes, i).direct, 0);
      INodesSteady(s1, i);
      StoreSteady(FreeINode(s1, i).0, d, n, h, 0, Around(s.img.blocks, n.direct, h), HOLE);
    }
  }

  /** A repair keeps memory and image in step. */
  lemma RepairSynced(s: State)
    requires Synced(s)
    ensures Synced(Repair.Repair(s))
  {
    hide Rebuilt;
  }

  // ---------------------------------------------------------------------
  // The same, for methods that may be called on any state
  // ---------------------------------------------------------------------

  lemma FreedSteady(s: State, a: int)
    requires |s.super.stack| == GROUP
    ensures Steady(s) ==> Steady(FreeBlock(s, a).0) && Steady(FreeINode(s, a).0)
  {
    hide Steady, FreeBlock, FreeINode;
    if Steady(s) {
      FreeBlockSteady(s, a);
      INodesSteady(s, a);
    }
  }

  lemma HoleSteady(s: State, d: int, n: INode, h: int, was: seq<Entry>)
    requires 0 <= h < SLOTS && |n.direct| == DIRECT && |was| == PER_BLOCK
    ensures Steady(s) ==> Steady(StoreHole(s, d, n, h, was))
  {
    hide Steady;
    if Steady(s) { StoreSteady(s, d, n, h, 0, was, HOLE); }
  }

  lemma CreatedSteady(s: State, who: Session, d: int, name: string, buf: seq<char>, junk: int)
    requires |s.super.stack| == GROUP && |INodeAt(s.img.inodes, d).direct| == DIRECT && TextBuffer(buf)
    ensures Steady(s) ==> Steady(Create(s, who, d, name, buf, junk).0)
  {
    hide Steady, Create;
    if Steady(s) { CreateSteady(s, who, d, name, buf, junk); }
  }

  lemma DirSteady(s: State, who: Session, d: int, name: string)
    requires |s.super.stack| == GROUP && |INodeAt(s.img.inodes, d).direct| == DIRECT
    ensures Steady(s) ==> Steady(MakeDir(s, who, d, name).0)
  {
    hide Steady, MakeDir;
    if Steady(s) { MakeDirSteady(s, who, d, name); }
  }

  lemma GoneSteady(s: State, who: Session, d: int, name: string)
    requires |s.super.stack| == GROUP && |INodeAt(s.img.inodes, d).direct| == DIRECT
    ensures Steady(s) ==> Steady(DelFile(s, who, d, name).0)
  {
    hide Steady, DelFile;
    if Steady(s) { DelFileSteady(s, who, d, name); }
  }
}
