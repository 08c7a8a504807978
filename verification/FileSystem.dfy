/**
 The FileSystem class: the superblock, both bitmaps and the image, updated in
 place by the operations of the program. Each method is proved equal to the
 function that specifies it or against the property it is for.
 */
module FileSystemClass {
  import opened Disk
  import opened Allocator
  import opened Tree
  import opened INodes
  import opened Directories
  import opened MakeDirectory
  import opened SlotScan
  import opened FileData
  import opened CreateFile
  import opened Freeing
  import opened DeleteFile
  import opened Subtree
  import opened DeleteDirectory
  import opened Outline
  import opened Resolve
  import opened CopyTree
  import opened Paths
  import opened MoveTree
  import opened MoveSettling
  import opened Sessions
  import opened Outcomes
  import opened CopyPlan
  import opened Verdicts
  import opened Strays
  import opened Repair
  import opened SteadyState
  import opened FreshChain
  import opened Runs
  import opened Formatting
  import opened Navigation
  import opened Permissions
  import opened Room
  import opened SmallDirs
  import opened FormatTree

  /** The state FreeBlock has reached before it saves the superblock. */
  lemma FreedImage(s: State, s1: State, a: int, top: nat)
    requires |s.super.stack| == GROUP && CanFree(s, a) && top == Top(s.super.freeBlocks)
    requires s1.inodeBits == s.inodeBits && s1.blockBits == s.blockBits
    requires
      var stack := if top == GROUP - 1 then SpilledStack(s.super.leader) else s.super.stack[top + 1 := a];
      && s1.super == s.super.(stack := stack, freeBlocks := s.super.freeBlocks + 1)
      && s1.img.(blocks := s.img.blocks) == s.img
      && s1.img.blocks == if top == GROUP - 1 then s.img.blocks[a := Zeroed()][a := Stack(stack)]
                          else s.img.blocks[a := Zeroed()]
    ensures Allocator.FreeBlock(s, a) == (MarkBlock(Disk.SaveSuper(s1), a, false), true)
  {
    var b := Stack(SpilledStack(s.super.leader));
    assert s.img.blocks[a := Zeroed()][a := b] == s.img.blocks[a := b];
  }

  /** Pointers `k`, `k + 1`, ... set to -1. */
  method ClearTail(direct: seq<int>, k: nat) returns (r: seq<int>)
    requires |direct| == DIRECT
    ensures |r| == DIRECT && forall q :: 0 <= q < DIRECT ==> r[q] == if q < k then direct[q] else -1
  {
    r := direct;
    var q := k;
    while q < DIRECT
      invariant k <= q && |r| == DIRECT
      invariant forall p :: 0 <= p < DIRECT ==> r[p] == if k <= p < q then -1 else direct[p]
    {
      r := r[q := -1];
      q := q + 1;
    }
  }

  class FileSystem {
    // the superblock
    var freeInodes: nat
    var freeBlocks: nat
    var leader: int
    const stack: array<int>
    // the bitmaps
    const inodeBits: array<bool>
    const blockBits: array<bool>
    // data.img
    var img: Image
    // the session: the user, cur_dir_addr and cur_dir_name
    var who: Session
    var curDir: int
    var curName: string

    ghost predicate Valid()
      reads this
    {
      && stack.Length == GROUP && inodeBits.Length == INODE_NUM && blockBits.Length == BLOCK_NUM
      && inodeBits != blockBits
    }

    ghost function Repr(): set<object> { {this, stack, inodeBits, blockBits} }

    function Sup(): Super
      reads this, stack
    {
      Super(freeInodes, freeBlocks, leader, stack[..])
    }

    ghost function S(): (s: State)
      reads this, stack, inodeBits, blockBits
      ensures |s.super.stack| == stack.Length
    {
      State(Sup(), inodeBits[..], blockBits[..], img)
    }

    constructor (image: Image, user: Session)
      ensures Valid() && fresh(Repr()) && img == image && who == user
    {
      freeInodes, freeBlocks, leader := 0, 0, 0;
      stack := new int[GROUP];
      inodeBits := new bool[INODE_NUM];
      blockBits := new bool[BLOCK_NUM];
      img, who, curDir, curName := image, user, ROOT, "/";
    }

    // -------------------------------------------------------------------
    // src/filesystem_alloc.cpp
    // -------------------------------------------------------------------

    method SaveSuper()
      requires Valid()
      modifies this`img
      ensures S() == Disk.SaveSuper(old(S()))
    {
      img := img.(super := Sup());
    }

    /** `block_bitmap[id] = v` and the write of that byte. */
    method StoreBlockBit(id: int, v: bool)
      requires Valid()
      modifies this`img, blockBits
      ensures blockBits[..] == SetBit(old(blockBits[..]), id, v)
      ensures img == old(img).(blockBits := SetBit(old(img).blockBits, id, v))
    {
      if 0 <= id < blockBits.Length { blockBits[id] := v; }
      img := img.(blockBits := SetBit(img.blockBits, id, v));
    }

    method StoreINodeBit(id: int, v: bool)
      requires Valid()
      modifies this`img, inodeBits
      ensures inodeBits[..] == SetBit(old(inodeBits[..]), id, v)
      ensures img == old(img).(inodeBits := SetBit(old(img).inodeBits, id, v))
    {
      if 0 <= id < inodeBits.Length { inodeBits[id] := v; }
      img := img.(inodeBits := SetBit(img.inodeBits, id, v));
    }

    method WriteBlockAt(a: int, b: Block)
      requires Valid()
      modifies this`img
      ensures S() == WriteBlock(old(S()), a, b)
    {
      img := img.(blocks := img.blocks[a := b]);
    }

    method WriteINodeAt(a: int, n: INode)
      requires Valid()
      modifies this`img
      ensures S() == WriteINode(old(S()), a, n)
    {
      img := img.(inodes := img.inodes[a := n]);
    }

    method BlockAlloc() returns (a: int)
      requires Valid()
      modifies Repr()
      ensures Valid() && unchanged(`who, `curDir, `curName)
      ensures (S(), a) == AllocBlock(old(S()))
    {
      if freeBlocks == 0 {
        return -1;
      }
      var top := Top(freeBlocks);
      if top == 0 {
        a := leader;
        leader := stack[0];
        var next := StackAt(img.blocks, leader);
        forall k | 0 <= k < GROUP { stack[k] := next[k]; }
        assert stack[..] == next;
        freeBlocks := freeBlocks - 1;
      } else {
        a := stack[top];
        stack[top] := -1;
        freeBlocks := freeBlocks - 1;
      }
      assert Sup() == PoppedSuper(old(Sup()), old(img).blocks);
      ghost var s1 := S();
      assert s1 == old(S()).(super := Sup());
      SaveSuper();
      StoreBlockBit(BlockId(a), true);
      assert S() == MarkBlock(Disk.SaveSuper(s1), a, true);
    }

    method FreeBlock(a: int) returns (ok: bool)
      requires Valid()
      modifies Repr()
      ensures Valid() && unchanged(`who, `curDir, `curName)
      ensures (S(), ok) == Allocator.FreeBlock(old(S()), a)
    {
      if !IsBlock(a) || !blockBits[BlockId(a)] || freeBlocks == BLOCK_NUM {
        return false;
      }
      var top := Top(freeBlocks);
      WriteBlockAt(a, Zeroed());
      if top == GROUP - 1 {
        stack[0] := leader;
        forall k | 1 <= k < GROUP { stack[k] := -1; }
        assert stack[..] == SpilledStack(leader);
        WriteBlockAt(a, Stack(stack[..]));
      } else {
        stack[top + 1] := a;
        assert stack[..] == old(stack[..])[top + 1 := a];
      }
      freeBlocks := freeBlocks + 1;
      ghost var s1 := S();
      FreedImage(old(S()), s1, a, top);
      SaveSuper();
      StoreBlockBit(BlockId(a), false);
      assert S() == MarkBlock(Disk.SaveSuper(s1), a, false);
      ok := true;
    }

    method INodeAlloc() returns (a: int)
      requires Valid()
      modifies Repr()
      ensures Valid() && unchanged(`who, `curDir, `curName)
      ensures (S(), a) == AllocINode(old(S()))
    {
      if freeInodes == 0 {
        return -1;
      }
      var pos := 0;
      for k := 0 to INODE_NUM
        invariant pos == 0
        invariant FirstClear(inodeBits[..], 0) == FirstClear(inodeBits[..], k)
      {
        if !inodeBits[k] {
          pos := k;
          break;
        }
      }
      assert pos == FirstClear(inodeBits[..], 0);
      freeInodes := freeInodes - 1;
      SaveSuper();
      a := INodeAddr(pos);
      StoreINodeBit(pos, true);
    }

    method INodeFree(a: int) returns (ok: bool)
      requires Valid()
      modifies Repr()
      ensures Valid() && unchanged(`who, `curDir, `curName)
      ensures (S(), ok) == FreeINode(old(S()), a)
    {
      if !IsINode(a) || !inodeBits[INodeId(a)] {
        return false;
      }
      WriteINodeAt(a, BLANK);
      freeInodes := freeInodes + 1;
      SaveSuper();
      StoreINodeBit(INodeId(a), false);
      ok := true;
    }
  
    // -------------------------------------------------------------------
    // src/filesystem_directory_ops.cpp
    // -------------------------------------------------------------------

    method MakeDir(d: int, name: string) returns (ok: bool)
      requires Valid() && |INodeAt(img.inodes, d).direct| == DIRECT
      modifies Repr()
      ensures Valid() && unchanged(`who, `curDir, `curName)
      ensures (S(), ok) == MakeDirectory.MakeDir(old(S()), who, d, name)
    {
      if |name| >= MAX_NAME {
        return false;
      }
      var cur := INodeAt(img.inodes, d);
      if !MayMakeDir(who, cur) {
        return false;
      }
      var taken, posI, posJ := ScanDirectory(img.blocks, cur.direct, name, true);
      if taken || posI == -1 {
        return false;
      }
      var h := posI * PER_BLOCK + posJ;
      var dir := Around(img.blocks, cur.direct, h);
      var blk := DirectoryBlock(cur, h);
      if blk == -1 {
        return false;
      }
      var i := INodeAlloc();
      if i == -1 {
        return false;
      }
      var b := BlockAlloc();
      if b == -1 {
        return false;
      }
      WriteBlockAt(b, Entries(EmptyDir(i, d)));
      WriteINodeAt(i, NewDirINode(who, b));
      AddEntry(d, cur, h, blk, dir, Entry(name, i));
      ok := true;
    }

    /** The block of slot `h`, allocated if the directory has none there. */
    method DirectoryBlock(cur: INode, h: nat) returns (blk: int)
      requires Valid() && |cur.direct| == DIRECT && h < SLOTS
      modifies Repr()
      ensures Valid() && unchanged(`who, `curDir, `curName)
      ensures (S(), blk) == EntryBlock(old(S()), cur, h)
    {
      blk := cur.direct[h / PER_BLOCK];
      if blk == -1 {
        blk := BlockAlloc();
      }
    }

    /** The entry is written into its block, then the directory's inode is written back. */
    method AddEntry(d: int, cur: INode, h: nat, blk: int, dir: seq<Entry>, e: Entry)
      requires Valid() && |cur.direct| == DIRECT && h < SLOTS && |dir| == PER_BLOCK
      modifies this`img
      ensures S() == StoreEntry(old(S()), d, cur, h, blk, dir, e)
    {
      WriteBlockAt(blk, Entries(dir[h % PER_BLOCK := e]));
      WriteINodeAt(d, cur.(direct := cur.direct[h / PER_BLOCK := blk], cnt := (cur.cnt + 1) % 65536));
    }
  
    // -------------------------------------------------------------------
    // src/filesystem_file_create.cpp, src/filesystem_file_data.cpp
    // -------------------------------------------------------------------

    /** The pointers of the new inode start out as `junk`, whatever the stack held. */
    method Create(d: int, name: string, buf: seq<char>, junk: seq<int>) returns (ok: bool)
      requires Valid() && |INodeAt(img.inodes, d).direct| == DIRECT && TextBuffer(buf) && |junk| == DIRECT
      modifies Repr()
      ensures Valid() && unchanged(`who, `curDir, `curName)
      ensures (S(), ok) == CreateFile.Create(old(S()), who, d, name, buf, UnsetPointer(buf, junk))
    {
      hide AllocINode, AllocBlock, StoreText, Taken, FirstHole, StoreEntry;
      if |name| >= MAX_NAME {
        return false;
      }
      var cur := INodeAt(img.inodes, d);
      var taken, posI, posJ := ScanDirectory(img.blocks, cur.direct, name, false);
      if taken || posI == -1 {
        return false;
      }
      var h := posI * PER_BLOCK + posJ;
      var dir := Around(img.blocks, cur.direct, h);
      var blk := DirectoryBlock(cur, h);
      if blk == -1 {
        return false;
      }
      var i := INodeAlloc();
      if i == -1 {
        return false;
      }
      var stored, direct := StoreNewText(buf, junk);
      if !stored {
        return false;
      }
      WriteINodeAt(i, NewFileINode(who, StrLen(buf), direct));
      AddEntry(d, cur, h, blk, dir, Entry(name, i));
      ok := true;
    }

    /** The content loop of Create, the fill with -1 after it, and the block an empty file gets. */
    method StoreNewText(buf: seq<char>, junk: seq<int>) returns (ok: bool, direct: seq<int>)
      requires Valid() && TextBuffer(buf) && |junk| == DIRECT
      modifies Repr()
      ensures Valid() && unchanged(`who, `curDir, `curName)
      ensures var (s', clean, done) := StoreText(old(S()), buf, NO_BLOCKS);
        && S() == s' && ok == done
        && (ok ==> direct == WithJunk(clean, StrLen(buf), UnsetPointer(buf, junk)))
    {
      hide Fill, AllocBlock, StrLen, BlocksFor, WriteBlock, Chunk;
      direct := junk;
      var len := StrLen(buf);
      ghost var clean := NO_BLOCKS;
      ghost var s0 := S();
      var k := 0;
      FillTurn(s0, buf, clean, k);
      while k < len
        invariant Valid() && unchanged(`who, `curDir, `curName)
        invariant 0 <= k <= MAX_FILE && k % BLOCK_SIZE == 0 && |direct| == |clean| == DIRECT
        invariant k > 0 ==> k - BLOCK_SIZE < len
        invariant forall q :: 0 <= q < DIRECT ==> if q < k / BLOCK_SIZE then direct[q] == clean[q] else direct[q] == junk[q] && clean[q] == -1
        invariant Fill(s0, buf, NO_BLOCKS, 0) == Fill(S(), buf, clean, k / BLOCK_SIZE)
      {
        FillTurn(S(), buf, clean, k / BLOCK_SIZE);
        var b := BlockAlloc();
        if b == -1 {
          return false, direct;
        }
        direct := direct[k / BLOCK_SIZE := b];
        clean := clean[k / BLOCK_SIZE := b];
        WriteBlockAt(b, Bytes(Chunk(buf, k / BLOCK_SIZE)));
        k := k + BLOCK_SIZE;
      }
      FillTurn(S(), buf, clean, k / BLOCK_SIZE);
      direct := ClearTail(direct, len / BLOCK_SIZE + 1);
      if len == 0 {
        var b := BlockAlloc();
        if b == -1 {
          return false, direct;
        }
        direct := direct[0 := b];
        WriteBlockAt(b, Bytes(Chunk(buf, 0)));
        assert direct == NO_BLOCKS[0 := b];
        return true, direct;
      }
      assert direct == WithJunk(clean, len, UnsetPointer(buf, junk));
      ok := true;
    }

    /** The block a piece overwrites, or a fresh one. */
    method PieceBlock(b0: int) returns (b: int)
      requires Valid()
      modifies Repr()
      ensures Valid() && unchanged(`who, `curDir, `curName)
      ensures (S(), b) == if b0 == -1 then AllocBlock(old(S())) else (old(S()), b0)
    {
      b := b0;
      if b == -1 {
        b := BlockAlloc();
      }
    }

    method WriteFile(n: INode, i: int, buf: seq<char>)
      requires Valid() && |n.direct| == DIRECT && TextBuffer(buf)
      modifies Repr()
      ensures Valid() && unchanged(`who, `curDir, `curName)
      ensures S() == FileData.WriteFile(old(S()), n, i, buf)
    {
      hide Fill, AllocBlock, StrLen;
      var len := StrLen(buf);
      var direct := n.direct;
      ghost var s0 := S();
      var k := 0;
      while k < len
        invariant Valid() && unchanged(`who, `curDir, `curName)
        invariant 0 <= k <= MAX_FILE && k % BLOCK_SIZE == 0 && |direct| == DIRECT
        invariant Fill(s0, buf, n.direct, 0) == Fill(S(), buf, direct, k / BLOCK_SIZE)
      {
        FillTurn(S(), buf, direct, k / BLOCK_SIZE);
        var b := PieceBlock(direct[k / BLOCK_SIZE]);
        if b == -1 {
          return;
        }
        direct := direct[k / BLOCK_SIZE := b];
        WriteBlockAt(b, Bytes(Chunk(buf, k / BLOCK_SIZE)));
        k := k + BLOCK_SIZE;
      }
      FillTurn(S(), buf, direct, k / BLOCK_SIZE);
      WriteINodeAt(i, n.(direct := direct, size := len));
    }
  
    // -------------------------------------------------------------------
    // src/filesystem_file_delete.cpp
    // -------------------------------------------------------------------

    method DelFile(d: int, name: string) returns (out: Outcome)
      requires Valid() && |INodeAt(img.inodes, d).direct| == DIRECT
      modifies Repr()
      ensures Valid() && unchanged(`who, `curDir, `curName)
      ensures (S(), out) == DeleteFile.DelFile(old(S()), who, d, name)
    {
      if |name| >= MAX_NAME {
        return TooLong;
      }
      var cur := INodeAt(img.inodes, d);
      if !MayWrite(who, cur) {
        return Denied;
      }
      var h := FindEntry(img, cur.direct, name, false);
      if h == SLOTS {
        return NotFound;
      }
      var dir := Around(img.blocks, cur.direct, h);
      var i := dir[h % PER_BLOCK].ino;
      FreeNamed(INodeAt(img.inodes, i).direct);
      var freed := INodeFree(i);
      DropEntry(d, cur, h, dir);
      out := Done;
    }

    /** FreeBlock on each pointer that is not -1. */
    method FreeNamed(direct: seq<int>)
      requires Valid()
      modifies Repr()
      ensures Valid() && unchanged(`who, `curDir, `curName)
      ensures S() == FreeAll(old(S()), direct, 0)
    {
      ghost var s0 := S();
      for k := 0 to |direct|
        invariant Valid() && unchanged(`who, `curDir, `curName)
        invariant FreeAll(s0, direct, 0) == FreeAll(S(), direct, k)
      {
        if direct[k] != -1 {
          var ok := FreeBlock(direct[k]);
        }
      }
    }

    /** The entry is emptied in its block, then the directory's inode is written back. */
    method DropEntry(d: int, cur: INode, h: nat, dir: seq<Entry>)
      requires Valid() && |cur.direct| == DIRECT && h < SLOTS && |dir| == PER_BLOCK
      modifies this`img
      ensures S() == StoreHole(old(S()), d, cur, h, dir)
    {
      WriteBlockAt(cur.direct[h / PER_BLOCK], Entries(dir[h % PER_BLOCK := Entry("", -1)]));
      WriteINodeAt(d, cur.(cnt := (cur.cnt - 1) % 65536));
    }
  
    // -------------------------------------------------------------------
    // Recursive deletion, src/filesystem_directory_ops.cpp
    // -------------------------------------------------------------------

    /**
     Deletes node `i` and everything below it: exactly the inodes of the subtree
     and the blocks `Freed` describes go from allocated to free, and nothing else
     changes. An address off the tree must read as a node of at most two entries.
     */
    method DeleteFileOrDir(i: int, ghost c: Cert)
      requires Valid() && (SubOk(S(), c, i) || FewEntries(img, i))
      modifies Repr()
      ensures Valid() && unchanged(`who, `curDir, `curName)
      ensures Steady(old(S())) ==> Steady(S())
      ensures SubOk(old(S()), c, i) ==> Swept(old(S()), S(), Sub(c, i), Freed(old(S()), c, Sub(c, i)))
      ensures FewEntries(old(img), i) ==> S() == SmallDeleted(old(S()), i)
      decreases c.maxDepth - DepthOf(c, i), 1
    {
      hide Deleting, SubOk, Swept, Freed, Sub, Allocator.FreeBlock, FreeINode, Steady;
      ghost var s := S();
      if SubOk(s, c, i) { SubNode(s, c, i); }
      var cur := INodeAt(img.inodes, i);
      if cur.cnt <= 2 {
        if SubOk(s, c, i) { SmallDone(s, c, i); }
        FreedSteady(S(), cur.direct[0]);
        var freed := FreeBlock(cur.direct[0]);
        FreedSteady(S(), i);
        var ok := INodeFree(i);
        return;
      }
      DeletingStart(s, c, i);
      for k := 0 to DIRECT
        invariant Valid() && unchanged(`who, `curDir, `curName)
        invariant Deleting(s, S(), c, i, k * PER_BLOCK, k)
        invariant Steady(s) ==> Steady(S())
      {
        if cur.direct[k] == -1 {
          DeletingAbsent(s, S(), c, i, k);
        } else {
          DeleteBlock(i, k, cur.direct[k], s, c);
        }
      }
      DeletingDone(s, S(), c, i, DIRECT * PER_BLOCK, DIRECT);
      FreedSteady(S(), i);
      var ok := INodeFree(i);
    }

    /** One directory block of the loop: its real children are deleted, then the block if there was one. */
    method DeleteBlock(i: int, k: nat, block: int, ghost s: State, ghost c: Cert)
      requires Valid() && Deleting(s, S(), c, i, k * PER_BLOCK, k)
      requires k < DIRECT && PointerOf(s, i, k) == block != -1
      modifies Repr()
      ensures Valid() && unchanged(`who, `curDir, `curName)
      ensures Steady(old(S())) ==> Steady(S())
      ensures Deleting(s, S(), c, i, (k + 1) * PER_BLOCK, k + 1)
      decreases c.maxDepth - DepthOf(c, i), 0
    {
      hide Deleting, EntriesOf, SomeReal, SubOk, Swept, Freed, Sub, Allocator.FreeBlock, Steady;
      DeletingRead(s, S(), c, i, k);
      var entries := EntriesAt(img.blocks, block);
      var isFree := false;
      for j := 0 to PER_BLOCK
        invariant Valid() && unchanged(`who, `curDir, `curName)
        invariant Deleting(s, S(), c, i, k * PER_BLOCK + j, k)
        invariant isFree == SomeReal(entries, j)
        invariant Steady(old(S())) ==> Steady(S())
      {
        ghost var s1 := S();
        if RealChild(entries[j]) {
          isFree := true;
          DeletingChild(s, s1, c, i, k, j, entries);
          DeleteFileOrDir(entries[j].ino, c);
          DeletingChildDone(s, s1, S(), c, i, k, j, entries);
        } else {
          DeletingSkip(s, s1, c, i, k, j, entries);
        }
      }
      DeletingBlock(s, S(), c, i, k, entries);
      if isFree {
        FreedSteady(S(), block);
        var ok := FreeBlock(block);
      }
    }
  
    /**
     DeleteDir either changes nothing or removes the directory with everything
     below it. The certificate describes the tree before the call. Where an empty
     name finds a free slot whose stale address reads as a directory, that must be
     one of at most two entries; see BadNames.
     */
    method DeleteDir(d: int, name: string, ghost c: Cert) returns (ok: bool, ghost h: int, ghost i: int)
      requires Valid() && BitsInv(S()) && TreeInv(S(), c) && d in c.place && IsDir(INodeAt(img.inodes, d))
      requires |INodeAt(img.inodes, d).direct| == DIRECT
      requires name == "" && MayDeleteDir(who, INodeAt(img.inodes, d)) ==> SparesTree(img, INodeAt(img.inodes, d).direct)
      modifies Repr()
      ensures Valid() && unchanged(`who, `curDir, `curName)
      ensures Steady(old(S())) ==> Steady(S())
      ensures name != "" ==> (ok <==> DeletesDir(old(S()), c, who, d, name))
      ensures name == "" ==> (ok <==> MayDeleteDir(who, INodeAt(old(img).inodes, d)) && HoleThere(old(img), d))
      ensures !ok ==> S() == old(S())
      ensures ok && name != "" ==> DirDeleted(old(S()), S(), c, d, name, h, i)
      ensures ok && name == "" ==> HoleFound(old(img), d, h) && S() == HoleDropped(old(S()), d, h)
    {
      hide DirDeleted, DirFound, Sub, TreeInv, BitsInv, Steady, Strayed;
      TreePlaced(S(), c);
      NoStrays(S(), c.place.Keys);
      forall h, x | DirFound(S(), c, d, name, h, x) ensures Sub(c, x) <= c.place.Keys { SubPlaced(c, x); }
      ghost var t;
      ok, h, i, t := DeleteCleanDir(d, name, c, S(), c.place.Keys);
    }

    /**
     The same where files outside the directory may have stray pointers: `t` and
     `t'` are the clean twins of the states before and after.
     */
    method DeleteCleanDir(d: int, name: string, ghost c: Cert, ghost t: State, ghost clean: set<int>)
      returns (ok: bool, ghost h: int, ghost i: int, ghost t': State)
      requires Valid() && Strayed(S(), t, clean) && BitsInv(t) && TreeInv(t, c)
      requires d in c.place && IsDir(INodeAt(t.img.inodes, d)) && |INodeAt(t.img.inodes, d).direct| == DIRECT
      requires name == "" && MayDeleteDir(who, INodeAt(t.img.inodes, d)) ==> SparesTree(t.img, INodeAt(t.img.inodes, d).direct)
      requires forall h, x :: DirFound(t, c, d, name, h, x) ==> Placed(c) && Sub(c, x) <= clean
      modifies Repr()
      ensures Valid() && unchanged(`who, `curDir, `curName)
      ensures Steady(old(S())) ==> Steady(S())
      ensures name != "" ==> (ok <==> DeletesDir(t, c, who, d, name))
      ensures name == "" ==> (ok <==> MayDeleteDir(who, INodeAt(t.img.inodes, d)) && HoleThere(t.img, d))
      ensures !ok ==> S() == old(S()) && t' == t
      ensures ok && name != "" ==> DirDeleted(t, t', c, d, name, h, i)
      ensures ok && name == "" ==> HoleFound(t.img, d, h) && |t.super.stack| == GROUP && t' == HoleDropped(t, d, h)
      ensures Strayed(S(), t', clean) && (old(S()) == t ==> S() == t')
    {
      hide DirDeleted, DirFound, SubOk, Swept, Freed, Sub, TreeInv, BitsInv, StoreHole, Steady, Strayed, Slots, FewEntries, SparesTree,
        HoleFound, HoleDropped, SmallDeleted, FindKind, MayDeleteDir, HoleThere, ChildNamed;
      h, i, t' := -1, -1, t;
      if |name| >= MAX_NAME || name == "." || name == ".." {
        return false, h, i, t';
      }
      ghost var s := S();
      StrayReads(s, t, clean, d);
      SameImage(s, t, clean);
      var cur := INodeAt(img.inodes, d);
      StrayFind(s, t, clean, cur.direct, name, true);
      if !MayDeleteDir(who, cur) {
        return false, h, i, t';
      }
      var pos := FindEntry(img, cur.direct, name, true);
      if name == "" { HoleThereIff(t.img, d); } else { KindFound(t, c, d, name, true); }
      if pos == SLOTS {
        return false, h, i, t';
      }
      var dir := Around(img.blocks, cur.direct, pos);
      var child := dir[pos % PER_BLOCK].ino;
      h, i := pos, child;
      ghost var t1;
      if name == "" {
        t1 := HoleTaken(s, t, clean, d, pos, child);
        DeleteFileOrDir(child, c);
      } else {
        FindDirEntry(t, c, d, name, h);
        CleanSubtree(s, t, clean, c, child);
        DeleteFileOrDir(child, c);
        t1 := SweptTwin(s, t, clean, S(), Sub(c, child), Freed(t, c, Sub(c, child)));
        DirDone(t, c, d, name, h, i, t1);
      }
      HoleSteady(S(), d, cur, pos, dir);
      StrayStore(S(), t1, clean, d, cur, pos, 0, dir, HOLE);
      t' := StoreHole(t1, d, cur, pos, dir);
      DropEntry(d, cur, pos, dir);
      ok := true;
    }
  
    // -------------------------------------------------------------------
    // Copy and move, src/filesystem_adapter.cpp
    // -------------------------------------------------------------------

    /**
     copyRecursive. Whatever the result, the tree and the allocator are intact and
     every node there was, but the target directory, looks the same. A copy that
     succeeds leaves a clone of the source under the target.

     This is said of the clean twins `t` and `t'` of the states before and after:
     for a file whose length makes Create leave a pointer unassigned, the clone's
     pointer is whatever `junk` held. Where that is -1 the states are their twins.
     */
    method CopyRecursive(src: int, tgt: int, name: string, junk: seq<int>, ghost c: Cert, ghost doc: Doc,
                         ghost t: State, ghost clean: set<int>)
      returns (r: CopyResult, ghost c': Cert, ghost i: int, ghost t': State)
      requires Valid() && Strayed(S(), t, clean) && CanCopy(t, c, src, tgt) && |junk| == DIRECT
      requires Placed(c) && src in c.place && clean <= c.place.Keys && doc == DocOf(t, c, src)
      requires name == ".." ==> tgt != ROOT
      modifies Repr()
      ensures Valid() && unchanged(`who, `curDir, `curName)
      ensures Steady(old(S())) ==> Steady(S())
      ensures Strayed(S(), t', clean) && (Tame(doc, junk) && old(S()) == t ==> S() == t')
      ensures GrownAt(t, c, t', c', tgt) && OneMore(t, t', tgt, name)
      ensures r == ResultOf(PlanAt(t, who, tgt, name, doc))
      ensures r == Copied ==> ClonedAt(t, c, t', c', tgt, name, i, doc) && Took(t, t', tgt, PlanAt(t, who, tgt, name, doc))
      decreases doc, 2
    {
      hide OneMore, GrownAt, ClonedAt, CanCopy, DocOf, Steady, Strayed, Tame, Took, FindChild, MayMakeDir, EntryNeeds;
      c', i, t' := c, -1, t;
      NothingCopied(t, c, src, tgt);
      SpotTaken(t, c, who, src, tgt, name);
      if name == "" || '/' in name || '\\' in name {
        return InvalidName, c', i, t';
      }
      if |name| >= MAX_NAME {
        return NameTooLong, c', i, t';
      }
      StrayChild(S(), t, clean, tgt, name);
      var existing := FindChildIn(img, tgt, name);
      if existing != -1 {
        return Exists, c', i, t';
      }
      var source := INodeAt(img.inodes, src);
      StrayReads(S(), t, clean, src);
      if IsDir(source) {
        r, c', i, t' := CopyDirectory(src, tgt, name, junk, c, doc, t, clean);
      } else {
        r, c', i, t' := CopyFile(src, tgt, name, junk, c, t, clean);
      }
    }

    method CopyFile(src: int, tgt: int, name: string, junk: seq<int>, ghost c: Cert, ghost t: State, ghost clean: set<int>)
      returns (r: CopyResult, ghost c': Cert, ghost i: int, ghost t': State)
      requires Valid() && Strayed(S(), t, clean) && CanCopy(t, c, src, tgt) && |junk| == DIRECT
      requires Placed(c) && src in c.place && clean <= c.place.Keys
      requires !IsDir(INodeAt(t.img.inodes, src)) && PlainKid(name) && FindChild(t.img, tgt, name) == -1 && (name == ".." ==> tgt != ROOT)
      modifies Repr()
      ensures Valid() && unchanged(`who, `curDir, `curName)
      ensures Steady(old(S())) ==> Steady(S())
      ensures Strayed(S(), t', clean) && (Tame(DocOf(t, c, src), junk) && old(S()) == t ==> S() == t')
      ensures GrownAt(t, c, t', c', tgt) && OneMore(t, t', tgt, name)
      ensures r == ResultOf(PlanAt(t, who, tgt, name, DocOf(t, c, src)))
      ensures r == Copied ==>
        ClonedAt(t, c, t', c', tgt, name, i, DocOf(t, c, src)) && Took(t, t', tgt, PlanAt(t, who, tgt, name, DocOf(t, c, src)))
    {
      hide OneMore, GrownAt, ClonedAt, CanCopy, DocOf, CreateFile.Create, ZeroPadded, FileText, Steady, Strayed, Tame,
        UnsetPointer, TreeInv, DiskInv, Took, PlanAt, PlainKid, FindChild;
      c', i, t' := c, -1, t;
      NothingCopied(t, c, src, tgt);
      var source := INodeAt(img.inodes, src);
      StrayReads(S(), t, clean, src);
      SourceText(t, c, who, src, tgt, name);
      if source.size > MAX_FILE {
        return TooLarge, c', i, t';
      }
      var content := ReadFileContent(img.blocks, source);
      if |content| != source.size {
        return ReadFailed, c', i, t';
      }
      if '\0' in content {
        return NotText, c', i, t';
      }
      TameText(t, c, src, tgt, content, junk);
      TargetReady(t, c, src, tgt);
      FileCourse(t, c, who, src, tgt, name, content);
      ghost var text, unset := ZeroPadded(content), UnsetPointer(ZeroPadded(content), junk);
      c', i := CopyFileKeeps(t, c, who, src, tgt, name, content);
      StrayCreate(S(), t, clean, c, who, tgt, name, text, unset);
      t' := CreateFile.Create(t, who, tgt, name, text, -1).0;
      CreatedSteady(S(), who, tgt, name, text, unset);
      var created := Create(tgt, name, ZeroPadded(content), junk);
      if !created {
        return CreateFailed, c', i, t';
      }
      r := Copied;
    }

    method CopyDirectory(src: int, tgt: int, name: string, junk: seq<int>, ghost c: Cert, ghost doc: Doc,
                         ghost t: State, ghost clean: set<int>)
      returns (r: CopyResult, ghost c': Cert, ghost n: int, ghost t': State)
      requires Valid() && Strayed(S(), t, clean) && CanCopy(t, c, src, tgt) && |junk| == DIRECT
      requires Placed(c) && src in c.place && clean <= c.place.Keys && doc == DocOf(t, c, src)
      requires IsDir(INodeAt(t.img.inodes, src)) && PlainKid(name) && FindChild(t.img, tgt, name) == -1 && (name == ".." ==> tgt != ROOT)
      modifies Repr()
      ensures Valid() && unchanged(`who, `curDir, `curName)
      ensures Steady(old(S())) ==> Steady(S())
      ensures Strayed(S(), t', clean) && (Tame(doc, junk) && old(S()) == t ==> S() == t')
      ensures GrownAt(t, c, t', c', tgt) && OneMore(t, t', tgt, name)
      ensures r == ResultOf(PlanAt(t, who, tgt, name, doc))
      ensures r == Copied ==> ClonedAt(t, c, t', c', tgt, name, n, doc) && Took(t, t', tgt, PlanAt(t, who, tgt, name, doc))
      decreases doc, 1
    {
      hide OneMore, GrownAt, ClonedAt, CanCopy, CopyLoop, TreeInv, DiskInv, DirMade, Grown, DocOf, Source, Steady,
        MakeDirectory.MakeDir, Strayed, Tame, UsableName, Took, PlanAt, PlainKid, FindChild, OnCourse, EntryTook, Open, NewINode;
      TargetReady(t, c, src, tgt);
      SourceReady(t, c, src, tgt);
      SourceFits(t, c, src, tgt, name);
      StrayReads(S(), t, clean, src);
      var source := INodeAt(img.inodes, src);
      c', n := MakeDirKeeps(t, c, who, tgt, name);
      NameOk(tgt, name);
      StrayMakeDir(S(), t, clean, c, who, tgt, name);
      t' := MakeDirectory.MakeDir(t, who, tgt, name).0;
      DirCourse(t, c, c', who, src, tgt, name, doc);
      DirSteady(S(), who, tgt, name);
      var created := MakeDir(tgt, name);
      if !created {
        MakeNotCopied(t, c, t', src, tgt, name);
        return MakeDirFailed, c', n, t';
      }
      DirectoryMade(t, c, t', c', who, src, tgt, name, n);
      PlacedAddress(t', c', n);
      StrayChild(S(), t', clean, tgt, name);
      SameImage(S(), t', clean);
      var dir := FindChildIn(img, tgt, name);
      if dir == -1 {
        return LocateFailed, c', n, t';
      }
      var children := ListDirectoryChildren(img.blocks, source.direct);
      ghost var t1 := t';
      CourseStarts(t, t1, dir, tgt, who, doc);
      r, c', t' := CopyChildren(children, dir, junk, t, c, t', c', clean, src, tgt, name, doc);
      if r == Copied { CourseTook(t, t1, t', tgt, who, name, doc); }
    }

    /** The loop over the children of the source directory; it stops at the first copy that fails. */
    method CopyChildren(children: seq<Entry>, dir: int, junk: seq<int>, ghost s: State, ghost c: Cert, ghost t: State,
                        ghost c0: Cert, ghost clean: set<int>, ghost src: int, ghost tgt: int, ghost name: string,
                        ghost doc: Doc)
      returns (r: CopyResult, ghost c': Cert, ghost t': State)
      requires Valid() && |junk| == DIRECT && Strayed(S(), t, clean) && clean <= c.place.Keys
      requires CopyLoop(s, c, t, c0, src, tgt, name, dir, children, doc, 0) && OnCourse(t, t, dir, tgt, who, doc, 0) && doc.Folder?
      modifies Repr()
      ensures Valid() && unchanged(`who, `curDir, `curName)
      ensures Steady(old(S())) ==> Steady(S())
      ensures Strayed(S(), t', clean) && (Tame(doc, junk) && old(S()) == t ==> S() == t')
      ensures GrownAt(s, c, t', c', tgt) && OneMore(s, t', tgt, name)
      ensures r == ResultOf(PlanKids(doc, 0, t.super.freeBlocks, t.super.freeInodes))
      ensures r == Copied ==>
        && ClonedAt(s, c, t', c', tgt, name, dir, doc) && SamePointers(t, t', tgt)
        && PlanKids(doc, 0, t.super.freeBlocks, t.super.freeInodes) == Lands(t'.super.freeBlocks, t'.super.freeInodes)
      decreases doc, 0
    {
      hide *;
      c', t' := c0, t;
      for m := 0 to |children|
        invariant Valid() && unchanged(`who, `curDir, `curName) && Strayed(S(), t', clean)
        invariant CopyLoop(s, c, t', c', src, tgt, name, dir, children, doc, m) && OnCourse(t, t', dir, tgt, who, doc, m)
        invariant Steady(old(S())) ==> Steady(S())
        invariant Tame(doc, junk) && old(S()) == t ==> S() == t'
      {
        ghost var t1, c1 := t', c';
        LoopNext(s, c, t1, c1, src, tgt, name, dir, children, doc, m);
        LoopKid(s, c, t1, c1, src, tgt, name, dir, children, doc, m);
        if Tame(doc, junk) { TameKid(doc, junk, m); }
        ghost var i;
        r, c', i, t' := CopyRecursive(children[m].ino, dir, children[m].name, junk, c1, doc.kids[m].1, t1, clean);
        if r != Copied {
          LoopFail(s, c, t1, c1, t', c', src, tgt, name, dir, children, doc, m);
          CourseFails(t, t1, dir, tgt, who, doc, m, children[m].name, doc.kids[m].1, r);
          return;
        }
        CourseNext(t, t1, c1, t', c', dir, tgt, who, doc, m, children[m].name, doc.kids[m].1, i);
        LoopStep(s, c, t1, c1, t', c', src, tgt, name, dir, children, doc, m, i);
      }
      LoopKid(s, c, t', c', src, tgt, name, dir, children, doc, |children|);
      LoopEnd(s, c, t', c', src, tgt, name, dir, children, doc, |children|);
      CourseEnds(t, t', dir, tgt, who, doc, |children|);
      r := Copied;
    }

    /**
     CopyEntry. The checks refuse without touching anything; otherwise only the
     target directory may look different, and on success it has gained a clone of
     the source. `t'` is the clean twin of the state after, as in CopyRecursive.
     */
    method CopyEntry(sourcePath: string, targetPath: string, junk: seq<int>, ghost c: Cert)
      returns (r: CopyAnswer, ghost c': Cert, ghost i: int, ghost t': State)
      requires Valid() && DiskInv(S()) && TreeInv(S(), c) && |junk| == DIRECT
      modifies Repr()
      ensures Valid() && unchanged(`who, `curDir, `curName)
      ensures Steady(old(S())) ==> Steady(S())
      ensures Strayed(S(), t', c.place.Keys)
      ensures r == CopyVerdict(old(S()), c, who, Normalize(old(curName), sourcePath), Normalize(old(curName), targetPath))
      ensures
        var p, q := Normalize(old(curName), sourcePath), Normalize(old(curName), targetPath);
        var guard := CopyGuard(old(img), p, q);
        && (guard != Ran(Copied) ==> r == guard && S() == old(S()) == t' && c' == c)
        && (guard == Ran(Copied) ==>
              && r.Ran? && GrownAt(old(S()), c, t', c', ResolvePath(old(img), q))
              && OneMore(old(S()), t', ResolvePath(old(img), q), LastPart(p)))
        && (r == Ran(Copied) ==> EntryCopied(old(S()), c, t', c', p, q, i))
        && (SourceTame(old(S()), c, ResolvePath(old(img), p), junk) ==> S() == t' && CopyLeaves(old(S()), c, p, q, S()))
    {
      hide TreeInv, DiskInv, OneMore, GrownAt, EntryCopied, ClonedAt, CanCopy, Ends, DocOf, ResolvePath,
        IsDescendant, Normalize, Steady, Strayed, Tame, Took, PlanAt;
      var p := NormalizePath(curName, sourcePath);
      var q := NormalizePath(curName, targetPath);
      c', i, t' := c, -1, S();
      ghost var s := S();
      NoStrays(s, c.place.Keys);
      if p == "/" {
        return RootRefused, c', i, t';
      }
      var src := ResolveEntry(img, p);
      if src == -1 {
        return SourceMissing, c', i, t';
      }
      var tgt := ResolveEntry(img, q);
      if tgt == -1 {
        return TargetMissing, c', i, t';
      }
      if !IsDir(INodeAt(img.inodes, tgt)) {
        return TargetNotDirectory, c', i, t';
      }
      if IsDir(INodeAt(img.inodes, src)) && (p == q || IsDescendant(p, q)) {
        return IntoItself, c', i, t';
      }
      CopyAdmitted(s, c, curName, sourcePath, targetPath);
      var result;
      result, c', i, t' := CopyRecursive(src, tgt, LastPart(p), junk, c, DocOf(s, c, src), s, c.place.Keys);
      if result == Copied { CloneIsEntry(s, c, t', c', p, q, i); }
      r := Ran(result);
    }

    /**
     MoveEntry. A move that reports success has cloned the source under the target
     and removed the source; one whose removal is refused leaves the clone beside
     the source. The parent of the source is never missing. `t'` is the clean twin
     of the state after, as in CopyRecursive.
     */
    method MoveEntry(sourcePath: string, targetPath: string, junk: seq<int>, ghost c: Cert)
      returns (r: MoveAnswer, ghost c': Cert, ghost i: int, ghost t': State)
      requires Valid() && DiskInv(S()) && TreeInv(S(), c) && |junk| == DIRECT
      modifies Repr()
      ensures Valid() && unchanged(`who, `curDir, `curName)
      ensures Steady(old(S())) ==> Steady(S())
      ensures Strayed(S(), t', c.place.Keys)
      ensures r == MoveVerdict(old(S()), c, who, Normalize(old(curName), sourcePath), Normalize(old(curName), targetPath))
      ensures
        var p, q := Normalize(old(curName), sourcePath), Normalize(old(curName), targetPath);
        && (r == MoveRootRefused <==> p == "/")
        && (r == MoveIntoItself <==> p != "/" && (p == q || IsDescendant(p, q)))
        && (r.MoveRootRefused? || r.MoveIntoItself? || r.MoveSourceMissing? ==> S() == old(S()) == t')
        && (r.NotCopied? ==> r.answer != Ran(Copied))
        && (r.NotCopied? && r.answer.Ran? ==>
              && GrownAt(old(S()), c, t', c', ResolvePath(old(img), q))
              && OneMore(old(S()), t', ResolvePath(old(img), q), LastPart(p)))
        && (r.NotCopied? && !r.answer.Ran? ==> S() == old(S()) == t')
        && r != ParentMissing
        && (r == NotRemoved ==> EntryCopied(old(S()), c, t', c', p, q, i))
        && (r == Moved ==>
              && EntryMoved(old(S()), c, t', c', p, q, i)
              && MoveSettled(old(S()), c, t', c', ResolvePath(old(img), p)))
        && (SourceTame(old(S()), c, ResolvePath(old(img), p), junk) ==>
              && S() == t'
              && (r != Moved ==> CopyLeaves(old(S()), c, p, q, S()))
              && (r == Moved && FreesInGroup(old(S()), c, p, S()) ==> MoveLeaves(old(S()), c, p, q, S())))
    {
      hide TreeInv, DiskInv, OneMore, GrownAt, EntryCopied, EntryMoved, BitsInv, ResolvePath, IsDescendant,
        Normalize, DirDeleted, FileDeleted, DirFound, MoveSettled, MoveFrees, FreesInGroup,
        DeleteFile.DelFile, Sub, Steady, Strayed, SourceTame, FindKind, Slots, CopyVerdict, MayRemove;
      var p := NormalizePath(curName, sourcePath);
      var q := NormalizePath(curName, targetPath);
      c', i, t' := c, -1, S();
      ghost var s := S();
      NoStrays(s, c.place.Keys);
      if p == "/" {
        return MoveRootRefused, c', i, t';
      }
      if p == q || IsDescendant(p, q) {
        return MoveIntoItself, c', i, t';
      }
      var src := ResolveEntry(img, p);
      if src == -1 {
        return MoveSourceMissing, c', i, t';
      }
      var isDir := IsDir(INodeAt(img.inodes, src));
      NormalizeIdempotent(curName, curName, sourcePath);
      NormalizeIdempotent(curName, curName, targetPath);
      var copied;
      copied, c', i, t' := CopyEntry(p, q, junk, c);
      if copied != Ran(Copied) {
        return NotCopied(copied), c', i, t';
      }
      ghost var t1, c1 := t', c';
      RemovalReady(s, c, t1, c1, p, q, i);
      StrayParent(S(), t1, c.place.Keys, ParentPath(p));
      var parent := ResolveEntry(img, ParentPath(p));
      if parent == -1 || !IsDir(INodeAt(img.inodes, parent)) {
        return ParentMissing, c', i, t';
      }
      var removed;
      removed, c', t' := RemoveSource(parent, LastPart(p), isDir, s, c, t1, c1, p, q, i);
      r := if removed then Moved else NotRemoved;
    }

    /** The last step of MoveEntry: DeleteDir or DelFile of the source in its parent. */
    method RemoveSource(parent: int, name: string, isDir: bool, ghost s: State, ghost c: Cert, ghost t1: State, ghost c1: Cert,
                        ghost p: string, ghost q: string, ghost i: int)
      returns (ok: bool, ghost c': Cert, ghost t': State)
      requires Valid() && TreeInv(s, c) && EntryCopied(s, c, t1, c1, p, q, i) && Strayed(S(), t1, c.place.Keys)
      requires ResolvePath(s.img, p) in c.place && parent == c.place[ResolvePath(s.img, p)].parent && name == LastPart(p)
      requires isDir == IsDir(INodeAt(s.img.inodes, ResolvePath(s.img, p)))
      modifies Repr()
      ensures Valid() && unchanged(`who, `curDir, `curName)
      ensures Steady(old(S())) ==> Steady(S())
      ensures Strayed(S(), t', c.place.Keys) && (old(S()) == t1 ==> S() == t')
      ensures ok <==> MayRemove(s, c, who, ResolvePath(s.img, p))
      ensures !ok ==> t' == t1 && c' == c1
      ensures ok ==> EntryMoved(s, c, t', c', p, q, i) && MoveSettled(s, c, t', c', ResolvePath(s.img, p))
    {
      hide TreeInv, EntryCopied, EntryMoved, BitsInv, ResolvePath, DirDeleted, FileDeleted, DirFound, MoveSettled,
        DeleteFile.DelFile, Sub, Steady, Strayed, FindKind, Slots, MayRemove, DeletesDir;
      RemovalReady(s, c, t1, c1, p, q, i);
      RemovalDecided(s, c, who, t1, c1, p, q, i);
      StrayReads(S(), t1, c.place.Keys, parent);
      c', t' := c1, t1;
      if isDir {
        forall h, x | DirFound(t1, c1, parent, name, h, x) ensures Placed(c1) && Sub(c1, x) <= c.place.Keys {
          SourceClean(s, c, t1, c1, p, q, i, h, x);
        }
        ghost var h, x;
        ok, h, x, t' := DeleteCleanDir(parent, name, c1, t1, c.place.Keys);
        if !ok {
          return;
        }
        DirMoved(s, c, t1, c1, t', p, q, i, h, x);
      } else {
        ghost var h, x := DelFileKeeps(t1, c1, who, parent, name);
        FoundIsSource(s, c, t1, c1, p, q, i);
        StrayDelFile(S(), t1, c.place.Keys, who, parent, name);
        GoneSteady(S(), who, parent, name);
        t' := DeleteFile.DelFile(t1, who, parent, name).0;
        var out := DelFile(parent, name);
        ok := out == Done;
        if !ok {
          return;
        }
        FileMoved(s, c, t1, c1, t', p, q, i, h, x);
      }
      c' := PruneCert(c1, Sub(c1, ResolvePath(s.img, p)));
    }

    // -------------------------------------------------------------------
    // src/filesystem_lifecycle.cpp
    // -------------------------------------------------------------------

    /** The loop of Format that links the groups, last group first. */
    method BuildChain()
      requires Valid() && (forall a :: a in img.blocks <==> IsBlock(a))
      modifies this`img, stack
      ensures stack[..] == GroupStack(0) && Chained(0, img.blocks)
      ensures img == old(img).(blocks := img.blocks)
    {
      hide Chained;
      NoneChained(GROUPS, img.blocks);
      var g := GROUPS;
      while g > 0
        invariant 0 <= g <= GROUPS && Chained(g, img.blocks)
        invariant g < GROUPS ==> stack[..] == GroupStack(g)
        invariant img == old(img).(blocks := img.blocks)
      {
        g := g - 1;
        stack[0] := if g == GROUPS - 1 then -1 else BlockAddr((g + 1) * GROUP);
        for j := 1 to GROUP
          invariant img == old(img).(blocks := img.blocks) && Chained(g + 1, img.blocks)
          invariant stack[0] == LeaderOf(g + 1)
          invariant forall k :: 1 <= k < j ==> stack[k] == BlockAddr(g * GROUP + k)
        {
          stack[j] := BlockAddr(g * GROUP + j);
        }
        assert stack[..] == GroupStack(g);
        ChainedMore(g, img.blocks);
        img := img.(blocks := img.blocks[BlockAddr(g * GROUP) := Stack(stack[..])]);
      }
    }

    /** Format up to and including the root directory, on an image of the right size. */
    method FormatRoot()
      requires Valid() && (forall a :: a in img.blocks <==> IsBlock(a)) && (forall a :: a in img.inodes <==> IsINode(a))
      modifies Repr()
      ensures Valid() && unchanged(`who, `curDir, `curName)
      ensures Shows(S(), RootCert(FreshBlock(0)), RootNodes(who))
      ensures freeBlocks == BLOCK_NUM - 1 && freeInodes == INODE_NUM - 1
    {
      hide Chained, Sound, LeakFree, ViewOf, Blank, AllocINode, AllocBlock, Shows, RootNodes, RootINode, RootEntries, FreshBlock,
        GroupStack;
      freeInodes, freeBlocks, leader := INODE_NUM, BLOCK_NUM, BLOCK_START;
      forall k | 0 <= k < INODE_NUM { inodeBits[k] := false; }
      forall k | 0 <= k < BLOCK_NUM { blockBits[k] := false; }
      img := img.(inodeBits := inodeBits[..], blockBits := blockBits[..]);
      BuildChain();
      SaveSuper();
      BlankBuilt(S());
      RootShows(S(), who);
      ghost var s := S();
      var i := INodeAlloc();
      var b := BlockAlloc();
      WriteBlockAt(b, Entries(RootEntries(i)));
      WriteINodeAt(i, RootINode(who, b));
      assert S() == WithRoot(s, who);
      assert S().super.freeBlocks == freeBlocks && S().super.freeInodes == freeInodes;
    }

    /**
     Format. It succeeds for every user, and the tree it leaves has exactly these
     seven nodes. `users` is the line printed with the numbers of the first user.
     */
    method Format(users: string, junk: seq<int>) returns (ok: bool, ghost c: Cert, ghost at: Layout)
      requires Valid() && (forall a :: a in img.blocks <==> IsBlock(a)) && (forall a :: a in img.inodes <==> IsINode(a))
      requires '\0' !in users && 0 < |users| < BLOCK_SIZE && |junk| == DIRECT
      modifies Repr()
      ensures Valid() && who == old(who) && ok && curDir == ROOT && curName == "/"
      ensures Formatted(S(), c, who, users, at)
    {
      hide Shows, RootNodes, HomeNodes, EtcNodes, Formatted;
      FormatRoot();
      ghost var home, root;
      ok, c, home, root := FormatHome();
      if !ok {
        return ok, c, Layout(0, 0, 0, 0, 0, 0);
      }
      curDir, curName := ROOT, "/";
      ghost var etc;
      ok, c, etc := FormatEtc(c, home, root);
      if !ok {
        return ok, c, Layout(0, 0, 0, 0, 0, 0);
      }
      c, at := FormatAccounts(users, junk, c, home, root);
      curDir, curName := ROOT, "/";
    }

    /** The directories home and home/root, the latter closed to others. */
    method FormatHome() returns (ok: bool, ghost c: Cert, ghost home: int, ghost root: int)
      requires Valid() && Shows(S(), RootCert(FreshBlock(0)), RootNodes(who))
      requires freeBlocks == BLOCK_NUM - 1 && freeInodes == INODE_NUM - 1
      modifies Repr()
      ensures Valid() && who == old(who) && ok
      ensures ROOT != home && ROOT != root && home != root && Shows(S(), c, HomeNodes(who, home, root))
      ensures freeBlocks == BLOCK_NUM - 3 && freeInodes == INODE_NUM - 3
    {
      hide Sound, LeakFree, ViewOf, Padded, Shows, MakeDirectory.MakeDir, Permissions.Chmod, Enter, Renamed, MayAdd, UsableName,
        WithPermissions;
      ghost var open := Attr(DIR_MODE, who.user, who.group);
      ghost var nodes;
      c, nodes, root := RootCert(FreshBlock(0)), RootNodes(who), -1;
      OwnMay(who);
      NameOk(ROOT, "home");
      c, home, nodes := MakesDir(S(), c, nodes, who, ROOT, open, [Entry(".", ROOT)], "home");
      ok := MakeDir(ROOT, "home");
      if !ok {
        return;
      }
      ghost var top := [Entry(".", ROOT)] + [Entry("home", home)];
      assert top[1] == Entry("home", home);
      EntersChild(S(), c, nodes, who, ROOT, open, top, 1, curName);
      var r := FindDir(ROOT, "home");
      var homeDir := curDir;
      assert homeDir == home;
      NameOk(home, "root");
      c, root, nodes := MakesDir(S(), c, nodes, who, home, open, [Entry(".", home), Entry("..", ROOT)], "root");
      ok := MakeDir(homeDir, "root");
      if !ok {
        return;
      }
      ghost var inHome := [Entry(".", home), Entry("..", ROOT)] + [Entry("root", root)];
      assert inHome[2] == Entry("root", root);
      nodes := Chmods(S(), c, nodes, who, home, open, inHome, 2, OWNER_AND_GROUP);
      Chmod(homeDir, "root", OWNER_AND_GROUP);
      HomeDone(who, home, root, nodes);
    }

    /** The directory etc, which becomes the current one. */
    method FormatEtc(ghost c0: Cert, ghost home: int, ghost root: int) returns (ok: bool, ghost c: Cert, ghost etc: int)
      requires Valid() && ROOT != home && ROOT != root && home != root && Shows(S(), c0, HomeNodes(who, home, root))
      requires freeBlocks == BLOCK_NUM - 3 && freeInodes == INODE_NUM - 3
      modifies Repr()
      ensures Valid() && who == old(who) && ok && curDir == etc && etc !in {ROOT, home, root}
      ensures Shows(S(), c, EtcNodes(who, home, root, etc))
      ensures freeBlocks == BLOCK_NUM - 4 && freeInodes == INODE_NUM - 4
    {
      hide Sound, LeakFree, ViewOf, Padded, Shows, MakeDirectory.MakeDir, Enter, Renamed, MayAdd, UsableName;
      ghost var open := Attr(DIR_MODE, who.user, who.group);
      ghost var nodes;
      OwnMay(who);
      NameOk(ROOT, "etc");
      ghost var top := [Entry(".", ROOT), Entry("home", home)];
      c, etc, nodes := MakesDir(S(), c0, HomeNodes(who, home, root), who, ROOT, open, top, "etc");
      ok := MakeDir(ROOT, "etc");
      if !ok {
        return;
      }
      assert (top + [Entry("etc", etc)])[2] == Entry("etc", etc);
      EntersChild(S(), c, nodes, who, ROOT, open, top + [Entry("etc", etc)], 2, curName);
      var r := FindDir(ROOT, "etc");
    }

    /** The three files of etc. */
    method FormatAccounts(users: string, junk: seq<int>, ghost c0: Cert, ghost home: int, ghost root: int)
      returns (ghost c: Cert, ghost at: Layout)
      requires Valid() && '\0' !in users && 0 < |users| < BLOCK_SIZE && |junk| == DIRECT
      requires ROOT != home && ROOT != root && home != root && curDir !in {ROOT, home, root}
      requires Shows(S(), c0, EtcNodes(who, home, root, curDir))
      requires freeBlocks == BLOCK_NUM - 4 && freeInodes == INODE_NUM - 4
      modifies Repr()
      ensures Valid() && who == old(who)
      ensures Formatted(S(), c, who, users, at)
    {
      hide Sound, LeakFree, ViewOf, Padded, Shows, Permissions.Chmod, MayAdd, UsableName, WithPermissions, EtcNodes, HomeNodes, Permitted,
        FormatNodes, DirShown;
      ghost var etc, open := curDir, Attr(DIR_MODE, who.user, who.group);
      ghost var nodes := EtcNodes(who, home, root, etc);
      ghost var user, passwd, group;
      ghost var list := [Entry(".", etc), Entry("..", ROOT)];
      EtcShown(who, home, root, etc);
      var buf := seq(ACCOUNT_BUFFER, _ => '\0');
      NameOk(etc, "user");
      NameOk(etc, "passwd");
      NameOk(etc, "group");
      buf, c, user, nodes := AccountFile("user", users, buf, junk, c0, nodes, open, list);
      list := list + [Entry("user", user)];
      buf, c, passwd, nodes := PasswordFile(buf, junk, c, nodes, open, list);
      list := list + [Entry("passwd", passwd)];
      buf, c, group, nodes := AccountFile("group", GROUPS_TEXT, buf, junk, c, nodes, open, list);
      at := Layout(home, root, etc, user, passwd, group);
      AccountsDone(who, users, at, nodes);
    }

    /** The password file, closed to others. */
    method PasswordFile(buf: seq<char>, junk: seq<int>, ghost c: Cert, ghost nodes: map<int, View>, ghost attr: Attr, ghost l: seq<Entry>)
      returns (buf': seq<char>, ghost c': Cert, ghost i: int, ghost nodes': map<int, View>)
      requires Valid() && |buf| == ACCOUNT_BUFFER && |junk| == DIRECT
      requires Shows(S(), c, nodes) && DirShown(nodes, curDir, attr, l) && |l| + 1 < PER_BLOCK
      requires forall t :: 0 <= t < |l| ==> l[t].name != "passwd"
      requires freeInodes > 0 && freeBlocks > 0
      modifies Repr()
      ensures Valid() && unchanged(`who, `curDir, `curName) && |buf'| == ACCOUNT_BUFFER
      ensures i !in nodes && curDir in nodes && Shows(S(), c', nodes')
      ensures nodes' == nodes[curDir := DirView(attr, Padded(l + [Entry("passwd", i)]))]
                             [i := Permitted(FileView(Attr(FILE_MODE, who.user, who.group), PASSWORDS), OWNER_AND_GROUP)]
      ensures DirShown(nodes', curDir, attr, l + [Entry("passwd", i)])
      ensures freeBlocks == old(freeBlocks) - 1 && freeInodes == old(freeInodes) - 1
    {
      hide Sound, LeakFree, ViewOf, Padded, Shows, Permissions.Chmod, UsableName, DirShown, Permitted;
      NameOk(curDir, "passwd");
      ShownPlaced(nodes, curDir, attr, l);
      buf', c', i, nodes' := AccountFile("passwd", PASSWORDS, buf, junk, c, nodes, attr, l);
      ghost var list := l + [Entry("passwd", i)];
      assert list[|l|] == Entry("passwd", i);
      nodes' := Chmods(S(), c', nodes', who, curDir, attr, list, |l|, OWNER_AND_GROUP);
      Chmod(curDir, "passwd", OWNER_AND_GROUP);
    }

    /** A text is printed into the buffer and a file created from it in the current directory. */
    method AccountFile(name: string, text: string, buf: seq<char>, junk: seq<int>, ghost c: Cert,
                       ghost nodes: map<int, View>, ghost attr: Attr, ghost l: seq<Entry>)
      returns (buf': seq<char>, ghost c': Cert, ghost i: int, ghost nodes': map<int, View>)
      requires Valid() && |buf| == ACCOUNT_BUFFER && |junk| == DIRECT && '\0' !in text && 0 < |text| < BLOCK_SIZE
      requires Shows(S(), c, nodes) && DirShown(nodes, curDir, attr, l) && |l| + 1 < PER_BLOCK
      requires UsableName(curDir, name) && |name| < MAX_NAME && (forall t :: 0 <= t < |l| ==> l[t].name != name)
      requires freeInodes > 0 && freeBlocks > 0
      modifies Repr()
      ensures Valid() && unchanged(`who, `curDir, `curName) && |buf'| == ACCOUNT_BUFFER
      ensures i !in nodes && curDir in nodes && Shows(S(), c', nodes')
      ensures nodes' == nodes[curDir := DirView(attr, Padded(l + [Entry(name, i)]))]
                             [i := FileView(Attr(FILE_MODE, who.user, who.group), text)]
      ensures DirShown(nodes', curDir, attr, l + [Entry(name, i)])
      ensures freeBlocks == old(freeBlocks) - 1 && freeInodes == old(freeInodes) - 1
    {
      hide Shows, Padded, CreateFile.Create, UsableName, StrLen, Sprintf, TextNeeds, LeavesJunk, DirShown;
      SprintfText(buf, text);
      buf' := Sprintf(buf, text);
      c', i, nodes' := MakesFile(S(), c, nodes, who, curDir, attr, l, name, buf', UnsetPointer(buf', junk));
      var created := Create(curDir, name, buf', junk);
    }

    method Chmod(d: int, name: string, permissions: nat)
      requires Valid() && |INodeAt(img.inodes, d).direct| == DIRECT
      modifies Repr()
      ensures Valid() && unchanged(`who, `curDir, `curName)
      ensures S() == Permissions.Chmod(old(S()), who, d, name, permissions)
    {
      if name == "." || name == ".." {
        return;
      }
      var cur := INodeAt(img.inodes, d);
      var h := FindSlotIn(img.blocks, cur.direct, name);
      if h == SLOTS {
        return;
      }
      var i := Around(img.blocks, cur.direct, h)[h % PER_BLOCK].ino;
      var node := INodeAt(img.inodes, i);
      if who.user != node.user && who.user != "root" {
        return;
      }
      WriteINodeAt(i, node.(mode := WithPermissions(node.mode, permissions)));
    }

    method RepairBlockBitmapFromInodes()
      requires Valid()
      modifies Repr()
      ensures Valid() && unchanged(`who, `curDir, `curName)
      ensures S() == Repair.Repair(old(S()))
    {
      hide Rebuilt, ClearBits, Repair.Repair;
      var rebuilt, used := RebuildBitmap(img, inodeBits);
      RepairBy(S(), rebuilt[..], BLOCK_NUM - used);
      var changed := false;
      ghost var bits := rebuilt[..];
      for i := 0 to BLOCK_NUM
        invariant Valid() && fresh(rebuilt) && rebuilt.Length == BLOCK_NUM && rebuilt[..] == bits
        invariant blockBits[..i] == bits[..i] && blockBits[i..] == old(blockBits[i..])
        invariant !changed ==> blockBits[..] == old(blockBits[..])
        invariant changed ==> old(blockBits[..]) != bits
        invariant inodeBits[..] == old(inodeBits[..]) && stack[..] == old(stack[..]) && img == old(img) && unchanged(`who, `curDir, `curName)
        invariant freeInodes == old(freeInodes) && freeBlocks == old(freeBlocks) && leader == old(leader)
      {
        if blockBits[i] != rebuilt[i] {
          changed := true;
          blockBits[i] := rebuilt[i];
        }
      }
      assert blockBits[..] == bits;
      var free := BLOCK_NUM - used;
      if freeBlocks != free {
        changed := true;
        freeBlocks := free;
      }
      if !changed {
        return;
      }
      img := img.(blockBits := blockBits[..], super := Sup());
    }

    /** InitFileSystem: whatever memory held, what the image holds is loaded and repaired. */
    method InitFileSystem()
      requires Valid() && |img.super.stack| == GROUP && |img.inodeBits| == INODE_NUM && |img.blockBits| == BLOCK_NUM
      modifies Repr()
      ensures Valid() && unchanged(`who, `curDir, `curName)
      ensures S() == Restart(old(img))
    {
      freeInodes, freeBlocks, leader := img.super.freeInodes, img.super.freeBlocks, img.super.leader;
      forall k | 0 <= k < GROUP { stack[k] := img.super.stack[k]; }
      forall k | 0 <= k < INODE_NUM { inodeBits[k] := img.inodeBits[k]; }
      forall k | 0 <= k < BLOCK_NUM { blockBits[k] := img.blockBits[k]; }
      assert stack[..] == img.super.stack && inodeBits[..] == img.inodeBits && blockBits[..] == img.blockBits;
      assert S() == State(img.super, img.inodeBits, img.blockBits, img);
      RepairBlockBitmapFromInodes();
    }

    // -------------------------------------------------------------------
    // src/filesystem_path.cpp, ChangeDirectory
    // -------------------------------------------------------------------

    /** The current directory and its name change together, or not at all. */
    method FindDir(d: int, name: string) returns (r: Entering)
      requires Valid()
      modifies this`curDir, this`curName
      ensures r == Enter(img, who, d, old(curName), name)
      ensures match r
        case Entered(k, path) => curDir == k && curName == path
        case _ => curDir == old(curDir) && curName == old(curName)
    {
      var n := INodeAt(img.inodes, d);
      if |n.direct| != DIRECT {
        return NoEntry;
      }
      var h := FindEntry(img, n.direct, name, true);
      if h == SLOTS {
        return NoEntry;
      }
      var k := Around(img.blocks, n.direct, h)[h % PER_BLOCK].ino;
      if !MayEnter(who, INodeAt(img.inodes, k)) {
        return NoPermission;
      }
      curDir := k;
      if name == "." {
      } else if name == ".." {
        curName := CutAtSlash(curName);
      } else {
        if curName != "" && curName[|curName| - 1] != '/' {
          curName := curName + "/";
        }
        curName := curName + name;
      }
      r := Entered(curDir, curName);
    }

    /** `Stuck` stands for the climb that never ends, `Overrun` for a name string that leaves its buffer. */
    method ChangeDirectory(path: string) returns (answer: CdAnswer)
      requires Valid()
      modifies this`curDir, this`curName
      ensures Where(answer, curDir, curName) == Cd(img, who, old(curDir), old(curName), path)
    {
      hide Enter, Parts;
      ghost var top := Climb(img, who, curDir, curName);
      if path != "" && path[0] == '/' {
        while curName != "/"
          invariant top == Climb(img, who, curDir, curName)
          decreases |curName|
        {
          var length := |curName|;
          var r := FindDir(curDir, "..");
          if !r.Entered? || |curName| >= length {
            return Stuck;
          }
        }
      }
      ghost var from, name := curDir, curName;
      var parts := SplitPath(path);
      for m := 0 to |parts|
        invariant CdParts(img, who, from, name, parts) == CdParts(img, who, curDir, curName, parts[m..])
      {
        assert parts[m..][1..] == parts[m + 1..];
        if parts[m] == "." {
          continue;
        }
        var r := FindDir(curDir, parts[m]);
        match r
        case Entered(_, _) =>
          if |curName| >= MAX_NAME {
            return Overrun;
          }
        case NoEntry => return NoDirectory;
        case NoPermission => return CdDenied;
      }
      answer := Arrived;
    }
  }
}
