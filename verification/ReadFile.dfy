/**
 Cat (src/filesystem_file_read.cpp): the text a user is shown.
 */
module ReadFile {
  import opened Disk
  import opened Allocator
  import opened Tree
  import opened INodes
  import opened MakeDirectory
  import opened FileData
  import opened CreateFile
  import opened DeleteFile
  import opened Strays
  import opened Subtree
  import opened UnsetPointer
  import opened Resolve

  datatype CatAnswer = Shown(text: string) | CatDenied | NoSuchFile

  /** Cat takes the permission triple from the directory's owner and group, with no exception for root. */
  function CatShift(who: Session, dir: INode): nat {
    if who.user == dir.user then 6 else if who.group == dir.group then 3 else 0
  }

  predicate MayRead(who: Session, dir: INode, file: INode) { ModeBit(file.mode, CatShift(who, dir) + 2) }

  /** What is printed from block `k` on, when `len` characters are out: absent blocks are passed over. */
  function Printed(blocks: map<int, Block>, direct: seq<int>, size: nat, k: nat, len: nat): string
    requires |direct| == DIRECT && k <= DIRECT
    decreases DIRECT - k, direct
  {
    if k == DIRECT then ""
    else if direct[k] == -1 then Printed(blocks, direct, size, k + 1, len)
    else
      var piece := Piece(blocks, direct[k], size, len);
      if len + |piece| >= size then piece else piece + Printed(blocks, direct, size, k + 1, len + |piece|)
  }

  /** As much of the block as the file still has. */
  function Piece(blocks: map<int, Block>, a: int, size: nat, len: nat): (r: string)
    ensures |r| == if len >= size then 0 else if size - len < BLOCK_SIZE then size - len else BLOCK_SIZE
  {
    BytesAt(blocks, a)[..if len >= size then 0 else if size - len < BLOCK_SIZE then size - len else BLOCK_SIZE]
  }

  function Cat(img: Image, who: Session, d: int, name: string): CatAnswer
    requires |INodeAt(img.inodes, d).direct| == DIRECT
  {
    var dir := INodeAt(img.inodes, d);
    var h := FindKind(img, dir.direct, name, false, 0);
    if h == SLOTS then NoSuchFile
    else
      var file := INodeAt(img.inodes, Slots(img.blocks, dir.direct)[h].ino);
      if !MayRead(who, dir, file) then CatDenied
      else if |file.direct| != DIRECT then Shown("")
      else Shown(Printed(img.blocks, file.direct, file.size, 0, 0))
  }

  /** With every needed block present, what is printed from block `k` on is the rest of the content. */
  lemma {:induction false} PrintedRest(blocks: map<int, Block>, direct: seq<int>, size: nat, k: nat, len: nat)
    requires |direct| == DIRECT && size <= MAX_FILE && k <= DIRECT
    requires forall q :: 0 <= q < DIRECT && q * BLOCK_SIZE < size ==> direct[q] != -1
    requires len == if k * BLOCK_SIZE < size then k * BLOCK_SIZE else size
    ensures Printed(blocks, direct, size, k, len) == Content(blocks, direct, size)[len..]
    decreases DIRECT - k
  {
    hide Content, BytesAt;
    var all := Content(blocks, direct, size);
    if k < DIRECT {
      var upto := if (k + 1) * BLOCK_SIZE < size then (k + 1) * BLOCK_SIZE else size;
      PrintedRest(blocks, direct, size, k + 1, upto);
      if len < size {
        ContentPiece(blocks, direct, size, k);
        PieceOf(all, BytesAt(blocks, direct[k]), len, upto);
        assert Piece(blocks, direct[k], size, len) == all[len..upto];
        assert all[len..upto] + all[upto..] == all[len..];
      }
    }
  }

  lemma PieceOf(all: string, block: string, len: nat, upto: nat)
    requires len <= upto <= |all| && upto - len <= |block|
    requires all[..upto] == all[..len] + block[..upto - len]
    ensures block[..upto - len] == all[len..upto]
  {
    assert all[len..upto] == all[..upto][len..];
  }

  /** On a file of the tree Cat prints exactly the content. */
  lemma CatShowsContent(s: State, c: Cert, i: int)
    requires TreeInv(s, c) && i in c.place && !IsDir(INodeAt(s.img.inodes, i))
    ensures
      var n := INodeAt(s.img.inodes, i);
      && |n.direct| == DIRECT
      && ViewOf(s.img, i) == FileView(AttrOf(n), Printed(s.img.blocks, n.direct, n.size, 0, 0))
  {
    hide TreeInv;
    Reached(s, c, i);
    var n := INodeAt(s.img.inodes, i);
    PrintedRest(s.img.blocks, n.direct, n.size, 0, 0);
  }

  /**
   In a directory of the tree Cat finds a file exactly when an entry of that name
   leads to one; a permitted user is then shown its whole text, and nobody else.
   */
  lemma CatExact(s: State, c: Cert, who: Session, d: int, name: string, h: int)
    requires TreeInv(s, c) && d in c.place && IsDir(INodeAt(s.img.inodes, d)) && name != ""
    requires |INodeAt(s.img.inodes, d).direct| == DIRECT && 0 <= h < SLOTS
    requires Slots(s.img.blocks, INodeAt(s.img.inodes, d).direct)[h].name == name
    ensures
      var dir := INodeAt(s.img.inodes, d);
      var i := Slots(s.img.blocks, dir.direct)[h].ino;
      var file := INodeAt(s.img.inodes, i);
      && (IsDir(file) ==> Cat(s.img, who, d, name) == NoSuchFile)
      && (!IsDir(file) && !MayRead(who, dir, file) ==> Cat(s.img, who, d, name) == CatDenied)
      && (!IsDir(file) && MayRead(who, dir, file) ==>
            ViewOf(s.img, i).FileView? && Cat(s.img, who, d, name) == Shown(ViewOf(s.img, i).text))
  {
    hide TreeInv, NodeOk, Printed, ModeBit;
    var dir := INodeAt(s.img.inodes, d);
    ReachedDir(s, c, d);
    OneMatch(s.img, c, d, dir.cnt, dir.direct, name, h);
    var i := Slots(s.img.blocks, dir.direct)[h].ino;
    if !IsDir(INodeAt(s.img.inodes, i)) {
      FileSlotPlaced(s, c, d, h);
      CatShowsContent(s, c, i);
    }
  }

  /** The entry of a file is a child's entry. */
  lemma FileSlotPlaced(s: State, c: Cert, d: int, h: int)
    requires TreeInv(s, c) && d in c.place && IsDir(INodeAt(s.img.inodes, d)) && 0 <= h < SLOTS
    requires |INodeAt(s.img.inodes, d).direct| == DIRECT
    requires Slots(s.img.blocks, INodeAt(s.img.inodes, d).direct)[h].name != ""
    ensures Slots(s.img.blocks, INodeAt(s.img.inodes, d).direct)[h].ino in c.place
  {
    hide TreeInv, NodeOk;
    ReachedDir(s, c, d);
    var slots := Slots(s.img.blocks, INodeAt(s.img.inodes, d).direct);
    if h >= Base(d) {
      assert KidOk(c, d, h, slots[h]);
    } else if h == 1 {
      ParentDir(s, c, d);
    }
  }

  /** Names are unique, so the search finds that entry or nothing. */
  lemma OneMatch(img: Image, c: Cert, d: int, cnt: nat, direct: seq<int>, name: string, h: int)
    requires |direct| == DIRECT && d in c.place && DirOk(c, d, cnt, Slots(img.blocks, direct)) && name != ""
    requires 0 <= h < SLOTS && Slots(img.blocks, direct)[h].name == name
    ensures
      var file := INodeAt(img.inodes, Slots(img.blocks, direct)[h].ino);
      FindKind(img, direct, name, false, 0) == if IsDir(file) then SLOTS else h
  {
    hide KidOk, Base;
    var slots := Slots(img.blocks, direct);
    var f := FindKind(img, direct, name, false, 0);
    assert NamesDistinct(slots);
    NamedSlot(img.blocks, direct, h);
    if !IsDir(INodeAt(img.inodes, slots[h].ino)) { assert IsMatch(img, direct, name, false, h); }
    assert f < SLOTS ==> slots[f].name == name;
  }

  /**
   Cat finds no file exactly when no slot of an allocated block carries the name and
   leads to one; for the empty name these are the free slots and their stale
   addresses.
   */
  lemma CatFinds(s: State, who: Session, d: int, name: string)
    requires |INodeAt(s.img.inodes, d).direct| == DIRECT
    ensures
      var direct := INodeAt(s.img.inodes, d).direct;
      var slots := Slots(s.img.blocks, direct);
      (Cat(s.img, who, d, name) == NoSuchFile
       <==> forall h :: 0 <= h < SLOTS && direct[h / PER_BLOCK] != -1 && slots[h].name == name ==>
              IsDir(INodeAt(s.img.inodes, slots[h].ino)))
  {
    hide Slots, MayRead;
    var direct := INodeAt(s.img.inodes, d).direct;
    var f := FindKind(s.img, direct, name, false, 0);
    forall h | 0 <= h < SLOTS && direct[h / PER_BLOCK] != -1 && Slots(s.img.blocks, direct)[h].name == name
      ensures IsMatch(s.img, direct, name, false, h) <==> !IsDir(INodeAt(s.img.inodes, Slots(s.img.blocks, direct)[h].ino))
    {
    }
    assert f < SLOTS ==> IsMatch(s.img, direct, name, false, f);
  }

  // ---------------------------------------------------------------------
  // Cat and stray pointers
  // ---------------------------------------------------------------------

  /** A stray pointer lies past the text, and the printing stops before it. */
  lemma StrayPrinted(blocks: map<int, Block>, m: INode, n: INode)
    requires StrayNode(m, n) && |n.direct| == DIRECT && !IsDir(n) && FileOk(n.cnt, n.size, n.direct)
    ensures |m.direct| == DIRECT && Printed(blocks, m.direct, m.size, 0, 0) == Printed(blocks, n.direct, n.size, 0, 0)
  {
    hide Printed, BytesAt;
    PrintedRest(blocks, m.direct, m.size, 0, 0);
    PrintedRest(blocks, n.direct, n.size, 0, 0);
    forall p | 0 <= p < n.size ensures m.direct[p / BLOCK_SIZE] == n.direct[p / BLOCK_SIZE] {
      assert p / BLOCK_SIZE * BLOCK_SIZE <= p;
    }
    assert Content(blocks, m.direct, m.size) == Content(blocks, n.direct, n.size);
  }

  lemma StrayCat(s: State, t: State, clean: set<int>, c: Cert, who: Session, d: int, name: string)
    requires Strayed(s, t, clean) && TreeInv(t, c) && d in c.place && IsDir(INodeAt(t.img.inodes, d)) && name != ""
    requires |INodeAt(t.img.inodes, d).direct| == DIRECT
    ensures INodeAt(s.img.inodes, d) == INodeAt(t.img.inodes, d)
    ensures Cat(s.img, who, d, name) == Cat(t.img, who, d, name)
  {
    hide Strayed, TreeInv, Printed, ModeBit, NodeOk, Slots;
    StrayReads(s, t, clean, d);
    SameImage(s, t, clean);
    var dir := INodeAt(t.img.inodes, d);
    StrayFind(s, t, clean, dir.direct, name, false);
    var h := FindKind(t.img, dir.direct, name, false, 0);
    if h < SLOTS {
      var i := Slots(t.img.blocks, dir.direct)[h].ino;
      FileSlotPlaced(t, c, d, h);
      FileThere(t, c, i);
      StrayAt(s, t, clean, i);
      StrayPrinted(t.img.blocks, INodeAt(s.img.inodes, i), INodeAt(t.img.inodes, i));
    }
  }

  lemma StrayAt(s: State, t: State, clean: set<int>, i: int)
    requires Strayed(s, t, clean)
    ensures StrayNode(INodeAt(s.img.inodes, i), INodeAt(t.img.inodes, i))
  {
  }

  lemma FileThere(s: State, c: Cert, i: int)
    requires TreeInv(s, c) && i in c.place && !IsDir(INodeAt(s.img.inodes, i))
    ensures var n := INodeAt(s.img.inodes, i); |n.direct| == DIRECT && FileOk(n.cnt, n.size, n.direct)
  {
    Reached(s, c, i);
  }

  // ---------------------------------------------------------------------
  // Round trips
  // ---------------------------------------------------------------------

  /** A file just created is shown back to a user who may read it, whatever the unassigned pointer held. */
  lemma CreateThenCat(s: State, c: Cert, who: Session, d: int, name: string, buf: seq<char>, junk: int)
    requires DiskInv(s) && TreeInv(s, c) && d in c.place && IsDir(INodeAt(s.img.inodes, d))
    requires |INodeAt(s.img.inodes, d).direct| == DIRECT && TextBuffer(buf)
    requires UsableName(d, name) && Create(s, who, d, name, buf, junk).1
    ensures
      var s' := Create(s, who, d, name, buf, junk).0;
      var dir, file := INodeAt(s'.img.inodes, d), INodeAt(s'.img.inodes, NewINode(s, d));
      && |dir.direct| == DIRECT
      && Cat(s'.img, who, d, name) == if MayRead(who, dir, file) then Shown(buf[..StrLen(buf)]) else CatDenied
  {
    hide TreeInv, DiskInv, Create, NewINode, Cat, ModeBit, StrLen, Strayed;
    StackShape(s);
    var c', i := CreateKeeps(s, c, who, d, name, buf, -1);
    CreateStrayed(s, c, who, d, name, buf, junk);
    var s', t' := Create(s, who, d, name, buf, junk).0, Create(s, who, d, name, buf, -1).0;
    NewFileSlot(s, t', c, c', who, d, name, i, buf[..StrLen(buf)]);
    CatExact(t', c', who, d, name, FirstHoleOf(s, d));
    StrayCat(s', t', c.place.Keys, c', who, d, name);
    StrayAt(s', t', c.place.Keys, i);
  }

  /**
   Text written to a file of the tree is what readFileContent returns, and what
   Cat, asked for the file in its directory, shows to a user who may read it, if
   the blocks sufficed.
   */
  lemma WriteThenRead(s: State, c: Cert, who: Session, i: int, buf: seq<char>)
    requires DiskInv(s) && TreeInv(s, c) && i in c.place && !IsDir(INodeAt(s.img.inodes, i))
    requires |INodeAt(s.img.inodes, i).direct| == DIRECT && TextBuffer(buf)
    requires |s.super.stack| == GROUP && Fill(s, buf, INodeAt(s.img.inodes, i).direct, 0).2
    ensures
      var s' := WriteFile(s, INodeAt(s.img.inodes, i), i, buf);
      var d, file := c.place[i].parent, INodeAt(s'.img.inodes, i);
      var dir := INodeAt(s'.img.inodes, d);
      && FileText(s'.img.blocks, file) == buf[..StrLen(buf)]
      && |dir.direct| == DIRECT
      && Cat(s'.img, who, d, NameOf(s, c, i)) == if MayRead(who, dir, file) then Shown(buf[..StrLen(buf)]) else CatDenied
  {
    hide TreeInv, DiskInv, WriteFile, FileText, Cat, MayRead, StrLen, Fill, NameOf;
    var c' := WriteFileKeeps(s, c, i, buf);
    var s' := WriteFile(s, INodeAt(s.img.inodes, i), i, buf);
    FileTextIsView(s', c', i);
    FileHangs(s, c, i);
    FileHangs(s', c', i);
    var d := c.place[i].parent;
    assert ViewOf(s'.img, d) == ViewOf(s.img, d);
    CatExact(s', c', who, d, NameOf(s, c, i), c.place[i].slot);
  }

  /** The slot a file hangs in. */
  lemma FileHangs(s: State, c: Cert, i: int)
    requires TreeInv(s, c) && i in c.place && !IsDir(INodeAt(s.img.inodes, i))
    ensures
      var d, h := c.place[i].parent, c.place[i].slot;
      && d in c.place && d != i && IsDir(INodeAt(s.img.inodes, d)) && |INodeAt(s.img.inodes, d).direct| == DIRECT && 0 <= h < SLOTS
      && ViewOf(s.img, d) == DirView(AttrOf(INodeAt(s.img.inodes, d)), Slots(s.img.blocks, INodeAt(s.img.inodes, d).direct))
      && Slots(s.img.blocks, INodeAt(s.img.inodes, d).direct)[h] == Entry(NameOf(s, c, i), i) && NameOf(s, c, i) != ""
  {
    hide NodeOk;
    Hangs(s, c, i);
  }

  function FirstHoleOf(s: State, d: int): nat
    requires |INodeAt(s.img.inodes, d).direct| == DIRECT
  {
    Directories.FirstHole(Slots(s.img.blocks, INodeAt(s.img.inodes, d).direct), 0)
  }

  lemma NewFileSlot(s: State, s': State, c: Cert, c': Cert, who: Session, d: int, name: string, i: int, text: string)
    requires d in c.place && FileMade(s, s', c, c', who, d, name, i, text) && |INodeAt(s.img.inodes, d).direct| == DIRECT
    ensures d in c'.place && |INodeAt(s'.img.inodes, d).direct| == DIRECT && IsDir(INodeAt(s'.img.inodes, d))
    ensures FirstHoleOf(s, d) < SLOTS
    ensures Slots(s'.img.blocks, INodeAt(s'.img.inodes, d).direct)[FirstHoleOf(s, d)] == Entry(name, i)
    ensures !IsDir(INodeAt(s'.img.inodes, i)) && ViewOf(s'.img, i).FileView? && ViewOf(s'.img, i).text == text
  {
  }

  // ---------------------------------------------------------------------
  // The loops
  // ---------------------------------------------------------------------

  lemma PrintedTurn(blocks: map<int, Block>, direct: seq<int>, size: nat, k: nat, len: nat)
    requires |direct| == DIRECT && k <= DIRECT
    ensures k == DIRECT ==> Printed(blocks, direct, size, k, len) == ""
    ensures k < DIRECT && direct[k] == -1 ==> Printed(blocks, direct, size, k, len) == Printed(blocks, direct, size, k + 1, len)
    ensures k < DIRECT && direct[k] != -1 ==>
      var piece := Piece(blocks, direct[k], size, len);
      Printed(blocks, direct, size, k, len)
        == if len + |piece| >= size then piece else piece + Printed(blocks, direct, size, k + 1, len + |piece|)
  {
  }

  /** The inner loop: character by character to the end of the block or of the file. */
  method PrintBlock(block: seq<char>, size: nat, from: nat) returns (text: string, len: nat)
    requires |block| == BLOCK_SIZE
    ensures |text| == if from >= size then 0 else if size - from < BLOCK_SIZE then size - from else BLOCK_SIZE
    ensures len == from + |text| && text == block[..|text|]
  {
    text, len := "", from;
    var cur := 0;
    while cur < BLOCK_SIZE
      invariant 0 <= cur <= BLOCK_SIZE && len == from + cur && text == block[..cur]
      invariant cur > 0 ==> len <= size
    {
      if len >= size {
        break;
      }
      text := text + [block[cur]];
      cur := cur + 1;
      len := len + 1;
    }
  }

  method PrintFile(blocks: map<int, Block>, n: INode) returns (text: string)
    requires |n.direct| == DIRECT
    ensures text == Printed(blocks, n.direct, n.size, 0, 0)
  {
    hide Printed;
    text := "";
    var len: nat := 0;
    for k := 0 to DIRECT
      invariant text + Printed(blocks, n.direct, n.size, k, len) == Printed(blocks, n.direct, n.size, 0, 0)
    {
      PrintedTurn(blocks, n.direct, n.size, k, len);
      if n.direct[k] == -1 {
        continue;
      }
      var piece;
      piece, len := PrintBlock(BytesAt(blocks, n.direct[k]), n.size, len);
      text := text + piece;
      if len >= n.size {
        return;
      }
    }
    PrintedTurn(blocks, n.direct, n.size, DIRECT, len);
  }

  method ShowFile(img: Image, who: Session, d: int, name: string) returns (answer: CatAnswer)
    requires |INodeAt(img.inodes, d).direct| == DIRECT
    ensures answer == Cat(img, who, d, name)
  {
    var dir := INodeAt(img.inodes, d);
    var h := FindEntry(img, dir.direct, name, false);
    if h == SLOTS {
      return NoSuchFile;
    }
    var file := INodeAt(img.inodes, Slots(img.blocks, dir.direct)[h].ino);
    if !MayRead(who, dir, file) {
      return CatDenied;
    }
    if |file.direct| != DIRECT {
      return Shown("");
    }
    var text := PrintFile(img.blocks, file);
    answer := Shown(text);
  }
}
