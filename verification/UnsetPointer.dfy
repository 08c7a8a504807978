/**
 The pointer Create never assigns (src/filesystem_file_create.cpp, line 103): a
 nonzero text length that is a multiple of the block size leaves one pointer of
 the new inode as it was on the stack. The text reads back all the same; the
 tree survives exactly when that pointer held -1.
 */
module UnsetPointer {
  import opened Disk
  import opened Allocator
  import opened Tree
  import opened INodes
  import opened Directories
  import opened MakeDirectory
  import opened FileData
  import opened CreateFile
  import opened BadNames
  import opened Strays
  import opened Subtree

  /** Whatever the unassigned pointer held, Create does what it does with -1 there, but for that pointer. */
  lemma CreateStrayed(s: State, c: Cert, who: Session, d: int, name: string, buf: seq<char>, junk: int)
    requires DiskInv(s) && TreeInv(s, c) && d in c.place && IsDir(INodeAt(s.img.inodes, d))
    requires |INodeAt(s.img.inodes, d).direct| == DIRECT && TextBuffer(buf) && |s.super.stack| == GROUP
    ensures Create(s, who, d, name, buf, junk).1 == Create(s, who, d, name, buf, -1).1
    ensures Strayed(Create(s, who, d, name, buf, junk).0, Create(s, who, d, name, buf, -1).0, c.place.Keys)
  {
    hide TreeInv, DiskInv, Create, Strayed;
    NoStrays(s, c.place.Keys);
    StrayCreate(s, s, c.place.Keys, c, who, d, name, buf, junk);
  }

  /**
   Whatever the pointer held, the new file reads back as the text, and every node
   there was looks as before, but for the new entry.
   */
  lemma CreateReadsBack(s: State, c: Cert, who: Session, d: int, name: string, buf: seq<char>, junk: int)
    requires DiskInv(s) && TreeInv(s, c) && d in c.place && IsDir(INodeAt(s.img.inodes, d))
    requires |INodeAt(s.img.inodes, d).direct| == DIRECT && TextBuffer(buf)
    requires UsableName(d, name) && Create(s, who, d, name, buf, junk).1
    ensures
      var s', i := Create(s, who, d, name, buf, junk).0, NewINode(s, d);
      && ViewOf(s'.img, i) == FileView(Attr(FILE_MODE, who.user, who.group), buf[..StrLen(buf)])
      && FileText(s'.img.blocks, INodeAt(s'.img.inodes, i)) == buf[..StrLen(buf)]
      && i !in c.place && Added(s, s', c, d, Entry(name, i))
  {
    hide TreeInv, DiskInv, Create, NewINode, StrLen, Strayed, FileText;
    StackShape(s);
    var c', i := CreateKeeps(s, c, who, d, name, buf, -1);
    CreateStrayed(s, c, who, d, name, buf, junk);
    var s', t' := Create(s, who, d, name, buf, junk).0, Create(s, who, d, name, buf, -1).0;
    forall x ensures ViewOf(s'.img, x) == ViewOf(t'.img, x) { StrayReads(s', t', c.place.Keys, x); }
    StrayReads(s', t', c.place.Keys, i);
    NewFileReads(s, t', c, c', who, d, name, i, buf[..StrLen(buf)]);
  }

  lemma NewFileReads(s: State, s': State, c: Cert, c': Cert, who: Session, d: int, name: string, i: int, text: string)
    requires d in c.place && TreeInv(s', c') && FileMade(s, s', c, c', who, d, name, i, text)
    ensures FileText(s'.img.blocks, INodeAt(s'.img.inodes, i)) == text
  {
    hide TreeInv, FileText;
    FileTextIsView(s', c', i);
  }

  /** The new file's inode has the pointer's value where it was never assigned. */
  lemma StrayThere(s: State, c: Cert, who: Session, d: int, name: string, buf: seq<char>, junk: int)
    requires DiskInv(s) && TreeInv(s, c) && d in c.place && IsDir(INodeAt(s.img.inodes, d))
    requires |INodeAt(s.img.inodes, d).direct| == DIRECT && TextBuffer(buf) && |s.super.stack| == GROUP
    requires LeavesJunk(StrLen(buf)) && Create(s, who, d, name, buf, junk).1 && NewINode(s, d) != d
    ensures
      var n, k := INodeAt(Create(s, who, d, name, buf, junk).0.img.inodes, NewINode(s, d)), StrLen(buf) / BLOCK_SIZE;
      |n.direct| == DIRECT && k < DIRECT && n.direct[k] == junk
  {
    hide TreeInv, DiskInv, Taken, FirstHole, StoreText, AllocINode, EntryBlock, StrLen;
  }

  /**
   On a disk without leaks, a successful Create leaves a tree if and only if the
   name was usable and it assigned every pointer, or the unassigned one happened
   to hold -1.
   */
  lemma CreateTreeIff(s: State, c: Cert, who: Session, d: int, name: string, buf: seq<char>, junk: int)
    requires DiskInv(s) && TreeInv(s, c) && LeakFree(s, c) && d in c.place && IsDir(INodeAt(s.img.inodes, d))
    requires |INodeAt(s.img.inodes, d).direct| == DIRECT && TextBuffer(buf) && |s.super.stack| == GROUP
    requires Create(s, who, d, name, buf, junk).1
    ensures (exists c' :: TreeInv(Create(s, who, d, name, buf, junk).0, c'))
      <==> UsableName(d, name) && (LeavesJunk(StrLen(buf)) ==> junk == -1)
  {
    hide TreeInv, DiskInv, Create, NewINode, UsableName, Strayed, LeakFree, Added, StrLen;
    if !UsableName(d, name) {
      forall c' ensures !TreeInv(Create(s, who, d, name, buf, junk).0, c') {
        CreateBadName(s, c, who, d, name, buf, junk, c');
      }
    } else {
      var c', i := CreateKeeps(s, c, who, d, name, buf, -1);
      CreateStrayed(s, c, who, d, name, buf, junk);
      if LeavesJunk(StrLen(buf)) && junk != -1 {
        StrayThere(s, c, who, d, name, buf, junk);
        StrayThere(s, c, who, d, name, buf, -1);
        StrayTreeIff(Create(s, who, d, name, buf, junk).0, Create(s, who, d, name, buf, -1).0, c.place.Keys, c');
      } else {
        var c'', i' := CreateKeeps(s, c, who, d, name, buf, junk);
      }
    }
  }
}
