/**
 copyRecursive in CopyEntry (src/filesystem_adapter.cpp): why a copy that
 succeeds is a clone.
 */
module CopyTree {
  import opened Disk
  import opened Allocator
  import opened Tree
  import opened INodes
  import opened Directories
  import opened MakeDirectory
  import opened FileData
  import opened CreateFile
  import opened Freeing
  import opened DeleteFile
  import opened Subtree
  import opened Outline
  import opened Resolve

  datatype CopyResult = Copied | InvalidName | NameTooLong | Exists | MakeDirFailed | LocateFailed
                      | TooLarge | ReadFailed | NotText | CreateFailed

  /**
   No file of the outline makes Create leave a pointer unset, or what the pointer
   held was -1.
   */
  ghost predicate Tame(doc: Doc, junk: seq<int>)
    requires |junk| == DIRECT
  {
    match doc
    case File(text) => LeavesJunk(|text|) ==> junk[|text| / BLOCK_SIZE] == -1
    case Folder(kids) => forall m :: 0 <= m < |kids| ==> Tame(kids[m].1, junk)
  }

  ghost predicate SourceTame(s: State, c: Cert, src: int, junk: seq<int>) {
    |junk| == DIRECT && (Placed(c) && src in c.place ==> Tame(DocOf(s, c, src), junk))
  }

  lemma {:induction false} ClearedIsTame(doc: Doc, junk: seq<int>)
    requires NoBlocks(junk)
    ensures Tame(doc, junk)
  {
    match doc
    case File(_) =>
    case Folder(kids) =>
      forall m | 0 <= m < |kids| ensures Tame(kids[m].1, junk) { ClearedIsTame(kids[m].1, junk); }
  }

  lemma TameKid(doc: Doc, junk: seq<int>, m: nat)
    requires |junk| == DIRECT && doc.Folder? && m < |doc.kids| && Tame(doc, junk)
    ensures Tame(doc.kids[m].1, junk)
  {
  }

  /** A copy may start: both ends are in the tree and the target is a directory outside the source. */
  ghost predicate CanCopy(s: State, c: Cert, src: int, tgt: int) {
    match c
    case Cert(place, _, _) =>
      && DiskInv(s) && TreeInv(s, c) && Placed(c)
      && src in place && tgt in place && IsDir(INodeAt(s.img.inodes, tgt)) && !Below(c, tgt, src)
  }

  /** The tree grew around the target: allocator and tree are intact, and every node there was, but the target, looks the same. */
  ghost predicate GrownAt(s: State, c: Cert, s': State, c': Cert, tgt: int) {
    match c'
    case Cert(_, _, _) =>
      && DiskInv(s') && TreeInv(s', c') && Placed(c') && Grew(s, s', c, c') && GainedAt(c, c', tgt)
      && (forall j {:trigger ViewOf(s'.img, j)} {:trigger ViewOf(s.img, j)} ::
            j in c.place && j != tgt ==> ViewOf(s'.img, j) == ViewOf(s.img, j))
  }

  /** The target looks the same, or its first free slot has the entry. */
  ghost predicate OneMore(s: State, s': State, tgt: int, name: string) {
    match ViewOf(s.img, tgt)
    case DirView(attr, slots) =>
      || ViewOf(s'.img, tgt) == ViewOf(s.img, tgt)
      || (FirstHole(slots, 0) < |slots|
          && exists i :: ViewOf(s'.img, tgt) == DirView(attr, slots[FirstHole(slots, 0) := Entry(name, i)]))
    case _ => false
  }

  lemma HasIsOneMore(s: State, c: Cert, s': State, c': Cert, tgt: int, name: string, i: int)
    requires TargetHas(s, c, s', c', tgt, name, i)
    ensures OneMore(s, s', tgt, name)
  {
    hide ViewOf;
  }

  /** The target's first free slot now holds the entry for the new node `i`; nothing leaked. */
  ghost predicate TargetHas(s: State, c: Cert, s': State, c': Cert, tgt: int, name: string, i: int) {
    match ViewOf(s.img, tgt)
    case DirView(attr, slots) =>
      && |slots| == SLOTS && FirstHole(slots, 0) < SLOTS
      && ViewOf(s'.img, tgt) == DirView(attr, slots[FirstHole(slots, 0) := Entry(name, i)])
      && i !in c.place && i in c'.place && i != ROOT && c'.place[i].parent == tgt
      && (LeakFree(s, c) ==> LeakFree(s', c'))
    case _ => false
  }

  /** A finished copy: new node `i` under the target says what the source said. */
  ghost predicate ClonedAt(s: State, c: Cert, s': State, c': Cert, tgt: int, name: string, i: int, doc: Doc) {
    match c'
    case Cert(place, _, _) =>
      GrownAt(s, c, s', c', tgt) && TargetHas(s, c, s', c', tgt, name, i) && DocOf(s', c', i) == doc
  }

  /** The new directory holds exactly these children, in order, in its first slots. */
  ghost predicate Holds(s: State, c: Cert, n: int, kids: seq<(string, Doc)>)
    requires Placed(c) && n in c.place
  {
    match ViewOf(s.img, n)
    case DirView(_, slots) => |slots| == SLOTS && Packed(slots) && Kids(s, c, n, slots, |slots|) == kids
    case _ => false
  }

  /** The directory copy with some of its children done. */
  ghost predicate Copying(s: State, c: Cert, s': State, c': Cert, tgt: int, name: string, n: int, kids: seq<(string, Doc)>) {
    match c'
    case Cert(place, _, _) =>
      GrownAt(s, c, s', c', tgt) && TargetHas(s, c, s', c', tgt, name, n) && Holds(s', c', n, kids)
  }

  // ---------------------------------------------------------------------
  // A file
  // ---------------------------------------------------------------------

  lemma FileCopied(s: State, c: Cert, s': State, c': Cert, who: Session, src: int, tgt: int, name: string, i: int,
                   text: string)
    requires CanCopy(s, c, src, tgt) && DiskInv(s') && TreeInv(s', c') && tgt in c.place
    requires FileMade(s, s', c, c', who, tgt, name, i, text)
    requires ViewOf(s.img, src).FileView? && ViewOf(s.img, src).text == text
    ensures Placed(c) && ClonedAt(s, c, s', c', tgt, name, i, DocOf(s, c, src)) && GrownAt(s, c, s', c', tgt)
    ensures OneMore(s, s', tgt, name)
  {
    hide TreeInv, DiskInv, Below, Grew;
    TreePlaced(s', c');
    assert c'.place[i].parent == tgt;
  }

  /** Create on the text read, with no pointer of the new inode unassigned. */
  lemma CopyFileKeeps(s: State, c: Cert, who: Session, src: int, tgt: int, name: string, text: string)
    returns (c': Cert, i: int)
    requires CanCopy(s, c, src, tgt) && Placed(c) && src in c.place && !IsDir(INodeAt(s.img.inodes, src))
    requires name != "" && (name == ".." ==> tgt != ROOT)
    requires text == FileText(s.img.blocks, INodeAt(s.img.inodes, src)) && |text| <= MAX_FILE && '\0' !in text
    ensures TextBuffer(ZeroPadded(text)) && |INodeAt(s.img.inodes, tgt).direct| == DIRECT && |s.super.stack| == GROUP
    ensures
      var (s', ok) := Create(s, who, tgt, name, ZeroPadded(text), -1);
      && GrownAt(s, c, s', c', tgt) && OneMore(s, s', tgt, name)
      && (ok ==> ClonedAt(s, c, s', c', tgt, name, i, DocOf(s, c, src)))
  {
    hide OneMore, GrownAt, ClonedAt, TreeInv, DiskInv, FileMade, Grew, DocOf, Create, ZeroPadded, FileText;
    PaddedText(text);
    FileTextIsView(s, c, src);
    TargetReady(s, c, src, tgt);
    c', i := CreateKeeps(s, c, who, tgt, name, ZeroPadded(text), -1);
    var (s', ok) := Create(s, who, tgt, name, ZeroPadded(text), -1);
    if ok {
      FileCopied(s, c, s', c', who, src, tgt, name, i, text);
    } else {
      FileNotCopied(s, c, s', src, tgt, name);
    }
  }

  /** For a file, being tame is about its text: the unassigned pointer, if there is one, holds -1. */
  lemma TameText(s: State, c: Cert, src: int, tgt: int, text: string, junk: seq<int>)
    requires CanCopy(s, c, src, tgt) && Placed(c) && src in c.place && !IsDir(INodeAt(s.img.inodes, src)) && |junk| == DIRECT
    requires text == FileText(s.img.blocks, INodeAt(s.img.inodes, src)) && |text| <= MAX_FILE && '\0' !in text
    ensures TextBuffer(ZeroPadded(text))
    ensures Tame(DocOf(s, c, src), junk) ==> UnsetPointer(ZeroPadded(text), junk) == -1
  {
    hide TreeInv, FileText, ZeroPadded;
    PaddedText(text);
    FileTextIsView(s, c, src);
  }

  /** A Create that fails leaves every node as it was. */
  lemma FileNotCopied(s: State, c: Cert, s': State, src: int, tgt: int, name: string)
    requires CanCopy(s, c, src, tgt) && Placed(c) && DiskInv(s') && TreeInv(s', c) && Grew(s, s', c, c)
    requires forall j :: j in c.place ==> ViewOf(s'.img, j) == ViewOf(s.img, j)
    ensures GrownAt(s, c, s', c, tgt) && OneMore(s, s', tgt, name)
  {
    TargetReady(s, c, src, tgt);
  }

  // ---------------------------------------------------------------------
  // A directory
  // ---------------------------------------------------------------------

  lemma CopyStart(s: State, c: Cert, s1: State, c1: Cert, who: Session, src: int, tgt: int, name: string, n: int)
    requires CanCopy(s, c, src, tgt) && tgt in c.place && DiskInv(s1) && TreeInv(s1, c1)
    requires DirMade(s, s1, c, c1, who, tgt, name, n)
    ensures Copying(s, c, s1, c1, tgt, name, n, [])
  {
    TreePlaced(s1, c1);
    assert c1.place[n].parent == tgt;
    FreshKids(s1, c1, n, tgt);
  }

  /** What an unchanged subtree said at the start it still says. */
  lemma SourceSame(s: State, c: Cert, s': State, c': Cert, src: int, tgt: int, k: int)
    requires CanCopy(s, c, src, tgt) && GrownAt(s, c, s', c', tgt)
    requires k in c.place && Below(c, k, src)
    ensures k in c'.place && Placed(c') && DocOf(s', c', k) == DocOf(s, c, k)
  {
    forall x | x in Sub(c, k)
      ensures x in c'.place && c'.place[x] == c.place[x] && ViewOf(s'.img, x) == ViewOf(s.img, x) && Closed(s, c, x)
    {
      BelowTrans(c, x, k, src);
      TreeClosed(s, c, x);
    }
    DocFrame(s, c, s', c', k);
  }

  /** The next child can be copied into the new directory. */
  lemma CopyNext(s: State, c: Cert, s': State, c': Cert, src: int, tgt: int, name: string, n: int,
                 kids: seq<(string, Doc)>, k: int)
    requires CanCopy(s, c, src, tgt) && Copying(s, c, s', c', tgt, name, n, kids)
    requires k in c.place && k != ROOT && c.place[k].parent == src
    ensures CanCopy(s', c', k, n) && Placed(c') && Placed(c) && DocOf(s', c', k) == DocOf(s, c, k)
  {
    assert Below(c, k, src);
    SourceSame(s, c, s', c', src, tgt, k);
    if Below(c', n, k) {
      assert Below(c', tgt, k);
      BelowFrame(c, c', tgt, k);
      BelowTrans(c, tgt, k, src);
    }
  }

  /** One more child copied. */
  lemma CopyStep(s: State, c: Cert, s1: State, c1: Cert, s2: State, c2: Cert, src: int, tgt: int, name: string, n: int,
                 kids: seq<(string, Doc)>, kname: string, i: int, doc: Doc)
    requires CanCopy(s, c, src, tgt) && Copying(s, c, s1, c1, tgt, name, n, kids)
    requires ClonedAt(s1, c1, s2, c2, n, kname, i, doc) && KidName(kname)
    ensures Copying(s, c, s2, c2, tgt, name, n, kids + [(kname, doc)])
  {
    CopyGrown(s, c, s1, c1, s2, c2, tgt, name, n);
    var slots := ViewOf(s1.img, n).slots;
    var e := Entry(kname, i);
    NewKidsSame(s1, c1, s2, c2, n);
    KidsAppend(s2, c2, n, slots, e);
  }

  /** Growth inside the new directory is growth around the target. */
  lemma CopyGrown(s: State, c: Cert, s1: State, c1: Cert, s2: State, c2: Cert, tgt: int, name: string, n: int)
    requires GrownAt(s, c, s1, c1, tgt) && TargetHas(s, c, s1, c1, tgt, name, n)
    requires GrownAt(s1, c1, s2, c2, n)
    requires tgt in c.place
    ensures GrownAt(s, c, s2, c2, tgt)
    ensures (LeakFree(s1, c1) ==> LeakFree(s2, c2)) ==> TargetHas(s, c, s2, c2, tgt, name, n)
  {
    GrewTrans(s, s1, s2, c, c1, c2);
  }

  /** The children already in the new directory are not touched by the next one. */
  lemma NewKidsSame(s1: State, c1: Cert, s2: State, c2: Cert, n: int)
    requires TreeInv(s1, c1) && Placed(c1) && n in c1.place && ViewOf(s1.img, n).DirView?
    requires GrownAt(s1, c1, s2, c2, n)
    ensures
      var slots := ViewOf(s1.img, n).slots;
      n in c2.place && Placed(c2) && Kids(s2, c2, n, slots, |slots|) == Kids(s1, c1, n, slots, |slots|)
  {
    var slots := ViewOf(s1.img, n).slots;
    forall x | x in Sub(c1, n) ensures Closed(s1, c1, x) { TreeClosed(s1, c1, x); }
    assert n in Sub(c1, n);
    KidsFrame(s1, c1, s2, c2, n, slots, |slots|);
  }

  /** All children copied: the new directory says what the source says. */
  lemma CopyEnd(s: State, c: Cert, s': State, c': Cert, tgt: int, name: string, n: int, doc: Doc)
    requires doc.Folder? && Copying(s, c, s', c', tgt, name, n, doc.kids)
    ensures ClonedAt(s, c, s', c', tgt, name, n, doc) && GrownAt(s, c, s', c', tgt) && OneMore(s, s', tgt, name)
  {
    hide TreeInv, DiskInv, Holds, DocOf, OneMore;
    HoldsDoc(s', c', n, doc);
    HasIsOneMore(s, c, s', c', tgt, name, n);
  }

  lemma HoldsDoc(s: State, c: Cert, n: int, doc: Doc)
    requires Placed(c) && n in c.place && doc.Folder? && Holds(s, c, n, doc.kids)
    ensures DocOf(s, c, n) == doc
  {
  }

  // ---------------------------------------------------------------------
  // Consequences
  // ---------------------------------------------------------------------

  lemma OwnersPlaced(s: State, c: Cert)
    requires TreeInv(s, c)
    ensures forall b :: b in c.owner ==> c.owner[b].0 in c.place
  {
    forall b | b in c.owner ensures c.owner[b].0 in c.place {
      assert OwnerOk(s, c, b);
    }
  }

  /** A clone is made of inodes and blocks that were free before. */
  lemma CloneIsFresh(s: State, c: Cert, s': State, c': Cert, tgt: int, name: string, i: int, doc: Doc)
    requires TreeInv(s, c) && Placed(c) && ClonedAt(s, c, s', c', tgt, name, i, doc)
    ensures Placed(c') && forall x :: x in Sub(c', i) ==> x !in c.place && !INodeUsed(s, x)
    ensures forall b :: b in OwnedIn(c', Sub(c', i)) ==> !Used(s, b)
  {
    forall x | x in Sub(c', i) ensures x !in c.place {
      if x in c.place { OldNotBelow(c, c', x, i); }
    }
    OwnersPlaced(s, c);
  }

  /** findChild locates the new node. */
  lemma LocateNew(s: State, c: Cert, s': State, c': Cert, tgt: int, name: string, n: int)
    requires TreeInv(s', c') && Placed(c') && tgt in c'.place && TargetHas(s, c, s', c', tgt, name, n) && name != ""
    ensures FindChild(s'.img, tgt, name) == n
  {
    assert NodeOk(s', c', tgt);
    var d := INodeAt(s'.img.inodes, tgt);
    var h := FirstHole(ViewOf(s.img, tgt).slots, 0);
    var slots := Slots(s'.img.blocks, d.direct);
    assert slots[h] == Entry(name, n);
    assert ParentOk(s', c', n);
    assert KidOk(c', tgt, c'.place[n].slot, slots[c'.place[n].slot]);
    assert h >= Base(tgt);
    assert KidOk(c', tgt, h, slots[h]);
    NameFinds(s', c', n);
  }

  lemma NothingCopied(s: State, c: Cert, src: int, tgt: int)
    requires CanCopy(s, c, src, tgt)
    ensures GrownAt(s, c, s, c, tgt) && forall name :: OneMore(s, s, tgt, name)
  {
    GrewNone(s, s, c);
    TargetReady(s, c, src, tgt);
  }

  /** What MakeDir and Create ask of the target. */
  lemma TargetReady(s: State, c: Cert, src: int, tgt: int)
    requires CanCopy(s, c, src, tgt)
    ensures DiskInv(s) && TreeInv(s, c) && Placed(c) && tgt in c.place && IsDir(INodeAt(s.img.inodes, tgt))
    ensures |INodeAt(s.img.inodes, tgt).direct| == DIRECT && |s.super.stack| == GROUP
  {
    assert NodeOk(s, c, tgt);
  }

  lemma SourceReady(s: State, c: Cert, src: int, tgt: int)
    requires CanCopy(s, c, src, tgt) && IsDir(INodeAt(s.img.inodes, src))
    ensures |INodeAt(s.img.inodes, src).direct| == DIRECT && Placed(c) && src in c.place
    ensures DocOf(s, c, src).Folder?
    ensures Source(s, c, src, Listed(SlotsAt(s, src), SLOTS), DocOf(s, c, src))
  {
    assert NodeOk(s, c, src);
    SourceListed(s, c, src);
  }

  lemma MakeNotCopied(s: State, c: Cert, s': State, src: int, tgt: int, name: string)
    requires CanCopy(s, c, src, tgt) && DiskInv(s') && TreeInv(s', c) && Grown(s, s')
    ensures GrownAt(s, c, s', c, tgt) && OneMore(s, s', tgt, name)
  {
    TargetReady(s, c, src, tgt);
    GrownKeeps(s, s', c);
    GrewNone(s, s', c);
  }

  lemma LocateCopy(s: State, c: Cert, s': State, c': Cert, tgt: int, name: string, n: int)
    requires Copying(s, c, s', c', tgt, name, n, []) && tgt in c.place && name != ""
    ensures FindChild(s'.img, tgt, name) == n
  {
    LocateNew(s, c, s', c', tgt, name, n);
  }

  /** The source's entries still read as they did before the new directory was made. */
  lemma SourceUnread(s: State, c: Cert, s': State, c': Cert, src: int, tgt: int)
    requires CanCopy(s, c, src, tgt) && GrownAt(s, c, s', c', tgt) && IsDir(INodeAt(s.img.inodes, src))
    requires |INodeAt(s.img.inodes, src).direct| == DIRECT && src != tgt
    ensures Slots(s'.img.blocks, INodeAt(s.img.inodes, src).direct) == SlotsAt(s, src)
  {
    hide TreeInv, DiskInv, DirOk, FileOk, EntriesAt;
    Reached(s, c, src);
    Reached(s', c', src);
    var direct, direct' := INodeAt(s.img.inodes, src).direct, INodeAt(s'.img.inodes, src).direct;
    forall k | 0 <= k < DIRECT && direct[k] != -1 ensures direct'[k] == direct[k] {
      assert OwnedBy(s, c, direct[k], src, k);
      Owner(s', c', direct[k]);
    }
    assert ViewOf(s'.img, src) == ViewOf(s.img, src);
    var slots, slots' := SlotsAt(s, src), Slots(s'.img.blocks, direct);
    forall t | 0 <= t < SLOTS ensures slots'[t] == slots[t] {
      assert direct[t / PER_BLOCK] != -1 ==> slots'[t] == Slots(s'.img.blocks, direct')[t];
    }
  }

  // ---------------------------------------------------------------------
  // The loop over the children, bundled for the method
  // ---------------------------------------------------------------------

  /** `m` children of the source are copied. */
  ghost predicate CopyLoop(s: State, c: Cert, s': State, c': Cert, src: int, tgt: int, name: string, n: int,
                           list: seq<Entry>, doc: Doc, m: nat) {
    match c
    case Cert(_, _, _) =>
      && CanCopy(s, c, src, tgt) && Source(s, c, src, list, doc) && doc.Folder? && m <= |list|
      && Copying(s, c, s', c', tgt, name, n, doc.kids[..m])
  }

  lemma LoopStart(s: State, c: Cert, s': State, c': Cert, src: int, tgt: int, name: string, n: int,
                  list: seq<Entry>, doc: Doc)
    requires CanCopy(s, c, src, tgt) && Source(s, c, src, list, doc) && doc.Folder?
    requires Copying(s, c, s', c', tgt, name, n, [])
    ensures CopyLoop(s, c, s', c', src, tgt, name, n, list, doc, 0)
  {
    assert doc.kids[..0] == [];
  }

  lemma LoopNext(s: State, c: Cert, s': State, c': Cert, src: int, tgt: int, name: string, n: int,
                 list: seq<Entry>, doc: Doc, m: nat)
    requires CopyLoop(s, c, s', c', src, tgt, name, n, list, doc, m) && m < |list|
    ensures doc.Folder? && m < |doc.kids| && KidName(list[m].name) && c.place.Keys <= c'.place.Keys
    ensures CanCopy(s', c', list[m].ino, n) && Placed(c') && list[m].ino in c'.place
    ensures DocOf(s', c', list[m].ino) == doc.kids[m].1
  {
    CopyNext(s, c, s', c', src, tgt, name, n, doc.kids[..m], list[m].ino);
    PlacesKept(s, c, s', c', tgt);
  }

  lemma PlacesKept(s: State, c: Cert, s': State, c': Cert, tgt: int)
    requires GrownAt(s, c, s', c', tgt)
    ensures c.place.Keys <= c'.place.Keys
  {
    hide TreeInv, DiskInv, Placed;
    forall x | x in c.place ensures x in c'.place {}
  }

  lemma LoopStep(s: State, c: Cert, s1: State, c1: Cert, s2: State, c2: Cert, src: int, tgt: int, name: string, n: int,
                 list: seq<Entry>, doc: Doc, m: nat, i: int)
    requires CopyLoop(s, c, s1, c1, src, tgt, name, n, list, doc, m) && m < |list| && doc.Folder? && m < |doc.kids|
    requires KidName(list[m].name) && ClonedAt(s1, c1, s2, c2, n, list[m].name, i, doc.kids[m].1)
    ensures CopyLoop(s, c, s2, c2, src, tgt, name, n, list, doc, m + 1)
  {
    CopyStep(s, c, s1, c1, s2, c2, src, tgt, name, n, doc.kids[..m], list[m].name, i, doc.kids[m].1);
    LoopPack(s, c, s2, c2, src, tgt, name, n, list, doc, m, doc.kids[..m] + [(list[m].name, doc.kids[m].1)]);
  }

  lemma LoopPack(s: State, c: Cert, s2: State, c2: Cert, src: int, tgt: int, name: string, n: int,
                 list: seq<Entry>, doc: Doc, m: nat, kids: seq<(string, Doc)>)
    requires CanCopy(s, c, src, tgt) && Source(s, c, src, list, doc) && doc.Folder? && m < |list| && m < |doc.kids|
    requires Copying(s, c, s2, c2, tgt, name, n, kids) && kids == doc.kids[..m] + [(list[m].name, doc.kids[m].1)]
    ensures CopyLoop(s, c, s2, c2, src, tgt, name, n, list, doc, m + 1)
  {
    hide CanCopy, Copying, DocOf, LeadsTo;
    assert doc.kids[m] == (list[m].name, doc.kids[m].1);
    assert doc.kids[..m + 1] == kids;
  }

  lemma LoopFail(s: State, c: Cert, s1: State, c1: Cert, s2: State, c2: Cert, src: int, tgt: int, name: string, n: int,
                 list: seq<Entry>, doc: Doc, m: nat)
    requires CopyLoop(s, c, s1, c1, src, tgt, name, n, list, doc, m) && GrownAt(s1, c1, s2, c2, n)
    ensures GrownAt(s, c, s2, c2, tgt) && OneMore(s, s2, tgt, name)
  {
    hide DiskInv, TreeInv, Source, Holds;
    CopyGrown(s, c, s1, c1, s2, c2, tgt, name, n);
    HasIsOneMore(s, c, s1, c1, tgt, name, n);
  }

  lemma LoopEnd(s: State, c: Cert, s': State, c': Cert, src: int, tgt: int, name: string, n: int,
                list: seq<Entry>, doc: Doc, m: nat)
    requires CopyLoop(s, c, s', c', src, tgt, name, n, list, doc, m) && m == |list|
    ensures ClonedAt(s, c, s', c', tgt, name, n, doc) && GrownAt(s, c, s', c', tgt) && OneMore(s, s', tgt, name)
  {
    hide CanCopy, Copying, ClonedAt, GrownAt, OneMore;
    assert doc.kids[..m] == doc.kids;
    CopyEnd(s, c, s', c', tgt, name, n, doc);
  }

  /** MakeDir succeeded: the new directory is found, and the source still lists its children. */
  lemma DirectoryMade(s: State, c: Cert, s': State, c': Cert, who: Session, src: int, tgt: int, name: string, n: int)
    requires CanCopy(s, c, src, tgt) && tgt in c.place && DiskInv(s') && TreeInv(s', c') && name != ""
    requires DirMade(s, s', c, c', who, tgt, name, n) && IsDir(INodeAt(s.img.inodes, src))
    requires |INodeAt(s.img.inodes, src).direct| == DIRECT && Placed(c) && src in c.place
    ensures FindChild(s'.img, tgt, name) == n && GrownAt(s, c, s', c', tgt) && OneMore(s, s', tgt, name)
    ensures CopyLoop(s, c, s', c', src, tgt, name, n,
                     Listed(Slots(s'.img.blocks, INodeAt(s.img.inodes, src).direct), SLOTS), DocOf(s, c, src), 0)
  {
    CopyStart(s, c, s', c', who, src, tgt, name, n);
    HasIsOneMore(s, c, s', c', tgt, name, n);
    LocateCopy(s, c, s', c', tgt, name, n);
    SourceReady(s, c, src, tgt);
    assert Below(c, src, src);
    SourceUnread(s, c, s', c', src, tgt);
    LoopStart(s, c, s', c', src, tgt, name, n, Listed(SlotsAt(s, src), SLOTS), DocOf(s, c, src));
  }

  // ---------------------------------------------------------------------
  // Pieces of the method
  // ---------------------------------------------------------------------

  /** FILE_BUFFER: the size of the zeroed buffer a text is copied into. */
  const FILE_BUFFER: int := 10000

  function ZeroPadded(text: string): (buf: seq<char>)
    requires |text| <= MAX_FILE
    ensures |buf| == FILE_BUFFER
  {
    text + seq(FILE_BUFFER - |text|, _ => '\0')
  }

  /** The buffer Create gets holds exactly the text. */
  lemma PaddedText(text: string)
    requires |text| <= MAX_FILE && '\0' !in text
    ensures TextBuffer(ZeroPadded(text)) && StrLen(ZeroPadded(text)) == |text|
    ensures ZeroPadded(text)[..|text|] == text
  {
    StrLenPadded(text, seq(FILE_BUFFER - |text|, _ => '\0'));
  }

  /** The children of a source directory, as the loop over them sees it. */
  ghost predicate Source(s: State, c: Cert, src: int, list: seq<Entry>, doc: Doc) {
    match doc
    case File(_) => false
    case Folder(kids) =>
      && Placed(c) && src in c.place && |list| == |kids|
      && forall m :: 0 <= m < |list| ==>
           && LeadsTo(c, src, list[m]) && KidName(list[m].name)
           && kids[m] == (list[m].name, DocOf(s, c, list[m].ino))
  }

  lemma SourceListed(s: State, c: Cert, src: int)
    requires TreeInv(s, c) && Placed(c) && src in c.place && IsDir(INodeAt(s.img.inodes, src))
    requires |INodeAt(s.img.inodes, src).direct| == DIRECT
    ensures Source(s, c, src, Listed(SlotsAt(s, src), SLOTS), DocOf(s, c, src))
  {
    var slots := SlotsAt(s, src);
    TreeClosed(s, c, src);
    ListedNames(s, c, src, |slots|);
    KidsListed(s, c, src, slots, |slots|);
    assert ViewOf(s.img, src) == DirView(AttrOf(INodeAt(s.img.inodes, src)), slots);
  }

  lemma {:induction false} ListedNames(s: State, c: Cert, src: int, t: nat)
    requires TreeInv(s, c) && src in c.place && IsDir(INodeAt(s.img.inodes, src))
    requires |INodeAt(s.img.inodes, src).direct| == DIRECT && t <= SLOTS
    ensures forall m :: 0 <= m < |Listed(SlotsAt(s, src), t)| ==> KidName(Listed(SlotsAt(s, src), t)[m].name)
    decreases t
  {
    if t > 0 {
      ListedNames(s, c, src, t - 1);
      var slots := SlotsAt(s, src);
      assert NodeOk(s, c, src);
      if RealChild(slots[t - 1]) { EntryPlaced(s, c, src, t - 1); }
    }
  }

  lemma {:induction false} ListedSkips(blocks: map<int, Block>, direct: seq<int>, k: nat, t: nat)
    requires |direct| == DIRECT && k < DIRECT && direct[k] == -1
    requires k * PER_BLOCK <= t <= (k + 1) * PER_BLOCK
    ensures Listed(Slots(blocks, direct), t) == Listed(Slots(blocks, direct), k * PER_BLOCK)
    decreases t
  {
    if t > k * PER_BLOCK {
      assert (t - 1) / PER_BLOCK == k;
      ListedSkips(blocks, direct, k, t - 1);
    }
  }

  /** listDirectoryChildren. */
  method ListDirectoryChildren(blocks: map<int, Block>, direct: seq<int>) returns (children: seq<Entry>)
    requires |direct| == DIRECT
    ensures children == Listed(Slots(blocks, direct), SLOTS)
  {
    children := [];
    for k := 0 to DIRECT
      invariant children == Listed(Slots(blocks, direct), k * PER_BLOCK)
    {
      if direct[k] == -1 {
        ListedSkips(blocks, direct, k, (k + 1) * PER_BLOCK);
        continue;
      }
      var entries := EntriesAt(blocks, direct[k]);
      for j := 0 to PER_BLOCK
        invariant children == Listed(Slots(blocks, direct), k * PER_BLOCK + j)
      {
        var t := k * PER_BLOCK + j;
        assert t / PER_BLOCK == k && t % PER_BLOCK == j;
        assert Slots(blocks, direct)[t] == entries[j];
        if RealChild(entries[j]) {
          children := children + [entries[j]];
        }
      }
    }
  }
}
