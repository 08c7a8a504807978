/**
 Directories whose entries fit into their first block: MakeDir and Create always
 work there while blocks and inodes are left.
 */
module SmallDirs {
  import opened Disk
  import opened Allocator
  import opened Tree
  import opened INodes
  import opened Directories
  import opened MakeDirectory
  import opened FileData
  import opened CreateFile
  import opened Repair
  import opened SteadyState
  import opened Runs
  import opened Room
  import opened DeleteFile
  import opened Permissions
  import opened Subtree
  import opened Resolve
  import opened Navigation

  /** The first slots of `d` carry these names, in order, and the others are free. */
  ghost predicate Compact(s: State, c: Cert, d: int, names: seq<string>) {
    match ViewOf(s.img, d)
    case DirView(_, slots) =>
      && d in c.place && |slots| == SLOTS && |names| < PER_BLOCK
      && (forall t :: 0 <= t < |names| ==> slots[t].name == names[t] && names[t] != "")
      && (forall t :: |names| <= t < SLOTS ==> slots[t].name == "")
    case _ => false
  }

  lemma HoleAfter(slots: seq<Entry>, t: nat, h: nat)
    requires t <= h < |slots| && slots[h].name == "" && forall u :: t <= u < h ==> slots[u].name != ""
    ensures FirstHole(slots, t) == h
    decreases h - t
  {
    if t < h { HoleAfter(slots, t + 1, h); }
  }

  /** What the operations find in such a directory. */
  lemma CompactReady(s: State, c: Cert, d: int, names: seq<string>, name: string)
    requires TreeInv(s, c) && Compact(s, c, d, names)
    ensures
      var n := INodeAt(s.img.inodes, d);
      && d in c.place && IsDir(n) && |n.direct| == DIRECT && ViewOf(s.img, d) == DirView(AttrOf(n), Slots(s.img.blocks, n.direct))
      && FirstHole(Slots(s.img.blocks, n.direct), 0) == |names| < SLOTS
      && EntryNeeds(n, |names|) == 0
      && (name != "" && name !in names ==>
            !Taken(s.img.blocks, n.direct, name, -1) && !Taken(s.img.blocks, n.direct, name, |names|))
  {
    hide TreeInv, DirOk, FileOk;
    Reached(s, c, d);
    HoleAfter(Slots(s.img.blocks, INodeAt(s.img.inodes, d).direct), 0, |names|);
  }

  /** One more entry in the first free slot. */
  lemma CompactAdded(s: State, c: Cert, s': State, c': Cert, d: int, names: seq<string>, e: Entry)
    requires Compact(s, c, d, names) && Added(s, s', c, d, e) && d in c'.place && e.name != "" && |names| + 1 < PER_BLOCK
    ensures Compact(s', c', d, names + [e.name])
    ensures ViewOf(s.img, d).DirView? && ViewOf(s'.img, d) == ViewOf(s.img, d).(slots := ViewOf(s.img, d).slots[|names| := e])
  {
    HoleAfter(ViewOf(s.img, d).slots, 0, |names|);
  }

  lemma CompactFresh(s: State, c: Cert, i: int, parent: int)
    requires i in c.place && ViewOf(s.img, i).DirView? && ViewOf(s.img, i).slots == FreshSlots(i, parent)
    ensures Compact(s, c, i, [".", ".."])
  {
    assert forall t :: 2 <= t < SLOTS ==> FreshSlots(i, parent)[t].name == "";
  }

  /** MakeDir works and makes room for one entry less. */
  lemma MakeDirWorks(s: State, c: Cert, who: Session, d: int, names: seq<string>, name: string) returns (c': Cert, i: int)
    requires Sound(s, c) && Compact(s, c, d, names) && |names| + 1 < PER_BLOCK
    requires name != "" && |name| < MAX_NAME && name !in names && UsableName(d, name)
    requires MayMakeDir(who, INodeAt(s.img.inodes, d)) && s.super.freeInodes > 0 && s.super.freeBlocks > 0
    ensures |s.super.stack| == GROUP && |INodeAt(s.img.inodes, d).direct| == DIRECT && d in c.place
    ensures
      var (s', ok) := MakeDir(s, who, d, name);
      && ok && Sound(s', c') && (LeakFree(s, c) ==> LeakFree(s', c'))
      && DirMade(s, s', c, c', who, d, name, i) && d in c'.place && i in c'.place
      && Compact(s', c', d, names + [name]) && Compact(s', c', i, [".", ".."])
      && s'.super.freeBlocks == s.super.freeBlocks - 1 && s'.super.freeInodes == s.super.freeInodes - 1
  {
    hide TreeInv, DiskInv, Steady, Compact, MakeDir, MayMakeDir, Taken, Slots, FirstHole, LeakFree, Grew, Added;
    SoundSteady(s, c);
    CompactReady(s, c, d, names, name);
    MakeDirSucceedsIff(s, c, who, d, name);
    c', i := MakeDirKeeps(s, c, who, d, name);
    MakeDirSteady(s, who, d, name);
    var s' := MakeDir(s, who, d, name).0;
    CompactAdded(s, c, s', c', d, names, Entry(name, i));
    CompactFresh(s', c', i, d);
  }

  /** So does Create, while the text finds its blocks and no pointer is left unassigned. */
  lemma CreateWorks(s: State, c: Cert, who: Session, d: int, names: seq<string>, name: string, buf: seq<char>, junk: int)
    returns (c': Cert, i: int)
    requires Sound(s, c) && Compact(s, c, d, names) && |names| + 1 < PER_BLOCK && TextBuffer(buf)
    requires name != "" && |name| < MAX_NAME && name !in names && UsableName(d, name)
    requires s.super.freeInodes > 0 && s.super.freeBlocks >= TextNeeds(StrLen(buf))
    requires LeavesJunk(StrLen(buf)) ==> junk == -1
    ensures |s.super.stack| == GROUP && |INodeAt(s.img.inodes, d).direct| == DIRECT && d in c.place
    ensures
      var (s', ok) := Create(s, who, d, name, buf, junk);
      && ok && Sound(s', c') && (LeakFree(s, c) ==> LeakFree(s', c'))
      && FileMade(s, s', c, c', who, d, name, i, buf[..StrLen(buf)]) && d in c'.place && i in c'.place
      && Compact(s', c', d, names + [name])
      && s'.super.freeBlocks == s.super.freeBlocks - TextNeeds(StrLen(buf)) && s'.super.freeInodes == s.super.freeInodes - 1
  {
    hide TreeInv, DiskInv, Steady, Compact, Create, Taken, Slots, FirstHole, LeakFree, Grew, Added, StrLen, TextNeeds;
    SoundSteady(s, c);
    CompactReady(s, c, d, names, name);
    CreateSucceedsIff(s, c, who, d, name, buf, junk);
    c', i := CreateKeeps(s, c, who, d, name, buf, junk);
    CreateSteady(s, who, d, name, buf, junk);
    CompactAdded(s, c, Create(s, who, d, name, buf, junk).0, c', d, names, Entry(name, i));
  }

  // ---------------------------------------------------------------------
  // Trees of such directories, node by node
  // ---------------------------------------------------------------------

  /** A directory's slots: these entries, then holes. */
  function Padded(l: seq<Entry>): (r: seq<Entry>)
    requires |l| <= SLOTS
    ensures |r| == SLOTS
  {
    l + seq(SLOTS - |l|, _ => HOLE)
  }

  function NamesOf(l: seq<Entry>): (r: seq<string>)
    ensures |r| == |l|
  {
    seq(|l|, t requires 0 <= t < |l| => l[t].name)
  }

  /** Sound, without leaks, and the nodes of the tree are exactly these and look like this. */
  ghost predicate Shows(s: State, c: Cert, nodes: map<int, View>) {
    match nodes
    case m =>
      && Sound(s, c) && LeakFree(s, c) && c.place.Keys == m.Keys
      && forall i :: i in m ==> ViewOf(s.img, i) == m[i]
  }

  /** Node `d` is a directory with exactly these entries. */
  ghost predicate DirShown(nodes: map<int, View>, d: int, attr: Attr, l: seq<Entry>) {
    && d in nodes && |l| < PER_BLOCK && nodes[d] == DirView(attr, Padded(l))
    && forall t :: 0 <= t < |l| ==> l[t].name != ""
  }

  lemma ShownPlaced(nodes: map<int, View>, d: int, attr: Attr, l: seq<Entry>)
    requires DirShown(nodes, d, attr, l)
    ensures d in nodes
  {
  }

  lemma ShownCompact(s: State, c: Cert, nodes: map<int, View>, d: int, attr: Attr, l: seq<Entry>)
    requires Shows(s, c, nodes) && DirShown(nodes, d, attr, l)
    ensures Compact(s, c, d, NamesOf(l))
    ensures AttrOf(INodeAt(s.img.inodes, d)) == attr && |INodeAt(s.img.inodes, d).direct| == DIRECT && |s.super.stack| == GROUP
  {
    hide LeakFree, Sound;
    SoundSteady(s, c);
    assert d in c.place;
    CompactReady(s, c, d, NamesOf(l), "");
  }

  /** The permission triple of the owner, and root. */
  predicate MayAdd(who: Session, attr: Attr) { who.user == "root" || (attr.mode == DIR_MODE && attr.user == who.user) }

  lemma OwnMay(who: Session)
    ensures MayAdd(who, Attr(DIR_MODE, who.user, who.group))
  {
  }

  lemma OwnerMay(who: Session, n: INode)
    requires MayAdd(who, AttrOf(n))
    ensures MayMakeDir(who, n)
  {
    if who.user != "root" { assert Pow2(8) == 256 by { Powers(); } }
  }

  lemma Powers()
    ensures Pow2(8) == 256 && Pow2(7) == 128 && Pow2(2) == 4
  {
    assert Pow2(0) == 1 && Pow2(1) == 2 && Pow2(2) == 4 && Pow2(3) == 8 && Pow2(4) == 16;
    assert Pow2(5) == 32 && Pow2(6) == 64 && Pow2(7) == 128 && Pow2(8) == 256;
  }

  /** One more directory. */
  lemma MakesDir(s: State, c: Cert, nodes: map<int, View>, who: Session, d: int, attr: Attr, l: seq<Entry>, name: string)
    returns (c': Cert, i: int, nodes': map<int, View>)
    requires Shows(s, c, nodes) && DirShown(nodes, d, attr, l) && MayAdd(who, attr)
    requires UsableName(d, name) && |name| < MAX_NAME && |l| + 1 < PER_BLOCK && (forall t :: 0 <= t < |l| ==> l[t].name != name)
    requires s.super.freeInodes > 0 && s.super.freeBlocks > 0
    ensures |s.super.stack| == GROUP && |INodeAt(s.img.inodes, d).direct| == DIRECT && i !in nodes && d in nodes
    ensures nodes' == nodes[d := DirView(attr, Padded(l + [Entry(name, i)]))]
                           [i := DirView(Attr(DIR_MODE, who.user, who.group), Padded([Entry(".", i), Entry("..", d)]))]
    ensures DirShown(nodes', d, attr, l + [Entry(name, i)])
    ensures DirShown(nodes', i, Attr(DIR_MODE, who.user, who.group), [Entry(".", i), Entry("..", d)])
    ensures
      var (s', ok) := MakeDir(s, who, d, name);
      && ok && Shows(s', c', nodes') && s'.super.freeBlocks == s.super.freeBlocks - 1 && s'.super.freeInodes == s.super.freeInodes - 1
  {
    hide Sound, LeakFree, MakeDir, Compact, MayMakeDir, MayAdd, Grew, UsableName, ViewOf;
    ShownCompact(s, c, nodes, d, attr, l);
    OwnerMay(who, INodeAt(s.img.inodes, d));
    NonEmpty(d, name);
    c', i := MakeDirWorks(s, c, who, d, NamesOf(l), name);
    nodes' := nodes[d := DirView(attr, Padded(l + [Entry(name, i)]))]
                   [i := DirView(Attr(DIR_MODE, who.user, who.group), Padded([Entry(".", i), Entry("..", d)]))];
    var s' := MakeDir(s, who, d, name).0;
    PaddedAdded(s, s', c, d, attr, l, Entry(name, i));
    assert FreshSlots(i, d) == Padded([Entry(".", i), Entry("..", d)]);
    assert c'.place.Keys == c.place.Keys + {i} == nodes'.Keys;
  }

  lemma NonEmpty(d: int, name: string)
    requires UsableName(d, name)
    ensures name != ""
  {
  }

  lemma PaddedAdded(s: State, s': State, c: Cert, d: int, attr: Attr, l: seq<Entry>, e: Entry)
    requires Added(s, s', c, d, e) && |l| < SLOTS && ViewOf(s.img, d) == DirView(attr, Padded(l))
    requires forall t :: 0 <= t < |l| ==> l[t].name != ""
    ensures ViewOf(s'.img, d) == DirView(attr, Padded(l + [e]))
  {
    HoleAfter(Padded(l), 0, |l|);
    assert Padded(l)[|l| := e] == Padded(l + [e]);
  }

  /** One more file. */
  lemma MakesFile(s: State, c: Cert, nodes: map<int, View>, who: Session, d: int, attr: Attr, l: seq<Entry>, name: string,
                  buf: seq<char>, junk: int)
    returns (c': Cert, i: int, nodes': map<int, View>)
    requires Shows(s, c, nodes) && DirShown(nodes, d, attr, l) && TextBuffer(buf)
    requires UsableName(d, name) && |name| < MAX_NAME && |l| + 1 < PER_BLOCK && (forall t :: 0 <= t < |l| ==> l[t].name != name)
    requires s.super.freeInodes > 0 && s.super.freeBlocks >= TextNeeds(StrLen(buf)) && (LeavesJunk(StrLen(buf)) ==> junk == -1)
    ensures |s.super.stack| == GROUP && |INodeAt(s.img.inodes, d).direct| == DIRECT && i !in nodes && d in nodes
    ensures nodes' == nodes[d := DirView(attr, Padded(l + [Entry(name, i)]))]
                           [i := FileView(Attr(FILE_MODE, who.user, who.group), buf[..StrLen(buf)])]
    ensures DirShown(nodes', d, attr, l + [Entry(name, i)])
    ensures
      var (s', ok) := Create(s, who, d, name, buf, junk);
      && ok && Shows(s', c', nodes') && s'.super.freeBlocks == s.super.freeBlocks - TextNeeds(StrLen(buf))
      && s'.super.freeInodes == s.super.freeInodes - 1
  {
    hide Sound, LeakFree, Create, Compact, Grew, UsableName, ViewOf, StrLen, TextNeeds;
    ShownCompact(s, c, nodes, d, attr, l);
    NonEmpty(d, name);
    c', i := CreateWorks(s, c, who, d, NamesOf(l), name, buf, junk);
    nodes' := nodes[d := DirView(attr, Padded(l + [Entry(name, i)]))]
                   [i := FileView(Attr(FILE_MODE, who.user, who.group), buf[..StrLen(buf)])];
    PaddedAdded(s, Create(s, who, d, name, buf, junk).0, c, d, attr, l, Entry(name, i));
    assert c'.place.Keys == c.place.Keys + {i} == nodes'.Keys;
  }

  /** Other permission bits for the child in slot `t`. */
  lemma Chmods(s: State, c: Cert, nodes: map<int, View>, who: Session, d: int, attr: Attr, l: seq<Entry>, t: nat, permissions: nat)
    returns (nodes': map<int, View>)
    requires Shows(s, c, nodes) && DirShown(nodes, d, attr, l) && t < |l| && l[t].ino in nodes && permissions < TYPE_BIT
    requires l[t].name != "." && l[t].name != ".." && !nodes[l[t].ino].NoView?
    requires who.user == "root" || nodes[l[t].ino].attr.user == who.user
    ensures |s.super.stack| == GROUP && |INodeAt(s.img.inodes, d).direct| == DIRECT
    ensures nodes' == nodes[l[t].ino := Permitted(nodes[l[t].ino], permissions)]
    ensures l[t].ino != d ==> DirShown(nodes', d, attr, l)
    ensures
      var s' := Chmod(s, who, d, l[t].name, permissions);
      Shows(s', c, nodes') && s'.super == s.super
  {
    hide LeakFree, Compact, Permitted, TreeInv, DiskInv, FindSlot, ModeChanged, WithPermissions, TurnsDir;
    ShownCompact(s, c, nodes, d, attr, l);
    CompactReady(s, c, d, NamesOf(l), "");
    var n := INodeAt(s.img.inodes, d);
    var x := l[t].ino;
    nodes' := nodes[x := Permitted(nodes[x], permissions)];
    SlotNamed(s, c, d, t);
    OwnerSeen(s, x);
    var s' := Chmod(s, who, d, l[t].name, permissions);
    var i := ChmodKeeps(s, c, who, d, l[t].name, permissions);
    Turns(INodeAt(s.img.inodes, x), permissions);
    ModeKeeps(s, c, x, permissions);
    assert s' == WriteINode(s, x, INodeAt(s.img.inodes, x).(mode := WithPermissions(INodeAt(s.img.inodes, x).mode, permissions)));
  }

  /** A name is found where it is. */
  lemma SlotNamed(s: State, c: Cert, d: int, t: nat)
    requires TreeInv(s, c) && d in c.place && IsDir(INodeAt(s.img.inodes, d)) && |INodeAt(s.img.inodes, d).direct| == DIRECT && t < SLOTS
    requires Slots(s.img.blocks, INodeAt(s.img.inodes, d).direct)[t].name != ""
    ensures
      var direct := INodeAt(s.img.inodes, d).direct;
      FindSlot(s.img.blocks, direct, Slots(s.img.blocks, direct)[t].name, 0) == t
  {
    hide TreeInv, FindSlot;
    ReachedDir(s, c, d);
    var direct := INodeAt(s.img.inodes, d).direct;
    var slots := Slots(s.img.blocks, direct);
    assert NamesDistinct(slots);
    NamedSlot(s.img.blocks, direct, t);
    FirstIs(s.img.blocks, direct, slots[t].name, t);
  }

  lemma OwnerSeen(s: State, i: int)
    requires !ViewOf(s.img, i).NoView?
    ensures ViewOf(s.img, i).attr == AttrOf(INodeAt(s.img.inodes, i))
  {
  }

  /** FindDir enters a directory of one's own that others have not closed. */
  lemma EntersChild(s: State, c: Cert, nodes: map<int, View>, who: Session, d: int, attr: Attr, l: seq<Entry>, t: nat, cur: string)
    requires Shows(s, c, nodes) && DirShown(nodes, d, attr, l) && t < |l| && l[t].ino in nodes
    requires nodes[l[t].ino].DirView? && MayAdd(who, nodes[l[t].ino].attr)
    ensures Enter(s.img, who, d, cur, l[t].name) == Entered(l[t].ino, Renamed(cur, l[t].name))
  {
    hide LeakFree, Compact, TreeInv, DiskInv, FindKind, Renamed, Pow2;
    ShownCompact(s, c, nodes, d, attr, l);
    CompactReady(s, c, d, NamesOf(l), "");
    var k := l[t].ino;
    OwnerSeen(s, k);
    var direct := INodeAt(s.img.inodes, d).direct;
    ReachedDir(s, c, d);
    NamedSlot(s.img.blocks, direct, t);
    KindSeen(s, k);
    OnlyKind(s.img, c, d, INodeAt(s.img.inodes, d).cnt, direct, t);
    Powers();
  }

  lemma KindSeen(s: State, i: int)
    requires ViewOf(s.img, i).DirView?
    ensures IsDir(INodeAt(s.img.inodes, i))
  {
  }

  lemma OnlyKind(img: Image, c: Cert, d: int, cnt: nat, direct: seq<int>, t: nat)
    requires |direct| == DIRECT && t < SLOTS && direct[t / PER_BLOCK] != -1 && d in c.place && DirOk(c, d, cnt, Slots(img.blocks, direct))
    requires Slots(img.blocks, direct)[t].name != "" && IsDir(INodeAt(img.inodes, Slots(img.blocks, direct)[t].ino))
    ensures FindKind(img, direct, Slots(img.blocks, direct)[t].name, true, 0) == t
  {
    hide KidOk, Base;
    var slots := Slots(img.blocks, direct);
    assert NamesDistinct(slots);
    assert IsMatch(img, direct, slots[t].name, true, t);
    var f := FindKind(img, direct, slots[t].name, true, 0);
    assert slots[f].name == slots[t].name;
  }
}
