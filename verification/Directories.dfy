/**
 Adding an entry to a directory and taking one out: the parts MakeDir, Create,
 DelFile and DeleteDir share.
 */
module Directories {
  import opened Disk
  import opened Allocator
  import opened Tree

  /** The first empty slot at or after `t`; SLOTS when there is none. */
  function FirstHole(slots: seq<Entry>, t: nat): (h: nat)
    requires t <= |slots|
    ensures t <= h <= |slots|
    ensures h < |slots| ==> slots[h].name == ""
    ensures forall u :: t <= u < h ==> slots[u].name != ""
    decreases |slots| - t
  {
    if t == |slots| || slots[t].name == "" then t else FirstHole(slots, t + 1)
  }

  /** Some slot of an allocated block, other than slot `skip`, carries the name. */
  predicate Taken(blocks: map<int, Block>, direct: seq<int>, name: string, skip: int)
    requires |direct| == DIRECT
  {
    exists t :: 0 <= t < SLOTS && t != skip && direct[t / PER_BLOCK] != -1 && Slots(blocks, direct)[t].name == name
  }

  /** A directory block with slot `h` replaced is written back, then the directory's inode. */
  function StoreEntry(s: State, d: int, n: INode, h: int, blk: int, was: seq<Entry>, e: Entry): State
    requires 0 <= h < SLOTS && |n.direct| == DIRECT && |was| == PER_BLOCK
  {
    WriteINode(WriteBlock(s, blk, Entries(was[h % PER_BLOCK := e])),
               d, n.(direct := n.direct[h / PER_BLOCK := blk], cnt := (n.cnt + 1) % 65536))
  }

  /** The sixteen entries around slot `h`; all empty when its block is yet to be allocated. */
  function Around(blocks: map<int, Block>, direct: seq<int>, h: int): (r: seq<Entry>)
    requires 0 <= h < SLOTS && |direct| == DIRECT
    ensures |r| == PER_BLOCK
  {
    if direct[h / PER_BLOCK] == -1 then seq(PER_BLOCK, _ => HOLE) else EntriesAt(blocks, direct[h / PER_BLOCK])
  }

  function LinkEntry(s: State, d: int, h: int, blk: int, e: Entry): State
    requires 0 <= h < SLOTS && |INodeAt(s.img.inodes, d).direct| == DIRECT
  {
    var n := INodeAt(s.img.inodes, d);
    StoreEntry(s, d, n, h, blk, Around(s.img.blocks, n.direct, h), e)
  }

  /** The entry is emptied and the count lowered; block and inode are written back as they were read. */
  function StoreHole(s: State, d: int, n: INode, h: int, was: seq<Entry>): State
    requires 0 <= h < SLOTS && |n.direct| == DIRECT && |was| == PER_BLOCK
  {
    WriteINode(WriteBlock(s, n.direct[h / PER_BLOCK], Entries(was[h % PER_BLOCK := Entry("", -1)])),
               d, n.(cnt := (n.cnt - 1) % 65536))
  }

  lemma NamedAdd(slots: seq<Entry>, h: int, e: Entry)
    requires 0 <= h < |slots| && slots[h].name == "" && e.name != ""
    ensures |Named(slots[h := e])| == |Named(slots)| + 1
  {
    assert Named(slots[h := e]) == Named(slots) + {h};
  }

  lemma NamedDrop(slots: seq<Entry>, h: int, e: Entry)
    requires 0 <= h < |slots| && slots[h].name != "" && e.name == ""
    ensures |Named(slots[h := e])| == |Named(slots)| - 1
  {
    assert Named(slots) == Named(slots[h := e]) + {h};
  }

  lemma {:induction false} NamedBound(slots: seq<Entry>)
    ensures |Named(slots)| <= |slots|
  {
    if slots != [] {
      var last := |slots| - 1;
      NamedBound(slots[..last]);
      var rest := Named(slots[..last]);
      assert Named(slots) <= rest + {last};
      SubsetSize(Named(slots), rest + {last});
    }
  }

  lemma SubsetSize(a: set<int>, b: set<int>)
    requires a <= b
    ensures |a| <= |b|
  {
    assert b == a + (b - a);
  }

  /** Slot arithmetic: storing into one block changes one slot. */
  lemma SlotsStore(blocks: map<int, Block>, blocks': map<int, Block>, direct: seq<int>, direct': seq<int>, h: int,
                   e: Entry)
    requires |direct| == |direct'| == DIRECT && 0 <= h < SLOTS
    requires var k := h / PER_BLOCK;
      && direct' == direct[k := direct'[k]] && direct'[k] != -1
      && (direct[k] != -1 ==> direct'[k] == direct[k])
      && BlockAt(blocks', direct'[k]) == Entries(
           (if direct[k] == -1 then seq(PER_BLOCK, _ => HOLE) else EntriesAt(blocks, direct[k]))[h % PER_BLOCK := e])
      && forall j :: 0 <= j < DIRECT && j != k && direct[j] != -1 ==> BlockAt(blocks', direct[j]) == BlockAt(blocks, direct[j])
    ensures Slots(blocks', direct') == Slots(blocks, direct)[h := e]
  {
    var k := h / PER_BLOCK;
    var was, now := Slots(blocks, direct), Slots(blocks', direct');
    forall t | 0 <= t < SLOTS ensures now[t] == was[h := e][t] {
      var j := t / PER_BLOCK;
      assert 0 <= j < DIRECT;
      if j == k {
        assert EntriesAt(blocks', direct'[k])[t % PER_BLOCK] == now[t];
        assert t == h <==> t % PER_BLOCK == h % PER_BLOCK;
      }
    }
  }

  // ---------------------------------------------------------------------
  // Linking
  // ---------------------------------------------------------------------

  /** The certificate after inode `i`, owning the blocks in `own`, is linked into slot `h` of `d` through block `blk`. */
  function LinkCert(c: Cert, d: int, h: int, i: int, own: map<int, (int, int)>, blk: int): Cert
    requires d in c.place
  {
    var depth := c.place[d].depth + 1;
    Cert(c.place[i := Place(d, h, depth)],
         (c.owner + own)[blk := (d, h / PER_BLOCK)],
         if depth > c.maxDepth then depth else c.maxDepth)
  }

  ghost predicate Lacks(slots: seq<Entry>, name: string) {
    match slots
    case l => forall t :: 0 <= t < |l| ==> l[t].name != name
  }

  /** A child of the directory may take this name. */
  ghost predicate NameFits(slots: seq<Entry>, name: string) { KidName(name) && Lacks(slots, name) }

  /** Slot `h` of directory `d` is free, in its own block or in a fresh one. */
  ghost predicate SlotReady(s: State, c: Cert, d: int, h: int, blk: int) {
    match INodeAt(s.img.inodes, d)
    case n =>
      && d in c.place && IsDir(n) && |n.direct| == DIRECT && 0 <= h < SLOTS
      && Slots(s.img.blocks, n.direct)[h].name == ""
      && Used(s, blk) && blk != -1
      && (n.direct[h / PER_BLOCK] == -1 ==> blk !in c.owner)
      && (n.direct[h / PER_BLOCK] != -1 ==> blk == n.direct[h / PER_BLOCK])
  }

  /** Node `i`, owning the blocks in `own`, is complete and not yet linked. */
  ghost predicate ChildReady(s: State, c: Cert, d: int, h: int, blk: int, i: int, own: map<int, (int, int)>)
    requires d in c.place
  {
    match LinkCert(c, d, h, i, own, blk)
    case c' =>
      && i !in c.place && own.Keys !! c.owner.Keys && blk !in own
      && (forall b :: b in own ==> own[b].0 == i && b != -1)
      && NodeOk(s, c', i)
      && (forall b :: b in own ==> OwnerOk(s, c', b))
  }

  ghost predicate Linkable(s: State, c: Cert, d: int, h: int, blk: int, name: string, i: int, own: map<int, (int, int)>) {
    match c
    case Cert(place, _, _) =>
      && TreeInv(s, c) && SlotReady(s, c, d, h, blk)
      && NameFits(Slots(s.img.blocks, INodeAt(s.img.inodes, d).direct), name)
      && d in place && ChildReady(s, c, d, h, blk, i, own)
  }

  lemma StoredSlots(s: State, d: int, h: int, blk: int, e: Entry)
    requires 0 <= h < SLOTS && blk != -1
    requires var n := INodeAt(s.img.inodes, d);
      && |n.direct| == DIRECT
      && (n.direct[h / PER_BLOCK] == -1 || n.direct[h / PER_BLOCK] == blk)
      && forall j :: 0 <= j < DIRECT && j != h / PER_BLOCK ==> n.direct[j] != blk
    ensures
      var s', n := LinkEntry(s, d, h, blk, e), INodeAt(s.img.inodes, d);
      Slots(s'.img.blocks, n.direct[h / PER_BLOCK := blk]) == Slots(s.img.blocks, n.direct)[h := e]
  {
    var s', n := LinkEntry(s, d, h, blk, e), INodeAt(s.img.inodes, d);
    SlotsStore(s.img.blocks, s'.img.blocks, n.direct, n.direct[h / PER_BLOCK := blk], h, e);
  }

  lemma LinkedSlots(s: State, c: Cert, d: int, h: int, blk: int, e: Entry)
    requires TreeInv(s, c) && SlotReady(s, c, d, h, blk)
    ensures
      var s' := LinkEntry(s, d, h, blk, e);
      var n := INodeAt(s.img.inodes, d);
      && INodeAt(s'.img.inodes, d) == n.(direct := n.direct[h / PER_BLOCK := blk], cnt := (n.cnt + 1) % 65536)
      && Slots(s'.img.blocks, n.direct[h / PER_BLOCK := blk]) == Slots(s.img.blocks, n.direct)[h := e]
  {
    var n := INodeAt(s.img.inodes, d);
    assert NodeOk(s, c, d);
    forall j | 0 <= j < DIRECT && j != h / PER_BLOCK ensures n.direct[j] != blk {
      if n.direct[j] != -1 { assert OwnedBy(s, c, n.direct[j], d, j); }
      if n.direct[h / PER_BLOCK] != -1 { assert OwnedBy(s, c, n.direct[h / PER_BLOCK], d, h / PER_BLOCK); }
    }
    StoredSlots(s, d, h, blk, e);
  }

  lemma LinkedPoints(s: State, c: Cert, d: int, h: int, blk: int, e: Entry, own: map<int, (int, int)>)
    requires Linkable(s, c, d, h, blk, e.name, e.ino, own)
    ensures var n := INodeAt(s.img.inodes, d);
      |n.direct| == DIRECT &&
      Points(LinkEntry(s, d, h, blk, e), LinkCert(c, d, h, e.ino, own, blk), d, n.direct[h / PER_BLOCK := blk])
  {
    var s' := LinkEntry(s, d, h, blk, e);
    var c' := LinkCert(c, d, h, e.ino, own, blk);
    var n := INodeAt(s.img.inodes, d);
    assert NodeOk(s, c, d);
    var direct := n.direct[h / PER_BLOCK := blk];
    forall k | 0 <= k < DIRECT && direct[k] != -1 ensures OwnedBy(s', c', direct[k], d, k) {
      if k != h / PER_BLOCK {
        assert OwnedBy(s, c, n.direct[k], d, k);
      } else if n.direct[k] != -1 {
        assert OwnedBy(s, c, n.direct[k], d, k);
      }
    }
  }

  lemma DirNode(s: State, c: Cert, i: int, n: INode, slots: seq<Entry>)
    requires INodeAt(s.img.inodes, i) == n && IsDir(n)
    requires i in c.place && INodeUsed(s, i) && Points(s, c, i, n.direct)
    requires n.indirect == -1 && n.direct[0] != -1
    requires slots == Slots(s.img.blocks, n.direct) && DirOk(c, i, n.cnt, slots)
    ensures NodeOk(s, c, i)
  {
  }

  lemma LinkedCount(cnt: nat, slots: seq<Entry>, h: int, e: Entry)
    requires |slots| == SLOTS && 0 <= h < SLOTS && slots[h].name == "" && e.name != ""
    requires cnt == |Named(slots)|
    ensures (cnt + 1) % 65536 == |Named(slots[h := e])|
  {
    NamedAdd(slots, h, e);
    NamedBound(slots);
  }

  lemma LinkedDir(s: State, c: Cert, d: int, h: int, blk: int, e: Entry, own: map<int, (int, int)>)
    requires Linkable(s, c, d, h, blk, e.name, e.ino, own)
    ensures NodeOk(LinkEntry(s, d, h, blk, e), LinkCert(c, d, h, e.ino, own, blk), d)
  {
    var n := INodeAt(s.img.inodes, d);
    assert NodeOk(s, c, d);
    var slots := Slots(s.img.blocks, n.direct);
    LinkedSlots(s, c, d, h, blk, e);
    LinkedPoints(s, c, d, h, blk, e, own);
    LinkedCount(n.cnt, slots, h, e);
    var c' := LinkCert(c, d, h, e.ino, own, blk);
    DirAdd(c, d, n.cnt, slots, h, e, own, blk);
    var n' := n.(direct := n.direct[h / PER_BLOCK := blk], cnt := (n.cnt + 1) % 65536);
    DirNode(LinkEntry(s, d, h, blk, e), c', d, n', slots[h := e]);
  }

  lemma DirAdd(c: Cert, d: int, cnt: nat, slots: seq<Entry>, h: int, e: Entry, own: map<int, (int, int)>, blk: int)
    requires d in c.place && |slots| == SLOTS && DirOk(c, d, cnt, slots)
    requires 0 <= h < SLOTS && slots[h].name == "" && KidName(e.name)
    requires Lacks(slots, e.name) && e.ino !in c.place
    ensures DirOk(LinkCert(c, d, h, e.ino, own, blk), d, |Named(slots[h := e])|, slots[h := e])
  {
    var c' := LinkCert(c, d, h, e.ino, own, blk);
    var slots' := slots[h := e];
    forall t | Base(d) <= t < SLOTS && slots'[t].name != "" ensures KidOk(c', d, t, slots'[t]) {
      if t != h { assert KidOk(c, d, t, slots[t]); }
    }
  }

  lemma EntryBlockOf(s: State, c: Cert, d: int, h: int, blk: int, j: int, k: int)
    requires TreeInv(s, c) && SlotReady(s, c, d, h, blk)
    requires j in c.place && OwnedBy(s, c, blk, j, k)
    ensures j == d
  {
    var n := INodeAt(s.img.inodes, d);
    assert NodeOk(s, c, d);
    if n.direct[h / PER_BLOCK] != -1 { assert OwnedBy(s, c, blk, d, h / PER_BLOCK); }
  }

  lemma LinkedOther(s: State, c: Cert, d: int, h: int, blk: int, e: Entry, j: int)
    requires TreeInv(s, c) && SlotReady(s, c, d, h, blk) && e.ino !in c.place && j in c.place && j != d
    ensures SameNode(s, LinkEntry(s, d, h, blk, e), j)
  {
    hide TreeInv, DirOk, FileOk;
    Reached(s, c, j);
    var n := INodeAt(s.img.inodes, j);
    forall k | 0 <= k < DIRECT && n.direct[k] != -1 ensures n.direct[k] != blk {
      assert OwnedBy(s, c, n.direct[k], j, k);
      if n.direct[k] == blk { EntryBlockOf(s, c, d, h, blk, j, k); }
    }
    assert j != e.ino;
  }

  lemma LinkedNew(s: State, c: Cert, d: int, h: int, blk: int, e: Entry, own: map<int, (int, int)>)
    requires Linkable(s, c, d, h, blk, e.name, e.ino, own)
    ensures
      var s' := LinkEntry(s, d, h, blk, e);
      && NodeOk(s', LinkCert(c, d, h, e.ino, own, blk), e.ino)
      && ViewOf(s'.img, e.ino) == ViewOf(s.img, e.ino)
  {
    var s' := LinkEntry(s, d, h, blk, e);
    var c' := LinkCert(c, d, h, e.ino, own, blk);
    var n := INodeAt(s.img.inodes, e.ino);
    forall k | 0 <= k < DIRECT && n.direct[k] != -1 ensures n.direct[k] != blk {
      assert OwnedBy(s, c', n.direct[k], e.ino, k);
    }
    assert SameNode(s, s', e.ino);
    NodeFrame(s, c', s', c', e.ino);
    ViewFrame(s, c', s', e.ino);
  }

  lemma LinkKeepsTree(s: State, c: Cert, d: int, h: int, blk: int, e: Entry, own: map<int, (int, int)>)
    requires Linkable(s, c, d, h, blk, e.name, e.ino, own)
    ensures TreeInv(LinkEntry(s, d, h, blk, e), LinkCert(c, d, h, e.ino, own, blk))
  {
    hide NodeOk, ParentOk, OwnerOk, NameFits, Slots, StoreEntry;
    var s' := LinkEntry(s, d, h, blk, e);
    var c' := LinkCert(c, d, h, e.ino, own, blk);
    forall i | i in c'.place ensures NodeOk(s', c', i) {
      if i == d {
        LinkedDir(s, c, d, h, blk, e, own);
      } else if i == e.ino {
        LinkedNew(s, c, d, h, blk, e, own);
      } else {
        LinkedRest(s, c, d, h, blk, e, own, i);
      }
    }
    forall i | i in c'.place && i != ROOT ensures ParentOk(s', c', i) {
      LinkedParent(s, c, d, h, blk, e, own, i);
    }
    forall b | b in c'.owner ensures OwnerOk(s', c', b) {
      LinkedOwner(s, c, d, h, blk, e, own, b);
    }
    LinkedRoot(s, c, d, h, blk, e, own);
  }

  lemma LinkedRoot(s: State, c: Cert, d: int, h: int, blk: int, e: Entry, own: map<int, (int, int)>)
    requires Linkable(s, c, d, h, blk, e.name, e.ino, own)
    ensures IsDir(INodeAt(LinkEntry(s, d, h, blk, e).img.inodes, ROOT))
    ensures d in c.place && ROOT in c.place && e.ino != ROOT
  {
    if d != ROOT { LinkedOther(s, c, d, h, blk, e, ROOT); }
  }

  /** Linking a ready node keeps the tree and changes one slot of one directory. */
  lemma LinkKeeps(s: State, c: Cert, d: int, h: int, blk: int, e: Entry, own: map<int, (int, int)>)
    requires Linkable(s, c, d, h, blk, e.name, e.ino, own)
    ensures
      var s' := LinkEntry(s, d, h, blk, e);
      && TreeInv(s', LinkCert(c, d, h, e.ino, own, blk))
      && (forall i :: i in c.place && i != d ==> ViewOf(s'.img, i) == ViewOf(s.img, i))
      && ViewOf(s'.img, e.ino) == ViewOf(s.img, e.ino)
      && ViewOf(s'.img, d) == DirView(AttrOf(INodeAt(s.img.inodes, d)), Slots(s.img.blocks, INodeAt(s.img.inodes, d).direct)[h := e])
  {
    var s' := LinkEntry(s, d, h, blk, e);
    LinkKeepsTree(s, c, d, h, blk, e, own);
    LinkedSlots(s, c, d, h, blk, e);
    LinkedNew(s, c, d, h, blk, e, own);
    forall i | i in c.place && i != d ensures ViewOf(s'.img, i) == ViewOf(s.img, i) {
      LinkedRest(s, c, d, h, blk, e, own, i);
    }
  }

  lemma LinkSameCert(s: State, c: Cert, d: int, h: int, blk: int, e: Entry, own: map<int, (int, int)>, i: int)
    requires Linkable(s, c, d, h, blk, e.name, e.ino, own) && i in c.place && i != d
    ensures SameCert(c, LinkCert(c, d, h, e.ino, own, blk), i)
  {
    hide TreeInv, DirOk, FileOk;
    var n := INodeAt(s.img.inodes, d);
    Reached(s, c, d);
    if n.direct[h / PER_BLOCK] != -1 { assert OwnedBy(s, c, n.direct[h / PER_BLOCK], d, h / PER_BLOCK); }
  }

  lemma LinkedRest(s: State, c: Cert, d: int, h: int, blk: int, e: Entry, own: map<int, (int, int)>, i: int)
    requires Linkable(s, c, d, h, blk, e.name, e.ino, own) && i in c.place && i != d
    ensures
      var s' := LinkEntry(s, d, h, blk, e);
      NodeOk(s', LinkCert(c, d, h, e.ino, own, blk), i) && ViewOf(s'.img, i) == ViewOf(s.img, i)
  {
    var s' := LinkEntry(s, d, h, blk, e);
    LinkedOther(s, c, d, h, blk, e, i);
    LinkSameCert(s, c, d, h, blk, e, own, i);
    assert NodeOk(s, c, i);
    NodeFrame(s, c, s', LinkCert(c, d, h, e.ino, own, blk), i);
    ViewFrame(s, c, s', i);
  }

  lemma LinkedChild(s: State, c: Cert, d: int, h: int, blk: int, e: Entry, own: map<int, (int, int)>)
    requires Linkable(s, c, d, h, blk, e.name, e.ino, own)
    ensures ParentOk(LinkEntry(s, d, h, blk, e), LinkCert(c, d, h, e.ino, own, blk), e.ino)
  {
    LinkedSlots(s, c, d, h, blk, e);
    assert NodeOk(s, c, d);
    AboveBase(c, d, INodeAt(s.img.inodes, d).cnt, Slots(s.img.blocks, INodeAt(s.img.inodes, d).direct), h);
  }

  lemma AboveBase(c: Cert, d: int, cnt: nat, slots: seq<Entry>, h: int)
    requires d in c.place && |slots| == SLOTS && DirOk(c, d, cnt, slots)
    requires 0 <= h < SLOTS && slots[h].name == ""
    ensures Base(d) <= h
  {
  }

  lemma LinkedParent(s: State, c: Cert, d: int, h: int, blk: int, e: Entry, own: map<int, (int, int)>, i: int)
    requires Linkable(s, c, d, h, blk, e.name, e.ino, own)
    requires i in LinkCert(c, d, h, e.ino, own, blk).place && i != ROOT
    ensures ParentOk(LinkEntry(s, d, h, blk, e), LinkCert(c, d, h, e.ino, own, blk), i)
  {
    var s' := LinkEntry(s, d, h, blk, e);
    var c' := LinkCert(c, d, h, e.ino, own, blk);
    LinkedSlots(s, c, d, h, blk, e);
    if i == e.ino {
      LinkedChild(s, c, d, h, blk, e, own);
    } else {
      assert ParentOk(s, c, i);
      var p := c.place[i].parent;
      if p != d {
        LinkedOther(s, c, d, h, blk, e, p);
        ParentFrame(s, c, s', c', i);
      }
    }
  }

  lemma LinkedOwner(s: State, c: Cert, d: int, h: int, blk: int, e: Entry, own: map<int, (int, int)>, b: int)
    requires Linkable(s, c, d, h, blk, e.name, e.ino, own)
    requires b in LinkCert(c, d, h, e.ino, own, blk).owner
    ensures OwnerOk(LinkEntry(s, d, h, blk, e), LinkCert(c, d, h, e.ino, own, blk), b)
  {
    LinkedSlots(s, c, d, h, blk, e);
    if b != blk {
      if b in own {
        LinkedOwnNew(s, c, d, h, blk, e, own, b);
      } else {
        LinkedOwnOld(s, c, d, h, blk, e, own, b);
      }
    }
  }

  lemma LinkedOwnNew(s: State, c: Cert, d: int, h: int, blk: int, e: Entry, own: map<int, (int, int)>, b: int)
    requires Linkable(s, c, d, h, blk, e.name, e.ino, own) && b in own
    ensures b != blk && OwnerOk(LinkEntry(s, d, h, blk, e), LinkCert(c, d, h, e.ino, own, blk), b)
  {
    assert OwnerOk(s, LinkCert(c, d, h, e.ino, own, blk), b);
  }

  lemma LinkedOwnOld(s: State, c: Cert, d: int, h: int, blk: int, e: Entry, own: map<int, (int, int)>, b: int)
    requires Linkable(s, c, d, h, blk, e.name, e.ino, own)
    requires b in c.owner && b != blk && b !in own
    ensures OwnerOk(LinkEntry(s, d, h, blk, e), LinkCert(c, d, h, e.ino, own, blk), b)
  {
    hide TreeInv, NodeOk;
    Reached(s, c, d);
    Owner(s, c, b);
    assert c.owner[b].0 != e.ino;
  }

  // ---------------------------------------------------------------------
  // Unlinking
  // ---------------------------------------------------------------------

  /** A set of nodes that hangs from `i` alone: what is below a member is in it, and above it only through `i`. */
  ghost predicate Branch(c: Cert, i: int, gone: set<int>) {
    match c
    case Cert(place, _, _) =>
      && i in gone && gone <= place.Keys && ROOT !in gone
      && (forall j :: j in place && j != ROOT && place[j].parent in gone ==> j in gone)
      && (forall j :: j in gone && j != i ==> place[j].parent in gone)
      && place[i].parent !in gone
  }

  /** The tree invariant for the nodes outside `gone`. */
  ghost predicate TreeOff(s: State, c: Cert, gone: set<int>) {
    match c
    case Cert(place, owner, maxDepth) =>
      && ROOT in place && place[ROOT] == TOP && IsDir(INodeAt(s.img.inodes, ROOT))
      && (forall j {:trigger NodeOk(s, c, j)} :: j in place && j !in gone ==> NodeOk(s, c, j))
      && (forall j {:trigger ParentOk(s, c, j)} :: j in place && j !in gone && j != ROOT ==> ParentOk(s, c, j))
      && (forall b {:trigger OwnerOk(s, c, b)} :: b in owner && owner[b].0 !in gone ==> OwnerOk(s, c, b))
      && (forall j :: j in place ==> place[j].depth <= maxDepth)
      && -1 !in owner
  }

  ghost function PruneCert(c: Cert, gone: set<int>): Cert {
    Cert(c.place - gone, map b | b in c.owner && c.owner[b].0 !in gone :: c.owner[b], c.maxDepth)
  }

  lemma TreeOffFrame(s: State, c: Cert, s': State, i: int, gone: set<int>)
    requires TreeInv(s, c) && Branch(c, i, gone)
    requires forall j :: j in c.place && j !in gone ==> SameNode(s, s', j)
    ensures TreeOff(s', c, gone)
    ensures forall j :: j in c.place && j !in gone ==> ViewOf(s'.img, j) == ViewOf(s.img, j)
  {
    forall j | j in c.place && j !in gone
      ensures NodeOk(s', c, j) && ViewOf(s'.img, j) == ViewOf(s.img, j)
    {
      NodeFrame(s, c, s', c, j);
      ViewFrame(s, c, s', j);
    }
    forall j | j in c.place && j !in gone && j != ROOT ensures ParentOk(s', c, j) {
      assert ParentOk(s, c, j);
      ParentFrame(s, c, s', c, j);
    }
    forall b | b in c.owner && c.owner[b].0 !in gone ensures OwnerOk(s', c, b) {
      assert OwnerOk(s, c, b);
    }
  }

  /** Directory `d` outside `gone` holds the branch in slot `h`. */
  ghost predicate Unlinkable(s: State, c: Cert, d: int, h: int, i: int, gone: set<int>) {
    match c
    case Cert(place, _, _) =>
      && TreeOff(s, c, gone) && Branch(c, i, gone) && d in place && d !in gone
      && place[i].parent == d && place[i].slot == h
      && Base(d) <= h < SLOTS
      && IsDir(INodeAt(s.img.inodes, d)) && |INodeAt(s.img.inodes, d).direct| == DIRECT
      && INodeAt(s.img.inodes, d).direct[h / PER_BLOCK] != -1
      && Slots(s.img.blocks, INodeAt(s.img.inodes, d).direct)[h].ino == i
      && Slots(s.img.blocks, INodeAt(s.img.inodes, d).direct)[h].name != ""
  }

  /** The state after the entry is emptied, from what the image holds now. */
  function UnlinkEntry(s: State, d: int, h: int): State
    requires 0 <= h < SLOTS && |INodeAt(s.img.inodes, d).direct| == DIRECT
  {
    var n := INodeAt(s.img.inodes, d);
    StoreHole(s, d, n, h, Around(s.img.blocks, n.direct, h))
  }

  lemma EntryBlockOff(s: State, c: Cert, d: int, h: int, i: int, gone: set<int>, j: int, k: int)
    requires Unlinkable(s, c, d, h, i, gone) && j in c.place && j !in gone
    requires |INodeAt(s.img.inodes, j).direct| == DIRECT && 0 <= k < DIRECT && INodeAt(s.img.inodes, j).direct[k] != -1
    requires j != d || k != h / PER_BLOCK
    ensures INodeAt(s.img.inodes, j).direct[k] != INodeAt(s.img.inodes, d).direct[h / PER_BLOCK]
  {
    assert NodeOk(s, c, d);
    assert NodeOk(s, c, j);
    assert OwnedBy(s, c, INodeAt(s.img.inodes, j).direct[k], j, k);
    assert OwnedBy(s, c, INodeAt(s.img.inodes, d).direct[h / PER_BLOCK], d, h / PER_BLOCK);
  }

  lemma UnlinkedSlots(s: State, c: Cert, d: int, h: int, i: int, gone: set<int>)
    requires Unlinkable(s, c, d, h, i, gone)
    ensures
      var s' := UnlinkEntry(s, d, h);
      var n := INodeAt(s.img.inodes, d);
      && INodeAt(s'.img.inodes, d) == n.(cnt := (n.cnt - 1) % 65536)
      && Slots(s'.img.blocks, n.direct) == Slots(s.img.blocks, n.direct)[h := Entry("", -1)]
  {
    var s' := UnlinkEntry(s, d, h);
    var n := INodeAt(s.img.inodes, d);
    forall k | 0 <= k < DIRECT && k != h / PER_BLOCK && n.direct[k] != -1
      ensures n.direct[k] != n.direct[h / PER_BLOCK]
    {
      EntryBlockOff(s, c, d, h, i, gone, d, k);
    }
    SlotsStore(s.img.blocks, s'.img.blocks, n.direct, n.direct, h, Entry("", -1));
  }

  lemma UnlinkedOther(s: State, c: Cert, d: int, h: int, i: int, gone: set<int>, j: int)
    requires Unlinkable(s, c, d, h, i, gone) && j in c.place && j !in gone && j != d
    ensures
      var s' := UnlinkEntry(s, d, h);
      && SameNode(s, s', j) && NodeOk(s', PruneCert(c, gone), j) && ViewOf(s'.img, j) == ViewOf(s.img, j)
  {
    var s' := UnlinkEntry(s, d, h);
    assert NodeOk(s, c, j);
    var n := INodeAt(s.img.inodes, j);
    forall k | 0 <= k < DIRECT && n.direct[k] != -1
      ensures n.direct[k] != INodeAt(s.img.inodes, d).direct[h / PER_BLOCK]
    {
      EntryBlockOff(s, c, d, h, i, gone, j, k);
    }
    assert SameNode(s, s', j);
    PruneSame(c, i, gone, j);
    NodeFrame(s, c, s', PruneCert(c, gone), j);
    ViewFrame(s, c, s', j);
  }

  lemma PruneSame(c: Cert, i: int, gone: set<int>, j: int)
    requires Branch(c, i, gone) && j in c.place && j !in gone && j != c.place[i].parent
    requires forall x :: x in c.place && x !in gone && x != ROOT ==> c.place[x].parent !in gone
    ensures SameCert(c, PruneCert(c, gone), j)
  {
  }

  lemma DropCount(cnt: nat, slots: seq<Entry>, h: int, e: Entry)
    requires |slots| == SLOTS && 0 <= h < SLOTS && slots[h].name != "" && e.name == ""
    requires cnt == |Named(slots)|
    ensures (cnt - 1) % 65536 == |Named(slots[h := e])|
  {
    NamedDrop(slots, h, e);
    NamedBound(slots);
  }

  lemma DirDrop(c: Cert, d: int, cnt: nat, slots: seq<Entry>, h: int, i: int, gone: set<int>)
    requires d in c.place && d !in gone && |slots| == SLOTS && DirOk(c, d, cnt, slots)
    requires Branch(c, i, gone) && Base(d) <= h < SLOTS && slots[h].ino == i && slots[h].name != ""
    ensures DirOk(PruneCert(c, gone), d, |Named(slots[h := Entry("", -1)])|, slots[h := Entry("", -1)])
  {
    var c' := PruneCert(c, gone);
    var slots' := slots[h := Entry("", -1)];
    assert KidOk(c, d, h, slots[h]);
    forall t | Base(d) <= t < SLOTS && slots'[t].name != "" ensures KidOk(c', d, t, slots'[t]) {
      assert KidOk(c, d, t, slots[t]);
      assert slots[t].ino != i;
    }
  }

  lemma OffNode(s: State, c: Cert, gone: set<int>, j: int)
    requires TreeOff(s, c, gone) && j in c.place && j !in gone
    ensures NodeOk(s, c, j)
  {
  }

  lemma UnlinkedDir(s: State, c: Cert, d: int, h: int, i: int, gone: set<int>)
    requires Unlinkable(s, c, d, h, i, gone)
    ensures NodeOk(UnlinkEntry(s, d, h), PruneCert(c, gone), d)
  {
    hide TreeOff, Branch, KidOk, NamesDistinct, Named;
    var s', c' := UnlinkEntry(s, d, h), PruneCert(c, gone);
    var n := INodeAt(s.img.inodes, d);
    OffNode(s, c, gone, d);
    var slots := Slots(s.img.blocks, n.direct);
    UnlinkedSlots(s, c, d, h, i, gone);
    DropCount(n.cnt, slots, h, Entry("", -1));
    DirDrop(c, d, n.cnt, slots, h, i, gone);
    forall k | 0 <= k < DIRECT && n.direct[k] != -1 ensures OwnedBy(s', c', n.direct[k], d, k) {
      assert OwnedBy(s, c, n.direct[k], d, k);
    }
    DirNode(s', c', d, n.(cnt := (n.cnt - 1) % 65536), slots[h := Entry("", -1)]);
  }

  lemma UnlinkedParent(s: State, c: Cert, d: int, h: int, i: int, gone: set<int>, j: int)
    requires Unlinkable(s, c, d, h, i, gone) && j in c.place && j !in gone && j != ROOT
    ensures ParentOk(UnlinkEntry(s, d, h), PruneCert(c, gone), j)
  {
    var s', c' := UnlinkEntry(s, d, h), PruneCert(c, gone);
    assert ParentOk(s, c, j);
    var p := c.place[j].parent;
    assert p in c.place && p !in gone;
    if p == d {
      UnlinkedSlots(s, c, d, h, i, gone);
      assert j != i;
    } else {
      UnlinkedOther(s, c, d, h, i, gone, p);
      ParentFrame(s, c, s', c', j);
    }
  }

  /** Emptying the entry of a branch leaves the tree without that branch. */
  lemma UnlinkKeeps(s: State, c: Cert, d: int, h: int, i: int, gone: set<int>)
    requires Unlinkable(s, c, d, h, i, gone)
    ensures
      var s' := UnlinkEntry(s, d, h);
      && TreeInv(s', PruneCert(c, gone))
      && (forall j :: j in c.place && j !in gone && j != d ==> ViewOf(s'.img, j) == ViewOf(s.img, j))
      && ViewOf(s'.img, d) == DirView(AttrOf(INodeAt(s.img.inodes, d)),
                                      Slots(s.img.blocks, INodeAt(s.img.inodes, d).direct)[h := Entry("", -1)])
  {
    var s', c' := UnlinkEntry(s, d, h), PruneCert(c, gone);
    UnlinkedSlots(s, c, d, h, i, gone);
    UnlinkedDir(s, c, d, h, i, gone);
    forall j | j in c.place && j !in gone && j != d
      ensures NodeOk(s', c', j) && ViewOf(s'.img, j) == ViewOf(s.img, j)
    {
      UnlinkedOther(s, c, d, h, i, gone, j);
    }
    forall j | j in c'.place && j != ROOT ensures ParentOk(s', c', j) {
      UnlinkedParent(s, c, d, h, i, gone, j);
    }
    forall b | b in c'.owner ensures OwnerOk(s', c', b) {
      assert OwnerOk(s, c, b);
      if c.owner[b].0 != d { UnlinkedOther(s, c, d, h, i, gone, c.owner[b].0); }
    }
    if d != ROOT { UnlinkedOther(s, c, d, h, i, gone, ROOT); }
  }
}
