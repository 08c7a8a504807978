/**
 Inodes, directories and file contents, and the invariant that makes them a tree.
 */
module Tree {
  import opened Disk
  import opened Allocator

  // ---------------------------------------------------------------------
  // Reading nodes
  // ---------------------------------------------------------------------

  function Pow2(k: nat): (p: nat)
    ensures p > 0
  {
    if k == 0 then 1 else 2 * Pow2(k - 1)
  }

  /** Bit `k` of a mode word. */
  predicate ModeBit(mode: nat, k: nat) { (mode / Pow2(k)) % 2 == 1 }

  predicate IsDir(n: INode) { (n.mode / 512) % 2 == 1 }

  /** The 160 directory slots reached through the direct blocks; an absent block reads as holes. */
  function Slots(blocks: map<int, Block>, direct: seq<int>): (r: seq<Entry>)
    requires |direct| == DIRECT
    ensures |r| == SLOTS
  {
    seq(SLOTS, t requires 0 <= t < SLOTS =>
      if direct[t / PER_BLOCK] == -1 then HOLE else EntriesAt(blocks, direct[t / PER_BLOCK])[t % PER_BLOCK])
  }

  /** The first `size` characters of the direct blocks. */
  function Content(blocks: map<int, Block>, direct: seq<int>, size: nat): (r: string)
    requires |direct| == DIRECT && size <= MAX_FILE
    ensures |r| == size
  {
    seq(size, p requires 0 <= p < size => BytesAt(blocks, direct[p / BLOCK_SIZE])[p % BLOCK_SIZE])
  }

  /** Type bit, permissions and ownership. */
  datatype Attr = Attr(mode: nat, user: string, group: string)

  function AttrOf(n: INode): Attr { Attr(n.mode, n.user, n.group) }

  /** What a user sees of a node. */
  datatype View = FileView(attr: Attr, text: string) | DirView(attr: Attr, slots: seq<Entry>) | NoView

  function ViewOf(img: Image, i: int): View {
    var n := INodeAt(img.inodes, i);
    if |n.direct| != DIRECT then NoView
    else if IsDir(n) then DirView(AttrOf(n), Slots(img.blocks, n.direct))
    else if n.size <= MAX_FILE then FileView(AttrOf(n), Content(img.blocks, n.direct, n.size))
    else NoView
  }

  // ---------------------------------------------------------------------
  // The invariant
  // ---------------------------------------------------------------------

  /** The directory and slot that hold an inode's only entry, and its depth. */
  datatype Place = Place(parent: int, slot: int, depth: nat)

  /** The root hangs nowhere. */
  const TOP := Place(-1, 0, 0)

  /**
   A certificate that the image is a tree: where each reachable inode hangs and
   which inode, through which pointer, owns each block.
   */
  datatype Cert = Cert(place: map<int, Place>, owner: map<int, (int, int)>, maxDepth: nat)

  predicate INodeUsed(s: State, i: int) {
    IsINode(i) && INodeId(i) < |s.inodeBits| && s.inodeBits[INodeId(i)]
  }

  /** Slots below this one hold the entries "." and "..". The root has no "..". */
  function Base(i: int): int { if i == ROOT then 1 else 2 }

  ghost predicate Points(s: State, c: Cert, i: int, direct: seq<int>) {
    && |direct| == DIRECT
    && forall k :: 0 <= k < DIRECT && direct[k] != -1 ==> OwnedBy(s, c, direct[k], i, k)
  }

  ghost predicate OwnedBy(s: State, c: Cert, b: int, i: int, k: int) {
    Used(s, b) && b in c.owner && c.owner[b] == (i, k)
  }

  predicate KidName(name: string) {
    name != "" && |name| < MAX_NAME && name != "." && name != ".."
  }

  ghost predicate KidOk(c: Cert, i: int, t: int, e: Entry)
    requires i in c.place
  {
    KidName(e.name) && e.ino in c.place && c.place[e.ino] == Place(i, t, c.place[i].depth + 1)
  }

  ghost predicate NamesDistinct(slots: seq<Entry>) {
    forall t, u :: 0 <= t < u < |slots| && slots[t].name != "" ==> slots[t].name != slots[u].name
  }

  function Named(slots: seq<Entry>): set<int> { set t | 0 <= t < |slots| && slots[t].name != "" }

  ghost predicate DirOk(c: Cert, i: int, cnt: nat, slots: seq<Entry>)
    requires i in c.place && |slots| == SLOTS
  {
    match c.place[i]
    case Place(parent, _, _) =>
      && slots[0] == Entry(".", i)
      && (i != ROOT ==> slots[1] == Entry("..", parent))
      && (forall t :: Base(i) <= t < SLOTS && slots[t].name != "" ==> KidOk(c, i, t, slots[t]))
      && NamesDistinct(slots)
      && cnt == |Named(slots)|
  }

  predicate FileOk(cnt: nat, size: nat, direct: seq<int>)
    requires |direct| == DIRECT
  {
    && cnt == 1 && size <= MAX_FILE
    && forall k :: 0 <= k < DIRECT && k * BLOCK_SIZE < size ==> direct[k] != -1
  }

  // The predicates below are matches so that the verifier handles each as one fact.

  ghost predicate NodeOk(s: State, c: Cert, i: int) {
    match INodeAt(s.img.inodes, i)
    case n =>
      && i in c.place && INodeUsed(s, i)
      && Points(s, c, i, n.direct)
      && n.indirect == -1 && n.direct[0] != -1
      && (if IsDir(n) then DirOk(c, i, n.cnt, Slots(s.img.blocks, n.direct)) else FileOk(n.cnt, n.size, n.direct))
  }

  ghost predicate ParentOk(s: State, c: Cert, i: int)
    requires i in c.place
  {
    match c.place[i]
    case Place(p, t, depth) =>
      var n := INodeAt(s.img.inodes, p);
      && p in c.place && depth == c.place[p].depth + 1
      && IsDir(n) && |n.direct| == DIRECT
      && Base(p) <= t < SLOTS
      && Slots(s.img.blocks, n.direct)[t].ino == i && Slots(s.img.blocks, n.direct)[t].name != ""
  }

  ghost predicate OwnerOk(s: State, c: Cert, b: int)
    requires b in c.owner
  {
    match c.owner[b]
    case (i, k) =>
      var n := INodeAt(s.img.inodes, i);
      i in c.place && |n.direct| == DIRECT && 0 <= k < DIRECT && n.direct[k] == b
  }

  ghost predicate TreeInv(s: State, c: Cert) {
    match c
    case Cert(place, owner, maxDepth) =>
      && ROOT in place && place[ROOT] == TOP && IsDir(INodeAt(s.img.inodes, ROOT))
      && (forall i {:trigger NodeOk(s, c, i)} :: i in place ==> NodeOk(s, c, i))
      && (forall i {:trigger ParentOk(s, c, i)} :: i in place && i != ROOT ==> ParentOk(s, c, i))
      && (forall b {:trigger OwnerOk(s, c, b)} :: b in owner ==> OwnerOk(s, c, b))
      && (forall i :: i in place ==> place[i].depth <= maxDepth)
      && -1 !in owner
  }

  lemma Reached(s: State, c: Cert, i: int)
    requires TreeInv(s, c) && i in c.place
    ensures NodeOk(s, c, i) && |INodeAt(s.img.inodes, i).direct| == DIRECT
  {
  }

  lemma Hangs(s: State, c: Cert, i: int)
    requires TreeInv(s, c) && i in c.place && i != ROOT
    ensures ParentOk(s, c, i)
  {
  }

  lemma ChildAt(c: Cert, d: int, cnt: nat, slots: seq<Entry>, t: int)
    requires d in c.place && |slots| == SLOTS && DirOk(c, d, cnt, slots) && Base(d) <= t < SLOTS && slots[t].name != ""
    ensures KidOk(c, d, t, slots[t])
  {
  }

  lemma ReachedDir(s: State, c: Cert, i: int)
    requires TreeInv(s, c) && i in c.place && IsDir(INodeAt(s.img.inodes, i))
    ensures |INodeAt(s.img.inodes, i).direct| == DIRECT
    ensures DirOk(c, i, INodeAt(s.img.inodes, i).cnt, Slots(s.img.blocks, INodeAt(s.img.inodes, i).direct))
  {
    Reached(s, c, i);
  }

  lemma RootTop(s: State, c: Cert)
    requires TreeInv(s, c)
    ensures ROOT in c.place && c.place[ROOT] == TOP
  {
  }

  /** A slot in use that is neither "." nor ".." is a child slot; in the root ".." would be one. */
  lemma ChildSlot(c: Cert, i: int, cnt: nat, slots: seq<Entry>, t: int)
    requires i in c.place && |slots| == SLOTS && DirOk(c, i, cnt, slots) && 0 <= t < SLOTS
    requires slots[t].name != "" && slots[t].name != "." && (i == ROOT || slots[t].name != "..")
    ensures Base(i) <= t && KidOk(c, i, t, slots[t])
  {
  }

  lemma Owner(s: State, c: Cert, b: int)
    requires TreeInv(s, c) && b in c.owner
    ensures OwnerOk(s, c, b) && b != -1
  {
  }

  /** What the tree owns is marked. */
  lemma OwnedUsed(s: State, c: Cert, b: int)
    requires TreeInv(s, c)
    ensures b in c.owner ==> Used(s, b)
  {
    hide TreeInv, DirOk, FileOk;
    if b in c.owner {
      Owner(s, c, b);
      var (i, k) := c.owner[b];
      Reached(s, c, i);
      assert OwnedBy(s, c, INodeAt(s.img.inodes, i).direct[k], i, k);
    }
  }

  lemma AllOwnedUsed(s: State, c: Cert)
    requires TreeInv(s, c)
    ensures forall b :: b in c.owner ==> Used(s, b)
  {
    hide TreeInv;
    forall b | b in c.owner ensures Used(s, b) { OwnedUsed(s, c, b); }
  }

  /** Below the root the parent is a directory of the tree. */
  lemma ParentDir(s: State, c: Cert, i: int)
    requires TreeInv(s, c) && i in c.place && i != ROOT
    ensures c.place[i].parent in c.place && IsDir(INodeAt(s.img.inodes, c.place[i].parent))
  {
    hide NodeOk;
    Hangs(s, c, i);
  }

  /** Nothing is allocated that the tree does not reach. */
  ghost predicate LeakFree(s: State, c: Cert) {
    match c
    case Cert(place, owner, _) =>
      && (forall b :: Used(s, b) <==> b in owner)
      && (forall i :: INodeUsed(s, i) <==> i in place)
  }

  // ---------------------------------------------------------------------
  // Frames
  // ---------------------------------------------------------------------

  /** The inode and its blocks read the same and stay allocated. */
  ghost predicate SameNode(s: State, s': State, i: int) {
    match INodeAt(s.img.inodes, i)
    case n =>
      && INodeAt(s'.img.inodes, i) == n
      && (INodeUsed(s, i) ==> INodeUsed(s', i))
      && forall k :: 0 <= k < |n.direct| && n.direct[k] != -1 ==>
           && BlockAt(s'.img.blocks, n.direct[k]) == BlockAt(s.img.blocks, n.direct[k])
           && (Used(s, n.direct[k]) ==> Used(s', n.direct[k]))
  }

  /** The certificate says the same about inode `i`, its children and its blocks. */
  ghost predicate SameCert(c: Cert, c': Cert, i: int) {
    && (forall j :: j in c.place && (j == i || c.place[j].parent == i) ==> j in c'.place && c'.place[j] == c.place[j])
    && (forall b :: b in c.owner && c.owner[b].0 == i ==> b in c'.owner && c'.owner[b] == c.owner[b])
  }

  lemma SlotsFrame(blocks: map<int, Block>, blocks': map<int, Block>, direct: seq<int>)
    requires |direct| == DIRECT
    requires forall k :: 0 <= k < DIRECT && direct[k] != -1 ==> BlockAt(blocks', direct[k]) == BlockAt(blocks, direct[k])
    ensures Slots(blocks', direct) == Slots(blocks, direct)
  {
    forall t | 0 <= t < SLOTS ensures Slots(blocks', direct)[t] == Slots(blocks, direct)[t] {
      var k := t / PER_BLOCK;
      assert 0 <= k < DIRECT;
    }
  }

  lemma ContentFrame(blocks: map<int, Block>, blocks': map<int, Block>, direct: seq<int>, size: nat)
    requires |direct| == DIRECT && size <= MAX_FILE
    requires forall k :: 0 <= k < DIRECT && k * BLOCK_SIZE < size ==> BlockAt(blocks', direct[k]) == BlockAt(blocks, direct[k])
    ensures Content(blocks', direct, size) == Content(blocks, direct, size)
  {
    forall p | 0 <= p < size ensures Content(blocks', direct, size)[p] == Content(blocks, direct, size)[p] {
      var k := p / BLOCK_SIZE;
      assert 0 <= k < DIRECT && k * BLOCK_SIZE < size;
    }
  }

  lemma NodeFrame(s: State, c: Cert, s': State, c': Cert, i: int)
    requires NodeOk(s, c, i) && SameNode(s, s', i) && SameCert(c, c', i)
    ensures NodeOk(s', c', i)
  {
    var n := INodeAt(s.img.inodes, i);
    SlotsFrame(s.img.blocks, s'.img.blocks, n.direct);
  }

  lemma ViewFrame(s: State, c: Cert, s': State, i: int)
    requires NodeOk(s, c, i) && SameNode(s, s', i)
    ensures ViewOf(s'.img, i) == ViewOf(s.img, i)
  {
    var n := INodeAt(s.img.inodes, i);
    SlotsFrame(s.img.blocks, s'.img.blocks, n.direct);
    if !IsDir(n) { ContentFrame(s.img.blocks, s'.img.blocks, n.direct, n.size); }
  }

  lemma ParentFrame(s: State, c: Cert, s': State, c': Cert, i: int)
    requires i in c.place && ParentOk(s, c, i) && i in c'.place && c'.place[i] == c.place[i]
    requires var p := c.place[i].parent; p in c'.place && c'.place[p] == c.place[p] && SameNode(s, s', p)
    ensures ParentOk(s', c', i)
  {
    SlotsFrame(s.img.blocks, s'.img.blocks, INodeAt(s.img.inodes, c.place[i].parent).direct);
  }

  /** A step that leaves every reachable node alone keeps the tree. */
  lemma TreeFrame(s: State, s': State, c: Cert)
    requires TreeInv(s, c)
    requires forall i :: i in c.place ==> SameNode(s, s', i)
    ensures TreeInv(s', c)
    ensures forall i :: i in c.place ==> ViewOf(s'.img, i) == ViewOf(s.img, i)
  {
    forall i | i in c.place
      ensures NodeOk(s', c, i) && ViewOf(s'.img, i) == ViewOf(s.img, i)
    {
      NodeFrame(s, c, s', c, i);
      ViewFrame(s, c, s', i);
    }
    forall i | i in c.place && i != ROOT ensures ParentOk(s', c, i) {
      assert ParentOk(s, c, i);
      ParentFrame(s, c, s', c, i);
    }
    forall b | b in c.owner ensures OwnerOk(s', c, b) {
      assert OwnerOk(s, c, b);
      assert SameNode(s, s', c.owner[b].0);
    }
    assert SameNode(s, s', ROOT);
  }

  /** Writes that spare the reachable inodes and the owned blocks keep the tree. */
  lemma OwnedFrame(s: State, s': State, c: Cert)
    requires TreeInv(s, c)
    requires forall i :: i in c.place ==> INodeAt(s'.img.inodes, i) == INodeAt(s.img.inodes, i)
    requires forall i :: i in c.place && INodeUsed(s, i) ==> INodeUsed(s', i)
    requires forall b :: b in c.owner ==> BlockAt(s'.img.blocks, b) == BlockAt(s.img.blocks, b)
    requires forall b :: b in c.owner && Used(s, b) ==> Used(s', b)
    ensures TreeInv(s', c)
    ensures forall i :: i in c.place ==> ViewOf(s'.img, i) == ViewOf(s.img, i)
  {
    forall i | i in c.place ensures SameNode(s, s', i) {
      assert NodeOk(s, c, i);
      var n := INodeAt(s.img.inodes, i);
      forall k | 0 <= k < DIRECT && n.direct[k] != -1 ensures n.direct[k] in c.owner {
        assert OwnedBy(s, c, n.direct[k], i, k);
      }
    }
    TreeFrame(s, s', c);
  }
}
