/**
 The nodes below a node, and what deleting them releases.
 */
module Subtree {
  import opened Disk
  import opened Allocator
  import opened Tree
  import opened INodes
  import opened Directories
  import opened Freeing
  import opened DeleteFile

  // ---------------------------------------------------------------------
  // Descent
  // ---------------------------------------------------------------------

  /** Every place but the root's hangs one level below its parent's. */
  ghost predicate Placed(c: Cert) {
    match c
    case Cert(place, _, maxDepth) =>
      && ROOT in place && place[ROOT].depth == 0
      && (forall j {:trigger place[j].parent} :: j in place && j != ROOT ==>
            place[j].parent in place && place[j].depth == place[place[j].parent].depth + 1)
      && (forall j :: j in place ==> place[j].depth <= maxDepth)
  }

  lemma TreePlaced(s: State, c: Cert)
    requires TreeInv(s, c)
    ensures Placed(c)
  {
    forall j | j in c.place && j != ROOT
      ensures c.place[j].parent in c.place && c.place[j].depth == c.place[c.place[j].parent].depth + 1
    {
      assert ParentOk(s, c, j);
    }
  }

  /** `j` is `i` or hangs below it. */
  ghost predicate Below(c: Cert, j: int, i: int)
    requires Placed(c) && j in c.place
    decreases c.place[j].depth
  {
    j == i || (j != ROOT && Below(c, c.place[j].parent, i))
  }

  ghost function Sub(c: Cert, i: int): set<int>
    requires Placed(c)
  {
    set j | j in c.place && Below(c, j, i)
  }

  lemma SubPlaced(c: Cert, i: int)
    requires Placed(c)
    ensures Sub(c, i) <= c.place.Keys
  {
    hide Below;
  }

  lemma {:induction false} BelowDepth(c: Cert, j: int, i: int)
    requires Placed(c) && j in c.place && Below(c, j, i)
    ensures i in c.place && c.place[i].depth <= c.place[j].depth
    ensures c.place[i].depth == c.place[j].depth ==> i == j
    decreases c.place[j].depth
  {
    if j != i { BelowDepth(c, c.place[j].parent, i); }
  }

  lemma {:induction false} BelowTrans(c: Cert, j: int, k: int, i: int)
    requires Placed(c) && j in c.place && k in c.place && Below(c, j, k) && Below(c, k, i)
    ensures Below(c, j, i)
    decreases c.place[j].depth
  {
    if j != k { BelowTrans(c, c.place[j].parent, k, i); }
  }

  /** Two nodes of one depth have no descendant in common. */
  lemma {:induction false} BelowOne(c: Cert, j: int, a: int, b: int)
    requires Placed(c) && j in c.place && Below(c, j, a) && Below(c, j, b)
    requires a in c.place && b in c.place && c.place[a].depth == c.place[b].depth
    ensures a == b
    decreases c.place[j].depth
  {
    BelowDepth(c, j, a);
    BelowDepth(c, j, b);
    if j != a && j != b { BelowOne(c, c.place[j].parent, a, b); }
  }

  /** What hangs strictly below `i` hangs below one of its children. */
  lemma {:induction false} BelowChild(c: Cert, j: int, i: int) returns (k: int)
    requires Placed(c) && j in c.place && Below(c, j, i) && j != i
    ensures k in c.place && k != ROOT && c.place[k].parent == i && Below(c, j, k)
    decreases c.place[j].depth
  {
    if c.place[j].parent == i {
      k := j;
    } else {
      k := BelowChild(c, c.place[j].parent, i);
    }
  }

  lemma SubBranch(c: Cert, i: int)
    requires Placed(c) && i in c.place && i != ROOT
    ensures Branch(c, i, Sub(c, i))
  {
    var gone := Sub(c, i);
    forall j | j in gone ensures j != ROOT { BelowDepth(c, j, i); }
    if c.place[i].parent in gone { BelowDepth(c, c.place[i].parent, i); }
  }

  // ---------------------------------------------------------------------
  // What deletion frees
  // ---------------------------------------------------------------------

  /** An entry DeleteFileOrDir follows. */
  predicate RealChild(e: Entry) { e.name != "" && e.name != "." && e.name != ".." }

  predicate BlockHasChild(slots: seq<Entry>, k: int)
    requires |slots| == SLOTS
  {
    exists u :: 0 <= u < SLOTS && u / PER_BLOCK == k && RealChild(slots[u])
  }

  /** DeleteFileOrDir frees pointer 0 of a node with at most two entries, and of other nodes the blocks with a real child. */
  ghost predicate NodeFrees(s: State, j: int, k: int) {
    var n := INodeAt(s.img.inodes, j);
    |n.direct| == DIRECT && if n.cnt <= 2 then k == 0 else BlockHasChild(Slots(s.img.blocks, n.direct), k)
  }

  /** The node DeleteFileOrDir deletes without looking for children. */
  predicate FewEntries(img: Image, i: int) {
    INodeAt(img.inodes, i).cnt <= 2 && |INodeAt(img.inodes, i).direct| == DIRECT
  }

  /** The short branch of DeleteFileOrDir, whatever lies at the address. */
  function SmallDeleted(s: State, i: int): State
    requires |s.super.stack| == GROUP && FewEntries(s.img, i)
  {
    FreeINode(FreeBlock(s, INodeAt(s.img.inodes, i).direct[0]).0, i).0
  }

  ghost function Freed(s: State, c: Cert, gone: set<int>): set<int> {
    set b | b in c.owner && c.owner[b].0 in gone && NodeFrees(s, c.owner[b].0, c.owner[b].1)
  }

  /** Inodes `gone`, now blank, and blocks `freed` went from allocated to free, nothing else changed. */
  ghost predicate Swept(s: State, s': State, gone: set<int>, freed: set<int>) {
    match s'
    case State(_, _, _, _) =>
      && Released(s, s', freed)
      && s'.super.freeInodes == s.super.freeInodes + |gone|
      && (forall j {:trigger INodeUsed(s', j)} :: INodeUsed(s', j) <==> INodeUsed(s, j) && j !in gone)
      && (forall j {:trigger INodeAt(s'.img.inodes, j)} ::
            INodeAt(s'.img.inodes, j) == if j in gone then BLANK else INodeAt(s.img.inodes, j))
  }

  lemma SweptNone(s: State)
    requires BitsInv(s)
    ensures Swept(s, s, {}, {})
  {
  }

  lemma SweptTwice(s: State, s1: State, s2: State, g1: set<int>, f1: set<int>, g2: set<int>, f2: set<int>)
    requires Swept(s, s1, g1, f1) && Swept(s1, s2, g2, f2) && g1 !! g2 && f1 !! f2
    ensures Swept(s, s2, g1 + g2, f1 + f2)
  {
    ReleaseTwice(s, s1, s2, f1, f2);
    assert |g1 + g2| == |g1| + |g2|;
  }

  lemma SweptBlock(s: State, a: int)
    requires BitsInv(s) && Used(s, a)
    ensures Swept(s, FreeBlock(s, a).0, {}, {a})
  {
    ReleaseOne(s, a);
  }

  lemma SweptINode(s: State, i: int)
    requires BitsInv(s) && INodeUsed(s, i)
    ensures Swept(s, FreeINode(s, i).0, {i}, {})
  {
    FreeINodeFrees(s, i);
    assert forall b :: Used(s, b) && b !in {} <==> Used(s, b);
    ReleasedNone(s);
    INodeReleased(s, s, FreeINode(s, i).0, {});
  }

  lemma ReleasedNone(s: State)
    requires BitsInv(s)
    ensures Released(s, s, {})
  {
  }

  // ---------------------------------------------------------------------
  // The children already deleted
  // ---------------------------------------------------------------------

  /** The nodes below the real children in slots before `t`. */
  ghost function Gone(c: Cert, slots: seq<Entry>, t: nat): set<int>
    requires Placed(c) && t <= |slots|
  {
    if t == 0 then {}
    else Gone(c, slots, t - 1) + (if RealChild(slots[t - 1]) then Sub(c, slots[t - 1].ino) else {})
  }

  /** `slots` are those of `i`: each real child is placed where it is listed, and each node placed under `i` is listed. */
  ghost predicate Lists(c: Cert, i: int, slots: seq<Entry>)
    requires Placed(c)
  {
    match slots
    case l =>
      && |l| == SLOTS && i in c.place
      && (forall t :: 0 <= t < SLOTS && RealChild(l[t]) ==>
            l[t].ino in c.place && l[t].ino != ROOT && c.place[l[t].ino] == Place(i, t, c.place[i].depth + 1))
      && (forall j :: j in c.place && j != ROOT && c.place[j].parent == i ==>
            0 <= c.place[j].slot < SLOTS && l[c.place[j].slot].ino == j && RealChild(l[c.place[j].slot]))
  }

  lemma {:induction false} GoneBelow(c: Cert, i: int, slots: seq<Entry>, t: nat, j: int)
    requires Placed(c) && Lists(c, i, slots) && t <= SLOTS && j in Gone(c, slots, t)
    ensures j in c.place && Below(c, j, i) && j != i
  {
    if RealChild(slots[t - 1]) && j in Sub(c, slots[t - 1].ino) {
      var k := slots[t - 1].ino;
      assert Below(c, k, i);
      BelowTrans(c, j, k, i);
      BelowDepth(c, j, k);
    } else {
      GoneBelow(c, i, slots, t - 1, j);
    }
  }

  lemma {:induction false} GoneApart(c: Cert, i: int, slots: seq<Entry>, t: nat, u: nat)
    requires Placed(c) && Lists(c, i, slots) && t <= u < SLOTS && RealChild(slots[u])
    ensures Gone(c, slots, t) !! Sub(c, slots[u].ino)
  {
    if t > 0 {
      GoneApart(c, i, slots, t - 1, u);
      if RealChild(slots[t - 1]) {
        forall j | j in Sub(c, slots[t - 1].ino) ensures j !in Sub(c, slots[u].ino) {
          if j in Sub(c, slots[u].ino) { BelowOne(c, j, slots[t - 1].ino, slots[u].ino); }
        }
      }
    }
  }

  lemma {:induction false} GoneHas(c: Cert, slots: seq<Entry>, t: nat, u: nat, j: int)
    requires Placed(c) && u < t <= |slots| && RealChild(slots[u]) && j in Sub(c, slots[u].ino)
    ensures j in Gone(c, slots, t)
  {
    if u < t - 1 { GoneHas(c, slots, t - 1, u, j); }
  }

  /** All children and the node itself make up the subtree. */
  lemma GoneAll(c: Cert, i: int, slots: seq<Entry>, t: nat)
    requires Placed(c) && Lists(c, i, slots) && t == SLOTS
    ensures Gone(c, slots, t) + {i} == Sub(c, i) && i !in Gone(c, slots, t)
  {
    forall j | j in Gone(c, slots, t) ensures j in Sub(c, i) && j != i {
      GoneBelow(c, i, slots, t, j);
    }
    forall j | j in Sub(c, i) && j != i ensures j in Gone(c, slots, t) {
      var k := BelowChild(c, j, i);
      GoneHas(c, slots, t, c.place[k].slot, j);
    }
  }

  // ---------------------------------------------------------------------
  // One level of the recursion
  // ---------------------------------------------------------------------

  /** The subtree of `i` is intact. */
  ghost predicate SubOk(s: State, c: Cert, i: int) {
    match c
    case Cert(place, owner, _) =>
      && Placed(c) && i in place && i != ROOT && BitsInv(s) && -1 !in owner
      && (forall j {:trigger NodeOk(s, c, j)} :: j in Sub(c, i) ==> NodeOk(s, c, j))
      && (forall j {:trigger ParentOk(s, c, j)} :: j in Sub(c, i) && j != i ==> ParentOk(s, c, j))
      && (forall b {:trigger OwnerOk(s, c, b)} :: b in owner && owner[b].0 in Sub(c, i) ==> OwnerOk(s, c, b))
  }

  lemma TreeSubOk(s: State, c: Cert, i: int)
    requires BitsInv(s) && TreeInv(s, c) && i in c.place && i != ROOT
    ensures SubOk(s, c, i)
  {
    TreePlaced(s, c);
    SubBranch(c, i);
    forall j | j in Sub(c, i) && j != i ensures ParentOk(s, c, j) {}
  }

  function SlotsAt(s: State, i: int): (r: seq<Entry>)
    requires |INodeAt(s.img.inodes, i).direct| == DIRECT
    ensures |r| == SLOTS
  {
    Slots(s.img.blocks, INodeAt(s.img.inodes, i).direct)
  }

  lemma SubNode(s: State, c: Cert, i: int)
    requires SubOk(s, c, i)
    ensures NodeOk(s, c, i) && |INodeAt(s.img.inodes, i).direct| == DIRECT && INodeUsed(s, i)
    ensures i in Sub(c, i)
    ensures INodeAt(s.img.inodes, i).direct[0] != -1
  {
    assert i in Sub(c, i);
  }

  lemma SubLists(s: State, c: Cert, i: int)
    requires SubOk(s, c, i) && IsDir(INodeAt(s.img.inodes, i))
    ensures |INodeAt(s.img.inodes, i).direct| == DIRECT && Lists(c, i, SlotsAt(s, i))
  {
    SubNode(s, c, i);
    var slots := SlotsAt(s, i);
    DirLists(c, i, INodeAt(s.img.inodes, i).cnt, slots);
    forall j | j in c.place && j != ROOT && c.place[j].parent == i
      ensures 0 <= c.place[j].slot < SLOTS && slots[c.place[j].slot].ino == j && RealChild(slots[c.place[j].slot])
    {
      assert Below(c, j, i);
      BelowDepth(c, j, i);
      assert j in Sub(c, i) && j != i;
      assert ParentOk(s, c, j);
      assert KidOk(c, i, c.place[j].slot, slots[c.place[j].slot]);
    }
  }

  /** In a directory's slots the real children are the child slots in use. */
  lemma DirLists(c: Cert, i: int, cnt: nat, slots: seq<Entry>)
    requires Placed(c) && i in c.place && i != ROOT && |slots| == SLOTS && DirOk(c, i, cnt, slots)
    ensures forall t :: 0 <= t < SLOTS && RealChild(slots[t]) ==> KidOk(c, i, t, slots[t]) && slots[t].ino != ROOT
    ensures forall t :: Base(i) <= t < SLOTS && slots[t].name != "" ==> KidOk(c, i, t, slots[t])
  {
    forall t | 0 <= t < SLOTS && RealChild(slots[t]) ensures KidOk(c, i, t, slots[t]) && slots[t].ino != ROOT {
      assert t >= Base(i);
      assert KidOk(c, i, t, slots[t]);
    }
  }

  /** At most two entries: nothing hangs below. */
  lemma SmallNode(s: State, c: Cert, i: int)
    requires SubOk(s, c, i) && INodeAt(s.img.inodes, i).cnt <= 2
    ensures Sub(c, i) == {i}
    ensures |INodeAt(s.img.inodes, i).direct| == DIRECT && Freed(s, c, {i}) == {INodeAt(s.img.inodes, i).direct[0]}
  {
    SubNode(s, c, i);
    var n := INodeAt(s.img.inodes, i);
    forall j | j in c.place && j != ROOT && c.place[j].parent == i ensures false {
      assert Below(c, j, i);
      BelowDepth(c, j, i);
      assert j in Sub(c, i) && ParentOk(s, c, j);
      TwoNamed(c, i, n.cnt, SlotsAt(s, i), c.place[j].slot);
    }
    forall j | j in Sub(c, i) ensures j == i {
      if j != i { var k := BelowChild(c, j, i); }
    }
    forall b | b in Freed(s, c, {i}) ensures b == n.direct[0] {
      assert OwnerOk(s, c, b);
    }
    assert OwnedBy(s, c, n.direct[0], i, 0);
  }

  lemma TwoNamed(c: Cert, i: int, cnt: nat, slots: seq<Entry>, t: int)
    requires i in c.place && i != ROOT && |slots| == SLOTS && DirOk(c, i, cnt, slots)
    requires 2 <= t < SLOTS && slots[t].name != ""
    ensures cnt > 2
  {
    assert {0, 1, t} <= Named(slots);
    SubsetSize({0, 1, t}, Named(slots));
  }

  /** Blocks of `i` before pointer `k` that DeleteFileOrDir frees. */
  ghost function OwnFreed(s: State, i: int, k: nat): set<int>
    requires |INodeAt(s.img.inodes, i).direct| == DIRECT && k <= DIRECT
  {
    if k == 0 then {}
    else
      var b := INodeAt(s.img.inodes, i).direct[k - 1];
      OwnFreed(s, i, k - 1) + if b != -1 && BlockHasChild(SlotsAt(s, i), k - 1) then {b} else {}
  }

  lemma {:induction false} OwnFreedMembers(s: State, i: int, k: nat)
    requires |INodeAt(s.img.inodes, i).direct| == DIRECT && k <= DIRECT
    ensures forall b :: b in OwnFreed(s, i, k) <==>
      exists q :: 0 <= q < k && INodeAt(s.img.inodes, i).direct[q] == b != -1 && BlockHasChild(SlotsAt(s, i), q)
  {
    hide BlockHasChild, SlotsAt;
    if k > 0 { OwnFreedMembers(s, i, k - 1); }
  }

  /** The state of the loop at slot `t`, with the blocks before pointer `k` dealt with. */
  ghost predicate DeletedUpTo(s: State, s': State, c: Cert, i: int, t: nat, k: nat)
    requires Placed(c) && |INodeAt(s.img.inodes, i).direct| == DIRECT && t <= SLOTS && k <= DIRECT
  {
    match SlotsAt(s, i)
    case slots => Swept(s, s', Gone(c, slots, t), Freed(s, c, Gone(c, slots, t)) + OwnFreed(s, i, k))
  }

  /** Nodes below `i` not yet deleted read as at the start. */
  lemma StillSame(s: State, s': State, c: Cert, i: int, t: nat, k: nat, j: int)
    requires SubOk(s, c, i) && IsDir(INodeAt(s.img.inodes, i)) && |INodeAt(s.img.inodes, i).direct| == DIRECT
    requires t <= SLOTS && k <= DIRECT && DeletedUpTo(s, s', c, i, t, k)
    requires j in Sub(c, i) && j != i && j !in Gone(c, SlotsAt(s, i), t)
    ensures SameNode(s, s', j)
  {
    var gone := Gone(c, SlotsAt(s, i), t);
    hide DirOk, FileOk, NodeFrees, BlockHasChild, OwnFreed, Gone, ChainInv;
    assert NodeOk(s, c, j);
    SubNode(s, c, i);
    OwnFreedMembers(s, i, k);
    var n := INodeAt(s.img.inodes, j);
    var direct := INodeAt(s.img.inodes, i).direct;
    forall q | 0 <= q < DIRECT && n.direct[q] != -1
      ensures n.direct[q] !in Freed(s, c, gone) + OwnFreed(s, i, k)
    {
      assert OwnedBy(s, c, n.direct[q], j, q);
      forall p | 0 <= p < DIRECT && direct[p] != -1 ensures direct[p] != n.direct[q] {
        assert OwnedBy(s, c, direct[p], i, p);
      }
    }
  }

  /** The next real child can be deleted. */
  lemma ChildSubOk(s: State, s': State, c: Cert, i: int, t: nat, k: nat)
    requires SubOk(s, c, i) && IsDir(INodeAt(s.img.inodes, i)) && |INodeAt(s.img.inodes, i).direct| == DIRECT
    requires t < SLOTS && k <= DIRECT && DeletedUpTo(s, s', c, i, t, k)
    requires RealChild(SlotsAt(s, i)[t])
    ensures var u := SlotsAt(s, i)[t].ino;
      && SubOk(s', c, u) && c.place[u].depth == c.place[i].depth + 1
      && Sub(c, u) <= Sub(c, i) && i !in Sub(c, u) && Sub(c, u) !! Gone(c, SlotsAt(s, i), t)
      && (forall j :: j in Sub(c, u) ==> SameNode(s, s', j))
  {
    var slots := SlotsAt(s, i);
    var u := slots[t].ino;
    SubLists(s, c, i);
    GoneApart(c, i, slots, t, t);
    assert Below(c, u, i);
    BelowDepth(c, u, i);
    forall j | j in Sub(c, u)
      ensures j in Sub(c, i) && j != i && SameNode(s, s', j) && NodeOk(s', c, j)
    {
      BelowTrans(c, j, u, i);
      BelowDepth(c, j, u);
      StillSame(s, s', c, i, t, k, j);
      assert NodeOk(s, c, j);
      NodeFrame(s, c, s', c, j);
    }
    ChildParents(s, s', c, i, u);
  }

  lemma ChildParents(s: State, s': State, c: Cert, i: int, u: int)
    requires SubOk(s, c, i) && u in c.place && u != ROOT && c.place[u].parent == i
    requires Sub(c, u) <= Sub(c, i) && i !in Sub(c, u) && BitsInv(s')
    requires forall j :: j in Sub(c, u) ==> SameNode(s, s', j) && NodeOk(s', c, j)
    ensures SubOk(s', c, u)
  {
    forall j | j in Sub(c, u) && j != u ensures ParentOk(s', c, j) {
      BelowDepth(c, j, u);
      assert ParentOk(s, c, j);
      assert c.place[j].parent in Sub(c, u);
      ParentFrame(s, c, s', c, j);
    }
    forall b | b in c.owner && c.owner[b].0 in Sub(c, u) ensures OwnerOk(s', c, b) {
      assert OwnerOk(s, c, b);
    }
  }

  /** The blocks a subtree frees do not depend on what was deleted beside it. */
  lemma FreedSame(s: State, s': State, c: Cert, gone: set<int>)
    requires forall j :: j in gone ==> SameNode(s, s', j)
    requires forall j :: j in gone ==> |INodeAt(s.img.inodes, j).direct| == DIRECT
    ensures Freed(s', c, gone) == Freed(s, c, gone)
  {
    forall b | b in c.owner && c.owner[b].0 in gone
      ensures NodeFrees(s', c.owner[b].0, c.owner[b].1) == NodeFrees(s, c.owner[b].0, c.owner[b].1)
    {
      var j := c.owner[b].0;
      SlotsFrame(s.img.blocks, s'.img.blocks, INodeAt(s.img.inodes, j).direct);
    }
  }

  lemma FreedUnion(s: State, c: Cert, g1: set<int>, g2: set<int>)
    ensures Freed(s, c, g1 + g2) == Freed(s, c, g1) + Freed(s, c, g2)
    ensures g1 !! g2 ==> Freed(s, c, g1) !! Freed(s, c, g2)
  {
  }

  /** `i`'s own blocks are not among those its descendants free. */
  lemma OwnFreedApart(s: State, c: Cert, i: int, gone: set<int>, k: nat)
    requires SubOk(s, c, i) && |INodeAt(s.img.inodes, i).direct| == DIRECT && k <= DIRECT && i !in gone
    ensures OwnFreed(s, i, k) !! Freed(s, c, gone)
  {
    hide BlockHasChild;
    SubNode(s, c, i);
    OwnFreedMembers(s, i, k);
    var direct := INodeAt(s.img.inodes, i).direct;
    forall q | 0 <= q < DIRECT && direct[q] != -1 ensures direct[q] !in Freed(s, c, gone) {
      assert OwnedBy(s, c, direct[q], i, q);
    }
  }

  lemma SweptJoin(s: State, s1: State, s2: State, g1: set<int>, f1: set<int>, g2: set<int>, f2: set<int>,
                  g: set<int>, f: set<int>)
    requires Swept(s, s1, g1, f1) && Swept(s1, s2, g2, f2) && g1 !! g2 && f1 !! f2
    requires g == g1 + g2 && f == f1 + f2
    ensures Swept(s, s2, g, f)
  {
    SweptTwice(s, s1, s2, g1, f1, g2, f2);
  }

  lemma SweptMoreBlock(s: State, s1: State, gone: set<int>, freed: set<int>, b: int, freed': set<int>)
    requires Swept(s, s1, gone, freed) && Used(s1, b) && b !in freed && freed' == freed + {b}
    ensures Swept(s, FreeBlock(s1, b).0, gone, freed')
  {
    SweptBlock(s1, b);
    SweptJoin(s, s1, FreeBlock(s1, b).0, gone, freed, {}, {b}, gone, freed');
  }

  lemma SweptMoreINode(s: State, s1: State, gone: set<int>, freed: set<int>, i: int, gone': set<int>)
    requires Swept(s, s1, gone, freed) && INodeUsed(s, i) && i !in gone && gone' == gone + {i}
    ensures INodeUsed(s1, i)
    ensures Swept(s, FreeINode(s1, i).0, gone', freed)
  {
    SweptINode(s1, i);
    SweptJoin(s, s1, FreeINode(s1, i).0, gone, freed, {i}, {}, gone', freed);
  }

  lemma UnionAssoc(a: set<int>, b: set<int>, x: set<int>)
    ensures a + b + x == a + (b + x)
  {
  }

  lemma Shuffle(a: set<int>, b: set<int>, x: set<int>)
    requires x !! a && x !! b
    ensures a + x + b == a + b + x
    ensures a + b !! x
  {
  }

  /** The loop after a slot with a real child, which is deleted. */
  lemma ChildDone(s: State, s1: State, s2: State, c: Cert, i: int, t: nat, k: nat)
    requires SubOk(s, c, i) && IsDir(INodeAt(s.img.inodes, i)) && |INodeAt(s.img.inodes, i).direct| == DIRECT
    requires t < SLOTS && k <= DIRECT && DeletedUpTo(s, s1, c, i, t, k)
    requires RealChild(SlotsAt(s, i)[t])
    requires var u := SlotsAt(s, i)[t].ino; Swept(s1, s2, Sub(c, u), Freed(s1, c, Sub(c, u)))
    ensures DeletedUpTo(s, s2, c, i, t + 1, k)
  {
    var slots := SlotsAt(s, i);
    var gone, sub := Gone(c, slots, t), Sub(c, slots[t].ino);
    ChildSubOk(s, s1, c, i, t, k);
    assert forall j :: j in sub ==> NodeOk(s, c, j);
    FreedSame(s, s1, c, sub);
    OwnFreedApart(s, c, i, sub, k);
    FreedUnion(s, c, gone, sub);
    Shuffle(Freed(s, c, gone), OwnFreed(s, i, k), Freed(s, c, sub));
    SweptJoin(s, s1, s2, gone, Freed(s, c, gone) + OwnFreed(s, i, k), sub, Freed(s, c, sub),
              Gone(c, slots, t + 1), Freed(s, c, gone + sub) + OwnFreed(s, i, k));
  }

  lemma SlotSkipped(s: State, s1: State, c: Cert, i: int, t: nat, k: nat)
    requires Placed(c) && |INodeAt(s.img.inodes, i).direct| == DIRECT
    requires t < SLOTS && k <= DIRECT && DeletedUpTo(s, s1, c, i, t, k)
    requires !RealChild(SlotsAt(s, i)[t])
    ensures DeletedUpTo(s, s1, c, i, t + 1, k)
  {
    hide Swept, Freed, OwnFreed, Sub;
    assert Gone(c, SlotsAt(s, i), t + 1) == Gone(c, SlotsAt(s, i), t);
  }

  lemma OwnFreedStep(s: State, i: int, k: nat)
    requires |INodeAt(s.img.inodes, i).direct| == DIRECT && k < DIRECT
    ensures
      var b := INodeAt(s.img.inodes, i).direct[k];
      OwnFreed(s, i, k + 1) == OwnFreed(s, i, k) + (if b != -1 && BlockHasChild(SlotsAt(s, i), k) then {b} else {})
  {
  }

  /** The loop after a block without a real child. */
  lemma BlockKept(s: State, s1: State, c: Cert, i: int, t: nat, k: nat)
    requires Placed(c) && |INodeAt(s.img.inodes, i).direct| == DIRECT
    requires k < DIRECT && t <= SLOTS && DeletedUpTo(s, s1, c, i, t, k)
    requires !(INodeAt(s.img.inodes, i).direct[k] != -1 && BlockHasChild(SlotsAt(s, i), k))
    ensures DeletedUpTo(s, s1, c, i, t, k + 1)
  {
    OwnFreedStep(s, i, k);
    assert OwnFreed(s, i, k + 1) == OwnFreed(s, i, k);
  }

  /** The loop after a block that held a real child and is freed. */
  lemma BlockFreed(s: State, s1: State, c: Cert, i: int, t: nat, k: nat)
    requires SubOk(s, c, i) && IsDir(INodeAt(s.img.inodes, i)) && |INodeAt(s.img.inodes, i).direct| == DIRECT
    requires k < DIRECT && t <= SLOTS && DeletedUpTo(s, s1, c, i, t, k)
    requires INodeAt(s.img.inodes, i).direct[k] != -1 && BlockHasChild(SlotsAt(s, i), k)
    ensures Used(s1, INodeAt(s.img.inodes, i).direct[k])
    ensures DeletedUpTo(s, FreeBlock(s1, INodeAt(s.img.inodes, i).direct[k]).0, c, i, t, k + 1)
  {
    var b := INodeAt(s.img.inodes, i).direct[k];
    var gone := Gone(c, SlotsAt(s, i), t);
    var freed := Freed(s, c, gone) + OwnFreed(s, i, k);
    OwnBlockUsed(s, s1, c, i, t, k, k);
    OwnFreedStep(s, i, k);
    UnionAssoc(Freed(s, c, gone), OwnFreed(s, i, k), {b});
    SweptMoreBlock(s, s1, gone, freed, b, freed + {b});
  }

  /** `i`'s block `q`, not freed yet, is still allocated and unchanged. */
  lemma OwnBlockUsed(s: State, s1: State, c: Cert, i: int, t: nat, k: nat, q: nat)
    requires SubOk(s, c, i) && IsDir(INodeAt(s.img.inodes, i)) && |INodeAt(s.img.inodes, i).direct| == DIRECT
    requires t <= SLOTS && k <= q < DIRECT && DeletedUpTo(s, s1, c, i, t, k)
    requires INodeAt(s.img.inodes, i).direct[q] != -1
    ensures
      var b := INodeAt(s.img.inodes, i).direct[q];
      && Used(s1, b) && BlockAt(s1.img.blocks, b) == BlockAt(s.img.blocks, b)
      && b !in Freed(s, c, Gone(c, SlotsAt(s, i), t)) + OwnFreed(s, i, k)
  {
    hide DirOk, FileOk, NodeFrees, BlockHasChild, OwnFreed, Gone, Sub, ChainInv;
    var direct := INodeAt(s.img.inodes, i).direct;
    var b := direct[q];
    SubNode(s, c, i);
    OwnFreedMembers(s, i, k);
    SubLists(s, c, i);
    var gone := Gone(c, SlotsAt(s, i), t);
    if i in gone { GoneBelow(c, i, SlotsAt(s, i), t, i); }
    assert OwnedBy(s, c, b, i, q);
    forall p | 0 <= p < DIRECT && direct[p] != -1 && p != q ensures direct[p] != b {
      assert OwnedBy(s, c, direct[p], i, p);
    }
  }

  /** After the loop and the final INodeFree the whole subtree is gone. */
  lemma NodeDone(s: State, s1: State, c: Cert, i: int, t: nat, k: nat)
    requires SubOk(s, c, i) && IsDir(INodeAt(s.img.inodes, i)) && |INodeAt(s.img.inodes, i).direct| == DIRECT
    requires t == SLOTS && k == DIRECT
    requires INodeAt(s.img.inodes, i).cnt > 2 && DeletedUpTo(s, s1, c, i, t, k)
    ensures INodeUsed(s1, i)
    ensures Swept(s, FreeINode(s1, i).0, Sub(c, i), Freed(s, c, Sub(c, i)))
  {
    var slots := SlotsAt(s, i);
    var gone := Gone(c, slots, t);
    SubLists(s, c, i);
    GoneAll(c, i, slots, t);
    SubNode(s, c, i);
    var freed := Freed(s, c, gone) + OwnFreed(s, i, k);
    SweptMoreINode(s, s1, gone, freed, i, Sub(c, i));
    OwnFreedAll(s, c, i, k);
    FreedUnion(s, c, gone, {i});
    assert freed == Freed(s, c, Sub(c, i));
  }

  lemma OwnFreedAll(s: State, c: Cert, i: int, k: nat)
    requires k == DIRECT
    requires SubOk(s, c, i) && IsDir(INodeAt(s.img.inodes, i)) && |INodeAt(s.img.inodes, i).direct| == DIRECT
    requires INodeAt(s.img.inodes, i).cnt > 2
    ensures OwnFreed(s, i, k) == Freed(s, c, {i})
  {
    hide BlockHasChild, DirOk;
    SubNode(s, c, i);
    OwnFreedMembers(s, i, k);
    var direct := INodeAt(s.img.inodes, i).direct;
    forall b ensures b in OwnFreed(s, i, k) <==> b in Freed(s, c, {i}) {
      if b in OwnFreed(s, i, k) {
        var q :| 0 <= q < k && direct[q] == b != -1 && BlockHasChild(SlotsAt(s, i), q);
        assert OwnedBy(s, c, direct[q], i, q);
        assert NodeFrees(s, i, q);
      }
      if b in Freed(s, c, {i}) {
        assert OwnerOk(s, c, b);
        var q := c.owner[b].1;
        assert direct[q] == b && NodeFrees(s, i, q);
      }
    }
  }

  // ---------------------------------------------------------------------
  // Small steps of the method
  // ---------------------------------------------------------------------

  lemma SmallBlock(s: State, c: Cert, i: int)
    requires SubOk(s, c, i) && |INodeAt(s.img.inodes, i).direct| == DIRECT
    ensures var b := INodeAt(s.img.inodes, i).direct[0];
      Used(s, b) && Swept(s, FreeBlock(s, b).0, {}, {b})
  {
    SubNode(s, c, i);
    assert OwnedBy(s, c, INodeAt(s.img.inodes, i).direct[0], i, 0);
    SweptBlock(s, INodeAt(s.img.inodes, i).direct[0]);
  }

  /** More than two entries: a directory. */
  lemma SubDirectory(s: State, c: Cert, i: int)
    requires SubOk(s, c, i) && INodeAt(s.img.inodes, i).cnt > 2
    ensures IsDir(INodeAt(s.img.inodes, i)) && |INodeAt(s.img.inodes, i).direct| == DIRECT
  {
    SubNode(s, c, i);
  }

  lemma NothingDeleted(s: State, c: Cert, i: int)
    requires SubOk(s, c, i) && |INodeAt(s.img.inodes, i).direct| == DIRECT
    ensures DeletedUpTo(s, s, c, i, 0, 0)
  {
    SweptNone(s);
    assert Freed(s, c, {}) + OwnFreed(s, i, 0) == {};
  }

  /** An absent block holds no child and frees nothing. */
  lemma {:induction false} AbsentSlots(s: State, s1: State, c: Cert, i: int, k: nat, t: nat)
    requires SubOk(s, c, i) && |INodeAt(s.img.inodes, i).direct| == DIRECT && k < DIRECT
    requires INodeAt(s.img.inodes, i).direct[k] == -1
    requires k * PER_BLOCK <= t <= (k + 1) * PER_BLOCK && DeletedUpTo(s, s1, c, i, t, k)
    ensures DeletedUpTo(s, s1, c, i, (k + 1) * PER_BLOCK, k)
    decreases (k + 1) * PER_BLOCK - t
  {
    hide Swept, Freed, OwnFreed, Gone;
    if t < (k + 1) * PER_BLOCK {
      assert t / PER_BLOCK == k;
      assert SlotsAt(s, i)[t] == HOLE;
      SlotSkipped(s, s1, c, i, t, k);
      AbsentSlots(s, s1, c, i, k, t + 1);
    }
  }

  lemma AbsentBlock(s: State, s1: State, c: Cert, i: int, k: nat, t: nat)
    requires SubOk(s, c, i) && |INodeAt(s.img.inodes, i).direct| == DIRECT && k < DIRECT && t == k * PER_BLOCK
    requires INodeAt(s.img.inodes, i).direct[k] == -1 && DeletedUpTo(s, s1, c, i, t, k)
    ensures DeletedUpTo(s, s1, c, i, (k + 1) * PER_BLOCK, k + 1)
  {
    AbsentSlots(s, s1, c, i, k, t);
    BlockKept(s, s1, c, i, (k + 1) * PER_BLOCK, k);
  }

  /** Among the first `n` entries of a block there is a real child. */
  ghost predicate SomeReal(entries: seq<Entry>, n: nat) {
    match entries
    case l => n <= |l| && exists q :: 0 <= q < n && RealChild(l[q])
  }

  /** The entries read are those of the sixteen slots, and the inner loop's flag ends as `BlockHasChild`. */
  lemma BlockRead(s: State, s1: State, i: int, k: nat)
    requires |INodeAt(s.img.inodes, i).direct| == DIRECT && k < DIRECT && INodeAt(s.img.inodes, i).direct[k] != -1
    requires var b := INodeAt(s.img.inodes, i).direct[k]; BlockAt(s1.img.blocks, b) == BlockAt(s.img.blocks, b)
    ensures
      var entries := EntriesAt(s1.img.blocks, INodeAt(s.img.inodes, i).direct[k]);
      && (forall j :: 0 <= j < PER_BLOCK ==> SlotsAt(s, i)[k * PER_BLOCK + j] == entries[j])
      && !SomeReal(entries, 0)
      && (SomeReal(entries, PER_BLOCK) <==> BlockHasChild(SlotsAt(s, i), k))
  {
    hide RealChild;
    EntriesRead(s, s1, i, k);
    HasChildRead(SlotsAt(s, i), EntriesAt(s1.img.blocks, INodeAt(s.img.inodes, i).direct[k]), k);
  }

  lemma EntriesRead(s: State, s1: State, i: int, k: nat)
    requires |INodeAt(s.img.inodes, i).direct| == DIRECT && k < DIRECT && INodeAt(s.img.inodes, i).direct[k] != -1
    requires var b := INodeAt(s.img.inodes, i).direct[k]; BlockAt(s1.img.blocks, b) == BlockAt(s.img.blocks, b)
    ensures forall j :: 0 <= j < PER_BLOCK ==>
      SlotsAt(s, i)[k * PER_BLOCK + j] == EntriesAt(s1.img.blocks, INodeAt(s.img.inodes, i).direct[k])[j]
  {
    forall j | 0 <= j < PER_BLOCK
      ensures SlotsAt(s, i)[k * PER_BLOCK + j] == EntriesAt(s1.img.blocks, INodeAt(s.img.inodes, i).direct[k])[j]
    {
      var u := k * PER_BLOCK + j;
      assert u / PER_BLOCK == k && u % PER_BLOCK == j;
    }
  }

  lemma HasChildRead(slots: seq<Entry>, entries: seq<Entry>, k: nat)
    requires |slots| == SLOTS && |entries| == PER_BLOCK && k < DIRECT
    requires forall j :: 0 <= j < PER_BLOCK ==> slots[k * PER_BLOCK + j] == entries[j]
    ensures !SomeReal(entries, 0) && (SomeReal(entries, PER_BLOCK) <==> BlockHasChild(slots, k))
  {
    hide RealChild;
    if BlockHasChild(slots, k) {
      var u :| 0 <= u < SLOTS && u / PER_BLOCK == k && RealChild(slots[u]);
      assert slots[k * PER_BLOCK + u % PER_BLOCK] == entries[u % PER_BLOCK];
    }
    if q :| 0 <= q < PER_BLOCK && RealChild(entries[q]) {
      assert (k * PER_BLOCK + q) / PER_BLOCK == k;
      assert slots[k * PER_BLOCK + q] == entries[q];
    }
  }

  // ---------------------------------------------------------------------
  // The same steps, bundled for the methods
  // ---------------------------------------------------------------------

  /** Deleting directory `i` of state `s` has reached state `s1`, slot `t` and pointer `k`. */
  ghost predicate Deleting(s: State, s1: State, c: Cert, i: int, t: nat, k: nat) {
    match s1
    case State(_, _, _, _) =>
      && SubOk(s, c, i) && IsDir(INodeAt(s.img.inodes, i)) && |INodeAt(s.img.inodes, i).direct| == DIRECT
      && t <= SLOTS && k <= DIRECT && DeletedUpTo(s, s1, c, i, t, k)
  }

  function DepthOf(c: Cert, i: int): nat { if i in c.place then c.place[i].depth else 0 }

  function PointerOf(s: State, i: int, k: nat): int {
    var direct := INodeAt(s.img.inodes, i).direct;
    if k < |direct| then direct[k] else -1
  }

  /** The sixteen entries of block `k` of directory `i`. */
  ghost predicate EntriesOf(s: State, i: int, k: nat, entries: seq<Entry>) {
    match entries
    case l =>
      && |INodeAt(s.img.inodes, i).direct| == DIRECT && k < DIRECT && |l| == PER_BLOCK
      && (forall j :: 0 <= j < PER_BLOCK ==> SlotsAt(s, i)[k * PER_BLOCK + j] == l[j])
      && !SomeReal(l, 0)
      && (SomeReal(l, PER_BLOCK) <==> BlockHasChild(SlotsAt(s, i), k))
  }

  lemma DeletingStart(s: State, c: Cert, i: int)
    requires SubOk(s, c, i) && INodeAt(s.img.inodes, i).cnt > 2
    ensures Deleting(s, s, c, i, 0, 0) && |INodeAt(s.img.inodes, i).direct| == DIRECT
  {
    SubDirectory(s, c, i);
    NothingDeleted(s, c, i);
  }

  lemma DeletingAbsent(s: State, s1: State, c: Cert, i: int, k: nat)
    requires Deleting(s, s1, c, i, k * PER_BLOCK, k) && k < DIRECT && PointerOf(s, i, k) == -1
    ensures Deleting(s, s1, c, i, (k + 1) * PER_BLOCK, k + 1)
  {
    AbsentBlock(s, s1, c, i, k, k * PER_BLOCK);
  }

  lemma DeletingRead(s: State, s1: State, c: Cert, i: int, k: nat)
    requires Deleting(s, s1, c, i, k * PER_BLOCK, k) && k < DIRECT && PointerOf(s, i, k) != -1
    ensures EntriesOf(s, i, k, EntriesAt(s1.img.blocks, PointerOf(s, i, k)))
  {
    OwnBlockUsed(s, s1, c, i, k * PER_BLOCK, k, k);
    BlockRead(s, s1, i, k);
  }

  lemma DeletingChild(s: State, s1: State, c: Cert, i: int, k: nat, j: nat, entries: seq<Entry>)
    requires Deleting(s, s1, c, i, k * PER_BLOCK + j, k) && EntriesOf(s, i, k, entries)
    requires j < PER_BLOCK && RealChild(entries[j])
    ensures SubOk(s1, c, entries[j].ino) && DepthOf(c, entries[j].ino) == DepthOf(c, i) + 1
    ensures DepthOf(c, entries[j].ino) <= c.maxDepth
  {
    ChildSubOk(s, s1, c, i, k * PER_BLOCK + j, k);
  }

  lemma DeletingChildDone(s: State, s1: State, s2: State, c: Cert, i: int, k: nat, j: nat, entries: seq<Entry>)
    requires Deleting(s, s1, c, i, k * PER_BLOCK + j, k) && EntriesOf(s, i, k, entries)
    requires j < PER_BLOCK && RealChild(entries[j]) && SubOk(s1, c, entries[j].ino)
    requires Swept(s1, s2, Sub(c, entries[j].ino), Freed(s1, c, Sub(c, entries[j].ino)))
    ensures Deleting(s, s2, c, i, k * PER_BLOCK + (j + 1), k)
    ensures SomeReal(entries, j + 1)
  {
    hide Swept, Freed, Sub, Gone, OwnFreed, BlockHasChild, NodeOk;
    ChildDone(s, s1, s2, c, i, k * PER_BLOCK + j, k);
  }

  lemma DeletingSkip(s: State, s1: State, c: Cert, i: int, k: nat, j: nat, entries: seq<Entry>)
    requires Deleting(s, s1, c, i, k * PER_BLOCK + j, k) && EntriesOf(s, i, k, entries)
    requires j < PER_BLOCK && !RealChild(entries[j])
    ensures Deleting(s, s1, c, i, k * PER_BLOCK + (j + 1), k)
    ensures SomeReal(entries, j + 1) == SomeReal(entries, j)
  {
    hide DeletedUpTo;
    SlotSkipped(s, s1, c, i, k * PER_BLOCK + j, k);
  }

  lemma DeletingBlock(s: State, s1: State, c: Cert, i: int, k: nat, entries: seq<Entry>)
    requires Deleting(s, s1, c, i, k * PER_BLOCK + PER_BLOCK, k) && EntriesOf(s, i, k, entries) && PointerOf(s, i, k) != -1
    ensures !SomeReal(entries, PER_BLOCK) ==> Deleting(s, s1, c, i, (k + 1) * PER_BLOCK, k + 1)
    ensures SomeReal(entries, PER_BLOCK) ==>
      |s1.super.stack| == GROUP && Deleting(s, FreeBlock(s1, PointerOf(s, i, k)).0, c, i, (k + 1) * PER_BLOCK, k + 1)
  {
    assert k * PER_BLOCK + PER_BLOCK == (k + 1) * PER_BLOCK;
    if SomeReal(entries, PER_BLOCK) {
      BlockFreed(s, s1, c, i, (k + 1) * PER_BLOCK, k);
    } else {
      BlockKept(s, s1, c, i, (k + 1) * PER_BLOCK, k);
    }
  }

  lemma DeletingDone(s: State, s1: State, c: Cert, i: int, t: nat, k: nat)
    requires Deleting(s, s1, c, i, t, k) && t == SLOTS && k == DIRECT && INodeAt(s.img.inodes, i).cnt > 2
    ensures Swept(s, FreeINode(s1, i).0, Sub(c, i), Freed(s, c, Sub(c, i)))
  {
    NodeDone(s, s1, c, i, t, k);
  }

  /** The short branch: the one block of pointer 0, then the inode. */
  lemma SmallDone(s: State, c: Cert, i: int)
    requires SubOk(s, c, i) && INodeAt(s.img.inodes, i).cnt <= 2
    ensures |s.super.stack| == GROUP && |INodeAt(s.img.inodes, i).direct| == DIRECT
    ensures Swept(s, FreeINode(FreeBlock(s, PointerOf(s, i, 0)).0, i).0, Sub(c, i), Freed(s, c, Sub(c, i)))
  {
    SubNode(s, c, i);
    var b := PointerOf(s, i, 0);
    SmallNode(s, c, i);
    SmallBlock(s, c, i);
    SweptMoreINode(s, FreeBlock(s, b).0, {}, {b}, i, {i});
  }
}
