/**
 What a subtree says, without inode numbers: names, kinds and file texts, in
 slot order.
 */
module Outline {
  import opened Disk
  import opened Allocator
  import opened Tree
  import opened Directories
  import opened MakeDirectory
  import opened Subtree

  datatype Doc = File(text: string) | Folder(kids: seq<(string, Doc)>)

  /** An entry of `i` that leads to a child. */
  ghost predicate LeadsTo(c: Cert, i: int, e: Entry) {
    RealChild(e) && e.ino in c.place && e.ino != ROOT && c.place[e.ino].parent == i
  }

  ghost function DocOf(s: State, c: Cert, i: int): Doc
    requires Placed(c) && i in c.place
    decreases c.maxDepth - c.place[i].depth, 1, 0
  {
    match ViewOf(s.img, i)
    case FileView(_, text) => File(text)
    case DirView(_, slots) => Folder(Kids(s, c, i, slots, |slots|))
    case NoView => File("")
  }

  /** The children in slots before `t`. */
  ghost function Kids(s: State, c: Cert, i: int, slots: seq<Entry>, t: nat): seq<(string, Doc)>
    requires Placed(c) && i in c.place && t <= |slots|
    decreases c.maxDepth - c.place[i].depth, 0, t
  {
    if t == 0 then []
    else
      var before := Kids(s, c, i, slots, t - 1);
      if LeadsTo(c, i, slots[t - 1]) then before + [(slots[t - 1].name, DocOf(s, c, slots[t - 1].ino))] else before
  }

  /** Nodes at or below `i` look the same and hang the same. */
  ghost predicate SameBelow(s: State, c: Cert, s': State, c': Cert, i: int)
    requires Placed(c)
  {
    match c'
    case Cert(place, _, _) =>
      forall x :: x in Sub(c, i) ==> x in place && place[x] == c.place[x] && ViewOf(s'.img, x) == ViewOf(s.img, x)
  }

  /** The same, but for node `i` itself. */
  ghost predicate SameUnder(s: State, c: Cert, s': State, c': Cert, i: int)
    requires Placed(c)
  {
    match c'
    case Cert(place, _, _) =>
      forall x :: x in Sub(c, i) && x != i ==> x in place && place[x] == c.place[x] && ViewOf(s'.img, x) == ViewOf(s.img, x)
  }

  lemma SameBelowChild(s: State, c: Cert, s': State, c': Cert, i: int, k: int)
    requires Placed(c) && SameUnder(s, c, s', c', i) && i in c.place
    requires k in c.place && k != ROOT && c.place[k].parent == i
    ensures SameBelow(s, c, s', c', k)
  {
    assert Below(c, k, i);
    forall x | x in Sub(c, k) ensures x in Sub(c, i) && x != i {
      BelowTrans(c, x, k, i);
      BelowDepth(c, x, k);
    }
  }

  /** A subtree whose nodes are unchanged says the same; entries lead to the same children in both certificates. */
  lemma {:induction false} DocFrame(s: State, c: Cert, s': State, c': Cert, i: int)
    requires Placed(c) && Placed(c') && i in c.place && i in c'.place && SameBelow(s, c, s', c', i)
    requires forall x :: x in Sub(c, i) ==> Closed(s, c, x)
    ensures DocOf(s', c', i) == DocOf(s, c, i)
    decreases c.maxDepth - c.place[i].depth, 1, 0
  {
    assert i in Sub(c, i);
    match ViewOf(s.img, i)
    case DirView(_, slots) => KidsFrame(s, c, s', c', i, slots, |slots|);
    case _ =>
  }

  /** Every real entry of node `x` leads to a child of it. */
  ghost predicate Closed(s: State, c: Cert, x: int) {
    match ViewOf(s.img, x)
    case DirView(_, slots) => forall t :: 0 <= t < |slots| && RealChild(slots[t]) ==> LeadsTo(c, x, slots[t])
    case _ => true
  }

  lemma {:induction false} KidsFrame(s: State, c: Cert, s': State, c': Cert, i: int, slots: seq<Entry>, t: nat)
    requires Placed(c) && Placed(c') && i in c.place && i in c'.place && SameUnder(s, c, s', c', i)
    requires forall x :: x in Sub(c, i) ==> Closed(s, c, x)
    requires t <= |slots| && forall u :: 0 <= u < |slots| && RealChild(slots[u]) ==> LeadsTo(c, i, slots[u])
    ensures Kids(s', c', i, slots, t) == Kids(s, c, i, slots, t)
    decreases c.maxDepth - c.place[i].depth, 0, t
  {
    if t > 0 {
      KidsFrame(s, c, s', c', i, slots, t - 1);
      if RealChild(slots[t - 1]) {
        var k := slots[t - 1].ino;
        SameBelowChild(s, c, s', c', i, k);
        ChildClosed(s, c, i, k);
        DocFrame(s, c, s', c', k);
      }
    }
  }

  lemma ChildClosed(s: State, c: Cert, i: int, k: int)
    requires Placed(c) && i in c.place && k in c.place && k != ROOT && c.place[k].parent == i
    requires forall x :: x in Sub(c, i) ==> Closed(s, c, x)
    ensures forall x :: x in Sub(c, k) ==> Closed(s, c, x)
  {
    assert Below(c, k, i);
    forall x | x in Sub(c, k) ensures x in Sub(c, i) { BelowTrans(c, x, k, i); }
  }

  /** In a tree every real entry leads to a child. */
  lemma TreeClosed(s: State, c: Cert, x: int)
    requires TreeInv(s, c) && x in c.place
    ensures Closed(s, c, x)
  {
    hide TreeInv, NodeOk, DirOk;
    var n := INodeAt(s.img.inodes, x);
    if IsDir(n) {
      ReachedDir(s, c, x);
      var slots := Slots(s.img.blocks, n.direct);
      RootTop(s, c);
      forall t | 0 <= t < SLOTS && RealChild(slots[t]) ensures LeadsTo(c, x, slots[t]) {
        ChildSlot(c, x, n.cnt, slots, t);
      }
    } else {
      Reached(s, c, x);
    }
  }

  /** Nodes that keep their places keep what hangs below them. */
  lemma {:induction false} BelowFrame(c: Cert, c': Cert, j: int, i: int)
    requires Placed(c) && Placed(c') && j in c.place
    requires forall x :: x in c.place ==> x in c'.place && c'.place[x] == c.place[x]
    ensures Below(c', j, i) == Below(c, j, i)
    decreases c.place[j].depth
  {
    if j != i && j != ROOT { BelowFrame(c, c', c.place[j].parent, i); }
  }

  // ---------------------------------------------------------------------
  // Adding one child to a packed directory
  // ---------------------------------------------------------------------

  /** Slots in use come first. */
  ghost predicate Packed(slots: seq<Entry>) {
    match slots
    case l => forall u :: FirstHole(l, 0) <= u < |l| ==> l[u].name == ""
  }

  lemma {:induction false} KidsHoles(s: State, c: Cert, i: int, slots: seq<Entry>, t: nat, u: nat)
    requires Placed(c) && i in c.place && t <= u <= |slots|
    requires forall v :: t <= v < u ==> slots[v].name == ""
    ensures Kids(s, c, i, slots, u) == Kids(s, c, i, slots, t)
    decreases u - t
  {
    if t < u { KidsHoles(s, c, i, slots, t, u - 1); }
  }

  lemma {:induction false} KidsPrefix(s: State, c: Cert, i: int, slots: seq<Entry>, slots': seq<Entry>, t: nat)
    requires Placed(c) && i in c.place && t <= |slots| && t <= |slots'|
    requires forall v :: 0 <= v < t ==> slots[v] == slots'[v]
    ensures Kids(s, c, i, slots, t) == Kids(s, c, i, slots', t)
    decreases t
  {
    if t > 0 { KidsPrefix(s, c, i, slots, slots', t - 1); }
  }

  /** A packed directory stays packed, and its list of children grows at the end. */
  lemma KidsAppend(s: State, c: Cert, i: int, slots: seq<Entry>, e: Entry)
    requires Placed(c) && i in c.place && Packed(slots) && FirstHole(slots, 0) < |slots|
    requires LeadsTo(c, i, e)
    ensures
      var slots' := slots[FirstHole(slots, 0) := e];
      && Packed(slots')
      && Kids(s, c, i, slots', |slots'|) == Kids(s, c, i, slots, |slots|) + [(e.name, DocOf(s, c, e.ino))]
  {
    var h := FirstHole(slots, 0);
    var slots' := slots[h := e];
    assert FirstHole(slots', 0) >= h + 1;
    KidsHoles(s, c, i, slots, h, |slots|);
    KidsHoles(s, c, i, slots', h + 1, |slots'|);
    KidsPrefix(s, c, i, slots, slots', h);
  }

  /** A directory just made has no children and is packed. */
  lemma FreshKids(s: State, c: Cert, i: int, parent: int)
    requires Placed(c) && i in c.place
    ensures var slots := FreshSlots(i, parent);
      Packed(slots) && Kids(s, c, i, slots, |slots|) == [] && FirstHole(slots, 0) == 2
  {
    var slots := FreshSlots(i, parent);
    assert forall u :: 2 <= u < |slots| ==> slots[u].name == "";
    assert slots[0].name == "." && slots[1].name == "..";
    var h := FirstHole(slots, 0);
    assert slots[2].name == "";
    assert h <= 2 && slots[h].name == "";
    KidsHoles(s, c, i, slots, 2, |slots|);
    assert Kids(s, c, i, slots, 1) == [];
  }

  /** Nodes that were there before do not hang below a node that was not. */
  lemma {:induction false} OldNotBelow(c: Cert, c': Cert, x: int, i: int)
    requires Placed(c) && Placed(c') && x in c.place && i !in c.place
    requires forall y :: y in c.place ==> y in c'.place && c'.place[y] == c.place[y]
    ensures !Below(c', x, i)
    decreases c.place[x].depth
  {
    if x != ROOT { OldNotBelow(c, c', c.place[x].parent, i); }
  }

  /** The real entries before slot `t`, in order. */
  function Listed(slots: seq<Entry>, t: nat): seq<Entry>
    requires t <= |slots|
  {
    if t == 0 then []
    else if RealChild(slots[t - 1]) then Listed(slots, t - 1) + [slots[t - 1]]
    else Listed(slots, t - 1)
  }

  /** The outline's children are the listed entries, one by one. */
  lemma {:induction false} KidsListed(s: State, c: Cert, i: int, slots: seq<Entry>, t: nat)
    requires Placed(c) && i in c.place && t <= |slots|
    requires forall u :: 0 <= u < |slots| && RealChild(slots[u]) ==> LeadsTo(c, i, slots[u])
    ensures |Kids(s, c, i, slots, t)| == |Listed(slots, t)|
    ensures forall m :: 0 <= m < |Listed(slots, t)| ==>
      && LeadsTo(c, i, Listed(slots, t)[m])
      && Kids(s, c, i, slots, t)[m] == (Listed(slots, t)[m].name, DocOf(s, c, Listed(slots, t)[m].ino))
    decreases t
  {
    if t > 0 { KidsListed(s, c, i, slots, t - 1); }
  }
}
