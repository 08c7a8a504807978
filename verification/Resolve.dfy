/**
 From paths to inodes: findChild and resolveEntry (src/filesystem_adapter.cpp),
 and what the descendant test on strings means for the tree.
 */
module Resolve {
  import opened Disk
  import opened Allocator
  import opened Tree
  import opened Directories
  import opened MakeDirectory
  import opened Subtree
  import opened Outline
  import opened Paths

  /** The first slot at or after `t` of an allocated block with this nonempty name. */
  function FindName(blocks: map<int, Block>, direct: seq<int>, name: string, t: nat): (h: nat)
    requires |direct| == DIRECT && t <= SLOTS
    ensures t <= h <= SLOTS
    ensures h < SLOTS ==> Bears(blocks, direct, name, h)
    ensures forall u :: t <= u < h ==> !Bears(blocks, direct, name, u)
    decreases SLOTS - t, direct
  {
    if t == SLOTS || Bears(blocks, direct, name, t) then t else FindName(blocks, direct, name, t + 1)
  }

  predicate Bears(blocks: map<int, Block>, direct: seq<int>, name: string, t: int)
    requires |direct| == DIRECT && 0 <= t < SLOTS
  {
    direct[t / PER_BLOCK] != -1 && Slots(blocks, direct)[t].name != "" && Slots(blocks, direct)[t].name == name
  }

  /** findChild: the inode of the entry, -1 when there is none or `d` is not a directory. */
  function FindChild(img: Image, d: int, name: string): int {
    var n := INodeAt(img.inodes, d);
    if |n.direct| != DIRECT || !IsDir(n) then -1
    else
      var h := FindName(img.blocks, n.direct, name, 0);
      if h == SLOTS then -1 else Slots(img.blocks, n.direct)[h].ino
  }

  /** resolveEntry: the components followed from `d`; every one but the last must be a directory. */
  function Follow(img: Image, d: int, parts: seq<string>): int
    decreases |parts|
  {
    if parts == [] then d
    else
      var k := FindChild(img, d, parts[0]);
      if k == -1 then -1
      else if |parts| > 1 && !IsDir(INodeAt(img.inodes, k)) then -1
      else Follow(img, k, parts[1..])
  }

  function ResolvePath(img: Image, path: string): int { Follow(img, ROOT, Parts(path)) }

  // ---------------------------------------------------------------------
  // Paths in the tree
  // ---------------------------------------------------------------------

  /** The name under which `i` hangs. */
  ghost function NameOf(s: State, c: Cert, i: int): string
    requires i in c.place
  {
    var p := c.place[i];
    var n := INodeAt(s.img.inodes, p.parent);
    if |n.direct| == DIRECT && 0 <= p.slot < SLOTS then Slots(s.img.blocks, n.direct)[p.slot].name else ""
  }

  ghost function PathOf(s: State, c: Cert, i: int): seq<string>
    requires Placed(c) && i in c.place
    decreases c.place[i].depth
  {
    if i == ROOT then [] else PathOf(s, c, c.place[i].parent) + [NameOf(s, c, i)]
  }

  /** `i` hangs in `d` under the name. */
  ghost predicate ChildNamed(s: State, c: Cert, d: int, name: string, i: int) {
    match c
    case Cert(place, _, _) => i in place && i != ROOT && place[i].parent == d && NameOf(s, c, i) == name
  }

  /** In a tree the child found is the one child with that name. */
  lemma ChildFound(s: State, c: Cert, d: int, name: string)
    requires TreeInv(s, c) && Placed(c) && d in c.place && name != "." && name != ".."
    ensures
      var k := FindChild(s.img, d, name);
      k != -1 ==> k in c.place && k != ROOT && c.place[k].parent == d && NameOf(s, c, k) == name && IsDir(INodeAt(s.img.inodes, d))
  {
    assert NodeOk(s, c, d);
    var n := INodeAt(s.img.inodes, d);
    if IsDir(n) {
      var h := FindName(s.img.blocks, n.direct, name, 0);
      if h != SLOTS {
        var slots := Slots(s.img.blocks, n.direct);
        assert DirOk(c, d, n.cnt, slots);
        assert h >= Base(d);
        assert KidOk(c, d, h, slots[h]);
        assert c.place[slots[h].ino].depth > 0;
      }
    }
  }

  /** A slot with a name is in an allocated block. */
  lemma NamedSlot(blocks: map<int, Block>, direct: seq<int>, t: int)
    requires |direct| == DIRECT && 0 <= t < SLOTS && Slots(blocks, direct)[t].name != ""
    ensures direct[t / PER_BLOCK] != -1
  {
  }

  /** Every child is found under its name. */
  lemma NameFinds(s: State, c: Cert, k: int)
    requires TreeInv(s, c) && Placed(c) && k in c.place && k != ROOT
    ensures FindChild(s.img, c.place[k].parent, NameOf(s, c, k)) == k
    ensures k != -1
  {
    var d, t := c.place[k].parent, c.place[k].slot;
    assert ParentOk(s, c, k);
    assert NodeOk(s, c, d);
    assert NodeOk(s, c, k);
    var n := INodeAt(s.img.inodes, d);
    var slots := Slots(s.img.blocks, n.direct);
    assert DirOk(c, d, n.cnt, slots);
    assert KidOk(c, d, t, slots[t]);
    NamedSlot(s.img.blocks, n.direct, t);
    var h := FindName(s.img.blocks, n.direct, slots[t].name, 0);
    assert Bears(s.img.blocks, n.direct, slots[t].name, t);
    assert h <= t && slots[h].name == slots[t].name;
  }

  lemma {:induction false} FollowSnoc(img: Image, d: int, parts: seq<string>, last: string)
    requires Follow(img, d, parts) != -1 && (parts == [] || IsDir(INodeAt(img.inodes, Follow(img, d, parts))))
    ensures Follow(img, d, parts + [last]) == FindChild(img, Follow(img, d, parts), last)
    decreases |parts|
  {
    if parts == [] {
      assert [] + [last] == [last];
      assert [last][1..] == [];
    } else {
      assert (parts + [last])[1..] == parts[1..] + [last];
      FollowSnoc(img, FindChild(img, d, parts[0]), parts[1..], last);
      if |parts| == 1 { assert Follow(img, FindChild(img, d, parts[0]), []) == FindChild(img, d, parts[0]); }
    }
  }

  /** Every node is reached by its path. */
  lemma {:induction false} PathFollows(s: State, c: Cert, i: int)
    requires TreeInv(s, c) && Placed(c) && i in c.place
    ensures Follow(s.img, ROOT, PathOf(s, c, i)) == i && i != -1
    decreases c.place[i].depth
  {
    assert NodeOk(s, c, i);
    if i != ROOT {
      var p := c.place[i].parent;
      PathFollows(s, c, p);
      NameFinds(s, c, i);
      assert ParentOk(s, c, i);
      FollowSnoc(s.img, ROOT, PathOf(s, c, p), NameOf(s, c, i));
    }
  }

  lemma PathSplit(path: seq<string>, parts: seq<string>)
    requires parts != []
    ensures path + [parts[0]] + parts[1..] == path + parts
  {
  }

  /** A path that resolves is the path of what it resolves to. */
  lemma {:induction false} FollowIsPath(s: State, c: Cert, d: int, parts: seq<string>)
    requires TreeInv(s, c) && Placed(c) && d in c.place
    requires forall k :: 0 <= k < |parts| ==> parts[k] != "." && parts[k] != ".."
    requires Follow(s.img, d, parts) != -1
    ensures var i := Follow(s.img, d, parts); i in c.place && PathOf(s, c, i) == PathOf(s, c, d) + parts
    decreases |parts|
  {
    if parts == [] {
      assert PathOf(s, c, d) + parts == PathOf(s, c, d);
    } else {
      ChildFound(s, c, d, parts[0]);
      var k := FindChild(s.img, d, parts[0]);
      FollowIsPath(s, c, k, parts[1..]);
      PathSplit(PathOf(s, c, d), parts);
    }
  }

  /** Different nodes have different paths. */
  lemma PathInjective(s: State, c: Cert, i: int, j: int)
    requires TreeInv(s, c) && Placed(c) && i in c.place && j in c.place && PathOf(s, c, i) == PathOf(s, c, j)
    ensures i == j
  {
    PathFollows(s, c, i);
    PathFollows(s, c, j);
  }

  lemma {:induction false} BelowPrefix(s: State, c: Cert, q: int, p: int)
    requires Placed(c) && q in c.place && p in c.place && Below(c, q, p)
    ensures |PathOf(s, c, q)| >= |PathOf(s, c, p)| && PathOf(s, c, q)[..|PathOf(s, c, p)|] == PathOf(s, c, p)
    ensures q != p ==> |PathOf(s, c, q)| > |PathOf(s, c, p)|
    decreases c.place[q].depth
  {
    if q != p { BelowPrefix(s, c, c.place[q].parent, p); }
  }

  /** The ancestor whose path is a given prefix. */
  lemma {:induction false} PrefixBelow(s: State, c: Cert, q: int, n: nat) returns (p: int)
    requires Placed(c) && q in c.place && n <= |PathOf(s, c, q)|
    ensures p in c.place && Below(c, q, p) && PathOf(s, c, p) == PathOf(s, c, q)[..n]
    decreases c.place[q].depth
  {
    var path := PathOf(s, c, q);
    if n == |path| {
      assert path[..n] == path;
      p := q;
    } else {
      var up := PathOf(s, c, c.place[q].parent);
      assert path == up + [NameOf(s, c, q)];
      assert path[..n] == up[..n];
      p := PrefixBelow(s, c, c.place[q].parent, n);
    }
  }

  /** For nodes, hanging below is having a longer path. */
  lemma BelowIsPrefix(s: State, c: Cert, q: int, p: int)
    requires TreeInv(s, c) && Placed(c) && q in c.place && p in c.place
    ensures Below(c, q, p) <==>
      |PathOf(s, c, q)| >= |PathOf(s, c, p)| && PathOf(s, c, q)[..|PathOf(s, c, p)|] == PathOf(s, c, p)
  {
    if Below(c, q, p) { BelowPrefix(s, c, q, p); }
    if |PathOf(s, c, q)| >= |PathOf(s, c, p)| && PathOf(s, c, q)[..|PathOf(s, c, p)|] == PathOf(s, c, p) {
      var r := PrefixBelow(s, c, q, |PathOf(s, c, p)|);
      PathInjective(s, c, r, p);
    }
  }

  /** A normalised path that resolves, and its node. */
  ghost predicate Names(s: State, c: Cert, path: string, i: int)
    requires Placed(c)
  {
    match c
    case Cert(place, _, _) =>
      Normal(Parts(path)) && path == Join(Parts(path)) && i in place && PathOf(s, c, i) == Parts(path)
  }

  lemma ResolvedNames(s: State, c: Cert, path: string)
    requires TreeInv(s, c) && Placed(c) && Normal(Parts(path)) && path == Join(Parts(path))
    requires ResolvePath(s.img, path) != -1
    ensures Names(s, c, path, ResolvePath(s.img, path))
  {
    FollowIsPath(s, c, ROOT, Parts(path));
    assert [] + Parts(path) == Parts(path);
  }

  /**
   The guard of CopyEntry and MoveEntry: for resolvable normalised paths other
   than the root, the string test holds exactly when the first node is a strict
   ancestor of the second.
   */
  lemma GuardExact(s: State, c: Cert, p: string, i: int, q: string, j: int)
    requires TreeInv(s, c) && Placed(c) && Names(s, c, p, i) && Names(s, c, q, j) && p != "/"
    ensures IsDescendant(p, q) <==> Below(c, j, i) && i != j
    ensures p == q <==> i == j
  {
    assert Parts(p) == [] ==> p == "/";
    DescendantIsPrefix(Parts(p), Parts(q));
    BelowIsPrefix(s, c, j, i);
    if Below(c, j, i) { BelowPrefix(s, c, j, i); }
    if p == q { PathInjective(s, c, i, j); }
    if |Parts(q)| == |Parts(p)| && Parts(q)[..|Parts(p)|] == Parts(p) { assert Parts(q) == Parts(p); }
  }

  // ---------------------------------------------------------------------
  // The loops
  // ---------------------------------------------------------------------

  lemma {:induction false} NameSkips(blocks: map<int, Block>, direct: seq<int>, name: string, k: nat, t: nat)
    requires |direct| == DIRECT && k < DIRECT && direct[k] == -1
    requires k * PER_BLOCK <= t <= (k + 1) * PER_BLOCK
    ensures FindName(blocks, direct, name, t) == FindName(blocks, direct, name, (k + 1) * PER_BLOCK)
    decreases (k + 1) * PER_BLOCK - t
  {
    if t < (k + 1) * PER_BLOCK {
      assert t / PER_BLOCK == k;
      NameSkips(blocks, direct, name, k, t + 1);
    }
  }

  lemma NameStep(blocks: map<int, Block>, direct: seq<int>, name: string, k: nat, j: nat)
    requires |direct| == DIRECT && k < DIRECT && j < PER_BLOCK && direct[k] != -1
    ensures
      var e := EntriesAt(blocks, direct[k])[j];
      var t := k * PER_BLOCK + j;
      && t < SLOTS && Slots(blocks, direct)[t] == e
      && FindName(blocks, direct, name, t) == if e.name != "" && e.name == name then t else FindName(blocks, direct, name, t + 1)
  {
    var t := k * PER_BLOCK + j;
    assert t / PER_BLOCK == k && t % PER_BLOCK == j;
  }

  lemma NameEnd(blocks: map<int, Block>, direct: seq<int>, name: string, t: nat)
    requires |direct| == DIRECT && t == SLOTS
    ensures FindName(blocks, direct, name, t) == SLOTS
  {
  }

  method FindChildIn(img: Image, d: int, name: string) returns (child: int)
    ensures child == FindChild(img, d, name)
  {
    hide FindName, Slots;
    var n := INodeAt(img.inodes, d);
    if |n.direct| != DIRECT || !IsDir(n) {
      return -1;
    }
    for k := 0 to DIRECT
      invariant FindName(img.blocks, n.direct, name, 0) == FindName(img.blocks, n.direct, name, k * PER_BLOCK)
    {
      if n.direct[k] == -1 {
        NameSkips(img.blocks, n.direct, name, k, k * PER_BLOCK);
        continue;
      }
      var entries := EntriesAt(img.blocks, n.direct[k]);
      for j := 0 to PER_BLOCK
        invariant FindName(img.blocks, n.direct, name, 0) == FindName(img.blocks, n.direct, name, k * PER_BLOCK + j)
      {
        NameStep(img.blocks, n.direct, name, k, j);
        if entries[j].name == "" {
          continue;
        }
        if name == entries[j].name {
          return entries[j].ino;
        }
      }
    }
    NameEnd(img.blocks, n.direct, name, DIRECT * PER_BLOCK);
    child := -1;
  }

  method ResolveEntry(img: Image, path: string) returns (i: int)
    ensures i == ResolvePath(img, path)
  {
    var parts := SplitPath(path);
    i := ROOT;
    for m := 0 to |parts|
      invariant Follow(img, i, parts[m..]) == Follow(img, ROOT, parts)
    {
      assert parts[m..][1..] == parts[m + 1..];
      var child := FindChildIn(img, i, parts[m]);
      if child == -1 {
        return -1;
      }
      if m < |parts| - 1 && !IsDir(INodeAt(img.inodes, child)) {
        return -1;
      }
      i := child;
    }
  }
}
