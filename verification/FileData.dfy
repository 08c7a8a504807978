/**
 Storing and reading file contents: the block loop shared by Create and
 WriteFile (src/filesystem_file_create.cpp, src/filesystem_file_data.cpp).
 */
module FileData {
  import opened Disk
  import opened Allocator
  import opened Lifo
  import opened Tree
  import opened INodes
  import opened MakeDirectory

  /** strlen: the characters before the first NUL. */
  function StrLen(buf: seq<char>): (n: nat)
    ensures n <= |buf|
    ensures forall k :: 0 <= k < n ==> buf[k] != '\0'
    ensures n < |buf| ==> buf[n] == '\0'
  {
    if buf == [] || buf[0] == '\0' then 0 else 1 + StrLen(buf[1..])
  }

  lemma {:induction false} StrLenPadded(text: string, rest: seq<char>)
    requires '\0' !in text && rest != [] && rest[0] == '\0'
    ensures StrLen(text + rest) == |text|
    decreases |text|
  {
    if text == "" {
      assert text + rest == rest;
    } else {
      assert (text + rest)[1..] == text[1..] + rest;
      StrLenPadded(text[1..], rest);
    }
  }

  function BlocksFor(len: nat): nat { (len + BLOCK_SIZE - 1) / BLOCK_SIZE }

  lemma BlocksForCovers(len: nat, k: nat)
    requires k * BLOCK_SIZE < len
    ensures k < BlocksFor(len)
  {
  }

  /** A C buffer holding at most ten blocks of text, with whole blocks readable. */
  predicate TextBuffer(buf: seq<char>) {
    StrLen(buf) <= MAX_FILE && StrLen(buf) < |buf|
    && BlocksFor(StrLen(buf)) * BLOCK_SIZE <= |buf| && BLOCK_SIZE <= |buf|
  }

  /** The block-sized piece that starts at `k * BLOCK_SIZE`. */
  function Chunk(buf: seq<char>, k: nat): seq<char>
    requires (k + 1) * BLOCK_SIZE <= |buf|
  {
    buf[k * BLOCK_SIZE..(k + 1) * BLOCK_SIZE]
  }

  lemma ChunkFits(buf: seq<char>, k: nat)
    requires TextBuffer(buf) && k * BLOCK_SIZE < StrLen(buf)
    ensures (k + 1) * BLOCK_SIZE <= |buf| && k < DIRECT
  {
    BlocksForCovers(StrLen(buf), k);
  }

  /**
   Pieces `k`, `k + 1`, ... of the text go to the blocks `direct` names, and to
   fresh blocks where it names none. The last component is false when no block
   was left.
   */
  function Fill(s: State, buf: seq<char>, direct: seq<int>, k: nat): (r: (State, seq<int>, bool))
    requires |s.super.stack| == GROUP && |direct| == DIRECT && TextBuffer(buf) && k <= DIRECT
    ensures |r.0.super.stack| == GROUP && |r.1| == DIRECT
    decreases DIRECT - k, direct
  {
    if k * BLOCK_SIZE >= StrLen(buf) then (s, direct, true)
    else
      ChunkFits(buf, k);
      var (s1, b) := if direct[k] == -1 then AllocBlock(s) else (s, direct[k]);
      if b == -1 then (s1, direct, false)
      else Fill(WriteBlock(s1, b, Bytes(Chunk(buf, k))), buf, direct[k := b], k + 1)
  }

  /** The named blocks are allocated and named once. */
  ghost predicate Held(s: State, direct: seq<int>) {
    match direct
    case l =>
      && (forall j :: 0 <= j < |l| && l[j] != -1 ==> Used(s, l[j]))
      && (forall i, j :: 0 <= i < j < |l| && l[i] != -1 ==> l[i] != l[j])
  }

  /** `direct'` extends `direct` by blocks that were free. */
  ghost predicate Extends(s: State, direct: seq<int>, direct': seq<int>) {
    match direct'
    case l =>
      && |direct| == |l|
      && (forall j :: 0 <= j < |l| && direct[j] != -1 ==> l[j] == direct[j])
      && (forall j :: 0 <= j < |l| && direct[j] == -1 && l[j] != -1 ==> !Used(s, l[j]))
  }

  /** Only blocks named in `direct'` were written, and of those none below `k`. */
  ghost predicate WroteOnly(s: State, s': State, direct': seq<int>, k: nat) {
    match s'.img
    case Image(_, _, _, inodes, blocks) =>
      && inodes == s.img.inodes
      && (forall x :: x == -1 || x !in direct' ==> BlockAt(blocks, x) == BlockAt(s.img.blocks, x))
      && (forall j :: 0 <= j < k && j < |direct'| ==> BlockAt(blocks, direct'[j]) == BlockAt(s.img.blocks, direct'[j]))
  }

  ghost predicate BitsGrow(s: State, s': State, direct': seq<int>) {
    match s'
    case State(_, _, _, _) =>
      && (forall i :: INodeUsed(s', i) == INodeUsed(s, i))
      && (forall x :: Used(s, x) ==> Used(s', x))
      && (forall x :: Used(s', x) ==> Used(s, x) || x in direct')
  }

  ghost predicate Stored(blocks: map<int, Block>, buf: seq<char>, direct: seq<int>, k: nat)
    requires TextBuffer(buf) && |direct| == DIRECT
  {
    match direct
    case l => forall j: nat :: k <= j && j * BLOCK_SIZE < StrLen(buf) ==> StoredPiece(blocks, buf, l, j)
  }

  ghost predicate StoredPiece(blocks: map<int, Block>, buf: seq<char>, direct: seq<int>, j: nat)
    requires TextBuffer(buf) && |direct| == DIRECT && j * BLOCK_SIZE < StrLen(buf)
  {
    ChunkFits(buf, j);
    direct[j] != -1 && BytesAt(blocks, direct[j]) == Chunk(buf, j)
  }

  /** The loop's next block: the one named, or a free one. */
  lemma FillBlock(s: State, buf: seq<char>, direct: seq<int>, k: nat)
    requires DiskInv(s) && |direct| == DIRECT && Held(s, direct) && k < DIRECT
    ensures
      var (s1, b) := if direct[k] == -1 then AllocBlock(s) else (s, direct[k]);
      && DiskInv(s1) && Grown(s, s1)
      && (b == -1 ==> s1 == s)
      && (b != -1 ==>
           && Held(s1, direct[k := b]) && Extends(s, direct, direct[k := b])
           && BitsGrow(s, s1, direct[k := b]))
  {
    if direct[k] == -1 {
      GrownBlock(s);
    } else {
      assert direct[k := direct[k]] == direct;
    }
  }

  /** What the loop from piece `k` on has done. */
  ghost predicate Filled(s: State, buf: seq<char>, direct: seq<int>, k: nat, s': State, direct': seq<int>, ok: bool)
    requires TextBuffer(buf) && |direct| == |direct'| == DIRECT
  {
    match s'
    case State(_, _, _, _) =>
      && DiskInv(s') && Held(s', direct') && Extends(s, direct, direct')
      && WroteOnly(s, s', direct', k) && BitsGrow(s, s', direct')
      && (forall j :: 0 <= j < DIRECT && (j < k || j * BLOCK_SIZE >= StrLen(buf)) ==> direct'[j] == direct[j])
      && (ok ==> Stored(s'.img.blocks, buf, direct', k))
  }

  lemma FilledNone(s: State, buf: seq<char>, direct: seq<int>, k: nat, ok: bool)
    requires DiskInv(s) && |direct| == DIRECT && TextBuffer(buf) && Held(s, direct)
    requires ok ==> k * BLOCK_SIZE >= StrLen(buf)
    ensures Filled(s, buf, direct, k, s, direct, ok)
  {
  }

  lemma {:induction false} FillKeeps(s: State, buf: seq<char>, direct: seq<int>, k: nat)
    requires DiskInv(s) && |direct| == DIRECT && TextBuffer(buf) && k <= DIRECT && Held(s, direct)
    ensures
      var (s', direct', ok) := Fill(s, buf, direct, k);
      Filled(s, buf, direct, k, s', direct', ok)
    decreases DIRECT - k
  {
    if k * BLOCK_SIZE >= StrLen(buf) {
      FilledNone(s, buf, direct, k, true);
    } else {
      ChunkFits(buf, k);
      var (s1, b) := if direct[k] == -1 then AllocBlock(s) else (s, direct[k]);
      FillBlock(s, buf, direct, k);
      if b == -1 {
        FilledNone(s, buf, direct, k, false);
      } else {
        var s2 := WriteBlock(s1, b, Bytes(Chunk(buf, k)));
        FillStep(s, s1, buf, direct, k, b);
        FillKeeps(s2, buf, direct[k := b], k + 1);
        var (s', direct', ok) := Fill(s2, buf, direct[k := b], k + 1);
        FilledStep(s, s2, s', buf, direct, direct[k := b], direct', k, ok);
      }
    }
  }

  lemma FilledStep(s: State, s2: State, s': State, buf: seq<char>, direct: seq<int>, direct1: seq<int>,
                   direct': seq<int>, k: nat, ok: bool)
    requires |direct| == |direct1| == |direct'| == DIRECT && k < DIRECT && direct1[k] != -1
    requires TextBuffer(buf) && k * BLOCK_SIZE < StrLen(buf) && (k + 1) * BLOCK_SIZE <= |buf|
    requires direct1 == direct[k := direct1[k]]
    requires Extends(s, direct, direct1) && BitsGrow(s, s2, direct1) && WroteOnly(s, s2, direct1, k)
    requires BytesAt(s2.img.blocks, direct1[k]) == Chunk(buf, k)
    requires Filled(s2, buf, direct1, k + 1, s', direct', ok)
    ensures Filled(s, buf, direct, k, s', direct', ok)
  {
    FillJoin(s, s2, s', direct, direct1, direct', k);
    if ok {
      assert StoredPiece(s'.img.blocks, buf, direct', k);
      StoredJoin(s'.img.blocks, buf, direct', k);
    }
  }

  lemma FillStep(s: State, s1: State, buf: seq<char>, direct: seq<int>, k: nat, b: int)
    requires DiskInv(s1) && Grown(s, s1) && |direct| == DIRECT && k < DIRECT && (k + 1) * BLOCK_SIZE <= |buf| && b != -1
    requires Held(s1, direct[k := b]) && BitsGrow(s, s1, direct[k := b])
    ensures
      var s2 := WriteBlock(s1, b, Bytes(Chunk(buf, k)));
      && DiskInv(s2) && Held(s2, direct[k := b]) && BitsGrow(s, s2, direct[k := b])
      && WroteOnly(s, s2, direct[k := b], k)
      && BytesAt(s2.img.blocks, b) == Chunk(buf, k)
  {
    var direct1 := direct[k := b];
    assert direct1[k] == b && Used(s1, b);
    WriteKeeps(s1, b, Bytes(Chunk(buf, k)));
  }

  lemma FillJoin(s: State, s2: State, s': State, direct: seq<int>, direct1: seq<int>, direct': seq<int>, k: nat)
    requires |direct| == |direct1| == |direct'| == DIRECT && k < DIRECT && direct1[k] != -1
    requires Extends(s, direct, direct1) && BitsGrow(s, s2, direct1) && WroteOnly(s, s2, direct1, k)
    requires Extends(s2, direct1, direct') && WroteOnly(s2, s', direct', k + 1) && BitsGrow(s2, s', direct')
    requires forall j :: 0 <= j <= k ==> direct'[j] == direct1[j]
    ensures Extends(s, direct, direct') && WroteOnly(s, s', direct', k) && BitsGrow(s, s', direct')
    ensures direct'[k] == direct1[k] && BlockAt(s'.img.blocks, direct1[k]) == BlockAt(s2.img.blocks, direct1[k])
  {
    forall x | x in direct1 && x != -1 ensures x in direct' {
      var j :| 0 <= j < |direct1| && direct1[j] == x;
      assert direct'[j] == x;
    }
    forall j | 0 <= j < k ensures BlockAt(s'.img.blocks, direct'[j]) == BlockAt(s.img.blocks, direct'[j]) {
      assert BlockAt(s'.img.blocks, direct'[j]) == BlockAt(s2.img.blocks, direct'[j]);
      assert direct'[j] == direct1[j];
    }
  }

  lemma StoredJoin(blocks: map<int, Block>, buf: seq<char>, direct: seq<int>, k: nat)
    requires TextBuffer(buf) && |direct| == DIRECT && k * BLOCK_SIZE < StrLen(buf)
    requires Stored(blocks, buf, direct, k + 1) && StoredPiece(blocks, buf, direct, k)
    ensures Stored(blocks, buf, direct, k)
  {
  }

  /** What was stored reads back. */
  lemma StoredReads(blocks: map<int, Block>, buf: seq<char>, direct: seq<int>)
    requires TextBuffer(buf) && |direct| == DIRECT && Stored(blocks, buf, direct, 0)
    ensures Content(blocks, direct, StrLen(buf)) == buf[..StrLen(buf)]
  {
    var len := StrLen(buf);
    forall p | 0 <= p < len ensures Content(blocks, direct, len)[p] == buf[p] {
      var j := p / BLOCK_SIZE;
      ChunkFits(buf, j);
      assert StoredPiece(blocks, buf, direct, j);
      assert p == j * BLOCK_SIZE + p % BLOCK_SIZE;
      assert Chunk(buf, j)[p % BLOCK_SIZE] == buf[p];
    }
  }

  /** The pointers of a stored text cover it. */
  lemma StoredCovers(blocks: map<int, Block>, buf: seq<char>, direct: seq<int>)
    requires TextBuffer(buf) && |direct| == DIRECT && Stored(blocks, buf, direct, 0)
    ensures forall k :: 0 <= k < DIRECT && k * BLOCK_SIZE < StrLen(buf) ==> direct[k] != -1
  {
    forall k | 0 <= k < DIRECT && k * BLOCK_SIZE < StrLen(buf) ensures direct[k] != -1 {
      assert StoredPiece(blocks, buf, direct, k);
    }
  }

  // ---------------------------------------------------------------------
  // Who owns the blocks
  // ---------------------------------------------------------------------

  /** Inode `i` owns each block of `direct`, through the pointer that names it. */
  ghost function OwnMap(i: int, direct: seq<int>): (m: map<int, (int, int)>)
    requires forall j, k :: 0 <= j < k < |direct| && direct[j] != -1 ==> direct[j] != direct[k]
    ensures forall b :: b in m <==> b != -1 && b in direct
    ensures forall k :: 0 <= k < |direct| && direct[k] != -1 ==> m[direct[k]] == (i, k)
    ensures forall b :: b in m ==> m[b].0 == i && 0 <= m[b].1 < |direct| && direct[m[b].1] == b
  {
    map k | 0 <= k < |direct| && direct[k] != -1 :: direct[k] := (i, k)
  }

  /** One turn of the loop that stores the pieces. */
  lemma FillTurn(s: State, buf: seq<char>, direct: seq<int>, k: nat)
    requires |s.super.stack| == GROUP && |direct| == DIRECT && TextBuffer(buf) && k <= DIRECT
    ensures k * BLOCK_SIZE >= StrLen(buf) ==> Fill(s, buf, direct, k) == (s, direct, true)
    ensures k * BLOCK_SIZE < StrLen(buf) ==>
      var (s1, b) := if direct[k] == -1 then AllocBlock(s) else (s, direct[k]);
      && (k + 1) * BLOCK_SIZE <= |buf| && k < DIRECT && |s1.super.stack| == GROUP
      && Fill(s, buf, direct, k)
         == if b == -1 then (s1, direct, false)
            else Fill(WriteBlock(s1, b, Bytes(Chunk(buf, k))), buf, direct[k := b], k + 1)
  {
    if k * BLOCK_SIZE < StrLen(buf) { ChunkFits(buf, k); }
  }

  // ---------------------------------------------------------------------
  // WriteFile
  // ---------------------------------------------------------------------

  /** WriteFile: on success the inode's pointers and size are written back; when the blocks run out it is left alone. */
  function WriteFile(s: State, n: INode, i: int, buf: seq<char>): (r: State)
    requires |s.super.stack| == GROUP && |n.direct| == DIRECT && TextBuffer(buf)
    ensures |r.super.stack| == GROUP
  {
    var (s1, direct, ok) := Fill(s, buf, n.direct, 0);
    if ok then WriteINode(s1, i, n.(direct := direct, size := StrLen(buf))) else s1
  }

  lemma FileHeld(s: State, c: Cert, i: int)
    requires TreeInv(s, c) && i in c.place
    ensures |INodeAt(s.img.inodes, i).direct| == DIRECT && Held(s, INodeAt(s.img.inodes, i).direct)
  {
    assert NodeOk(s, c, i);
    var direct := INodeAt(s.img.inodes, i).direct;
    forall j | 0 <= j < DIRECT && direct[j] != -1 ensures OwnedBy(s, c, direct[j], i, j) {}
  }

  /** Blocks written for file `i` belong to no other node. */
  lemma FilledSpares(s: State, c: Cert, i: int, s': State, direct': seq<int>, j: int)
    requires TreeInv(s, c) && i in c.place && j in c.place && j != i
    requires |INodeAt(s.img.inodes, i).direct| == DIRECT
    requires Extends(s, INodeAt(s.img.inodes, i).direct, direct') && WroteOnly(s, s', direct', 0) && BitsGrow(s, s', direct')
    ensures SameNode(s, s', j)
  {
    assert NodeOk(s, c, i);
    assert NodeOk(s, c, j);
    var direct, n := INodeAt(s.img.inodes, i).direct, INodeAt(s.img.inodes, j);
    forall k | 0 <= k < DIRECT && n.direct[k] != -1 ensures n.direct[k] !in direct' {
      assert OwnedBy(s, c, n.direct[k], j, k);
      forall m | 0 <= m < |direct'| ensures direct'[m] != n.direct[k] {
        if direct[m] != -1 { assert OwnedBy(s, c, direct[m], i, m); }
      }
    }
  }

  /** After a failed write the tree is the same; only the text of the file itself may have changed. */
  lemma WriteFailKeeps(s: State, c: Cert, i: int, s': State, direct': seq<int>)
    requires TreeInv(s, c) && i in c.place && !IsDir(INodeAt(s.img.inodes, i))
    requires |INodeAt(s.img.inodes, i).direct| == DIRECT
    requires Extends(s, INodeAt(s.img.inodes, i).direct, direct') && WroteOnly(s, s', direct', 0) && BitsGrow(s, s', direct')
    ensures TreeInv(s', c)
    ensures forall j :: j in c.place && j != i ==> ViewOf(s'.img, j) == ViewOf(s.img, j)
  {
    forall j | j in c.place
      ensures NodeOk(s', c, j) && (j != i ==> SameNode(s, s', j) && ViewOf(s'.img, j) == ViewOf(s.img, j))
    {
      assert NodeOk(s, c, j);
      if j == i {
        FileStays(s, c, i, s', c, INodeAt(s.img.inodes, i));
      } else {
        FilledSpares(s, c, i, s', direct', j);
        NodeFrame(s, c, s', c, j);
        ViewFrame(s, c, s', j);
      }
    }
    forall b | b in c.owner && c.owner[b].0 == i ensures OwnerOk(s', c, b) {
      assert OwnerOk(s, c, b);
    }
    RestKeeps(s, c, i, s', c);
  }

  /** A file node whose pointers stay put needs nothing from the block contents. */
  lemma FileStays(s: State, c: Cert, i: int, s': State, c': Cert, n: INode)
    requires NodeOk(s, c, i) && n == INodeAt(s.img.inodes, i) && !IsDir(n) && INodeAt(s'.img.inodes, i) == n
    requires i in c'.place && (INodeUsed(s, i) ==> INodeUsed(s', i))
    requires forall x :: Used(s, x) ==> Used(s', x)
    requires forall b :: b in c.owner ==> b in c'.owner && c'.owner[b] == c.owner[b]
    ensures NodeOk(s', c', i)
  {
    forall k | 0 <= k < DIRECT && n.direct[k] != -1 ensures OwnedBy(s', c', n.direct[k], i, k) {
      assert OwnedBy(s, c, n.direct[k], i, k);
    }
  }

  /** Parents and owners carry over when the places stay and only file `i` changed. */
  lemma RestKeeps(s: State, c: Cert, i: int, s': State, c': Cert)
    requires TreeInv(s, c) && i in c.place && !IsDir(INodeAt(s.img.inodes, i)) && !IsDir(INodeAt(s'.img.inodes, i))
    requires c'.place == c.place && c'.maxDepth == c.maxDepth && -1 !in c'.owner
    requires forall j :: j in c.place ==> NodeOk(s', c', j)
    requires forall j :: j in c.place && j != i ==> SameNode(s, s', j)
    requires forall b :: b in c'.owner && c'.owner[b].0 == i ==> OwnerOk(s', c', b)
    requires forall b :: b in c'.owner && c'.owner[b].0 != i ==> b in c.owner && c.owner[b] == c'.owner[b]
    ensures TreeInv(s', c')
  {
    forall j | j in c.place && j != ROOT ensures ParentOk(s', c', j) {
      assert ParentOk(s, c, j);
      ParentFrame(s, c, s', c', j);
    }
    forall b | b in c'.owner && c'.owner[b].0 != i ensures OwnerOk(s', c', b) {
      assert OwnerOk(s, c, b);
    }
    assert SameNode(s, s', ROOT);
  }

  /** The owners of the grown file agree with those recorded before. */
  lemma OwnMapAgrees(s: State, c: Cert, i: int, direct': seq<int>)
    requires TreeInv(s, c) && i in c.place && |INodeAt(s.img.inodes, i).direct| == DIRECT
    requires Extends(s, INodeAt(s.img.inodes, i).direct, direct')
    requires forall j, k :: 0 <= j < k < |direct'| && direct'[j] != -1 ==> direct'[j] != direct'[k]
    ensures forall b :: b in c.owner && b in OwnMap(i, direct') ==> OwnMap(i, direct')[b] == c.owner[b]
    ensures forall b :: b in c.owner && c.owner[b].0 == i ==> b in OwnMap(i, direct')
  {
    assert NodeOk(s, c, i);
    var direct := INodeAt(s.img.inodes, i).direct;
    forall k | 0 <= k < DIRECT && direct'[k] != -1 && direct'[k] in c.owner
      ensures c.owner[direct'[k]] == (i, k)
    {
      OwnedUsed(s, c, direct'[k]);
      if direct[k] != -1 { assert OwnedBy(s, c, direct[k], i, k); }
    }
    forall b | b in c.owner && c.owner[b].0 == i ensures b in OwnMap(i, direct') {
      assert OwnerOk(s, c, b);
      assert direct'[c.owner[b].1] == b;
    }
  }

  /** The state WriteFile ends in once every piece is stored. */
  function WrittenState(s1: State, n: INode, i: int, buf: seq<char>, direct: seq<int>): State {
    WriteINode(s1, i, n.(direct := direct, size := StrLen(buf)))
  }

  /** `c'` is `c` with file `i` owning exactly the blocks of `direct`. */
  ghost predicate OwnsNow(c: Cert, c': Cert, i: int, direct: seq<int>) {
    match c'
    case Cert(place, owner, maxDepth) =>
      && place == c.place && maxDepth == c.maxDepth && -1 !in owner
      && (forall b :: b in c.owner ==> b in owner && owner[b] == c.owner[b])
      && (forall b :: b in owner && owner[b].0 != i ==> b in c.owner)
      && (forall b :: b in owner && owner[b].0 == i ==> 0 <= owner[b].1 < |direct| && direct[owner[b].1] == b)
      && (forall k :: 0 <= k < |direct| && direct[k] != -1 ==> direct[k] in owner && owner[direct[k]] == (i, k))
  }

  lemma GrowCertOwns(s: State, c: Cert, i: int, direct': seq<int>) returns (c': Cert)
    requires TreeInv(s, c) && i in c.place && |INodeAt(s.img.inodes, i).direct| == DIRECT
    requires Extends(s, INodeAt(s.img.inodes, i).direct, direct')
    requires forall j, k :: 0 <= j < k < |direct'| && direct'[j] != -1 ==> direct'[j] != direct'[k]
    ensures OwnsNow(c, c', i, direct')
  {
    hide NodeOk, ParentOk, OwnerOk, Extends, OwnMap;
    OwnMapAgrees(s, c, i, direct');
    var own := OwnMap(i, direct');
    c' := Cert(c.place, c.owner + own, c.maxDepth);
    assert forall b :: b in c'.owner && c'.owner[b].0 == i ==> b in own && c'.owner[b] == own[b];
  }

  lemma WrittenOther(s: State, c: Cert, c': Cert, i: int, buf: seq<char>, s1: State, direct': seq<int>, j: int)
    requires TreeInv(s, c) && i in c.place && TextBuffer(buf)
    requires |INodeAt(s.img.inodes, i).direct| == |direct'| == DIRECT
    requires Filled(s, buf, INodeAt(s.img.inodes, i).direct, 0, s1, direct', true)
    requires OwnsNow(c, c', i, direct') && j in c.place && j != i
    ensures
      var s' := WrittenState(s1, INodeAt(s.img.inodes, i), i, buf, direct');
      NodeOk(s', c', j) && SameNode(s, s', j) && ViewOf(s'.img, j) == ViewOf(s.img, j)
  {
    hide TreeInv;
    var s' := WrittenState(s1, INodeAt(s.img.inodes, i), i, buf, direct');
    FilledSpares(s, c, i, s1, direct', j);
    assert SameNode(s, s', j);
    Reached(s, c, j);
    NodeFrame(s, c, s', c', j);
    ViewFrame(s, c, s', j);
  }

  lemma WrittenView(s1: State, n: INode, i: int, buf: seq<char>, direct': seq<int>)
    requires TextBuffer(buf) && |direct'| == DIRECT && !IsDir(n) && Stored(s1.img.blocks, buf, direct', 0)
    ensures ViewOf(WrittenState(s1, n, i, buf, direct').img, i) == FileView(AttrOf(n), buf[..StrLen(buf)])
  {
    StoredReads(s1.img.blocks, buf, direct');
  }

  /** A successful write keeps the tree and leaves every other node alone. */
  lemma WriteOkKeeps(s: State, c: Cert, c': Cert, i: int, buf: seq<char>, s1: State, direct': seq<int>)
    requires TreeInv(s, c) && i in c.place && !IsDir(INodeAt(s.img.inodes, i)) && TextBuffer(buf)
    requires |INodeAt(s.img.inodes, i).direct| == |direct'| == DIRECT
    requires Filled(s, buf, INodeAt(s.img.inodes, i).direct, 0, s1, direct', true)
    requires OwnsNow(c, c', i, direct')
    ensures
      var s' := WrittenState(s1, INodeAt(s.img.inodes, i), i, buf, direct');
      && TreeInv(s', c')
      && (forall j :: j in c.place && j != i ==> ViewOf(s'.img, j) == ViewOf(s.img, j))
  {
    var s' := WrittenState(s1, INodeAt(s.img.inodes, i), i, buf, direct');
    GrownFileOk(s, c, c', i, buf, s1, direct');
    forall j | j in c.place && j != i
      ensures NodeOk(s', c', j) && SameNode(s, s', j) && ViewOf(s'.img, j) == ViewOf(s.img, j)
    {
      WrittenOther(s, c, c', i, buf, s1, direct', j);
    }
    assert forall b :: b in c'.owner && c'.owner[b].0 == i ==> OwnerOk(s', c', b);
    RestKeeps(s, c, i, s', c');
  }

  lemma GrownFileOk(s: State, c: Cert, c': Cert, i: int, buf: seq<char>, s1: State, direct': seq<int>)
    requires TreeInv(s, c) && i in c.place && !IsDir(INodeAt(s.img.inodes, i)) && TextBuffer(buf)
    requires |INodeAt(s.img.inodes, i).direct| == |direct'| == DIRECT
    requires Filled(s, buf, INodeAt(s.img.inodes, i).direct, 0, s1, direct', true)
    requires OwnsNow(c, c', i, direct')
    ensures NodeOk(WrittenState(s1, INodeAt(s.img.inodes, i), i, buf, direct'), c', i)
  {
    var s' := WrittenState(s1, INodeAt(s.img.inodes, i), i, buf, direct');
    assert NodeOk(s, c, i);
    StoredCovers(s1.img.blocks, buf, direct');
    forall k | 0 <= k < DIRECT && direct'[k] != -1 ensures OwnedBy(s', c', direct'[k], i, k) {
      assert Used(s1, direct'[k]);
    }
  }

  lemma GrownLeakFree(s: State, c: Cert, c': Cert, i: int, s': State, direct': seq<int>)
    requires OwnsNow(c, c', i, direct') && BitsGrow(s, s', direct')
    requires forall k :: 0 <= k < |direct'| && direct'[k] != -1 ==> Used(s', direct'[k])
    ensures LeakFree(s, c) ==> LeakFree(s', c')
  {
  }

  /** File `i` reads back as `text`, with its attributes, and nothing leaked. */
  ghost predicate FileWritten(s: State, s': State, c: Cert, c': Cert, i: int, text: string) {
    match INodeAt(s.img.inodes, i)
    case n => ViewOf(s'.img, i) == FileView(AttrOf(n), text) && (LeakFree(s, c) ==> LeakFree(s', c'))
  }

  lemma WriteOkText(s: State, c: Cert, c': Cert, i: int, buf: seq<char>, s1: State, direct': seq<int>)
    requires TextBuffer(buf) && !IsDir(INodeAt(s.img.inodes, i))
    requires |INodeAt(s.img.inodes, i).direct| == |direct'| == DIRECT
    requires Filled(s, buf, INodeAt(s.img.inodes, i).direct, 0, s1, direct', true)
    requires OwnsNow(c, c', i, direct')
    ensures FileWritten(s, WrittenState(s1, INodeAt(s.img.inodes, i), i, buf, direct'), c, c', i, buf[..StrLen(buf)])
  {
    var n := INodeAt(s.img.inodes, i);
    WrittenView(s1, n, i, buf, direct');
    GrownLeakFree(s, c, c', i, WrittenState(s1, n, i, buf, direct'), direct');
  }

  /**
   WriteFile on any file of the tree, growing, shrinking or overwriting. It keeps
   the allocator's structures. When every piece found a block, the file reads
   back as the text written and no other node changed; when the disk filled up,
   every other node is unchanged and the tree still stands.
   */
  lemma WriteFileKeeps(s: State, c: Cert, i: int, buf: seq<char>) returns (c': Cert)
    requires DiskInv(s) && TreeInv(s, c) && i in c.place && !IsDir(INodeAt(s.img.inodes, i))
    requires |INodeAt(s.img.inodes, i).direct| == DIRECT && TextBuffer(buf)
    ensures
      var n := INodeAt(s.img.inodes, i);
      var s' := WriteFile(s, n, i, buf);
      && DiskInv(s') && TreeInv(s', c') && c'.place == c.place
      && (forall b :: Used(s, b) ==> Used(s', b))
      && (forall j :: j in c.place && j != i ==> ViewOf(s'.img, j) == ViewOf(s.img, j))
      && (Fill(s, buf, n.direct, 0).2 ==> FileWritten(s, s', c, c', i, buf[..StrLen(buf)]))
  {
    var n := INodeAt(s.img.inodes, i);
    FileHeld(s, c, i);
    FillKeeps(s, buf, n.direct, 0);
    var (s1, direct', ok) := Fill(s, buf, n.direct, 0);
    if ok {
      assert NodeOk(s, c, i);
      c' := GrowCertOwns(s, c, i, direct');
      WriteOkKeeps(s, c, c', i, buf, s1, direct');
      WriteOkText(s, c, c', i, buf, s1, direct');
      WriteINodeKeeps(s1, i, n.(direct := direct', size := StrLen(buf)));
      assert WriteFile(s, n, i, buf) == WrittenState(s1, n, i, buf, direct');
    } else {
      c' := c;
      WriteFailKeeps(s, c, i, s1, direct');
      assert WriteFile(s, n, i, buf) == s1;
    }
  }

  /** How many pieces from `k` on have no block yet. */
  function Lacking(direct: seq<int>, len: nat, k: nat): nat
    requires |direct| == DIRECT && k <= DIRECT
    decreases DIRECT - k, direct
  {
    if k == DIRECT || k * BLOCK_SIZE >= len then 0
    else (if direct[k] == -1 then 1 else 0) + Lacking(direct, len, k + 1)
  }

  lemma {:induction false} LackingLater(direct: seq<int>, b: int, len: nat, j: nat, k: nat)
    requires |direct| == DIRECT && j < k <= DIRECT
    ensures Lacking(direct[j := b], len, k) == Lacking(direct, len, k)
    decreases DIRECT - k
  {
    if k < DIRECT { LackingLater(direct, b, len, j, k + 1); }
  }

  /** The pieces find room exactly when as many blocks are free as pieces lack one. */
  lemma {:induction false} FillSucceedsIff(s: State, buf: seq<char>, direct: seq<int>, k: nat)
    requires DiskInv(s) && |direct| == DIRECT && TextBuffer(buf) && k <= DIRECT && Held(s, direct)
    requires |s.super.stack| == GROUP
    ensures Fill(s, buf, direct, k).2 <==> Lacking(direct, StrLen(buf), k) <= s.super.freeBlocks
    decreases DIRECT - k
  {
    hide Fill, AllocBlock, StrLen, Held, DiskInv;
    FillTurn(s, buf, direct, k);
    if k * BLOCK_SIZE < StrLen(buf) {
      var (s1, b) := if direct[k] == -1 then AllocBlock(s) else (s, direct[k]);
      FillBlock(s, buf, direct, k);
      if direct[k] == -1 { GrownBlock(s); }
      LackingLater(direct, b, StrLen(buf), k, k + 1);
      if b != -1 {
        FillStep(s, s1, buf, direct, k, b);
        FillSucceedsIff(WriteBlock(s1, b, Bytes(Chunk(buf, k))), buf, direct[k := b], k + 1);
      }
    }
  }

  // ---------------------------------------------------------------------
  // Reading
  // ---------------------------------------------------------------------

  /** A pointer the text needs is missing. */
  predicate MissingBlock(n: INode)
    requires |n.direct| == DIRECT
  {
    exists k :: 0 <= k < DIRECT && k * BLOCK_SIZE < n.size && n.direct[k] == -1
  }

  function FileText(blocks: map<int, Block>, n: INode): string {
    if IsDir(n) || n.size > MAX_FILE || |n.direct| != DIRECT || MissingBlock(n) then ""
    else Content(blocks, n.direct, n.size)
  }

  lemma ContentPiece(blocks: map<int, Block>, direct: seq<int>, size: nat, k: nat)
    requires |direct| == DIRECT && size <= MAX_FILE && k < DIRECT && k * BLOCK_SIZE < size
    ensures
      var upto := if (k + 1) * BLOCK_SIZE < size then (k + 1) * BLOCK_SIZE else size;
      Content(blocks, direct, size)[..upto]
        == Content(blocks, direct, size)[..k * BLOCK_SIZE] + BytesAt(blocks, direct[k])[..upto - k * BLOCK_SIZE]
  {
    var upto := if (k + 1) * BLOCK_SIZE < size then (k + 1) * BLOCK_SIZE else size;
    var all, piece := Content(blocks, direct, size), BytesAt(blocks, direct[k]);
    forall p | k * BLOCK_SIZE <= p < upto ensures all[p] == piece[p - k * BLOCK_SIZE] {
      assert p / BLOCK_SIZE == k && p % BLOCK_SIZE == p - k * BLOCK_SIZE;
    }
  }

  /** readFileContent: block after block until nothing remains. */
  method ReadFileContent(blocks: map<int, Block>, n: INode) returns (content: string)
    ensures content == FileText(blocks, n)
  {
    if IsDir(n) || n.size > MAX_FILE || |n.direct| != DIRECT {
      return "";
    }
    content := "";
    var remaining := n.size;
    var k := 0;
    while k < DIRECT && remaining > 0
      invariant 0 <= k <= DIRECT && 0 <= remaining <= n.size
      invariant remaining > 0 ==> n.size - remaining == k * BLOCK_SIZE
      invariant content == Content(blocks, n.direct, n.size)[..n.size - remaining]
      invariant forall q :: 0 <= q < k && q * BLOCK_SIZE < n.size ==> n.direct[q] != -1
      invariant remaining == 0 ==> n.size <= k * BLOCK_SIZE
    {
      if n.direct[k] == -1 {
        assert MissingBlock(n);
        return "";
      }
      ContentPiece(blocks, n.direct, n.size, k);
      var piece := BytesAt(blocks, n.direct[k]);
      var chunk := if remaining < BLOCK_SIZE then remaining else BLOCK_SIZE;
      content := content + piece[..chunk];
      remaining := remaining - chunk;
      k := k + 1;
    }
    assert content == Content(blocks, n.direct, n.size);
  }

  /** On a file of the tree the text read is the text seen. */
  lemma FileTextIsView(s: State, c: Cert, i: int)
    requires TreeInv(s, c) && i in c.place && !IsDir(INodeAt(s.img.inodes, i))
    ensures ViewOf(s.img, i) == FileView(AttrOf(INodeAt(s.img.inodes, i)), FileText(s.img.blocks, INodeAt(s.img.inodes, i)))
    ensures |FileText(s.img.blocks, INodeAt(s.img.inodes, i))| == INodeAt(s.img.inodes, i).size
  {
    assert NodeOk(s, c, i);
  }
}
