/**
 The scan over a directory's slots at the head of MakeDir and Create.
 */
module SlotScan {
  import opened Disk
  import opened Tree
  import opened Directories

  /**
   Slots before `t` are scanned: the position found is the first hole among them,
   and the name occurs in none of them. With `every` the recorded hole counts
   as an occurrence of the empty name, as in MakeDir.
   */
  ghost predicate Scanned(slots: seq<Entry>, direct: seq<int>, name: string, t: int, posI: int, posJ: int, every: bool)
    requires |slots| == SLOTS && |direct| == DIRECT
  {
    match slots
    case l =>
      var h := posI * PER_BLOCK + posJ;
      && (posI == -1 ==> forall u :: 0 <= u < t && u < SLOTS ==> l[u].name != "")
      && (posI != -1 ==> 0 <= h < t && h < SLOTS && l[h].name == "" && forall u :: 0 <= u < h ==> l[u].name != "")
      && (forall u :: 0 <= u < t && u < SLOTS && direct[u / PER_BLOCK] != -1 && (every || posI == -1 || u != h) ==> l[u].name != name)
  }

  lemma ScanStart(slots: seq<Entry>, direct: seq<int>, name: string, every: bool)
    requires |slots| == SLOTS && |direct| == DIRECT
    ensures Scanned(slots, direct, name, 0 * PER_BLOCK, -1, -1, every)
  {
  }

  lemma SlotRead(blocks: map<int, Block>, direct: seq<int>, k: nat, j: nat)
    requires |direct| == DIRECT && k < DIRECT && j < PER_BLOCK && direct[k] != -1
    ensures k * PER_BLOCK + j < SLOTS
    ensures Slots(blocks, direct)[k * PER_BLOCK + j] == EntriesAt(blocks, direct[k])[j]
    ensures (k * PER_BLOCK + j) / PER_BLOCK == k
  {
    var t := k * PER_BLOCK + j;
    assert t / PER_BLOCK == k && t % PER_BLOCK == j;
  }

  /** One block absent: sixteen holes, none of which can carry the name. */
  lemma ScanSkip(blocks: map<int, Block>, direct: seq<int>, name: string, k: nat, posI: int, posJ: int, every: bool)
    requires |direct| == DIRECT && k < DIRECT && direct[k] == -1
    requires Scanned(Slots(blocks, direct), direct, name, k * PER_BLOCK, posI, posJ, every)
    ensures Scanned(Slots(blocks, direct), direct, name, (k + 1) * PER_BLOCK,
                    if posI == -1 then k else posI, if posI == -1 then 0 else posJ, every)
  {
    var slots := Slots(blocks, direct);
    forall u | k * PER_BLOCK <= u < (k + 1) * PER_BLOCK ensures u / PER_BLOCK == k && slots[u] == HOLE {
      assert u / PER_BLOCK == k;
    }
  }

  /** One slot read that does not end the scan. */
  lemma ScanStep(slots: seq<Entry>, direct: seq<int>, name: string, k: nat, j: nat, posI: int, posJ: int, every: bool)
    requires |slots| == SLOTS && |direct| == DIRECT && k < DIRECT && j < PER_BLOCK
    requires Scanned(slots, direct, name, k * PER_BLOCK + j, posI, posJ, every)
    requires var hole := posI == -1 && slots[k * PER_BLOCK + j].name == "";
      slots[k * PER_BLOCK + j].name != name || (hole && !every)
    ensures var hole := posI == -1 && slots[k * PER_BLOCK + j].name == "";
      Scanned(slots, direct, name, k * PER_BLOCK + (j + 1), if hole then k else posI, if hole then j else posJ, every)
  {
  }

  /** A match at the slot being read is an occurrence of the name. */
  lemma ScanFound(blocks: map<int, Block>, direct: seq<int>, name: string, k: nat, j: nat, posI: int, posJ: int,
                  every: bool)
    requires |direct| == DIRECT && k < DIRECT && j < PER_BLOCK && direct[k] != -1
    requires Scanned(Slots(blocks, direct), direct, name, k * PER_BLOCK + j, posI, posJ, every)
    requires Slots(blocks, direct)[k * PER_BLOCK + j].name == name && (every || posI != -1 || name != "")
    requires posI == -1 || (0 <= posI < DIRECT && 0 <= posJ < PER_BLOCK)
    ensures Taken(blocks, direct, name, if every then -1 else FirstHole(Slots(blocks, direct), 0))
  {
    var t := k * PER_BLOCK + j;
    assert t / PER_BLOCK == k;
    var slots := Slots(blocks, direct);
    if !every && posI != -1 { assert FirstHole(slots, 0) == posI * PER_BLOCK + posJ; }
  }

  lemma ScanDone(blocks: map<int, Block>, direct: seq<int>, name: string, posI: int, posJ: int, every: bool)
    requires |direct| == DIRECT
    requires Scanned(Slots(blocks, direct), direct, name, SLOTS, posI, posJ, every)
    requires posI == -1 || (0 <= posI < DIRECT && 0 <= posJ < PER_BLOCK)
    ensures
      var h := FirstHole(Slots(blocks, direct), 0);
      && h == (if posI == -1 then SLOTS else posI * PER_BLOCK + posJ)
      && !Taken(blocks, direct, name, if every then -1 else h)
  {
  }

  /**
   The loops over ten blocks and sixteen entries: whether the name is taken, and
   otherwise where the first free slot is. MakeDir (`every`) compares the name
   before it looks for a hole; Create records the first hole without comparing.
   */
  method ScanDirectory(blocks: map<int, Block>, direct: seq<int>, name: string, every: bool)
    returns (taken: bool, posI: int, posJ: int)
    requires |direct| == DIRECT
    ensures taken <==> Taken(blocks, direct, name, if every then -1 else FirstHole(Slots(blocks, direct), 0))
    ensures !taken ==>
      && (posI == -1 || (0 <= posI < DIRECT && 0 <= posJ < PER_BLOCK))
      && FirstHole(Slots(blocks, direct), 0) == if posI == -1 then SLOTS else posI * PER_BLOCK + posJ
  {
    hide Scanned, Taken, FirstHole, Slots;
    taken, posI, posJ := false, -1, -1;
    ScanStart(Slots(blocks, direct), direct, name, every);
    ghost var slots := Slots(blocks, direct);
    for k := 0 to DIRECT
      invariant posI == -1 || (0 <= posI < DIRECT && 0 <= posJ < PER_BLOCK)
      invariant Scanned(slots, direct, name, k * PER_BLOCK, posI, posJ, every)
    {
      if direct[k] == -1 {
        ScanSkip(blocks, direct, name, k, posI, posJ, every);
        if posI == -1 {
          posI, posJ := k, 0;
        }
        continue;
      }
      var dir := EntriesAt(blocks, direct[k]);
      for j := 0 to PER_BLOCK
        invariant posI == -1 || (0 <= posI < DIRECT && 0 <= posJ < PER_BLOCK)
        invariant Scanned(slots, direct, name, k * PER_BLOCK + j, posI, posJ, every)
      {
        SlotRead(blocks, direct, k, j);
        if dir[j].name == name && (every || posI != -1 || dir[j].name != "") {
          ScanFound(blocks, direct, name, k, j, posI, posJ, every);
          taken := true;
          return;
        }
        ScanStep(slots, direct, name, k, j, posI, posJ, every);
        if dir[j].name == "" && posI == -1 {
          posI, posJ := k, j;
        }
      }
    }
    ScanDone(blocks, direct, name, posI, posJ, every);
  }
}
