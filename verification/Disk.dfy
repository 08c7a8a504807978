/**
 The image file data.img and the in-memory copies kept beside it.

 Addresses are the byte offsets the program itself uses: an inode sits at
 INODE_START + 128*i and a data block at BLOCK_START + 512*i, so the alignment
 and range tests of the source keep their meaning. The contents of a region are
 typed: a data block holds a free-block stack, sixteen directory entries or 512
 characters.
 */
module Disk {
  const BLOCK_SIZE: int := 512
  const INODE_SIZE: int := 128
  const INODE_NUM: int := 640
  const BLOCK_NUM: int := 2048
  /** BLOCKS_PER_GROUP: how many addresses the superblock stack holds. */
  const GROUP: int := 64
  const INODE_START: int := 11776
  const BLOCK_START: int := 93696
  const ROOT: int := INODE_START
  const MAX_NAME: int := 28
  const DIRECT: int := 10
  const PER_BLOCK: int := 16
  const SLOTS: int := 160
  const MAX_FILE: int := 5120
  const UINT32: int := 0x1_0000_0000

  datatype Entry = Entry(name: string, ino: int)

  datatype Block =
    | Stack(link: seq<int>)
    | Entries(entries: seq<Entry>)
    | Bytes(bytes: seq<char>)

  datatype INode = INode(mode: nat, cnt: nat, user: string, group: string,
                         size: nat, direct: seq<int>, indirect: int)

  datatype Super = Super(freeInodes: nat, freeBlocks: nat, leader: int, stack: seq<int>)

  /** Everything that outlives the process. */
  datatype Image = Image(super: Super, inodeBits: seq<bool>, blockBits: seq<bool>,
                         inodes: map<int, INode>, blocks: map<int, Block>)

  /** The image and the superblock and bitmaps held in memory. */
  datatype State = State(super: Super, inodeBits: seq<bool>, blockBits: seq<bool>, img: Image)

  // What a read yields when it does not meet what was last written there: the
  // bytes of a block seen as another type, or whatever lies at an address
  // outside the regions. These constants have no value: every theorem holds
  // whatever such a read returns.
  const STRAY_STACK: Block -> seq<int>
  const STRAY_ENTRIES: Block -> seq<Entry>
  const STRAY_BYTES: Block -> seq<char>
  const STRAY_BLOCK: int -> Block
  const STRAY_INODE: int -> INode

  const HOLE := Entry("", 0)

  predicate IsBlock(a: int) {
    BLOCK_START <= a && (a - BLOCK_START) % BLOCK_SIZE == 0 && (a - BLOCK_START) / BLOCK_SIZE < BLOCK_NUM
  }

  predicate IsINode(a: int) {
    INODE_START <= a && (a - INODE_START) % INODE_SIZE == 0 && (a - INODE_START) / INODE_SIZE < INODE_NUM
  }

  function BlockId(a: int): int { (a - BLOCK_START) / BLOCK_SIZE }

  function BlockAddr(id: int): int { BLOCK_START + id * BLOCK_SIZE }

  function INodeId(a: int): int { (a - INODE_START) / INODE_SIZE }

  function INodeAddr(id: int): int { INODE_START + id * INODE_SIZE }

  function BlockAt(blocks: map<int, Block>, a: int): Block {
    if a in blocks then blocks[a] else STRAY_BLOCK(a)
  }

  function StackAt(blocks: map<int, Block>, a: int): (r: seq<int>)
    ensures |r| == GROUP
  {
    var b := BlockAt(blocks, a);
    if b.Stack? && |b.link| == GROUP then b.link
    else if |STRAY_STACK(b)| == GROUP then STRAY_STACK(b)
    else seq(GROUP, _ => 0)
  }

  function EntriesAt(blocks: map<int, Block>, a: int): (r: seq<Entry>)
    ensures |r| == PER_BLOCK
  {
    var b := BlockAt(blocks, a);
    if b.Entries? && |b.entries| == PER_BLOCK then b.entries
    else if |STRAY_ENTRIES(b)| == PER_BLOCK then STRAY_ENTRIES(b)
    else seq(PER_BLOCK, _ => HOLE)
  }

  function BytesAt(blocks: map<int, Block>, a: int): (r: seq<char>)
    ensures |r| == BLOCK_SIZE
  {
    var b := BlockAt(blocks, a);
    if b.Bytes? && |b.bytes| == BLOCK_SIZE then b.bytes
    else if |STRAY_BYTES(b)| == BLOCK_SIZE then STRAY_BYTES(b)
    else seq(BLOCK_SIZE, _ => '\0')
  }

  function INodeAt(inodes: map<int, INode>, a: int): INode {
    if a in inodes then inodes[a] else STRAY_INODE(a)
  }

  function Zeroed(): Block { Bytes(seq(BLOCK_SIZE, _ => '\0')) }

  /** A bitmap store; a store outside the array is not part of this model. */
  function SetBit(bits: seq<bool>, id: int, v: bool): (r: seq<bool>)
    ensures |r| == |bits|
  {
    if 0 <= id < |bits| then bits[id := v] else bits
  }

  /** Every write to the superblock writes all of it. */
  function SaveSuper(s: State): State { s.(img := s.img.(super := s.super)) }

  /** Memory and image hold the same superblock and bitmaps. */
  predicate Synced(s: State) {
    s.img.super == s.super && s.img.inodeBits == s.inodeBits && s.img.blockBits == s.blockBits
  }
}
