/** File-system blocks and inodes (fs.h, fs.c): the logical disk that readi, writei, bmap,
    balloc, bfree and itrunc work on. */
module FsState {
  import opened Prelude
  const BSIZE: nat := 512
  const NDIRECT: nat := 12
  const NINDIRECT: nat := 128
  const MAXFILE: nat := 140
  /** Bitmap bits per block, and inodes per block. */
  const BPB: nat := 4096
  const IPB: nat := 8

  type Block = b: seq<Byte> | |b| == BSIZE witness seq(BSIZE, _ => 0)

  /** Size and the NDIRECT + 1 block addresses; 0 means no block. */
  datatype Inode = Inode(size: nat, addrs: seq<nat>)

  /** Where the metadata lies: blocks below `meta` are never allocated. */
  datatype Super = Super(meta: nat, bmapstart: nat, inodestart: nat)

  /** Bitmap, block contents, in-memory inodes, on-disk inodes, and the arguments of log_write since
      the transaction began, in order. */
  datatype Fs = Fs(sb: Super, used: seq<bool>, blk: seq<Block>, ino: seq<Inode>, dino: seq<Inode>, log: seq<nat>)

  /** The log grew, by members of s. */
  ghost predicate Appends(a: seq<nat>, b: seq<nat>, s: set<nat>) {
    |a| <= |b| && b[..|a|] == a && forall k :: |a| <= k < |b| ==> b[k] in s
  }

  lemma AppendsTrans(a: seq<nat>, b: seq<nat>, c: seq<nat>, x: set<nat>, y: set<nat>)
    requires Appends(a, b, x) && Appends(b, c, y)
    ensures Appends(a, c, x + y)
  {
    assert c[..|a|] == c[..|b|][..|a|];
    forall k | |a| <= k < |c| ensures c[k] in x + y {
      assert k < |b| ==> c[k] == c[..|b|][k];
    }
  }

  lemma AppendsMore(a: seq<nat>, b: seq<nat>, x: set<nat>, y: set<nat>)
    requires Appends(a, b, x) && x <= y
    ensures Appends(a, b, y)
  {
  }

  function ZeroBlock(): Block {
    seq(BSIZE, _ => 0)
  }

  // ---- 32-bit little-endian words in a block ----

  function ByteAt(b: Block, k: nat): int
    requires k < BSIZE
  {
    b[k]
  }

  function Word(b: Block, j: nat): nat
    requires j < NINDIRECT
  {
    ByteAt(b, 4 * j) + 256 * ByteAt(b, 4 * j + 1) + 65536 * ByteAt(b, 4 * j + 2) + 16777216 * ByteAt(b, 4 * j + 3)
  }

  function Digit(w: nat, k: nat): Byte
    requires k < 4
  {
    (if k == 0 then w else if k == 1 then w / 256 else if k == 2 then w / 65536 else w / 16777216) % 256
  }

  function PutWord(b: Block, j: nat, w: nat): (r: Block)
    requires j < NINDIRECT && w < UINT
    ensures forall k :: 0 <= k < NINDIRECT ==> Word(r, k) == if k == j then w else Word(b, k)
  {
    DigitsMakeWord(w);
    b[4 * j := Digit(w, 0)][4 * j + 1 := Digit(w, 1)][4 * j + 2 := Digit(w, 2)][4 * j + 3 := Digit(w, 3)]
  }

  lemma DigitsMakeWord(w: nat)
    requires w < UINT
    ensures w == Digit(w, 0) + 256 * (Digit(w, 1) as int) + 65536 * (Digit(w, 2) as int)
                 + 16777216 * (Digit(w, 3) as int)
  {
  }

  lemma ZeroWords(j: nat)
    requires j < NINDIRECT
    ensures Word(ZeroBlock(), j) == 0
  {
  }

  function SpliceBlock(b: Block, o: nat, bs: seq<Byte>): (r: Block)
    requires o + |bs| <= BSIZE
    ensures forall k :: 0 <= k < BSIZE ==> r[k] == if o <= k < o + |bs| then bs[k - o] else b[k]
  {
    b[..o] + bs + b[o + |bs|..]
  }

  // ---- the blocks of a file ----

  /** A place that holds a block address: entry bn of a file, or its indirect block. */
  datatype Slot = Data(i: nat, bn: nat) | Ind(i: nat)

  predicate SlotOk(fs: Fs, s: Slot) {
    s.i < |fs.ino| && (s.Data? ==> s.bn < MAXFILE)
  }

  predicate Shaped(fs: Fs) {
    && |fs.used| == |fs.blk| < UINT && 0 < fs.sb.meta
    && forall i :: 0 <= i < |fs.ino| ==> |fs.ino[i].addrs| == NDIRECT + 1
  }

  /** The address in a slot, 0 if none. */
  function Addr(fs: Fs, s: Slot): nat
    requires Shaped(fs) && SlotOk(fs, s)
  {
    var a := fs.ino[s.i].addrs;
    if s.Ind? then a[NDIRECT]
    else if s.bn < NDIRECT then a[s.bn]
    else if a[NDIRECT] == 0 || a[NDIRECT] >= |fs.blk| then 0
    else Word(fs.blk[a[NDIRECT]], s.bn - NDIRECT)
  }

  /** Addresses are blocks outside the metadata. */
  ghost predicate InRange(fs: Fs)
    requires Shaped(fs)
  {
    forall s :: SlotOk(fs, s) && Addr(fs, s) != 0 ==> fs.sb.meta <= Addr(fs, s) < |fs.blk|
  }

  /** No block is reachable twice. */
  ghost predicate Injective(fs: Fs)
    requires Shaped(fs)
  {
    forall s, t :: SlotOk(fs, s) && SlotOk(fs, t) && Addr(fs, s) == Addr(fs, t) != 0 ==> s == t
  }

  ghost predicate Reached(fs: Fs, b: nat)
    requires Shaped(fs)
  {
    exists s :: SlotOk(fs, s) && Addr(fs, s) == b
  }

  /** The bitmap marks exactly the metadata and the reachable blocks. */
  ghost predicate BitmapExact(fs: Fs)
    requires Shaped(fs)
  {
    forall b :: 0 <= b < |fs.used| ==> (fs.used[b] <==> b < fs.sb.meta || Reached(fs, b))
  }

  ghost predicate Conserved(fs: Fs) {
    Shaped(fs) && InRange(fs) && Injective(fs) && BitmapExact(fs)
  }

  /** File i owns exactly its first c blocks, and an indirect block if `ind`. */
  ghost predicate Owns(fs: Fs, i: nat, c: nat, ind: bool)
    requires Shaped(fs) && i < |fs.ino|
  {
    && (forall bn :: 0 <= bn < MAXFILE ==> (Addr(fs, Data(i, bn)) != 0 <==> bn < c))
    && (Addr(fs, Ind(i)) != 0 <==> ind)
  }

  ghost predicate HasBlocks(fs: Fs, i: nat, c: nat)
    requires Shaped(fs) && i < |fs.ino|
  {
    c <= MAXFILE && Owns(fs, i, c, c > NDIRECT)
  }

  /** Blocks, indirect one included, that a file of c blocks occupies. */
  function Total(c: nat): nat {
    if c > NDIRECT then c + 1 else c
  }

  /** Free blocks in the bitmap. */
  function Free(used: seq<bool>): nat {
    if used == [] then 0 else (if used[0] then 0 else 1) + Free(used[1..])
  }

  function NBlocks(size: nat): nat {
    (size + BSIZE - 1) / BSIZE
  }

  /** Between calls: every file has the blocks its size needs, and disk inodes are current. */
  ghost predicate Inv(fs: Fs) {
    && Conserved(fs) && fs.dino == fs.ino
    && forall i :: 0 <= i < |fs.ino| ==> HasBlocks(fs, i, NBlocks(fs.ino[i].size))
  }

  /** Byte k of file i. */
  function FileByte(fs: Fs, i: nat, k: nat): Byte
    requires Shaped(fs) && i < |fs.ino| && k / BSIZE < MAXFILE
  {
    var a := Addr(fs, Data(i, k / BSIZE));
    if a < |fs.blk| then fs.blk[a][k % BSIZE] else 0
  }

  /** The abstract file: a byte sequence of its size. */
  ghost function Content(fs: Fs, i: nat): (c: seq<Byte>)
    requires Inv(fs) && i < |fs.ino|
    ensures |c| == fs.ino[i].size && forall k :: 0 <= k < |c| ==> k / BSIZE < MAXFILE && c[k] == FileByte(fs, i, k)
  {
    assert HasBlocks(fs, i, NBlocks(fs.ino[i].size));
    seq(fs.ino[i].size, k requires 0 <= k < fs.ino[i].size => FileByte(fs, i, k))
  }
}
