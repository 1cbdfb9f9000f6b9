/** Blocks as the 128 words that the log and the disk store, and back. */
module FsEncode {
  import opened FsState
  import opened FsImage
  import RedoLog

  // ---- words of a block ----

  function Num(bits: seq<bool>): nat {
    if bits == [] then 0 else (if bits[0] then 1 else 0) + 2 * Num(bits[1..])
  }

  /** Word w of an inode block: 16 words per inode, the third its size, the rest its addresses.
      The type and link-count words are not modelled and are 0. */
  function InodeWord(xs: seq<Inode>, w: nat): nat {
    var x, y := w / 16, w % 16;
    if x >= |xs| || y < 2 then 0
    else if y == 2 then xs[x].size
    else if y - 3 < |xs[x].addrs| then xs[x].addrs[y - 3]
    else 0
  }

  function WordOf(im: Image, w: nat): nat
    requires w < NINDIRECT
  {
    match im
    case Bits(bs) => Num(Part(bs, w, 32))
    case Inodes(xs) => InodeWord(xs, w)
    case Bytes(b) => Word(b, w)
  }

  function ToWords(im: Image): (r: RedoLog.Block)
    ensures forall w :: 0 <= w < NINDIRECT ==> r[w] == WordOf(im, w)
  {
    seq(NINDIRECT, w requires 0 <= w < NINDIRECT => WordOf(im, w))
  }

  /** The disk that holds fs. */
  function Enc(fs: Fs): (d: RedoLog.Disk)
    ensures |d| == |fs.blk| && forall b :: 0 <= b < |d| ==> d[b] == ToWords(ImageOf(fs, b))
  {
    seq(|fs.blk|, b requires 0 <= b < |fs.blk| => ToWords(ImageOf(fs, b)))
  }

  // ---- the words determine the block ----

  lemma {:induction false} NumInjective(x: seq<bool>, y: seq<bool>)
    requires |x| == |y| && Num(x) == Num(y)
    ensures x == y
  {
    if x != [] {
      NumInjective(x[1..], y[1..]);
      assert x == [x[0]] + x[1..] && y == [y[0]] + y[1..];
    }
  }

  lemma BitsFaithful(x: seq<bool>, y: seq<bool>)
    requires |x| == |y| <= 32 * NINDIRECT && ToWords(Bits(x)) == ToWords(Bits(y))
    ensures x == y
  {
    hide Num, Part;
    forall j | 0 <= j < |x| ensures x[j] == y[j] {
      var w := j / 32;
      assert ToWords(Bits(x))[w] == WordOf(Bits(x), w) && ToWords(Bits(y))[w] == WordOf(Bits(y), w);
      NumInjective(Part(x, w, 32), Part(y, w, 32));
      assert Part(x, w, 32)[j - w * 32] == x[j] && Part(y, w, 32)[j - w * 32] == y[j];
    }
  }

  lemma InodesFaithful(x: seq<Inode>, y: seq<Inode>)
    requires |x| == |y| <= IPB && ToWords(Inodes(x)) == ToWords(Inodes(y))
    requires forall k :: 0 <= k < |x| ==> |x[k].addrs| == |y[k].addrs| == NDIRECT + 1
    ensures x == y
  {
    forall k | 0 <= k < |x| ensures x[k] == y[k] {
      InodeSize(x, y, k);
      forall j | 0 <= j <= NDIRECT ensures x[k].addrs[j] == y[k].addrs[j] {
        InodeAddr(x, y, k, j);
      }
      assert x[k].addrs == y[k].addrs;
    }
  }

  lemma InodeSize(x: seq<Inode>, y: seq<Inode>, k: nat)
    requires |x| == |y| <= IPB && ToWords(Inodes(x)) == ToWords(Inodes(y)) && k < |x|
    ensures x[k].size == y[k].size
  {
    var w := k * 16 + 2;
    assert w / 16 == k && w % 16 == 2;
    assert ToWords(Inodes(x))[w] == InodeWord(x, w) && ToWords(Inodes(y))[w] == InodeWord(y, w);
  }

  lemma InodeAddr(x: seq<Inode>, y: seq<Inode>, k: nat, j: nat)
    requires |x| == |y| <= IPB && ToWords(Inodes(x)) == ToWords(Inodes(y)) && k < |x|
    requires |x[k].addrs| == |y[k].addrs| == NDIRECT + 1 && j <= NDIRECT
    ensures x[k].addrs[j] == y[k].addrs[j]
  {
    var w := k * 16 + 3 + j;
    assert w / 16 == k && w % 16 == 3 + j;
    assert ToWords(Inodes(x))[w] == InodeWord(x, w) && ToWords(Inodes(y))[w] == InodeWord(y, w);
  }

  lemma BytesFaithful(x: Block, y: Block)
    requires ToWords(Bytes(x)) == ToWords(Bytes(y))
    ensures x == y
  {
    hide Word;
    forall k | 0 <= k < BSIZE ensures x[k] == y[k] {
      var w := k / 4;
      assert ToWords(Bytes(x))[w] == Word(x, w) && ToWords(Bytes(y))[w] == Word(y, w);
      WordBytes(x, y, w);
      assert k == 4 * w || k == 4 * w + 1 || k == 4 * w + 2 || k == 4 * w + 3;
    }
  }

  lemma WordBytes(x: Block, y: Block, w: nat)
    requires w < NINDIRECT && Word(x, w) == Word(y, w)
    ensures x[4 * w] == y[4 * w] && x[4 * w + 1] == y[4 * w + 1]
    ensures x[4 * w + 2] == y[4 * w + 2] && x[4 * w + 3] == y[4 * w + 3]
  {
    SameDigits(x[4 * w], x[4 * w + 1], x[4 * w + 2], x[4 * w + 3], y[4 * w], y[4 * w + 1], y[4 * w + 2], y[4 * w + 3]);
  }

  lemma SameDigits(a: int, b: int, c: int, d: int, e: int, f: int, g: int, h: int)
    requires 0 <= a < 256 && 0 <= b < 256 && 0 <= c < 256 && 0 <= d < 256
    requires 0 <= e < 256 && 0 <= f < 256 && 0 <= g < 256 && 0 <= h < 256
    requires a + 256 * b + 65536 * c + 16777216 * d == e + 256 * f + 65536 * g + 16777216 * h
    ensures a == e && b == f && c == g && d == h
  {
  }
}
