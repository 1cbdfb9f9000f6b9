/** What the blocks of the disk hold: bitmap blocks, inode blocks and data blocks.  Every block
    that a write changes is passed to log_write. */
module FsImage {
  import opened Prelude
  import opened FsState
  import opened FsBlocks
  import opened FsContent
  import opened FsTrunc

  datatype Image = Bits(bits: seq<bool>) | Inodes(inodes: seq<Inode>) | Bytes(bytes: Block)

  function BitmapBlocks(fs: Fs): nat {
    (|fs.used| + BPB - 1) / BPB
  }

  function InodeBlocks(fs: Fs): nat {
    (|fs.dino| + IPB - 1) / IPB
  }

  predicate InBitmap(fs: Fs, b: nat) {
    fs.sb.bmapstart <= b < fs.sb.bmapstart + BitmapBlocks(fs)
  }

  predicate InInodes(fs: Fs, b: nat) {
    fs.sb.inodestart <= b < fs.sb.inodestart + InodeBlocks(fs)
  }

  /** Part k, of n elements, of s. */
  function Part<T>(s: seq<T>, k: nat, n: nat): (r: seq<T>)
    ensures |r| == Min(k * n + n, |s|) - Min(k * n, |s|)
    ensures forall j :: 0 <= j < |r| ==> k * n + j < |s| && r[j] == s[k * n + j]
  {
    s[Min(k * n, |s|)..Min(k * n + n, |s|)]
  }

  /** The contents of block b. */
  function ImageOf(fs: Fs, b: nat): Image
    requires b < |fs.blk|
  {
    if InBitmap(fs, b) then Bits(Part(fs.used, b - fs.sb.bmapstart, BPB))
    else if InInodes(fs, b) then Inodes(Part(fs.dino, b - fs.sb.inodestart, IPB))
    else Bytes(fs.blk[b])
  }

  predicate SameSizes(fs: Fs, f: Fs) {
    f.sb == fs.sb && |f.used| == |fs.used| && |f.blk| == |fs.blk| && |f.dino| == |fs.dino|
  }

  /** From fs to f, the log grew and names every block whose contents changed. */
  ghost predicate ChangesLogged(fs: Fs, f: Fs) {
    && SameSizes(fs, f) && |fs.log| <= |f.log| && f.log[..|fs.log|] == fs.log
    && forall b :: 0 <= b < |fs.blk| && ImageOf(f, b) != ImageOf(fs, b) ==> b in f.log[|fs.log|..]
  }

  lemma ChangesTrans(fs: Fs, f: Fs, g: Fs)
    requires ChangesLogged(fs, f) && ChangesLogged(f, g)
    ensures ChangesLogged(fs, g)
  {
    hide ImageOf;
    assert g.log[..|fs.log|] == g.log[..|f.log|][..|fs.log|];
    forall b | 0 <= b < |fs.blk| && ImageOf(g, b) != ImageOf(fs, b) ensures b in g.log[|fs.log|..] {
      if ImageOf(f, b) != ImageOf(fs, b) {
        var k :| 0 <= k < |f.log| - |fs.log| && f.log[|fs.log|..][k] == b;
        assert g.log[..|f.log|][|fs.log| + k] == b;
        assert g.log[|fs.log|..][k] == b;
      } else {
        var k :| 0 <= k < |g.log| - |f.log| && g.log[|f.log|..][k] == b;
        assert g.log[|fs.log|..][|f.log| - |fs.log| + k] == b;
      }
    }
  }

  lemma PartSame<T>(s: seq<T>, x: nat, v: T, k: nat, n: nat)
    requires (n == BPB || n == IPB) && x < |s| && k != x / n
    ensures Part(s[x := v], k, n) == Part(s, k, n)
  {
    var a, b := Part(s[x := v], k, n), Part(s, k, n);
    forall j | 0 <= j < |a| ensures a[j] == b[j] {
      PartIndex(k, j, n);
    }
  }

  lemma PartIndex(k: nat, j: nat, n: nat)
    requires (n == BPB || n == IPB) && j < n
    ensures (k * n + j) / n == k
  {
    if n == BPB {
      assert (k * 4096 + j) / 4096 == k;
    } else {
      assert (k * 8 + j) / 8 == k;
    }
  }

  // ---- each step of a write ----

  lemma BlockChange(fs: Fs, f: Fs, a: nat, v: Block)
    requires a < |fs.blk| && f == fs.(blk := fs.blk[a := v], ino := f.ino, log := fs.log + [a])
    ensures ChangesLogged(fs, f)
  {
    hide Part;
    assert f.log[|fs.log|..] == [a];
  }

  lemma InodeChange(fs: Fs, f: Fs, i: nat, v: Inode)
    requires i < |fs.dino| && f == fs.(dino := fs.dino[i := v], ino := f.ino, log := fs.log + [IBlock(fs.sb, i)])
    ensures ChangesLogged(fs, f)
  {
    hide Part;
    assert f.log[|fs.log|..] == [IBlock(fs.sb, i)];
    forall b | 0 <= b < |fs.blk| && b != IBlock(fs.sb, i) ensures ImageOf(f, b) == ImageOf(fs, b) {
      if InInodes(fs, b) {
        PartSame(fs.dino, i, v, b - fs.sb.inodestart, IPB);
      }
    }
  }

  lemma BitChange(fs: Fs, f: Fs, x: nat, v: bool)
    requires x < |fs.used| && f == fs.(used := fs.used[x := v], ino := f.ino, log := fs.log + [BBlock(fs.sb, x)])
    ensures ChangesLogged(fs, f)
  {
    hide Part;
    assert f.log[|fs.log|..] == [BBlock(fs.sb, x)];
    forall b | 0 <= b < |fs.blk| && b != BBlock(fs.sb, x) ensures ImageOf(f, b) == ImageOf(fs, b) {
      if InBitmap(fs, b) {
        PartSame(fs.used, x, v, b - fs.sb.bmapstart, BPB);
      }
    }
  }

  lemma NoChange(fs: Fs, f: Fs)
    requires f == fs.(ino := f.ino)
    ensures ChangesLogged(fs, f)
  {
    assert f.log[|fs.log|..] == [];
  }

  lemma BallocLogged(fs: Fs)
    requires Shaped(fs) && Balloc(fs).Some?
    ensures ChangesLogged(fs, Balloc(fs).value.0)
  {
    hide ChangesLogged;
    var (f, b) := Balloc(fs).value;
    var mid := fs.(used := fs.used[b := true], log := fs.log + [BBlock(fs.sb, b)]);
    BitChange(fs, mid, b, true);
    assert fs.log + [BBlock(fs.sb, b)] + [b] == fs.log + [BBlock(fs.sb, b), b];
    BlockChange(mid, f, b, ZeroBlock());
    ChangesTrans(fs, mid, f);
  }

  lemma OwnAddrLogged(fs: Fs, i: nat, k: nat)
    requires Shaped(fs) && i < |fs.ino| && k <= NDIRECT && OwnAddr(fs, i, k).Some?
    ensures ChangesLogged(fs, OwnAddr(fs, i, k).value)
  {
    hide ChangesLogged, Balloc;
    NoChange(fs, fs);
    if fs.ino[i].addrs[k] == 0 {
      BallocLogged(fs);
      var (f, b) := Balloc(fs).value;
      NoChange(f, SetAddr(f, i, k, b));
      ChangesTrans(fs, f, SetAddr(f, i, k, b));
    }
  }

  lemma OwnEntryLogged(fs: Fs, a: nat, j: nat)
    requires Shaped(fs) && j < NINDIRECT && OwnEntry(fs, a, j).Some?
    ensures ChangesLogged(fs, OwnEntry(fs, a, j).value.0)
  {
    hide ChangesLogged, Balloc, Word, PutWord;
    NoChange(fs, fs);
    if Word(fs.blk[a], j) == 0 {
      BallocLogged(fs);
      var (f, b) := Balloc(fs).value;
      var g := OwnEntry(fs, a, j).value.0;
      BlockChange(f, g, a, g.blk[a]);
      ChangesTrans(fs, f, g);
    }
  }

  lemma BmapLogged(fs: Fs, i: nat, bn: nat)
    requires Shaped(fs) && i < |fs.ino| && Bmap(fs, i, bn).Some?
    ensures ChangesLogged(fs, Bmap(fs, i, bn).value.0)
  {
    hide ChangesLogged, OwnAddr, OwnEntry;
    if bn < NDIRECT {
      OwnAddrLogged(fs, i, bn);
    } else {
      OwnAddrLogged(fs, i, NDIRECT);
      var f := OwnAddr(fs, i, NDIRECT).value;
      OwnEntryLogged(f, f.ino[i].addrs[NDIRECT], bn - NDIRECT);
      ChangesTrans(fs, f, Bmap(fs, i, bn).value.0);
    }
  }

  lemma RoundLogged(fs: Fs, i: nat, off: nat, bs: seq<Byte>)
    requires Shaped(fs) && i < |fs.ino| && off % BSIZE + |bs| <= BSIZE && WriteRound(fs, i, off, bs).Some?
    ensures ChangesLogged(fs, WriteRound(fs, i, off, bs).value)
  {
    hide ChangesLogged, Bmap, SpliceBlock;
    BmapLogged(fs, i, off / BSIZE);
    var (f, a) := Bmap(fs, i, off / BSIZE).value;
    var g := WriteRound(fs, i, off, bs).value;
    BlockChange(f, g, a, g.blk[a]);
    ChangesTrans(fs, f, g);
  }

  lemma {:induction false} LoopLogged(fs: Fs, i: nat, off: nat, src: seq<Byte>)
    requires Shaped(fs) && i < |fs.ino| && WriteLoop(fs, i, off, src).Some?
    ensures ChangesLogged(fs, WriteLoop(fs, i, off, src).value)
    decreases |src|
  {
    hide ChangesLogged, WriteRound;
    if src == [] {
      NoChange(fs, fs);
    } else {
      var m := Chunk(off, |src|);
      RoundLogged(fs, i, off, src[..m]);
      var f := WriteRound(fs, i, off, src[..m]).value;
      LoopLogged(f, i, off + m, src[m..]);
      ChangesTrans(fs, f, WriteLoop(f, i, off + m, src[m..]).value);
    }
  }

  /** Write-ahead: writei passes every block it changes to log_write. */
  lemma WriteiLogged(fs: Fs, i: nat, off: nat, src: seq<Byte>)
    requires Shaped(fs) && i < |fs.ino| == |fs.dino| && Writei(fs, i, off, src).Some?
    ensures ChangesLogged(fs, Writei(fs, i, off, src).value.0)
  {
    hide ChangesLogged, WriteLoop, WriteAllowed;
    NoChange(fs, fs);
    if WriteAllowed(fs, i, off, |src|) {
      LoopLogged(fs, i, off, src);
      var f, g := WriteLoop(fs, i, off, src).value, Writei(fs, i, off, src).value.0;
      if g != f {
        var mid := SetSize(f, i, off + |src|);
        NoChange(f, mid);
        InodeChange(mid, g, i, mid.ino[i]);
        ChangesTrans(fs, f, mid);
        ChangesTrans(fs, mid, g);
      }
    }
  }

  // ---- truncation ----

  lemma {:induction false} FreeAllLogged(fs: Fs, bs: seq<nat>)
    requires FreeAll(fs, bs).Some?
    ensures ChangesLogged(fs, FreeAll(fs, bs).value)
    decreases |bs|
  {
    hide ChangesLogged;
    if bs == [] {
      NoChange(fs, fs);
    } else {
      var f := Bfree(fs, bs[0]).value;
      BitChange(fs, f, bs[0], false);
      FreeAllLogged(f, bs[1..]);
      ChangesTrans(fs, f, FreeAll(f, bs[1..]).value);
    }
  }

  /** So does itrunc. */
  lemma ItruncLogged(fs: Fs, i: nat)
    requires Shaped(fs) && i < |fs.ino| == |fs.dino| && Itrunc(fs, i).Some?
    ensures ChangesLogged(fs, Itrunc(fs, i).value)
  {
    hide ChangesLogged, FreeAll, FileBlocks;
    FreeAllLogged(fs, FileBlocks(fs, i));
    var f := FreeAll(fs, FileBlocks(fs, i)).value;
    var mid, g := ClearInode(f, i), Itrunc(fs, i).value;
    NoChange(f, mid);
    InodeChange(mid, g, i, mid.ino[i]);
    ChangesTrans(fs, f, mid);
    ChangesTrans(fs, mid, g);
  }
}
