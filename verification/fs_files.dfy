/** Main results about file contents: writei and readi against byte sequences. */
module FsFiles {
  import opened Prelude
  import opened FsState
  import opened FsBlocks
  import opened FsContent

  /** c with src stored at off, extended if src reaches past its end. */
  function Overwrite(c: seq<Byte>, off: nat, src: seq<Byte>): seq<Byte>
    requires off <= |c|
  {
    c[..off] + src + (if off + |src| <= |c| then c[off + |src|..] else [])
  }

  // ---- writei ----

  /** Blocks a write of n bytes at off takes from the free blocks. */
  function BlocksTaken(size: nat, off: nat, n: nat): nat {
    Total(NBlocks(Max(size, off + n))) - Total(NBlocks(size))
  }

  /** 32-bit wrap-around does not let a write through that the bounds forbid. */
  lemma AllowedIff(fs: Fs, i: nat, off: nat, n: nat)
    requires Inv(fs) && i < |fs.ino| && off < UINT && n < UINT
    ensures WriteAllowed(fs, i, off, n) <==> off <= fs.ino[i].size && off + n <= MAXFILE * BSIZE
  {
    assert HasBlocks(fs, i, NBlocks(fs.ino[i].size));
  }

  lemma SizeCount(size: nat, off: nat, n: nat)
    requires off <= size
    ensures off <= NBlocks(size) * BSIZE && CountAfter(NBlocks(size), off, n) == NBlocks(Max(size, off + n))
    ensures size <= NBlocks(size) * BSIZE && NBlocks(size) <= NBlocks(Max(size, off + n))
    ensures off + n <= size ==> NBlocks(Max(size, off + n)) == NBlocks(size)
  {
  }

  lemma InvFacts(fs: Fs, i: nat)
    requires Inv(fs) && i < |fs.ino|
    ensures Shaped(fs) && Conserved(fs) && fs.dino == fs.ino && HasBlocks(fs, i, NBlocks(fs.ino[i].size))
    ensures fs.ino[i].size <= MAXFILE * BSIZE
  {
    assert HasBlocks(fs, i, NBlocks(fs.ino[i].size));
  }

  /** A file whose blocks and bytes did not change has the same content. */
  lemma SameContent(fs: Fs, f: Fs, j: nat)
    requires Inv(fs) && Shaped(f) && j < |fs.ino| == |f.ino| && SameFile(fs, f, j)
    ensures HasBlocks(f, j, NBlocks(f.ino[j].size))
    ensures forall k :: 0 <= k < fs.ino[j].size ==> k / BSIZE < MAXFILE && FileByte(f, j, k) == FileByte(fs, j, k)
  {
    hide Addr, SameEntry, Injective, BitmapExact, FileByte;
    assert HasBlocks(fs, j, NBlocks(fs.ino[j].size));
    forall bn | 0 <= bn < MAXFILE ensures Addr(f, Data(j, bn)) == Addr(fs, Data(j, bn)) {
      assert SameEntry(fs, f, j, bn);
      EntryAddr(fs, f, j, bn);
    }
    forall k | 0 <= k < fs.ino[j].size ensures k / BSIZE < MAXFILE && FileByte(f, j, k) == FileByte(fs, j, k) {
      SizeCount(fs.ino[j].size, 0, 0);
      assert SameEntry(fs, f, j, k / BSIZE);
      SameByte(fs, f, j, NBlocks(fs.ino[j].size), k);
    }
  }

  lemma EntryAddr(fs: Fs, f: Fs, j: nat, bn: nat)
    requires Shaped(fs) && Shaped(f) && j < |fs.ino| && j < |f.ino| && bn < MAXFILE && SameEntry(fs, f, j, bn)
    ensures Addr(f, Data(j, bn)) == Addr(fs, Data(j, bn))
  {
  }

  /** What a write that grew file i's size and updated its disk inode leaves. */
  function Resized(f: Fs, i: nat, size: nat): Fs
    requires i < |f.ino| && i < |f.dino|
  {
    if size > f.ino[i].size then Iupdate(SetSize(f, i, size), i) else f
  }

  lemma ResizedAddrs(f: Fs, i: nat, size: nat)
    requires Shaped(f) && i < |f.ino| == |f.dino|
    ensures var g := Resized(f, i, size);
      && SameShape(f, g) && g.used == f.used && g.blk == f.blk && g.sb == f.sb
      && (forall s :: SlotOk(f, s) ==> Addr(g, s) == Addr(f, s))
      && (forall j :: 0 <= j < |f.ino| ==> g.ino[j].size == if j == i then Max(size, f.ino[j].size) else f.ino[j].size)
      && (f.dino == f.ino[i := f.dino[i]] && (size <= f.ino[i].size ==> f.dino[i] == f.ino[i]) ==> g.dino == g.ino)
  {
    var g := Resized(f, i, size);
    forall s | SlotOk(f, s) ensures Addr(g, s) == Addr(f, s) {
      assert g.ino[s.i].addrs == f.ino[s.i].addrs;
    }
  }

  lemma ResizedConserved(f: Fs, i: nat, size: nat)
    requires Conserved(f) && i < |f.ino| == |f.dino|
    ensures Conserved(Resized(f, i, size))
  {
    hide Addr;
    var g := Resized(f, i, size);
    ResizedAddrs(f, i, size);
    hide Resized;
    assert forall s :: SlotOk(g, s) <==> SlotOk(f, s);
    forall b | 0 <= b < |g.used| ensures Reached(g, b) <==> Reached(f, b) {
      if Reached(f, b) {
        var s :| SlotOk(f, s) && Addr(f, s) == b;
        assert SlotOk(g, s) && Addr(g, s) == b;
      }
    }
  }

  /** An inode is determined by its size and the addresses it leads to. */
  lemma SameInode(fs: Fs, f: Fs, j: nat)
    requires Shaped(fs) && Shaped(f) && j < |fs.ino| == |f.ino|
    requires f.ino[j].size == fs.ino[j].size && Addr(f, Ind(j)) == Addr(fs, Ind(j))
    requires forall bn :: 0 <= bn < NDIRECT ==> Addr(f, Data(j, bn)) == Addr(fs, Data(j, bn))
    ensures f.ino[j] == fs.ino[j]
  {
    forall k | 0 <= k <= NDIRECT ensures f.ino[j].addrs[k] == fs.ino[j].addrs[k] {
      assert k < NDIRECT ==> Addr(f, Data(j, k)) == f.ino[j].addrs[k] && Addr(fs, Data(j, k)) == fs.ino[j].addrs[k];
    }
    assert f.ino[j].addrs == fs.ino[j].addrs;
  }

  /** A write touches only its own inode, and not that one unless the file gained a block: so
      a write inside the file leaves every disk inode current. */
  lemma InodesAfter(fs: Fs, f: Fs, i: nat, c: nat, d: nat, off: nat, bs: seq<Byte>)
    requires Conserved(fs) && i < |fs.ino| && HasBlocks(fs, i, c) && Wrote(fs, f, i, c, d, off, bs)
    ensures f.ino == fs.ino[i := f.ino[i]]
    ensures d == c ==> f.ino[i] == fs.ino[i]
  {
    hide Addr, Injective, BitmapExact, InRange, FileByte;
    forall j | 0 <= j < |fs.ino| && j != i ensures f.ino[j] == fs.ino[j] {
      assert SameFile(fs, f, j);
      forall bn | 0 <= bn < NDIRECT ensures Addr(f, Data(j, bn)) == Addr(fs, Data(j, bn)) {
        assert SameEntry(fs, f, j, bn);
      }
      SameInode(fs, f, j);
    }
    if d == c {
      forall bn | 0 <= bn < NDIRECT ensures Addr(f, Data(i, bn)) == Addr(fs, Data(i, bn)) {
      }
      SameInode(fs, f, i);
    }
  }

  /** File i after the write: its blocks match its new size, and its bytes are the old ones
      with src stored over them. */
  lemma WrittenFile(fs: Fs, f: Fs, i: nat, off: nat, src: seq<Byte>)
    requires Inv(fs) && i < |fs.ino| && off <= fs.ino[i].size
    requires var c := NBlocks(fs.ino[i].size); Wrote(fs, f, i, c, CountAfter(c, off, |src|), off, src)
    ensures |f.ino| == |f.dino|
    ensures var g := Resized(f, i, off + |src|);
      && Shaped(g) && i < |g.ino| && HasBlocks(g, i, NBlocks(g.ino[i].size))
      && g.ino[i].size == |Overwrite(Content(fs, i), off, src)|
      && (forall k :: 0 <= k < g.ino[i].size ==>
            k / BSIZE < MAXFILE && FileByte(g, i, k) == Overwrite(Content(fs, i), off, src)[k])
  {
    hide Addr, Injective, BitmapExact, InRange, FileByte, SameFile, Overwrite, NBlocks, CountAfter, Resized;
    var g := Resized(f, i, off + |src|);
    ResizedAddrs(f, i, off + |src|);
    SizeCount(fs.ino[i].size, off, |src|);
    OverwriteSize(Content(fs, i), off, src);
    assert forall bn :: 0 <= bn < MAXFILE ==> SlotOk(f, Data(i, bn));
    assert SlotOk(f, Ind(i));
    forall k | 0 <= k < g.ino[i].size
      ensures k / BSIZE < MAXFILE && FileByte(g, i, k) == Overwrite(Content(fs, i), off, src)[k]
    {
      WrittenByte(fs, f, i, off, src, k);
      ByteOfSame(f, g, i, k);
    }
  }

  lemma OverwriteSize(c: seq<Byte>, off: nat, src: seq<Byte>)
    requires off <= |c|
    ensures |Overwrite(c, off, src)| == Max(|c|, off + |src|)
  {
  }

  lemma OverwriteSlice(c: seq<Byte>, off: nat, src: seq<Byte>)
    requires off <= |c|
    ensures off + |src| <= |Overwrite(c, off, src)| && Overwrite(c, off, src)[off..off + |src|] == src
  {
  }

  lemma WrittenByte(fs: Fs, f: Fs, i: nat, off: nat, src: seq<Byte>, k: nat)
    requires Inv(fs) && i < |fs.ino| && off <= fs.ino[i].size && k < Max(fs.ino[i].size, off + |src|)
    requires var c := NBlocks(fs.ino[i].size); Wrote(fs, f, i, c, CountAfter(c, off, |src|), off, src)
    ensures k / BSIZE < MAXFILE && FileByte(f, i, k) == Overwrite(Content(fs, i), off, src)[k]
  {
    hide Addr, Conserved, FileByte, SameFile, Inv, Owns, CountAfter;
    InvFacts(fs, i);
    SizeCount(fs.ino[i].size, off, |src|);
    OverwriteSize(Content(fs, i), off, src);
  }

  lemma ByteOfSame(f: Fs, g: Fs, i: nat, k: nat)
    requires Shaped(f) && Shaped(g) && i < |f.ino| == |g.ino| && k / BSIZE < MAXFILE && g.blk == f.blk
    requires Addr(g, Data(i, k / BSIZE)) == Addr(f, Data(i, k / BSIZE))
    ensures FileByte(g, i, k) == FileByte(f, i, k)
  {
    hide Addr;
  }

  lemma OtherFile(fs: Fs, f: Fs, i: nat, j: nat, size: nat)
    requires Inv(fs) && Conserved(f) && i < |fs.ino| == |f.ino| == |f.dino|
    requires j < |fs.ino| && j != i && SameFile(fs, f, j)
    ensures var g := Resized(f, i, size);
      && Shaped(g) && j < |g.ino| && HasBlocks(g, j, NBlocks(g.ino[j].size)) && g.ino[j].size == fs.ino[j].size
      && (forall k :: 0 <= k < g.ino[j].size ==> k / BSIZE < MAXFILE && FileByte(g, j, k) == FileByte(fs, j, k))
  {
    hide Addr, Injective, BitmapExact, InRange, FileByte, SameEntry;
    var g := Resized(f, i, size);
    ResizedAddrs(f, i, size);
    SameContent(fs, f, j);
    hide Resized;
    assert forall bn :: 0 <= bn < MAXFILE ==> SlotOk(f, Data(j, bn));
    assert SlotOk(f, Ind(j));
    forall k | 0 <= k < g.ino[j].size ensures k / BSIZE < MAXFILE && FileByte(g, j, k) == FileByte(fs, j, k) {
      ByteOfSame(f, g, j, k);
    }
  }

  /** Result of writei on a file system that satisfies the invariant. */
  ghost predicate WriteDone(fs: Fs, g: Fs, i: nat, off: nat, src: seq<Byte>)
    requires Inv(fs) && i < |fs.ino| && off <= fs.ino[i].size
  {
    && Inv(g) && g.sb == fs.sb && |g.ino| == |fs.ino|
    && Content(g, i) == Overwrite(Content(fs, i), off, src)
    && (forall j :: 0 <= j < |fs.ino| && j != i ==> Content(g, j) == Content(fs, j))
    && Free(g.used) + BlocksTaken(fs.ino[i].size, off, |src|) == Free(fs.used)
  }

  lemma ContentIs(g: Fs, i: nat, c: seq<Byte>)
    requires Inv(g) && i < |g.ino| && |c| == g.ino[i].size
    requires forall k :: 0 <= k < |c| ==> k / BSIZE < MAXFILE && FileByte(g, i, k) == c[k]
    ensures Content(g, i) == c
  {
    hide FileByte, Inv;
  }

  lemma WroteInv(fs: Fs, f: Fs, i: nat, off: nat, src: seq<Byte>)
    requires Inv(fs) && i < |fs.ino| && off <= fs.ino[i].size
    requires var c := NBlocks(fs.ino[i].size); Wrote(fs, f, i, c, CountAfter(c, off, |src|), off, src)
    ensures |f.ino| == |f.dino| && Inv(Resized(f, i, off + |src|))
  {
    hide Addr, Injective, BitmapExact, InRange, FileByte, Overwrite, HasBlocks, SameFile;
    var g := Resized(f, i, off + |src|);
    var c := NBlocks(fs.ino[i].size);
    assert HasBlocks(fs, i, c);
    SizeCount(fs.ino[i].size, off, |src|);
    WrittenFile(fs, f, i, off, src);
    InodesAfter(fs, f, i, c, CountAfter(c, off, |src|), off, src);
    ResizedAddrs(f, i, off + |src|);
    ResizedConserved(f, i, off + |src|);
    hide Resized, CountAfter, NBlocks;
    forall j | 0 <= j < |fs.ino| && j != i ensures HasBlocks(g, j, NBlocks(g.ino[j].size)) {
      OtherFile(fs, f, i, j, off + |src|);
    }
  }

  lemma WroteDone(fs: Fs, f: Fs, i: nat, off: nat, src: seq<Byte>)
    requires Inv(fs) && i < |fs.ino| && off <= fs.ino[i].size
    requires var c := NBlocks(fs.ino[i].size);
      && Wrote(fs, f, i, c, CountAfter(c, off, |src|), off, src)
      && Free(f.used) + Total(CountAfter(c, off, |src|)) == Free(fs.used) + Total(c)
    ensures |f.ino| == |f.dino| && WriteDone(fs, Resized(f, i, off + |src|), i, off, src)
  {
    hide Addr, InRange, Injective, BitmapExact, FileByte, Overwrite, HasBlocks, SameFile, Free, Total, CountAfter;
    hide NBlocks, Resized;
    var g := Resized(f, i, off + |src|);
    InvFacts(fs, i);
    SizeCount(fs.ino[i].size, off, |src|);
    TotalMono(NBlocks(fs.ino[i].size), NBlocks(Max(fs.ino[i].size, off + |src|)));
    WroteInv(fs, f, i, off, src);
    WrittenFile(fs, f, i, off, src);
    ResizedAddrs(f, i, off + |src|);
    ContentIs(g, i, Overwrite(Content(fs, i), off, src));
    forall j | 0 <= j < |fs.ino| && j != i ensures Content(g, j) == Content(fs, j) {
      OtherFile(fs, f, i, j, off + |src|);
      ContentIs(g, j, Content(fs, j));
    }
  }

  /** writei refuses exactly the writes that start past the end or end past the largest file,
      and otherwise stores exactly src at off, in this file only; it panics exactly when the
      free blocks do not suffice. */
  lemma WriteiRefines(fs: Fs, i: nat, off: nat, src: seq<Byte>)
    requires Inv(fs) && i < |fs.ino| && off < UINT && |src| < UINT
    ensures var ok := off <= fs.ino[i].size && off + |src| <= MAXFILE * BSIZE;
      && (!ok ==> Writei(fs, i, off, src) == Some((fs, -1)))
      && (ok && Free(fs.used) < BlocksTaken(fs.ino[i].size, off, |src|) ==> Writei(fs, i, off, src) == None)
      && (ok && Free(fs.used) >= BlocksTaken(fs.ino[i].size, off, |src|) ==>
            && Writei(fs, i, off, src).Some? && Writei(fs, i, off, src).value.1 == |src|
            && WriteDone(fs, Writei(fs, i, off, src).value.0, i, off, src))
  {
    hide HasBlocks, Inv, Conserved, WriteLoop, WriteAllowed, WriteDone, Wrote, Free, Total, CountAfter, NBlocks;
    InvFacts(fs, i);
    AllowedIff(fs, i, off, |src|);
    if off <= fs.ino[i].size && off + |src| <= MAXFILE * BSIZE {
      var c := NBlocks(fs.ino[i].size);
      SizeCount(fs.ino[i].size, off, |src|);
      LoopWrote(fs, i, c, off, src);
      var f := WriteLoop(fs, i, off, src);
      if f.Some? {
        WroteDone(fs, f.value, i, off, src);
        WroteSize(fs, f.value, i, c, CountAfter(c, off, |src|), off, src);
      }
    }
  }

  lemma WroteSize(fs: Fs, f: Fs, i: nat, c: nat, d: nat, off: nat, bs: seq<Byte>)
    requires Conserved(fs) && i < |fs.ino| && Wrote(fs, f, i, c, d, off, bs)
    ensures i < |f.ino| && f.ino[i].size == fs.ino[i].size
  {
  }

  // ---- readi ----

  function Prepend(a: seq<Byte>, r: Option<(Fs, seq<Byte>)>): Option<(Fs, seq<Byte>)> {
    if r.None? then None else Some((r.value.0, a + r.value.1))
  }

  /** The bytes copied out by readi's loop; bmap may change the state. */
  function ReadLoop(fs: Fs, i: nat, off: nat, n: nat): (r: Option<(Fs, seq<Byte>)>)
    requires Shaped(fs) && i < |fs.ino|
    decreases n
  {
    if n == 0 then Some((fs, []))
    else
      var m := Chunk(off, n);
      match Bmap(fs, i, off / BSIZE)
      case None => None
      case Some(p) =>
        if p.1 >= |p.0.blk| then None
        else Prepend(p.0.blk[p.1][off % BSIZE..off % BSIZE + m], ReadLoop(p.0, i, off + m, n - m))
  }

  /** The new state, the returned value, and the bytes copied out. */
  function Readi(fs: Fs, i: nat, off: nat, n: nat): Option<(Fs, int, seq<Byte>)>
    requires Shaped(fs) && i < |fs.ino|
  {
    var size := fs.ino[i].size;
    if off > size || (off + n) % UINT < off then Some((fs, -1, []))
    else
      var k := if (off + n) % UINT > size then size - off else n;
      match ReadLoop(fs, i, off, k)
      case None => None
      case Some(p) => Some((p.0, k, p.1))
  }

  lemma ReadUnfold(fs: Fs, i: nat, off: nat, n: nat)
    requires Shaped(fs) && i < |fs.ino| && 0 < n
    ensures off % BSIZE + Chunk(off, n) <= BSIZE && Chunk(off, n) <= n
    ensures var m := Chunk(off, n);
      var p := Bmap(fs, i, off / BSIZE);
      ReadLoop(fs, i, off, n) ==
        if p.None? || p.value.1 >= |p.value.0.blk| then None
        else Prepend(p.value.0.blk[p.value.1][off % BSIZE..off % BSIZE + m], ReadLoop(p.value.0, i, off + m, n - m))
  {
    hide Bmap, Prepend;
  }

  lemma ChunkSize(off: nat, n: nat)
    requires 0 < n
    ensures 0 < Chunk(off, n) <= n && off % BSIZE + Chunk(off, n) <= BSIZE
  {
  }

  lemma {:induction false} ReadLoopCopies(fs: Fs, i: nat, off: nat, n: nat)
    requires Inv(fs) && i < |fs.ino| && off + n <= fs.ino[i].size
    ensures ReadLoop(fs, i, off, n) == Some((fs, Content(fs, i)[off..off + n]))
    decreases n
  {
    hide Inv, Conserved, HasBlocks, FileByte, Bmap, NBlocks, Chunk, ReadLoop;
    InvFacts(fs, i);
    var c := Content(fs, i);
    if n > 0 {
      var m := Chunk(off, n);
      ChunkSize(off, n);
      ReadUnfold(fs, i, off, n);
      ReadRound(fs, i, off, m);
      ReadLoopCopies(fs, i, off + m, n - m);
      assert c[off..off + n] == c[off..off + m] + c[off + m..off + n];
    } else {
      assert c[off..off] == [];
      ReadZero(fs, i, off);
    }
  }

  lemma ReadZero(fs: Fs, i: nat, off: nat)
    requires Shaped(fs) && i < |fs.ino|
    ensures ReadLoop(fs, i, off, 0) == Some((fs, []))
  {
  }

  lemma ReadRound(fs: Fs, i: nat, off: nat, m: nat)
    requires Inv(fs) && i < |fs.ino| && 0 < m && off % BSIZE + m <= BSIZE && off + m <= fs.ino[i].size
    ensures Bmap(fs, i, off / BSIZE).Some?
    ensures var (f, a) := Bmap(fs, i, off / BSIZE).value;
      f == fs && a < |fs.blk| && fs.blk[a][off % BSIZE..off % BSIZE + m] == Content(fs, i)[off..off + m]
  {
    hide Addr, Bmap, Inv, HasBlocks, Injective, BitmapExact, FileByte;
    InvFacts(fs, i);
    var bn := off / BSIZE;
    var c := NBlocks(fs.ino[i].size);
    BmapFinds(fs, i, bn, c);
    OwnedAddr(fs, i, c, bn);
    var a := Addr(fs, Data(i, bn));
    var x, y := fs.blk[a][off % BSIZE..off % BSIZE + m], Content(fs, i)[off..off + m];
    forall k | 0 <= k < m ensures x[k] == y[k] {
      ReadByte(fs, i, off, k);
    }
    assert x == y;
  }

  lemma OwnedAddr(fs: Fs, i: nat, c: nat, bn: nat)
    requires Conserved(fs) && i < |fs.ino| && HasBlocks(fs, i, c) && bn < c
    ensures 0 < Addr(fs, Data(i, bn)) < |fs.blk|
  {
    assert SlotOk(fs, Data(i, bn)) && Addr(fs, Data(i, bn)) != 0;
  }

  lemma ReadByte(fs: Fs, i: nat, off: nat, k: nat)
    requires Shaped(fs) && i < |fs.ino| && off % BSIZE + k < BSIZE && off / BSIZE < MAXFILE
    requires Addr(fs, Data(i, off / BSIZE)) < |fs.blk|
    ensures (off + k) / BSIZE == off / BSIZE
    ensures FileByte(fs, i, off + k) == fs.blk[Addr(fs, Data(i, off / BSIZE))][off % BSIZE + k]
  {
    hide Addr;
    assert (off + k) / BSIZE == off / BSIZE && (off + k) % BSIZE == off % BSIZE + k;
  }

  /** readi changes nothing, allocates nothing, never panics, and returns the file's bytes
      from off up to n of them. */
  lemma ReadiRefines(fs: Fs, i: nat, off: nat, n: nat)
    requires Inv(fs) && i < |fs.ino| && off < UINT && n < UINT
    ensures var c := Content(fs, i);
      if off > |c| || off + n >= UINT then Readi(fs, i, off, n) == Some((fs, -1, []))
      else Readi(fs, i, off, n) == Some((fs, Min(n, |c| - off), c[off..off + Min(n, |c| - off)]))
  {
    hide ReadLoop, Inv, Conserved, HasBlocks, NBlocks;
    InvFacts(fs, i);
    var size := fs.ino[i].size;
    if off <= size && off + n < UINT {
      ReadLoopCopies(fs, i, off, Min(n, size - off));
    }
  }

  /** Bytes written are read back, across direct and indirect blocks. */
  lemma ReadAfterWrite(fs: Fs, i: nat, off: nat, src: seq<Byte>)
    requires Inv(fs) && i < |fs.ino| && off <= fs.ino[i].size && off + |src| <= MAXFILE * BSIZE
    requires Free(fs.used) >= BlocksTaken(fs.ino[i].size, off, |src|)
    ensures Writei(fs, i, off, src).Some?
    ensures var f := Writei(fs, i, off, src).value.0;
            Inv(f) && i < |f.ino| && Readi(f, i, off, |src|) == Some((f, |src|, src))
  {
    hide Writei, Readi, Inv, Overwrite, Free, BlocksTaken, NBlocks;
    InvFacts(fs, i);
    WriteiRefines(fs, i, off, src);
    var f := Writei(fs, i, off, src).value.0;
    ReadiRefines(f, i, off, |src|);
    OverwriteSize(Content(fs, i), off, src);
    OverwriteSlice(Content(fs, i), off, src);
  }
}
