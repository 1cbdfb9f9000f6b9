/** readi and writei (fs.c) refine a byte sequence per file. */
module FsContent {
  import opened Prelude
  import opened FsState
  import opened FsBlocks

  // ---- the operations ----

  function PutBytes(fs: Fs, a: nat, o: nat, bs: seq<Byte>): Fs
    requires a < |fs.blk| && o + |bs| <= BSIZE
  {
    fs.(blk := fs.blk[a := SpliceBlock(fs.blk[a], o, bs)], log := fs.log + [a])
  }

  /** Bytes moved by one round of either loop. */
  function Chunk(off: nat, n: nat): nat {
    Min(n, BSIZE - off % BSIZE)
  }

  /** One round of writei's loop: bs lies in one block. */
  function WriteRound(fs: Fs, i: nat, off: nat, bs: seq<Byte>): (r: Option<Fs>)
    requires Shaped(fs) && i < |fs.ino| && off % BSIZE + |bs| <= BSIZE
    ensures r.Some? ==> SameShape(fs, r.value)
  {
    match Bmap(fs, i, off / BSIZE)
    case None => None
    case Some(p) => if p.1 >= |p.0.blk| then None else Some(PutBytes(p.0, p.1, off % BSIZE, bs))
  }

  function WriteLoop(fs: Fs, i: nat, off: nat, src: seq<Byte>): (r: Option<Fs>)
    requires Shaped(fs) && i < |fs.ino|
    ensures r.Some? ==> SameShape(fs, r.value)
    decreases |src|
  {
    if src == [] then Some(fs)
    else
      var m := Chunk(off, |src|);
      match WriteRound(fs, i, off, src[..m])
      case None => None
      case Some(f) => WriteLoop(f, i, off + m, src[m..])
  }

  function IBlock(sb: Super, i: nat): nat {
    i / IPB + sb.inodestart
  }

  function Iupdate(fs: Fs, i: nat): Fs
    requires i < |fs.ino| && i < |fs.dino|
  {
    fs.(dino := fs.dino[i := fs.ino[i]], log := fs.log + [IBlock(fs.sb, i)])
  }

  /** The bounds check, on 32-bit arithmetic. */
  predicate WriteAllowed(fs: Fs, i: nat, off: nat, n: nat)
    requires i < |fs.ino|
  {
    off <= fs.ino[i].size && (off + n) % UINT >= off && (off + n) % UINT <= MAXFILE * BSIZE
  }

  function SetSize(fs: Fs, i: nat, size: nat): Fs
    requires i < |fs.ino|
  {
    fs.(ino := fs.ino[i := fs.ino[i].(size := size)])
  }

  /** The new state and the returned count; None is a panic. */
  function Writei(fs: Fs, i: nat, off: nat, src: seq<Byte>): Option<(Fs, int)>
    requires Shaped(fs) && i < |fs.ino| == |fs.dino|
  {
    if !WriteAllowed(fs, i, off, |src|) then Some((fs, -1))
    else match WriteLoop(fs, i, off, src)
      case None => None
      case Some(f) =>
        if |src| > 0 && off + |src| > f.ino[i].size
        then Some((Iupdate(SetSize(f, i, off + |src|), i), |src|))
        else Some((f, |src|))
  }

  // ---- one block write ----

  /** From fs to f, bytes off.. of file i became bs and its blocks grew from c to d; no other
      byte of an allocated block changed, and no other file. */
  ghost predicate Wrote(fs: Fs, f: Fs, i: nat, c: nat, d: nat, off: nat, bs: seq<Byte>)
    requires Conserved(fs) && i < |fs.ino|
  {
    && Conserved(f) && f.sb == fs.sb && |f.ino| == |fs.ino| && |f.blk| == |fs.blk| && f.dino == fs.dino
    && f.ino[i].size == fs.ino[i].size
    && HasBlocks(f, i, d) && c <= d && off + |bs| <= d * BSIZE
    && (Addr(fs, Ind(i)) != 0 ==> Addr(f, Ind(i)) == Addr(fs, Ind(i)))
    && (forall bn :: 0 <= bn < c ==> Addr(f, Data(i, bn)) == Addr(fs, Data(i, bn)))
    && (forall j :: 0 <= j < |fs.ino| && j != i ==> SameFile(fs, f, j))
    && (forall k :: off <= k < off + |bs| ==> FileByte(f, i, k) == bs[k - off])
    && (forall k :: 0 <= k < c * BSIZE && !(off <= k < off + |bs|) ==> FileByte(f, i, k) == FileByte(fs, i, k))
  }

  lemma PutAddrs(fs: Fs, i: nat, bn: nat, o: nat, bs: seq<Byte>, s: Slot)
    requires Conserved(fs) && i < |fs.ino| && bn < MAXFILE && SlotOk(fs, s) && o + |bs| <= BSIZE
    requires Addr(fs, Data(i, bn)) != 0
    ensures Addr(PutBytes(fs, Addr(fs, Data(i, bn)), o, bs), s) == Addr(fs, s)
  {
    hide Word, SpliceBlock;
    assert Addr(fs, Data(i, bn)) != Addr(fs, Ind(s.i));
  }

  /** Writing into a data block keeps every address, so keeps block conservation. */
  lemma PutKeeps(fs: Fs, i: nat, bn: nat, o: nat, bs: seq<Byte>)
    requires Conserved(fs) && i < |fs.ino| && bn < MAXFILE && o + |bs| <= BSIZE && Addr(fs, Data(i, bn)) != 0
    ensures var f := PutBytes(fs, Addr(fs, Data(i, bn)), o, bs); Conserved(f)
    ensures var f := PutBytes(fs, Addr(fs, Data(i, bn)), o, bs);
      forall s :: SlotOk(fs, s) ==> Addr(f, s) == Addr(fs, s)
  {
    hide Addr, SpliceBlock;
    var f := PutBytes(fs, Addr(fs, Data(i, bn)), o, bs);
    forall s | SlotOk(fs, s) ensures Addr(f, s) == Addr(fs, s) {
      PutAddrs(fs, i, bn, o, bs, s);
    }
    assert forall s :: SlotOk(f, s) <==> SlotOk(fs, s);
    forall b | 0 <= b < |f.used| ensures Reached(f, b) <==> Reached(fs, b) {
      if Reached(fs, b) {
        var s :| SlotOk(fs, s) && Addr(fs, s) == b;
        assert SlotOk(f, s) && Addr(f, s) == b;
      }
    }
  }

  lemma PutOtherFile(fs: Fs, i: nat, bn: nat, o: nat, bs: seq<Byte>, j: nat)
    requires Conserved(fs) && i < |fs.ino| && bn < MAXFILE && o + |bs| <= BSIZE && Addr(fs, Data(i, bn)) != 0
    requires j < |fs.ino| && j != i
    ensures var f := PutBytes(fs, Addr(fs, Data(i, bn)), o, bs); Shaped(f) && SameFile(fs, f, j)
  {
    hide Addr, SpliceBlock;
    var f := PutBytes(fs, Addr(fs, Data(i, bn)), o, bs);
    PutKeeps(fs, i, bn, o, bs);
    forall n | 0 <= n < MAXFILE ensures SameEntry(fs, f, j, n) {
      assert SlotOk(fs, Data(j, n)) && SlotOk(fs, Data(i, bn));
    }
    assert SlotOk(fs, Ind(j));
  }

  lemma PutByte(fs: Fs, i: nat, c: nat, off: nat, bs: seq<Byte>, k: nat)
    requires Conserved(fs) && i < |fs.ino| && HasBlocks(fs, i, c) && off % BSIZE + |bs| <= BSIZE && off / BSIZE < c
    requires k < c * BSIZE
    ensures var f := PutBytes(fs, Addr(fs, Data(i, off / BSIZE)), off % BSIZE, bs);
      Shaped(f) && FileByte(f, i, k) == if off <= k < off + |bs| then bs[k - off] else FileByte(fs, i, k)
  {
    hide Addr;
    PutKeeps(fs, i, off / BSIZE, off % BSIZE, bs);
    assert SlotOk(fs, Data(i, k / BSIZE)) && SlotOk(fs, Data(i, off / BSIZE));
    assert Addr(fs, Data(i, k / BSIZE)) != 0;
  }

  lemma PutWrote(fs: Fs, i: nat, c: nat, off: nat, bs: seq<Byte>)
    requires Conserved(fs) && i < |fs.ino| && HasBlocks(fs, i, c) && off % BSIZE + |bs| <= BSIZE && off / BSIZE < c
    ensures Wrote(fs, PutBytes(fs, Addr(fs, Data(i, off / BSIZE)), off % BSIZE, bs), i, c, c, off, bs)
  {
    hide Addr, SpliceBlock, SameFile, FileByte, Injective, BitmapExact;
    var bn := off / BSIZE;
    var f := PutBytes(fs, Addr(fs, Data(i, bn)), off % BSIZE, bs);
    PutKeeps(fs, i, bn, off % BSIZE, bs);
    forall j | 0 <= j < |fs.ino| && j != i ensures SameFile(fs, f, j) {
      PutOtherFile(fs, i, bn, off % BSIZE, bs, j);
    }
    forall k | 0 <= k < c * BSIZE
      ensures FileByte(f, i, k) == if off <= k < off + |bs| then bs[k - off] else FileByte(fs, i, k)
    {
      PutByte(fs, i, c, off, bs, k);
    }
    assert SlotOk(fs, Ind(i));
    assert forall n :: 0 <= n < MAXFILE ==> SlotOk(fs, Data(i, n));
  }

  lemma SameByte(fs: Fs, f: Fs, i: nat, c: nat, k: nat)
    requires Conserved(fs) && Shaped(f) && i < |fs.ino| == |f.ino|
    requires |f.blk| == |fs.blk| && HasBlocks(fs, i, c) && k < c * BSIZE
    requires SameEntry(fs, f, i, k / BSIZE)
    ensures FileByte(f, i, k) == FileByte(fs, i, k) && Addr(f, Data(i, k / BSIZE)) == Addr(fs, Data(i, k / BSIZE))
  {
    hide Addr;
    assert SlotOk(fs, Data(i, k / BSIZE)) && Addr(fs, Data(i, k / BSIZE)) != 0;
  }

  lemma GrownWrote(fs: Fs, f: Fs, i: nat, c: nat, d: nat, off: nat)
    requires Conserved(fs) && i < |fs.ino| && HasBlocks(fs, i, c) && Grown(fs, f, i, c) && HasBlocks(f, i, d) && c <= d
    requires off <= d * BSIZE
    ensures Wrote(fs, f, i, c, d, off, [])
  {
    hide Addr, SameFile, SameEntry, FileByte, Owns, Injective, BitmapExact;
    forall k | 0 <= k < c * BSIZE
      ensures FileByte(f, i, k) == FileByte(fs, i, k)
    {
      assert SameEntry(fs, f, i, k / BSIZE);
      SameByte(fs, f, i, c, k);
    }
    forall bn | 0 <= bn < c ensures Addr(f, Data(i, bn)) == Addr(fs, Data(i, bn)) {
      assert SameEntry(fs, f, i, bn);
      SameByte(fs, f, i, c, bn * BSIZE);
    }
  }

  lemma WroteTrans(fs: Fs, f: Fs, g: Fs, i: nat, c: nat, d: nat, e: nat, off: nat, b1: seq<Byte>, b2: seq<Byte>)
    requires Conserved(fs) && i < |fs.ino| && HasBlocks(fs, i, c)
    requires Wrote(fs, f, i, c, d, off, b1) && Wrote(f, g, i, d, e, off + |b1|, b2)
    ensures Wrote(fs, g, i, c, e, off, b1 + b2)
  {
    hide Addr, SameFile, FileByte, InRange, Injective, BitmapExact;
    forall j | 0 <= j < |fs.ino| && j != i ensures SameFile(fs, g, j) {
      SameFileTrans(fs, f, g, j);
    }
    forall k | off <= k < off + |b1 + b2|
      ensures FileByte(g, i, k) == (b1 + b2)[k - off]
    {
      if k < off + |b1| {
        assert FileByte(g, i, k) == FileByte(f, i, k);
      }
    }
    forall k | 0 <= k < c * BSIZE && !(off <= k < off + |b1 + b2|)
      ensures FileByte(g, i, k) == FileByte(fs, i, k)
    {
      assert FileByte(g, i, k) == FileByte(f, i, k);
    }
  }

  // ---- writei's loop ----

  /** Blocks of a c-block file after writing n bytes at off. */
  function CountAfter(c: nat, off: nat, n: nat): nat {
    if n == 0 then c else Max(c, NBlocks(off + n))
  }

  lemma RoundWrote(fs: Fs, i: nat, c: nat, off: nat, bs: seq<Byte>)
    requires Conserved(fs) && i < |fs.ino| && HasBlocks(fs, i, c)
    requires 0 < |bs| && off % BSIZE + |bs| <= BSIZE && off / BSIZE <= c && off / BSIZE < MAXFILE
    ensures var d := CountAfter(c, off, |bs|);
      && (WriteRound(fs, i, off, bs).Some? <==> Free(fs.used) + Total(c) >= Total(d))
      && (WriteRound(fs, i, off, bs).Some? ==>
            var f := WriteRound(fs, i, off, bs).value;
            && Wrote(fs, f, i, c, d, off, bs) && Free(f.used) + Total(d) == Free(fs.used) + Total(c)
            && Appends(fs.log, f.log, BmapLogs(f, i, off / BSIZE, c)))
  {
    hide Bmap, Wrote, Addr, Owns, Grown, HasBlocks, BmapLogs, Free, NBlocks, Total, InRange, Injective, BitmapExact;
    var bn := off / BSIZE;
    RoundCount(c, off, |bs|);
    if bn < c {
      RoundInside(fs, i, c, off, bs);
    } else {
      BmapGrows(fs, i, c);
      TotalMono(c, c + 1);
      if Bmap(fs, i, c).Some? {
        var (f, a) := Bmap(fs, i, c).value;
        RoundGrew(fs, f, i, c, off, bs);
        RoundLogs(f, i, off, bs, c);
      }
    }
  }

  lemma RoundCount(c: nat, off: nat, n: nat)
    requires 0 < n && off % BSIZE + n <= BSIZE && off / BSIZE <= c
    ensures CountAfter(c, off, n) == if off / BSIZE < c then c else c + 1
  {
  }

  lemma RoundInside(fs: Fs, i: nat, c: nat, off: nat, bs: seq<Byte>)
    requires Conserved(fs) && i < |fs.ino| && HasBlocks(fs, i, c)
    requires 0 < |bs| && off % BSIZE + |bs| <= BSIZE && off / BSIZE < c
    ensures WriteRound(fs, i, off, bs).Some?
    ensures var f := WriteRound(fs, i, off, bs).value;
      && Wrote(fs, f, i, c, c, off, bs) && f.used == fs.used && Appends(fs.log, f.log, BmapLogs(f, i, off / BSIZE, c))
  {
    BmapFinds(fs, i, off / BSIZE, c);
    assert SlotOk(fs, Data(i, off / BSIZE)) && Addr(fs, Data(i, off / BSIZE)) != 0;
    hide Bmap, Wrote, Addr, BmapLogs, Owns, Injective, BitmapExact;
    PutWrote(fs, i, c, off, bs);
    RoundLogs(fs, i, off, bs, c);
  }

  lemma RoundGrew(fs: Fs, f: Fs, i: nat, c: nat, off: nat, bs: seq<Byte>)
    requires Conserved(fs) && i < |fs.ino| && HasBlocks(fs, i, c) && Grown(fs, f, i, c) && HasBlocks(f, i, c + 1)
    requires 0 < |bs| && off % BSIZE + |bs| <= BSIZE && off / BSIZE == c
    ensures Conserved(f) && i < |f.ino|
    ensures var a := Addr(f, Data(i, c));
      0 < a < |f.blk| && Wrote(fs, PutBytes(f, a, off % BSIZE, bs), i, c, c + 1, off, bs)
  {
    assert Addr(f, Data(i, c)) != 0;
    GrownWrote(fs, f, i, c, c + 1, off);
    PutWrote(f, i, c + 1, off, bs);
    hide Wrote, Grown, HasBlocks, Addr;
    WroteTrans(fs, f, PutBytes(f, Addr(f, Data(i, c)), off % BSIZE, bs), i, c, c + 1, c + 1, off, [], bs);
    assert [] + bs == bs;
  }

  lemma RoundLogs(f: Fs, i: nat, off: nat, bs: seq<Byte>, c: nat)
    requires Conserved(f) && i < |f.ino| && off / BSIZE < MAXFILE && off % BSIZE + |bs| <= BSIZE
    requires Addr(f, Data(i, off / BSIZE)) != 0
    ensures var g := PutBytes(f, Addr(f, Data(i, off / BSIZE)), off % BSIZE, bs);
      && Shaped(g) && BmapLogs(g, i, off / BSIZE, c) == BmapLogs(f, i, off / BSIZE, c)
      && Appends(f.log, g.log, BmapLogs(f, i, off / BSIZE, c))
  {
    hide Addr, SpliceBlock;
    PutKeeps(f, i, off / BSIZE, off % BSIZE, bs);
    assert SlotOk(f, Data(i, off / BSIZE)) && SlotOk(f, Ind(i));
  }

  lemma ChunkArith(c: nat, off: nat, n: nat)
    requires 0 < n && off <= c * BSIZE
    ensures var m := Chunk(off, n); var d := CountAfter(c, off, m);
      && 0 < m <= n && off % BSIZE + m <= BSIZE && off / BSIZE <= c && off / BSIZE < NBlocks(off + n)
      && off + m <= d * BSIZE && CountAfter(d, off + m, n - m) == CountAfter(c, off, n) >= d
      && NBlocks(off + m) == off / BSIZE + 1
      && (m < n ==> (off + m) / BSIZE == off / BSIZE + 1)
      && (off + n <= MAXFILE * BSIZE ==> off / BSIZE < MAXFILE && NBlocks(off + n) <= MAXFILE)
      && (m == n ==> NBlocks(off + n) == off / BSIZE + 1)
  {
  }

  lemma WroteKeeps(fs: Fs, f: Fs, i: nat, c: nat, d: nat, off: nat, bs: seq<Byte>)
    requires Conserved(fs) && i < |fs.ino| && Wrote(fs, f, i, c, d, off, bs)
    ensures Conserved(f) && i < |f.ino| && HasBlocks(f, i, d) && c <= d && off + |bs| <= d * BSIZE
  {
  }

  lemma LoopUnfold(fs: Fs, i: nat, off: nat, src: seq<Byte>)
    requires Shaped(fs) && i < |fs.ino| && 0 < |src|
    ensures var m := Chunk(off, |src|); var r := WriteRound(fs, i, off, src[..m]);
      WriteLoop(fs, i, off, src) == if r.None? then None else WriteLoop(r.value, i, off + m, src[m..])
  {
    hide WriteRound;
  }

  lemma LoopEmpty(fs: Fs, i: nat, c: nat, off: nat)
    requires Conserved(fs) && i < |fs.ino| && HasBlocks(fs, i, c) && off <= c * BSIZE
    ensures WriteLoop(fs, i, off, []) == Some(fs) && CountAfter(c, off, 0) == c && Wrote(fs, fs, i, c, c, off, [])
  {
    hide Wrote, Grown;
    GrownRefl(fs, i, c);
    GrownWrote(fs, fs, i, c, c, off);
  }

  lemma TotalMono(c: nat, d: nat)
    requires c <= d
    ensures Total(c) <= Total(d)
  {
  }

  /** writei's loop stores src at off, grows the file by the blocks that needs, and panics just
      when there are not that many free blocks. */
  lemma {:induction false} LoopWrote(fs: Fs, i: nat, c: nat, off: nat, src: seq<Byte>)
    requires Conserved(fs) && i < |fs.ino| && HasBlocks(fs, i, c)
    requires off <= c * BSIZE && off + |src| <= MAXFILE * BSIZE
    ensures var d := CountAfter(c, off, |src|);
      && (WriteLoop(fs, i, off, src).Some? <==> Free(fs.used) + Total(c) >= Total(d))
      && (WriteLoop(fs, i, off, src).Some? ==>
            var f := WriteLoop(fs, i, off, src).value;
            Wrote(fs, f, i, c, d, off, src) && Free(f.used) + Total(d) == Free(fs.used) + Total(c))
    decreases |src|
  {
    hide CountAfter, Chunk, Total, Free, WriteRound, WriteLoop, Wrote, HasBlocks, BmapLogs, InRange, Injective;
    hide BitmapExact, NBlocks;
    if src == [] {
      LoopEmpty(fs, i, c, off);
    } else {
      ChunkArith(c, off, |src|);
      LoopUnfold(fs, i, off, src);
      var m := Chunk(off, |src|);
      var d := CountAfter(c, off, m);
      RoundWrote(fs, i, c, off, src[..m]);
      TotalMono(d, CountAfter(c, off, |src|));
      if WriteRound(fs, i, off, src[..m]).Some? {
        var f := WriteRound(fs, i, off, src[..m]).value;
        WroteKeeps(fs, f, i, c, d, off, src[..m]);
        LoopWrote(f, i, d, off + m, src[m..]);
        var g := WriteLoop(f, i, off + m, src[m..]);
        if g.Some? {
          WroteTrans(fs, f, g.value, i, c, d, CountAfter(c, off, |src|), off, src[..m], src[m..]);
          assert src[..m] + src[m..] == src;
        }
      }
    }
  }

  // ---- what a write logs ----

  /** Addresses of data blocks lo..hi of file i. */
  ghost function DataBlocks(f: Fs, i: nat, lo: nat, hi: nat): (r: set<nat>)
    requires Shaped(f) && i < |f.ino| && hi <= MAXFILE
    ensures lo <= hi ==> |r| <= hi - lo
    decreases hi - lo
  {
    if lo >= hi then {} else {Addr(f, Data(i, lo))} + DataBlocks(f, i, lo + 1, hi)
  }

  /** Bitmap blocks holding the bits of data blocks lo..hi of file i. */
  ghost function MapBlocks(f: Fs, i: nat, lo: nat, hi: nat): (r: set<nat>)
    requires Shaped(f) && i < |f.ino| && hi <= MAXFILE
    ensures lo <= hi ==> |r| <= hi - lo
    decreases hi - lo
  {
    if lo >= hi then {} else {BBlock(f.sb, Addr(f, Data(i, lo)))} + MapBlocks(f, i, lo + 1, hi)
  }

  /** The indirect block, if there is one, and the bitmap block that holds its bit. */
  ghost function IndBlocks(f: Fs, i: nat): set<nat>
    requires Shaped(f) && i < |f.ino|
  {
    if Addr(f, Ind(i)) == 0 then {} else {Addr(f, Ind(i)), BBlock(f.sb, Addr(f, Ind(i)))}
  }

  ghost function WriteLogs(f: Fs, i: nat, c: nat, lo: nat, hi: nat): set<nat>
    requires Shaped(f) && i < |f.ino| && hi <= MAXFILE
  {
    DataBlocks(f, i, lo, hi) + MapBlocks(f, i, Max(lo, c), hi) + IndBlocks(f, i)
  }

  lemma {:induction false} LoopLogs(fs: Fs, i: nat, c: nat, off: nat, src: seq<Byte>)
    requires Conserved(fs) && i < |fs.ino| && HasBlocks(fs, i, c) && 0 < |src|
    requires off <= c * BSIZE && off + |src| <= MAXFILE * BSIZE && WriteLoop(fs, i, off, src).Some?
    ensures var f := WriteLoop(fs, i, off, src).value;
      Appends(fs.log, f.log, WriteLogs(f, i, c, off / BSIZE, NBlocks(off + |src|)))
    decreases |src|
  {
    hide CountAfter, Chunk, Free, Total, WriteRound, WriteLoop, Wrote, HasBlocks, BmapLogs, WriteLogs, InRange;
    hide Injective, BitmapExact, NBlocks, Max, Min;
    ChunkArith(c, off, |src|);
    var m := Chunk(off, |src|);
    var d := CountAfter(c, off, m);
    var bn, hi := off / BSIZE, NBlocks(off + |src|);
    LoopUnfold(fs, i, off, src);
    RoundWrote(fs, i, c, off, src[..m]);
    var f := WriteRound(fs, i, off, src[..m]).value;
    WroteKeeps(fs, f, i, c, d, off, src[..m]);
    var r := WriteLoop(f, i, off + m, src[m..]);
    var g := r.value;
    LoopWrote(f, i, d, off + m, src[m..]);
    WroteKeeps(f, g, i, d, CountAfter(d, off + m, |src| - m), off + m, src[m..]);
    LogsPersist(f, g, i, c, bn, d, off + m, src[m..]);
    HasIndirect(g, i, CountAfter(d, off + m, |src| - m), bn);
    LogsSplit(g, i, c, bn, hi);
    if m < |src| {
      LoopLogs(f, i, d, off + m, src[m..]);
      LogsMono(g, i, c, d, bn + 1, hi);
      AppendsMore(f.log, g.log, WriteLogs(g, i, d, bn + 1, hi), WriteLogs(g, i, c, bn + 1, hi));
      AppendsTrans(fs.log, f.log, g.log, BmapLogs(g, i, bn, c), WriteLogs(g, i, c, bn + 1, hi));
      AppendsMore(fs.log, g.log, BmapLogs(g, i, bn, c) + WriteLogs(g, i, c, bn + 1, hi), WriteLogs(g, i, c, bn, hi));
    } else {
      assert src[m..] == [];
      LoopEmpty(f, i, d, off + m);
    }
  }

  lemma LogsPersist(f: Fs, g: Fs, i: nat, c: nat, bn: nat, d: nat, off: nat, bs: seq<Byte>)
    requires Conserved(f) && i < |f.ino| && HasBlocks(f, i, d)
    requires bn < d && Wrote(f, g, i, d, CountAfter(d, off, |bs|), off, bs)
    ensures BmapLogs(g, i, bn, c) == BmapLogs(f, i, bn, c)
  {
    hide Addr;
  }

  lemma HasIndirect(g: Fs, i: nat, c: nat, bn: nat)
    requires Shaped(g) && i < |g.ino| && HasBlocks(g, i, c) && bn < c
    ensures bn >= NDIRECT ==> Addr(g, Ind(i)) != 0
  {
  }

  lemma LogsSplit(g: Fs, i: nat, c: nat, lo: nat, hi: nat)
    requires Shaped(g) && i < |g.ino| && lo < hi <= MAXFILE && (lo >= NDIRECT ==> Addr(g, Ind(i)) != 0)
    ensures BmapLogs(g, i, lo, c) + WriteLogs(g, i, c, lo + 1, hi) <= WriteLogs(g, i, c, lo, hi)
  {
    hide Addr;
  }

  lemma {:induction false} LogsMono(g: Fs, i: nat, c: nat, d: nat, lo: nat, hi: nat)
    requires Shaped(g) && i < |g.ino| && hi <= MAXFILE && c <= d
    ensures WriteLogs(g, i, d, lo, hi) <= WriteLogs(g, i, c, lo, hi)
  {
    hide Addr;
    MapMono(g, i, Max(lo, c), Max(lo, d), hi);
  }

  lemma {:induction false} MapMono(g: Fs, i: nat, lo: nat, up: nat, hi: nat)
    requires Shaped(g) && i < |g.ino| && hi <= MAXFILE && lo <= up
    ensures MapBlocks(g, i, up, hi) <= MapBlocks(g, i, lo, hi)
    decreases up - lo
  {
    hide Addr;
    if lo < up {
      MapMono(g, i, lo + 1, up, hi);
    }
  }

  lemma EmptyWrite(fs: Fs, i: nat, off: nat)
    requires Shaped(fs) && i < |fs.ino|
    ensures WriteLoop(fs, i, off, []) == Some(fs)
  {
  }
}
