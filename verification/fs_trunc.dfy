/** itrunc (fs.c): it frees exactly one inode's blocks. */
module FsTrunc {
  import opened Prelude
  import opened FsState
  import opened FsBlocks
  import opened FsContent
  import opened FsFiles

  function Nonzero(s: seq<nat>): seq<nat> {
    if s == [] then [] else if s[0] == 0 then Nonzero(s[1..]) else [s[0]] + Nonzero(s[1..])
  }

  function Words(b: Block): (r: seq<nat>)
    ensures |r| == NINDIRECT && forall j :: 0 <= j < NINDIRECT ==> r[j] == Word(b, j)
  {
    seq(NINDIRECT, j requires 0 <= j < NINDIRECT => Word(b, j))
  }

  /** The blocks itrunc frees, in order: direct, indirect entries, the indirect block. */
  function FileBlocks(fs: Fs, i: nat): seq<nat>
    requires Shaped(fs) && i < |fs.ino|
  {
    var a := fs.ino[i].addrs;
    Nonzero(a[..NDIRECT])
    + if a[NDIRECT] == 0 || a[NDIRECT] >= |fs.blk| then [] else Nonzero(Words(fs.blk[a[NDIRECT]])) + [a[NDIRECT]]
  }

  function FreeAll(fs: Fs, bs: seq<nat>): (r: Option<Fs>)
    ensures r.Some? ==> r.value.ino == fs.ino && r.value.dino == fs.dino
    decreases |bs|
  {
    if bs == [] then Some(fs)
    else match Bfree(fs, bs[0])
      case None => None
      case Some(f) => FreeAll(f, bs[1..])
  }

  const EMPTY: Inode := Inode(0, [0, 0, 0, 0, 0, 0, 0, 0, 0, 0, 0, 0, 0])

  function ClearInode(fs: Fs, i: nat): Fs
    requires i < |fs.ino|
  {
    fs.(ino := fs.ino[i := EMPTY])
  }

  /** None is a panic: a freed block was free, or an address is off the disk. */
  function Itrunc(fs: Fs, i: nat): Option<Fs>
    requires Shaped(fs) && i < |fs.ino| == |fs.dino|
  {
    if fs.ino[i].addrs[NDIRECT] >= |fs.blk| && fs.ino[i].addrs[NDIRECT] != 0 then None
    else match FreeAll(fs, FileBlocks(fs, i))
      case None => None
      case Some(f) => Some(Iupdate(ClearInode(f, i), i))
  }

  // ---- the list of freed blocks ----

  lemma {:induction false} NonzeroPrefix(s: seq<nat>, c: nat)
    requires c <= |s| && forall k :: 0 <= k < |s| ==> (s[k] != 0 <==> k < c)
    ensures Nonzero(s) == s[..c]
  {
    if s != [] {
      NonzeroPrefix(s[1..], if c == 0 then 0 else c - 1);
      assert c > 0 ==> s[..c] == [s[0]] + s[1..][..c - 1];
    }
  }

  /** Slot k of a file of c blocks. */
  function SlotAt(i: nat, c: nat, k: nat): Slot {
    if k < c then Data(i, k) else Ind(i)
  }

  /** The freed list holds each of the file's addresses once, in slot order. */
  lemma FileBlocksAre(fs: Fs, i: nat, c: nat)
    requires Conserved(fs) && i < |fs.ino| && HasBlocks(fs, i, c)
    ensures |FileBlocks(fs, i)| == Total(c)
    ensures forall k :: 0 <= k < Total(c) ==> FileBlocks(fs, i)[k] == Addr(fs, SlotAt(i, c, k))
  {
    hide Word, Injective, BitmapExact;
    var a := fs.ino[i].addrs;
    forall k | 0 <= k < NDIRECT ensures a[..NDIRECT][k] != 0 <==> k < c {
      assert Addr(fs, Data(i, k)) == a[k];
    }
    NonzeroPrefix(a[..NDIRECT], Min(c, NDIRECT));
    if c > NDIRECT {
      assert SlotOk(fs, Ind(i)) && Addr(fs, Ind(i)) != 0;
      var w := Words(fs.blk[a[NDIRECT]]);
      forall k | 0 <= k < NINDIRECT ensures w[k] != 0 <==> k < c - NDIRECT {
        assert Addr(fs, Data(i, NDIRECT + k)) == w[k];
      }
      NonzeroPrefix(w, c - NDIRECT);
    }
  }

  // ---- freeing them ----

  lemma {:induction false} FreeGiven(used: seq<bool>, b: nat)
    requires b < |used| && used[b]
    ensures Free(used[b := false]) == Free(used) + 1
  {
    FreeTaken(used[b := false], b);
    assert used[b := false][b := true] == used;
  }

  /** Freeing distinct used blocks meets no free bit and clears just their bits. */
  lemma {:induction false} FreeAllFrees(fs: Fs, bs: seq<nat>)
    requires Distinct(bs) && forall k :: 0 <= k < |bs| ==> bs[k] < |fs.used| && fs.used[bs[k]]
    ensures FreeAll(fs, bs).Some?
    ensures var f := FreeAll(fs, bs).value;
      && f == fs.(used := f.used, log := f.log) && |f.used| == |fs.used|
      && (forall b :: 0 <= b < |fs.used| ==> (f.used[b] <==> fs.used[b] && b !in bs))
      && Free(f.used) == Free(fs.used) + |bs|
    decreases |bs|
  {
    if bs != [] {
      var f := Bfree(fs, bs[0]).value;
      FreeGiven(fs.used, bs[0]);
      FreeAllFrees(f, bs[1..]);
      assert bs == [bs[0]] + bs[1..];
    }
  }

  lemma BlocksDistinct(fs: Fs, i: nat, c: nat)
    requires Conserved(fs) && i < |fs.ino| && HasBlocks(fs, i, c)
    ensures Distinct(FileBlocks(fs, i))
    ensures |FileBlocks(fs, i)| == Total(c)
    ensures forall k :: 0 <= k < Total(c) ==>
              fs.sb.meta <= FileBlocks(fs, i)[k] < |fs.used| && fs.used[FileBlocks(fs, i)[k]]
  {
    FileBlocksAre(fs, i, c);
    hide Addr, FileBlocks;
    var bs := FileBlocks(fs, i);
    forall k | 0 <= k < Total(c)
      ensures fs.sb.meta <= bs[k] < |fs.used| && fs.used[bs[k]] && SlotOk(fs, SlotAt(i, c, k))
    {
      var s := SlotAt(i, c, k);
      assert SlotOk(fs, s) && Addr(fs, s) != 0;
      assert Reached(fs, bs[k]);
    }
  }

  // ---- the file system afterwards ----

  ghost predicate OwnedBy(fs: Fs, i: nat, b: nat)
    requires Shaped(fs) && i < |fs.ino|
  {
    exists s :: SlotOk(fs, s) && s.i == i && Addr(fs, s) == b != 0
  }

  lemma OwnedIff(fs: Fs, i: nat, c: nat, b: nat)
    requires Conserved(fs) && i < |fs.ino| && HasBlocks(fs, i, c)
    ensures b in FileBlocks(fs, i) <==> OwnedBy(fs, i, b)
  {
    hide Addr, FileBlocks, InRange, Injective, BitmapExact, HasBlocks, Distinct;
    BlocksDistinct(fs, i, c);
    FileBlocksAre(fs, i, c);
    var bs := FileBlocks(fs, i);
    if b in bs {
      var k :| 0 <= k < |bs| && bs[k] == b;
      PosOwned(fs, i, c, k);
    }
    if OwnedBy(fs, i, b) {
      var s :| SlotOk(fs, s) && s.i == i && Addr(fs, s) == b != 0;
      OwnedPos(fs, i, c, s);
      assert bs[if s.Ind? then c else s.bn] == b;
    }
  }

  lemma PosOwned(fs: Fs, i: nat, c: nat, k: nat)
    requires Conserved(fs) && i < |fs.ino| && HasBlocks(fs, i, c) && k < Total(c)
    ensures SlotOk(fs, SlotAt(i, c, k)) && SlotAt(i, c, k).i == i
  {
    hide Addr, InRange, Injective, BitmapExact;
  }

  lemma OwnedPos(fs: Fs, i: nat, c: nat, s: Slot)
    requires Conserved(fs) && i < |fs.ino| && HasBlocks(fs, i, c) && SlotOk(fs, s) && s.i == i && Addr(fs, s) != 0
    ensures var k := if s.Ind? then c else s.bn; k < Total(c) && SlotAt(i, c, k) == s
  {
    hide Addr, InRange, Injective, BitmapExact;
  }

  lemma ClearedAddrs(fs: Fs, f: Fs, i: nat, s: Slot)
    requires Shaped(fs) && Shaped(f) && i < |fs.ino| && f.blk == fs.blk && f.ino == fs.ino[i := EMPTY] && SlotOk(fs, s)
    ensures Addr(f, s) == if s.i == i then 0 else Addr(fs, s)
  {
  }

  lemma TruncConserved(fs: Fs, f: Fs, i: nat)
    requires Conserved(fs) && i < |fs.ino| && Shaped(f)
    requires f.blk == fs.blk && f.ino == fs.ino[i := EMPTY] && f.sb == fs.sb
    requires forall b :: 0 <= b < |fs.used| ==> (f.used[b] <==> fs.used[b] && !OwnedBy(fs, i, b))
    ensures Conserved(f)
  {
    hide Addr;
    forall s | SlotOk(fs, s) ensures Addr(f, s) == if s.i == i then 0 else Addr(fs, s) {
      ClearedAddrs(fs, f, i, s);
    }
    assert forall s :: SlotOk(f, s) <==> SlotOk(fs, s);
    forall b | 0 <= b < |f.used| ensures f.used[b] <==> b < f.sb.meta || Reached(f, b) {
      TruncReached(fs, f, i, b);
    }
  }

  lemma TruncReached(fs: Fs, f: Fs, i: nat, b: nat)
    requires Conserved(fs) && i < |fs.ino| && Shaped(f) && |f.ino| == |fs.ino| && b < |fs.used|
    requires forall s :: SlotOk(fs, s) ==> Addr(f, s) == if s.i == i then 0 else Addr(fs, s)
    ensures (b < fs.sb.meta || Reached(f, b)) <==> (fs.used[b] && !OwnedBy(fs, i, b))
  {
    hide Addr;
    if b >= fs.sb.meta && Reached(f, b) {
      var s :| SlotOk(f, s) && Addr(f, s) == b;
      assert SlotOk(fs, s) && Addr(fs, s) == b && s.i != i;
      assert Reached(fs, b);
    }
    if b >= fs.sb.meta && fs.used[b] && !OwnedBy(fs, i, b) {
      var s :| SlotOk(fs, s) && Addr(fs, s) == b;
      assert s.i != i;
      assert SlotOk(f, s) && Addr(f, s) == b;
    }
  }

  /** itrunc never panics, frees exactly the blocks that inode i owned, empties file i, leaves
      every other file as it was and the invariant in force. */
  lemma ItruncFrees(fs: Fs, i: nat)
    requires Inv(fs) && i < |fs.ino|
    ensures |fs.dino| == |fs.ino| && Itrunc(fs, i).Some?
    ensures var f := Itrunc(fs, i).value;
      && Inv(f) && |f.ino| == |fs.ino| && |f.used| == |fs.used| && Content(f, i) == []
      && (forall j :: 0 <= j < |fs.ino| && j != i ==> Content(f, j) == Content(fs, j))
      && (forall b :: 0 <= b < |fs.used| ==> (fs.used[b] && !f.used[b] <==> OwnedBy(fs, i, b)))
      && (forall b :: 0 <= b < |fs.used| ==> (f.used[b] ==> fs.used[b]))
      && Free(f.used) == Free(fs.used) + Total(NBlocks(fs.ino[i].size))
  {
    hide Addr, FileBlocks, Injective, BitmapExact, HasBlocks, FileByte, OwnedBy, Free, Total, NBlocks;
    InvFacts(fs, i);
    var c := NBlocks(fs.ino[i].size);
    var bs := FileBlocks(fs, i);
    BlocksDistinct(fs, i, c);
    FileBlocksAre(fs, i, c);
    FreeAllFrees(fs, bs);
    IndAddr(fs, i);
    var f := Itrunc(fs, i).value;
    forall b | 0 <= b < |fs.used| ensures f.used[b] <==> fs.used[b] && !OwnedBy(fs, i, b) {
      OwnedIff(fs, i, c, b);
    }
    forall b | 0 <= b < |fs.used| ensures OwnedBy(fs, i, b) ==> fs.used[b] {
      OwnedIff(fs, i, c, b);
    }
    TruncConserved(fs, f, i);
    TruncRest(fs, f, i);
  }

  lemma IndAddr(fs: Fs, i: nat)
    requires Conserved(fs) && i < |fs.ino|
    ensures fs.ino[i].addrs[NDIRECT] == 0 || fs.ino[i].addrs[NDIRECT] < |fs.blk|
  {
    assert SlotOk(fs, Ind(i)) && Addr(fs, Ind(i)) == fs.ino[i].addrs[NDIRECT];
  }

  lemma TruncFile(fs: Fs, f: Fs, i: nat, j: nat)
    requires Inv(fs) && i < |fs.ino| && Shaped(f) && f.blk == fs.blk && f.ino == fs.ino[i := EMPTY] && j < |fs.ino|
    ensures HasBlocks(f, j, NBlocks(f.ino[j].size))
    ensures j != i ==> forall k :: 0 <= k < fs.ino[j].size ==>
              k / BSIZE < MAXFILE && FileByte(f, j, k) == FileByte(fs, j, k)
  {
    hide Addr;
    InvFacts(fs, j);
    forall bn | 0 <= bn < MAXFILE ensures Addr(f, Data(j, bn)) == if j == i then 0 else Addr(fs, Data(j, bn)) {
      ClearedAddrs(fs, f, i, Data(j, bn));
    }
    ClearedAddrs(fs, f, i, Ind(j));
  }

  lemma TruncRest(fs: Fs, f: Fs, i: nat)
    requires Inv(fs) && i < |fs.ino| && Conserved(f)
    requires f.blk == fs.blk && f.ino == fs.ino[i := EMPTY] && f.dino == f.ino
    ensures Inv(f) && Content(f, i) == []
    ensures forall j :: 0 <= j < |fs.ino| && j != i ==> Content(f, j) == Content(fs, j)
  {
    hide Addr, FileByte, InRange, Injective, BitmapExact, HasBlocks, NBlocks;
    InvFacts(fs, i);
    forall j | 0 <= j < |fs.ino| ensures HasBlocks(f, j, NBlocks(f.ino[j].size)) {
      TruncFile(fs, f, i, j);
    }
    assert Inv(f);
    forall j | 0 <= j < |fs.ino| && j != i ensures Content(f, j) == Content(fs, j) {
      TruncFile(fs, f, i, j);
      ContentIs(f, j, Content(fs, j));
    }
  }
}
