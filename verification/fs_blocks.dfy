/** Block allocation: balloc, bzero, bfree and bmap (fs.c), and what they keep. */
module FsBlocks {
  import opened Prelude
  import opened FsState

  // ---- the steps, as functions of the file system ----

  function BBlock(sb: Super, b: nat): nat {
    b / BPB + sb.bmapstart
  }

  function FirstFree(used: seq<bool>, b: nat): (r: nat)
    requires b <= |used|
    ensures b <= r <= |used| && (forall k :: b <= k < r ==> used[k]) && (r < |used| ==> !used[r])
    decreases |used| - b
  {
    if b == |used| || !used[b] then b else FirstFree(used, b + 1)
  }

  predicate SameShape(fs: Fs, f: Fs) {
    Shaped(f) && |f.ino| == |fs.ino| && |f.dino| == |fs.dino| && |f.blk| == |fs.blk|
  }

  /** The first free block, marked and zeroed; None is the out-of-blocks panic. */
  function Balloc(fs: Fs): (r: Option<(Fs, nat)>)
    requires Shaped(fs)
    ensures r.Some? ==> SameShape(fs, r.value.0)
  {
    var b := FirstFree(fs.used, 0);
    if b == |fs.used| then None
    else Some((fs.(used := fs.used[b := true], blk := fs.blk[b := ZeroBlock()],
                   log := fs.log + [BBlock(fs.sb, b), b]), b))
  }

  /** None is the freeing-free-block panic. */
  function Bfree(fs: Fs, b: nat): Option<Fs>
  {
    if b >= |fs.used| || !fs.used[b] then None
    else Some(fs.(used := fs.used[b := false], log := fs.log + [BBlock(fs.sb, b)]))
  }

  function SetAddr(fs: Fs, i: nat, k: nat, a: nat): Fs
    requires i < |fs.ino| && k < |fs.ino[i].addrs|
  {
    fs.(ino := fs.ino[i := fs.ino[i].(addrs := fs.ino[i].addrs[k := a])])
  }

  /** Address k of the inode, allocating a block for it if there is none. */
  function OwnAddr(fs: Fs, i: nat, k: nat): (r: Option<Fs>)
    requires Shaped(fs) && i < |fs.ino| && k <= NDIRECT
    ensures r.Some? ==> SameShape(fs, r.value)
  {
    if fs.ino[i].addrs[k] != 0 then Some(fs)
    else match Balloc(fs)
      case None => None
      case Some(p) => Some(SetAddr(p.0, i, k, p.1))
  }

  /** Entry j of the indirect block in block a, allocating a block for it if there is none. */
  function OwnEntry(fs: Fs, a: nat, j: nat): (r: Option<(Fs, nat)>)
    requires Shaped(fs) && j < NINDIRECT
    ensures r.Some? ==> SameShape(fs, r.value.0)
  {
    if a >= |fs.blk| then None
    else if Word(fs.blk[a], j) != 0 then Some((fs, Word(fs.blk[a], j)))
    else match Balloc(fs)
      case None => None
      case Some(p) => Some((p.0.(blk := p.0.blk[a := PutWord(p.0.blk[a], j, p.1)], log := p.0.log + [a]), p.1))
  }

  /** None is a panic: out of blocks, or bn out of range. */
  function Bmap(fs: Fs, i: nat, bn: nat): (r: Option<(Fs, nat)>)
    requires Shaped(fs) && i < |fs.ino|
    ensures r.Some? ==> SameShape(fs, r.value.0)
  {
    if bn < NDIRECT then
      match OwnAddr(fs, i, bn)
      case None => None
      case Some(f) => Some((f, f.ino[i].addrs[bn]))
    else if bn < MAXFILE then
      match OwnAddr(fs, i, NDIRECT)
      case None => None
      case Some(f) => OwnEntry(f, f.ino[i].addrs[NDIRECT], bn - NDIRECT)
    else None
  }

  // ---- allocating into one slot ----

  /** f is fs with the free block b placed in slot s; only b and, for an indirect entry, the
      indirect block changed. */
  ghost predicate Placed(fs: Fs, f: Fs, s: Slot, b: nat)
    requires Shaped(fs) && SlotOk(fs, s)
  {
    && Shaped(f) && f.sb == fs.sb && |f.ino| == |fs.ino| && |f.blk| == |fs.blk| && f.dino == fs.dino
    && b < |fs.used| && !fs.used[b] && f.used == fs.used[b := true]
    && Addr(fs, s) == 0 && Addr(f, s) == b && f.blk[b] == ZeroBlock()
    && (forall t :: SlotOk(fs, t) && t != s ==> Addr(f, t) == Addr(fs, t))
    && (forall j :: 0 <= j < |fs.ino| ==> f.ino[j].size == fs.ino[j].size)
    && (forall x :: 0 <= x < |fs.blk| && x != b && x != Addr(fs, Ind(s.i)) ==> f.blk[x] == fs.blk[x])
    && (s.Ind? || s.bn < NDIRECT ==> forall x :: 0 <= x < |fs.blk| && x != b ==> f.blk[x] == fs.blk[x])
  }

  lemma FreeUnreachedMeta(fs: Fs, b: nat)
    requires Conserved(fs) && b < |fs.used| && !fs.used[b]
    ensures fs.sb.meta <= b
  {
  }

  /** A block in no slot is free, and a free block is in no slot. */
  lemma FreeUnreached(fs: Fs, b: nat, s: Slot)
    requires Conserved(fs) && SlotOk(fs, s) && b < |fs.used| && !fs.used[b]
    ensures fs.sb.meta <= b && Addr(fs, s) != b
  {
    assert Reached(fs, Addr(fs, s));
  }

  lemma PlacedConserves(fs: Fs, f: Fs, s: Slot, b: nat)
    requires Conserved(fs) && SlotOk(fs, s) && Placed(fs, f, s, b)
    ensures Conserved(f)
  {
    hide Addr;
    assert forall t :: SlotOk(f, t) <==> SlotOk(fs, t);
    FreeUnreached(fs, b, s);
    forall t | SlotOk(fs, t)
      ensures Addr(fs, t) != b
    {
      FreeUnreached(fs, b, t);
    }
    forall x | 0 <= x < |f.used|
      ensures f.used[x] <==> x < f.sb.meta || Reached(f, x)
    {
      if x >= f.sb.meta {
        ReachedAfter(fs, f, s, b, x);
      }
    }
  }

  lemma ReachedAfter(fs: Fs, f: Fs, s: Slot, b: nat, x: nat)
    requires Shaped(fs) && SlotOk(fs, s) && Placed(fs, f, s, b)
    requires x != 0
    ensures Reached(f, x) <==> x == b || Reached(fs, x)
  {
    hide Addr;
    if x == b {
      assert SlotOk(f, s);
    }
    if Reached(fs, x) {
      var t :| SlotOk(fs, t) && Addr(fs, t) == x;
      assert SlotOk(f, t) && Addr(f, t) == x;
    }
    if Reached(f, x) {
      var t :| SlotOk(f, t) && Addr(f, t) == x;
      assert SlotOk(fs, t);
    }
  }

  lemma BallocFree(fs: Fs)
    requires Conserved(fs) && Balloc(fs).Some?
    ensures var p := Balloc(fs).value; p.1 < |fs.used| && !fs.used[p.1] && fs.sb.meta <= p.1
    ensures forall t :: SlotOk(fs, t) ==> Addr(fs, t) != Balloc(fs).value.1
  {
    hide Addr;
    var b := Balloc(fs).value.1;
    forall t | SlotOk(fs, t)
      ensures Addr(fs, t) != b
    {
      FreeUnreached(fs, b, t);
    }
    FreeUnreachedMeta(fs, b);
  }

  lemma AddrPlaced(fs: Fs, i: nat, k: nat, f: Fs)
    requires Conserved(fs) && i < |fs.ino| && k <= NDIRECT
    requires fs.ino[i].addrs[k] == 0 && OwnAddr(fs, i, k) == Some(f)
    ensures Placed(fs, f, if k == NDIRECT then Ind(i) else Data(i, k), f.ino[i].addrs[k])
  {
    hide Word;
    BallocFree(fs);
    var b := Balloc(fs).value.1;
    var s := if k == NDIRECT then Ind(i) else Data(i, k);
    forall t | SlotOk(fs, t) && t != s
      ensures Addr(f, t) == Addr(fs, t)
    {
      assert Addr(fs, Ind(t.i)) != b;
      if t.i == i && k == NDIRECT && t.Data? && t.bn >= NDIRECT {
        ZeroWords(t.bn - NDIRECT);
      }
    }
  }

  lemma EntryPlaced(fs: Fs, i: nat, j: nat, f: Fs, b: nat)
    requires Conserved(fs) && i < |fs.ino| && j < NINDIRECT
    requires var a := Addr(fs, Ind(i));
             a != 0 && Addr(fs, Data(i, NDIRECT + j)) == 0 && OwnEntry(fs, a, j) == Some((f, b))
    ensures Placed(fs, f, Data(i, NDIRECT + j), b) && f.ino == fs.ino
  {
    hide Word, PutWord;
    BallocFree(fs);
    var a := Addr(fs, Ind(i));
    var s := Data(i, NDIRECT + j);
    forall t | SlotOk(fs, t) && t != s
      ensures Addr(f, t) == Addr(fs, t)
    {
      assert Addr(fs, Ind(t.i)) != b;
      assert t.i != i ==> Addr(fs, Ind(t.i)) != a;
    }
  }

  // ---- what bmap does ----

  /** File j has the same size and the same blocks with the same bytes. */
  ghost predicate SameFile(fs: Fs, f: Fs, j: nat)
    requires Shaped(fs) && Shaped(f) && j < |fs.ino| && j < |f.ino|
  {
    && f.ino[j].size == fs.ino[j].size && |f.blk| == |fs.blk|
    && Addr(f, Ind(j)) == Addr(fs, Ind(j))
    && forall bn :: 0 <= bn < MAXFILE ==> SameEntry(fs, f, j, bn)
  }

  predicate SameEntry(fs: Fs, f: Fs, j: nat, bn: nat)
    requires Shaped(fs) && Shaped(f) && j < |fs.ino| && j < |f.ino| && bn < MAXFILE
  {
    var a := Addr(fs, Data(j, bn));
    Addr(f, Data(j, bn)) == a && (a != 0 && a < |fs.blk| && a < |f.blk| ==> f.blk[a] == fs.blk[a])
  }

  /** A step for file i, which had c blocks: blocks are conserved, the old blocks keep their
      place and bytes, and every other file is untouched. */
  ghost predicate Grown(fs: Fs, f: Fs, i: nat, c: nat)
    requires Conserved(fs) && i < |fs.ino|
  {
    && Conserved(f) && f.sb == fs.sb && |f.ino| == |fs.ino| && |f.blk| == |fs.blk| && f.dino == fs.dino
    && f.ino[i].size == fs.ino[i].size
    && (Addr(fs, Ind(i)) != 0 ==> Addr(f, Ind(i)) == Addr(fs, Ind(i)))
    && (forall bn :: 0 <= bn < c && bn < MAXFILE ==> SameEntry(fs, f, i, bn))
    && (forall j :: 0 <= j < |fs.ino| && j != i ==> SameFile(fs, f, j))
  }

  lemma PlacedSameEntry(fs: Fs, f: Fs, s: Slot, b: nat, j: nat, bn: nat)
    requires Conserved(fs) && SlotOk(fs, s) && Placed(fs, f, s, b)
    requires j < |fs.ino| && bn < MAXFILE && s != Data(j, bn)
    ensures SameEntry(fs, f, j, bn)
  {
    hide Addr;
    FreeUnreached(fs, b, Data(j, bn));
    assert Addr(fs, Data(j, bn)) != 0 ==> Addr(fs, Data(j, bn)) != Addr(fs, Ind(s.i));
  }

  lemma PlacedSameFile(fs: Fs, f: Fs, s: Slot, b: nat, j: nat)
    requires Conserved(fs) && SlotOk(fs, s) && Placed(fs, f, s, b)
    requires j < |fs.ino| && s.i != j
    ensures SameFile(fs, f, j)
  {
    hide Addr, SameEntry;
    forall bn | 0 <= bn < MAXFILE
      ensures SameEntry(fs, f, j, bn)
    {
      PlacedSameEntry(fs, f, s, b, j, bn);
    }
  }

  lemma PlacedGrows(fs: Fs, f: Fs, s: Slot, b: nat, c: nat)
    requires Conserved(fs) && SlotOk(fs, s) && Placed(fs, f, s, b) && (s.Data? ==> s.bn >= c)
    ensures Grown(fs, f, s.i, c)
  {
    hide Addr, SameEntry, SameFile;
    PlacedConserves(fs, f, s, b);
    forall k | 0 <= k < c && k < MAXFILE ensures SameEntry(fs, f, s.i, k) {
      PlacedSameEntry(fs, f, s, b, s.i, k);
    }
    forall j | 0 <= j < |fs.ino| && j != s.i ensures SameFile(fs, f, j) {
      PlacedSameFile(fs, f, s, b, j);
    }
  }

  lemma PlacedOwns(fs: Fs, f: Fs, s: Slot, b: nat, c: nat, ind: bool)
    requires Conserved(fs) && SlotOk(fs, s) && Placed(fs, f, s, b) && Owns(fs, s.i, c, ind) && (s.Data? ==> s.bn == c)
    ensures if s.Ind? then Owns(f, s.i, c, true) else Owns(f, s.i, c + 1, ind)
  {
    hide Addr;
    FreeUnreachedMeta(fs, b);
  }

  lemma SameFileTrans(fs: Fs, f: Fs, g: Fs, j: nat)
    requires Conserved(fs) && Shaped(f) && Shaped(g) && j < |fs.ino| == |f.ino| == |g.ino|
    requires SameFile(fs, f, j) && SameFile(f, g, j)
    ensures SameFile(fs, g, j)
  {
    hide Addr;
    forall bn | 0 <= bn < MAXFILE
      ensures SameEntry(fs, g, j, bn)
    {
      assert SameEntry(fs, f, j, bn) && SameEntry(f, g, j, bn);
    }
  }

  lemma GrownTrans(fs: Fs, f: Fs, g: Fs, i: nat, c: nat, d: nat)
    requires Conserved(fs) && i < |fs.ino| && Grown(fs, f, i, c) && Grown(f, g, i, d) && c <= d
    ensures Grown(fs, g, i, c)
  {
    hide Addr, SameFile;
    forall j | 0 <= j < |fs.ino| && j != i ensures SameFile(fs, g, j) {
      SameFileTrans(fs, f, g, j);
    }
    forall bn | 0 <= bn < c && bn < MAXFILE
      ensures SameEntry(fs, g, i, bn)
    {
      assert SameEntry(fs, f, i, bn) && SameEntry(f, g, i, bn);
    }
  }

  lemma GrownRefl(fs: Fs, i: nat, c: nat)
    requires Conserved(fs) && i < |fs.ino|
    ensures Grown(fs, fs, i, c)
  {
  }

  /** What bmap may add to the transaction. */
  ghost function BmapLogs(f: Fs, i: nat, bn: nat, c: nat): set<nat>
    requires Shaped(f) && i < |f.ino| && bn < MAXFILE
  {
    var a := Addr(f, Data(i, bn));
    var ind := Addr(f, Ind(i));
    {a} + (if bn < c then {} else {BBlock(f.sb, a)}) + (if bn < NDIRECT then {} else {ind, BBlock(f.sb, ind)})
  }

  lemma {:induction false} FreeTaken(used: seq<bool>, b: nat)
    requires b < |used| && !used[b]
    ensures Free(used[b := true]) + 1 == Free(used)
  {
    if b > 0 {
      FreeTaken(used[1..], b - 1);
      assert used[b := true][1..] == used[1..][b - 1 := true];
    } else {
      assert used[b := true][1..] == used[1..];
    }
  }

  lemma {:induction false} FreeNone(used: seq<bool>)
    ensures Free(used) == 0 <==> FirstFree(used, 0) == |used|
  {
    if used != [] && used[0] {
      FreeNone(used[1..]);
      FirstFreeTail(used, 1);
    }
  }

  lemma {:induction false} FirstFreeTail(used: seq<bool>, b: nat)
    requires 1 <= b <= |used|
    ensures FirstFree(used, b) == 1 + FirstFree(used[1..], b - 1)
    decreases |used| - b
  {
    if b < |used| {
      FirstFreeTail(used, b + 1);
    }
  }

  lemma BmapFinds(fs: Fs, i: nat, bn: nat, c: nat)
    requires Conserved(fs) && i < |fs.ino| && HasBlocks(fs, i, c) && bn < c
    ensures Bmap(fs, i, bn) == Some((fs, Addr(fs, Data(i, bn))))
  {
    assert Addr(fs, Data(i, bn)) != 0;
    assert bn >= NDIRECT ==> Addr(fs, Ind(i)) != 0;
  }

  /** The slot that OwnAddr fills. */
  function AddrSlot(i: nat, k: nat): Slot {
    if k == NDIRECT then Ind(i) else Data(i, k)
  }

  lemma OwnAddrStep(fs: Fs, i: nat, k: nat, c: nat, ind: bool)
    requires Conserved(fs) && i < |fs.ino| && k <= NDIRECT && fs.ino[i].addrs[k] == 0
    requires Owns(fs, i, c, ind) && (k == NDIRECT || k == c)
    ensures OwnAddr(fs, i, k).Some? <==> Free(fs.used) >= 1
    ensures OwnAddr(fs, i, k).Some? ==>
      var f := OwnAddr(fs, i, k).value;
      && Grown(fs, f, i, c) && Free(f.used) + 1 == Free(fs.used)
      && (if k == NDIRECT then Owns(f, i, c, true) else Owns(f, i, c + 1, ind))
      && f.log == fs.log + [BBlock(fs.sb, f.ino[i].addrs[k]), f.ino[i].addrs[k]]
  {
    FreeNone(fs.used);
    if OwnAddr(fs, i, k).Some? {
      var f := OwnAddr(fs, i, k).value;
      var b := f.ino[i].addrs[k];
      AddrPlaced(fs, i, k, f);
      hide Addr, Owns, Conserved, Placed, Grown;
      PlacedGrows(fs, f, AddrSlot(i, k), b, c);
      PlacedOwns(fs, f, AddrSlot(i, k), b, c, ind);
      FreeTaken(fs.used, b);
    }
  }

  lemma OwnEntryStep(fs: Fs, i: nat, c: nat)
    requires Conserved(fs) && i < |fs.ino| && NDIRECT <= c < MAXFILE && Owns(fs, i, c, true)
    ensures var r := OwnEntry(fs, Addr(fs, Ind(i)), c - NDIRECT); r.Some? <==> Free(fs.used) >= 1
    ensures var r := OwnEntry(fs, Addr(fs, Ind(i)), c - NDIRECT); r.Some? ==>
      var (f, b) := r.value;
      && Grown(fs, f, i, c) && Free(f.used) + 1 == Free(fs.used)
      && Owns(f, i, c + 1, true) && b == Addr(f, Data(i, c))
      && f.log == fs.log + [BBlock(fs.sb, b), b] + [Addr(f, Ind(i))]
  {
    FreeNone(fs.used);
    var a := Addr(fs, Ind(i));
    assert Addr(fs, Data(i, c)) == 0;
    assert Word(fs.blk[a], c - NDIRECT) == 0;
    var r := OwnEntry(fs, a, c - NDIRECT);
    if r.Some? {
      var (f, b) := r.value;
      EntryPlaced(fs, i, c - NDIRECT, f, b);
      hide Addr, Owns, Conserved, Placed, Grown;
      PlacedGrows(fs, f, Data(i, c), b, c);
      PlacedOwns(fs, f, Data(i, c), b, c, true);
      FreeTaken(fs.used, b);
    }
  }

  /** bmap at the end of a file allocates its next block, and an indirect block when that is
      the first to need one; it fails just when the disk has too few free blocks. */
  lemma BmapGrows(fs: Fs, i: nat, c: nat)
    requires Conserved(fs) && i < |fs.ino| && HasBlocks(fs, i, c) && c < MAXFILE
    ensures Bmap(fs, i, c).Some? <==> Free(fs.used) >= Total(c + 1) - Total(c)
    ensures Bmap(fs, i, c).Some? ==>
      var (f, a) := Bmap(fs, i, c).value;
      && Grown(fs, f, i, c) && HasBlocks(f, i, c + 1) && a == Addr(f, Data(i, c))
      && Free(f.used) + Total(c + 1) == Free(fs.used) + Total(c)
      && Appends(fs.log, f.log, BmapLogs(f, i, c, c))
  {
    assert Addr(fs, Data(i, c)) == 0;
    if c < NDIRECT {
      OwnAddrStep(fs, i, c, c, false);
    } else if c > NDIRECT {
      OwnEntryStep(fs, i, c);
    } else {
      BmapFirstIndirect(fs, i);
    }
  }

  lemma BmapFirstIndirect(fs: Fs, i: nat)
    requires Conserved(fs) && i < |fs.ino| && HasBlocks(fs, i, NDIRECT)
    ensures Bmap(fs, i, NDIRECT).Some? <==> Free(fs.used) >= 2
    ensures Bmap(fs, i, NDIRECT).Some? ==>
      var (f, a) := Bmap(fs, i, NDIRECT).value;
      && Grown(fs, f, i, NDIRECT) && HasBlocks(f, i, NDIRECT + 1) && a == Addr(f, Data(i, NDIRECT))
      && Free(f.used) + 2 == Free(fs.used)
      && Appends(fs.log, f.log, BmapLogs(f, i, NDIRECT, NDIRECT))
  {
    assert Addr(fs, Ind(i)) == fs.ino[i].addrs[NDIRECT] == 0;
    OwnAddrStep(fs, i, NDIRECT, NDIRECT, false);
    if OwnAddr(fs, i, NDIRECT).Some? {
      var f := OwnAddr(fs, i, NDIRECT).value;
      assert Addr(f, Ind(i)) == f.ino[i].addrs[NDIRECT];
      hide OwnAddr, OwnEntry, Owns, Addr;
      OwnEntryStep(f, i, NDIRECT);
      var r := OwnEntry(f, Addr(f, Ind(i)), 0);
      if r.Some? {
        hide SameEntry, SameFile;
        assert Addr(r.value.0, Ind(i)) == Addr(f, Ind(i));
        GrownTrans(fs, f, r.value.0, i, NDIRECT, NDIRECT);
      }
    }
  }
}
