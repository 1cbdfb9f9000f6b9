/** malloc, free and morecore in place on the linked free list (umalloc.c). */
module UserAllocator {
  import opened Prelude
  import opened UserHeap

  // ---- free's search ----

  /** The exit condition of the for loop in free, at p with successor q. */
  predicate FoundPlace(bp: int, p: int, q: int) {
    (bp > p && bp < q) || (p >= q && (bp > p || bp < q))
  }

  /** The loop stops exactly at the last list element below bp. */
  lemma StopsAt(h: Heap, bp: int, i: nat)
    requires Loose(h) && h.base < bp && bp !in h.free && i < |h.free|
    ensures FoundPlace(bp, h.free[i], Next(h, h.free[i])) <==> i == Below(h.free, bp)
  {
    hide Tiled, LiveOk, Below;
    var n, t := |h.free|, Below(h.free, bp);
    assert Next(h, h.free[i]) == h.free[if i + 1 < n then i + 1 else 0];
    assert i < t ==> h.free[i] < h.free[i + 1] <= h.free[t];
    assert i > t ==> bp <= h.free[i] && h.free[i] in h.free;
    assert i == t && i + 1 < n ==> bp <= h.free[i + 1] && h.free[i + 1] in h.free;
    assert i > 0 ==> h.free[0] < h.free[i];
  }

  lemma LiveNotFree(h: Heap, bp: int)
    requires Loose(h) && bp in h.live
    ensures bp !in h.free && h.base < bp && Fits(h, bp, Below(h.free, bp))
  {
    forall i | 0 <= i < |h.free| ensures h.free[i] != bp {
      assert i >= 1 ==> Apart(h.free[i], Size(h, h.free[i]), bp, h.live[bp]);
    }
    var t := Below(h.free, bp);
    assert t + 1 < |h.free| ==> h.free[t + 1] in h.free;
  }

  /** The header writes of free, after the search found p with successor q. */
  function FreeWrites(hdr: map<int, Header>, bp: int, p: int, q: int): map<int, Header>
    requires bp in hdr && p in hdr && q in hdr
  {
    var h1 := hdr[bp := if bp + hdr[bp].size == q then Header(hdr[q].ptr, hdr[bp].size + hdr[q].size)
                        else Header(q, hdr[bp].size)];
    h1[p := if p + h1[p].size == bp then Header(h1[bp].ptr, h1[p].size + h1[bp].size) else Header(bp, h1[p].size)]
  }

  /** The first write of free on each side: bp goes between p and q. */
  lemma InsertWrites(h: Heap, bp: int, t: nat)
    requires Spaced(h) && HasHeaders(h) && bp in h.hdr && Fits(h, bp, t)
    ensures var h', p, q := Insert(h, bp, t), h.free[t], h.free[Succ(h, t)];
            && p in h.hdr && q in h.hdr && p < bp && q != bp && (t + 1 < |h.free| ==> p < q)
            && h'.hdr == h.hdr[bp := Header(q, h.hdr[bp].size)][p := Header(bp, h.hdr[p].size)]
            && |h'.free| == |h.free| + 1 && h'.free[t] == p && h'.free[t + 1] == bp
            && (t + 1 < |h.free| ==> h'.free[t + 2] == q)
            && (t + 1 == |h.free| ==> q <= p)
  {
    assert h.free[t] in h.free && h.free[Succ(h, t)] in h.free;
    assert t + 1 == |h.free| && t > 0 ==> h.free[0] < h.free[t];
  }

  /** Merging with the successor rewrites bp's header only. */
  lemma JoinUpWrites(h: Heap, t: nat, bp: int, q: int)
    requires t + 1 < |h.free| && h.free[t + 1] == bp && bp in h.hdr && q in h.hdr
    requires if t + 2 < |h.free| then h.free[t + 2] == q else q < bp
    ensures var h' := JoinIf(h, t + 1);
            && h'.hdr == (if bp + h.hdr[bp].size == q
                          then h.hdr[bp := Header(h.hdr[q].ptr, h.hdr[bp].size + h.hdr[q].size)] else h.hdr)
            && |h'.free| > t + 1 && h'.free[t] == h.free[t] && h'.free[t + 1] == bp
  {
  }

  /** Merging with the predecessor rewrites p's header only. */
  lemma JoinDownWrites(h: Heap, t: nat, p: int, bp: int)
    requires t + 1 < |h.free| && h.free[t] == p && h.free[t + 1] == bp && p in h.hdr && bp in h.hdr
    ensures JoinIf(h, t).hdr
            == if p + h.hdr[p].size == bp
               then h.hdr[p := Header(h.hdr[bp].ptr, h.hdr[p].size + h.hdr[bp].size)] else h.hdr
  {
  }

  /** They are what Freed describes as insert and merge. */
  lemma FreeWritesAre(h: Heap, bp: int, t: nat)
    requires Valid(h) && bp in h.live && Fits(h, bp, t) && bp !in h.free
    ensures h.free[t] in h.hdr && h.free[Succ(h, t)] in h.hdr && bp in h.hdr
    ensures Freed(h, bp, t).hdr == FreeWrites(h.hdr, bp, h.free[t], h.free[Succ(h, t)])
  {
    hide Tiled, LiveOk, Linked, Spaced, Insert, JoinIf;
    var p, q := h.free[t], h.free[Succ(h, t)];
    InsertWrites(h, bp, t);
    var h1 := Insert(h, bp, t);
    JoinUpWrites(h1, t, bp, q);
    JoinDownWrites(JoinIf(h1, t + 1), t, p, bp);
    assert Freed(h, bp, t).hdr == FreeWrites(h.hdr, bp, p, q);
  }

  // ---- malloc's scan ----

  /** The list as malloc scans it from position f: the successor first, free[f] last. */
  function Scan(s: seq<int>, f: nat): (w: seq<int>)
    requires f < |s|
    ensures |w| == |s| && w[|w| - 1] == s[f]
    ensures forall x :: x in w <==> x in s
  {
    assert s == s[..f + 1] + s[f + 1..];
    s[f + 1..] + s[..f + 1]
  }

  lemma ScanLinks(h: Heap, f: nat)
    requires Loose(h) && f < |h.free|
    ensures var w, n := Scan(h.free, f), |h.free|;
            && Next(h, h.free[f]) == w[0]
            && (forall j :: 0 <= j < n - 1 ==> Next(h, w[j]) == w[j + 1])
  {
    hide Tiled, LiveOk, Spaced;
    var w, n := Scan(h.free, f), |h.free|;
    forall j | 0 <= j < n ensures w[j] == h.free[if f + 1 + j < n then f + 1 + j else f + 1 + j - n] {}
    forall j | 0 <= j < n - 1 ensures Next(h, w[j]) == w[j + 1] {
      var k := if f + 1 + j < n then f + 1 + j else f + 1 + j - n;
      assert Next(h, h.free[k]) == h.free[if k + 1 < n then k + 1 else 0];
    }
    assert Next(h, h.free[f]) == h.free[if f + 1 < n then f + 1 else 0];
  }

  lemma ScanOrder(s: seq<int>, f: nat)
    requires Sorted(s) && f < |s|
    ensures var w := Scan(s, f); forall j, k :: 0 <= j < k < |s| ==> w[j] != w[k] && Before(s[f], w[j], w[k])
  {
    var w, n := Scan(s, f), |s|;
    forall j | 0 <= j < n ensures w[j] == s[if f + 1 + j < n then f + 1 + j else f + 1 + j - n] {}
  }

  lemma SortedInjective(s: seq<int>, i: nat, j: nat)
    requires Sorted(s) && i < |s| && j < |s| && s[i] == s[j]
    ensures i == j
  {
  }

  /** The element whose successor is free[i] is free[i - 1]. */
  lemma PrevIs(h: Heap, prev: int, i: nat)
    requires Loose(h) && 1 <= i < |h.free| && prev in h.free && Next(h, prev) == h.free[i]
    ensures prev == h.free[i - 1]
  {
    hide Tiled, LiveOk;
    var m :| 0 <= m < |h.free| && h.free[m] == prev;
    SortedInjective(h.free, if m + 1 < |h.free| then m + 1 else 0, i);
  }

  /** After a free there is a free block at least as large as the freed one. */
  lemma FreedCovers(h: Heap, bp: int, t: nat)
    requires Valid(h) && bp in h.live && Fits(h, bp, t)
    ensures exists i :: 0 <= i < |Freed(h, bp, t).free| && Size(Freed(h, bp, t), Freed(h, bp, t).free[i]) >= Size(h, bp)
  {
    hide Insert, Join, Tiled, LiveOk, Linked, Spaced;
    InsertKeeps(h, bp, t);
    InsertAt(h, bp, t, t + 1);
    InsertPrefix(h, bp, t);
    var h1 := Insert(h, bp, t);
    if Touch(h1, t + 1) {
      JoinKeeps(h1, t + 1);
      JoinAt(h1, t + 1, t + 1);
      JoinAt(h1, t + 1, t);
    }
    var h2 := JoinIf(h1, t + 1);
    assert t + 1 < |h2.free| && Size(h2, h2.free[t + 1]) >= Size(h, bp);
    var f := Freed(h, bp, t);
    assert f == JoinIf(h2, t);
    if Touch(h2, t) {
      JoinAt(h2, t, t);
      assert t < |f.free| && Size(f, f.free[t]) >= Size(h, bp);
    } else {
      assert t + 1 < |f.free| && Size(f, f.free[t + 1]) >= Size(h, bp);
    }
  }

  class Allocator {
    const base: int
    var hdr: map<int, Header>
    /** Start point of the next search; null before the first malloc. */
    var freep: Option<int>
    ghost var free: seq<int>
    ghost var live: map<int, nat>
    ghost var arena: set<int>

    ghost function Value(): Heap
      reads this
    {
      Heap(base, hdr, free, live, arena)
    }

    ghost predicate Ok()
      reads this
    {
      if freep.None? then live == map[] && arena == {} else Valid(Value()) && freep.value in free
    }

    constructor (base: int)
      ensures Ok() && live == map[] && arena == {} && this.base == base
    {
      this.base := base;
      hdr := map[];
      freep := None;
      free, live, arena := [], map[], {};
    }

    /** The for loop of free: it terminates, at the last free block below bp. */
    method FindPlace(bp: int) returns (p: int)
      requires freep.Some? && Valid(Value()) && freep.value in free && bp in live
      ensures |free| > 0 && free[0] < bp && Sorted(free) && p == free[Below(free, bp)]
    {
      hide Valid, Loose, Below;
      ghost var h := Value();
      FreePlace(h, bp);
      p := freep.value;
      ghost var t := Below(free, bp);
      ghost var f :| 0 <= f < |free| && free[f] == p;
      ghost var rot := Rotated(free, f);
      ghost var k := if f <= t then t - f else t - f + |free|;
      ghost var j := 0;
      LinksOf(h, f);
      StopsAlong(h, bp, f, k);
      while !(bp > p && bp < hdr[p].ptr)
        invariant 0 <= j <= k < |rot| && p == rot[j]
        decreases k - j
      {
        if p >= hdr[p].ptr && (bp > p || bp < hdr[p].ptr) {
          break;
        }
        p := hdr[p].ptr;
        j := j + 1;
      }
      assert FoundPlace(bp, rot[j], Next(h, rot[j]));
    }

    /** free(): the block joins the free list, merged with its neighbours. */
    method Free(ap: int)
      requires Ok() && ap - 1 in live
      modifies this
      ensures Ok() && live == old(live) - {ap - 1} && arena == old(arena) && freep.Some?
      ensures |old(free)| > 0 && old(free)[0] < ap - 1 && Sorted(old(free))
      ensures Value() == Freed(old(Value()), ap - 1, Below(old(free), ap - 1))
      ensures freep == Some(old(free)[Below(old(free), ap - 1)])
    {
      hide Valid, Loose, Freed, Below;
      var bp := ap - 1;
      ghost var h := Value();
      FreePlace(h, bp);
      var p := FindPlace(bp);
      ghost var t := Below(free, bp);
      FreeWritesAre(h, bp, t);
      FreedKeeps(h, bp, t);
      SuccIs(h, t);
      var q := hdr[p].ptr;
      if bp + hdr[bp].size == q {
        hdr := hdr[bp := Header(hdr[q].ptr, hdr[bp].size + hdr[q].size)];
      } else {
        hdr := hdr[bp := Header(q, hdr[bp].size)];
      }
      if p + hdr[p].size == bp {
        hdr := hdr[p := Header(hdr[bp].ptr, hdr[p].size + hdr[bp].size)];
      } else {
        hdr := hdr[p := Header(bp, hdr[p].size)];
      }
      freep := Some(p);
      free, live, arena := Freed(h, bp, t).free, Freed(h, bp, t).live, Freed(h, bp, t).arena;
    }

    /** morecore with the break at brk, and sbrk granting or refusing: at least MIN_UNITS more
        units, freed into the list.  The new break covers the heap unless the product in the
        argument of sbrk wrapped around. */
    method MoreCore(nunits: nat, brk: int, granted: bool) returns (bytes: int, brk': int, p: Option<int>)
      requires freep.Some? && Ok() && Backed(Value(), brk)
      modifies this
      ensures Ok() && live == old(live) && freep.Some?
      ensures bytes == SbrkArgument(Max(nunits, MIN_UNITS))
      ensures !granted ==> p == None && Value() == old(Value()) && freep == old(freep) && brk' == brk
      ensures granted ==>
                && p == freep && brk' == NewBreak(brk, Max(nunits, MIN_UNITS))
                && arena == old(arena) + Region(brk, Max(nunits, MIN_UNITS))
                && ((forall u :: u in arena ==> u < brk') <==> bytes == Max(nunits, MIN_UNITS) * UNIT)
                && exists i :: 0 <= i < |free| && Size(Value(), free[i]) >= nunits
    {
      hide Valid, Loose, Freed, Below, Grown, Region, Fresh, Backed, SbrkArgument;
      var nu := Max(nunits, MIN_UNITS);
      bytes := SbrkArgument(nu);
      if !granted {
        return bytes, brk, None;
      }
      BackedIsFresh(Value(), brk, nu);
      GrownBackedIff(Value(), brk, nu);
      ghost var h := Grown(Value(), brk, nu);
      GrownKeeps(Value(), brk, nu);
      GrownIs(Value(), brk, nu);
      hdr := hdr[brk := Header(if brk in hdr then hdr[brk].ptr else brk, nu)];
      live, arena := h.live, h.arena;
      FreePlace(h, brk);
      FreedCovers(h, brk, Below(free, brk));
      Free(brk + 1);
      assert live == old(live);
      p := freep;
      brk' := NewBreak(brk, nu);
    }

    /** Take nunits from the block p that malloc's scan has stopped at. */
    method Carve(nunits: nat, prevp: int, p: int, ghost i: nat) returns (q: int)
      requires freep.Some? && Valid(Value()) && nunits >= 1 && 1 <= i < |free| && free[i] == p && free[i - 1] == prevp
      requires p in hdr && prevp in hdr && hdr[p].size >= nunits
      modifies this
      ensures Ok() && freep == Some(prevp) && q !in old(live) && live == old(live)[q := nunits] && arena == old(arena)
      ensures Value() == Carved(old(Value()), i, nunits) && q == p + old(hdr)[p].size - nunits
    {
      hide Valid, Loose, TakeAll, TakeTail;
      ghost var h := Value();
      assert Size(h, p) == hdr[p].size && Next(h, p) == hdr[p].ptr;
      if hdr[p].size == nunits {
        TakeAllKeeps(h, i);
        TakeAllRest(h, i);
        TakeAllWrites(h, i);
        hdr := hdr[prevp := Header(hdr[p].ptr, hdr[prevp].size)];
        free, live := TakeAll(h, i).free, TakeAll(h, i).live;
        q := p;
      } else {
        TakeTailKeeps(h, i, nunits);
        TakeTailRest(h, i, nunits);
        TakeTailWrites(h, i, nunits);
        hdr := hdr[p := Header(hdr[p].ptr, hdr[p].size - nunits)];
        q := p + hdr[p].size;
        hdr := hdr[q := Header(if q in hdr then hdr[q].ptr else q, nunits)];
        live := TakeTail(h, i, nunits).live;
      }
      freep := Some(prevp);
    }

    /** malloc() with the break at brk, and sbrk granting or refusing.  The first free block that
        fits is used, whole or its tail.  If none does, sbrk's refusal is the only failure, and a
        granted region is merged into the heap `mid`, where the first fit is used.  All of the heap
        lies below the break afterwards exactly when no region was added or sbrk was asked for all
        of it. */
    method Malloc(nbytes: nat, brk: int, granted: bool) returns (r: Option<int>, brk': int, ghost mid: Heap)
      requires Ok() && Backed(Value(), brk)
      modifies this
      ensures Ok() && freep.Some?
      ensures r.Some? ==> r.value - 1 !in old(live) && live == old(live)[r.value - 1 := UnitsFor(nbytes)]
      ensures old(freep).Some? && HasFit(old(Value()), UnitsFor(nbytes)) ==>
                && r.Some? && brk' == brk && arena == old(arena)
                && exists i :: TookFirst(old(Value()), old(freep).value, UnitsFor(nbytes), Value(), freep, r.value, i)
      ensures !(old(freep).Some? && HasFit(old(Value()), UnitsFor(nbytes))) && !granted ==>
                r.None? && live == old(live) && arena == old(arena) && brk' == brk
      ensures !(old(freep).Some? && HasFit(old(Value()), UnitsFor(nbytes))) && granted ==>
                && r.Some? && Extended(old(arena), arena, brk, brk', nbytes)
                && Valid(mid) && mid.live == old(live) && mid.arena == arena && mid.base == base
                && exists f, i :: TookFirst(mid, f, UnitsFor(nbytes), Value(), freep, r.value, i)
    {
      hide Valid, Loose, Region, Scanning, SbrkArgument, UnitsFor, Carved, FirstFit, Extended;
      var nunits := UnitsFor(nbytes);
      brk', mid := brk, Value();
      if freep.None? {
        hdr := hdr[base := Header(base, 0)];
        freep := Some(base);
        free := [base];
        EmptyHeap(Value());
      }
      var prevp := freep.value;
      ghost var h0, f0 := Value(), prevp;
      ghost var w := StartScan(Value(), prevp);
      ghost var j := 0;
      ghost var refilled := false;
      var p := hdr[prevp].ptr;
      while true
        invariant freep.Some? && Ok() && live == old(live)
        invariant Scanning(Value(), freep.value, w, j, prevp, p) && 0 <= j < |w|
        invariant !refilled ==> Value() == h0 && freep == Some(f0) && arena == old(arena) && brk' == brk
        invariant refilled ==> granted && !HasFit(h0, nunits) && Extended(old(arena), arena, brk, brk', nbytes)
        invariant forall k :: 0 <= k < j ==> Size(Value(), w[k]) < nunits
        invariant refilled ==> exists k :: j <= k < |w| && Size(Value(), w[k]) >= nunits
        decreases !refilled, |w| - j
      {
        ghost var h := Value();
        ScanNext(h, freep.value, w, j, prevp, p);
        ScanAt(h, freep.value, w, j, prevp, p);
        if hdr[p].size >= nunits {
          ghost var f := freep.value;
          ghost var i := FitAt(h, f, w, j, prevp, p);
          FitIsFirst(h, f, w, j, prevp, p, nunits);
          mid := h;
          var q := Carve(nunits, prevp, p, i);
          assert TookFirst(h, f, nunits, Value(), freep, q + 1, i);
          return Some(q + 1), brk', mid;
        }
        if p == freep.value {
          if !refilled { NoFit(h, w, nunits); }
          var _, b, c := MoreCore(nunits, brk, granted);
          if c.None? {
            return None, brk', mid;
          }
          IsExtended(old(arena), arena, brk, b, nbytes);
          brk' := b;
          refilled := true;
          p := c.value;
          w := StartScan(Value(), p);
          ScanMembers(Value(), freep.value, w, 0, p, hdr[p].ptr);
          SomeFit(Value(), w, nunits);
          j := 0;
        } else {
          j := j + 1;
        }
        prevp := p;
        p := hdr[p].ptr;
      }
    }
  }

  /** The scanned path from p to freep, and the block before p. */
  ghost predicate Scanning(h: Heap, freep: int, w: seq<int>, j: int, prevp: int, p: int) {
    && 0 <= j < |w| && w[j] == p && w[|w| - 1] == freep && prevp in h.free && Next(h, prevp) == p
    && (forall k :: 0 <= k < |w| - 1 ==> Next(h, w[k]) == w[k + 1])
    && (forall k, l :: 0 <= k < l < |w| ==> w[k] != w[l] && Before(freep, w[k], w[l]))
    && (forall x :: x in w <==> x in h.free)
  }

  lemma StartScan(h: Heap, freep: int) returns (w: seq<int>)
    requires Valid(h) && freep in h.free
    ensures freep in h.hdr && |w| > 0 && Scanning(h, freep, w, 0, freep, h.hdr[freep].ptr)
  {
    var f :| 0 <= f < |h.free| && h.free[f] == freep;
    ScanLinks(h, f);
    ScanOrder(h.free, f);
    w := Scan(h.free, f);
  }

  lemma ScanNext(h: Heap, freep: int, w: seq<int>, j: int, prevp: int, p: int)
    requires Valid(h) && Scanning(h, freep, w, j, prevp, p)
    ensures p in h.free && p in h.hdr
    ensures p == freep <==> j == |w| - 1
    ensures p != freep ==> Scanning(h, freep, w, j + 1, p, h.hdr[p].ptr)
  {
    assert p in w;
    var i :| 0 <= i < |h.free| && h.free[i] == p;
  }

  /** Where a fitting block sits in the list, with its predecessor. */
  lemma FitAt(h: Heap, freep: int, w: seq<int>, j: int, prevp: int, p: int) returns (i: nat)
    requires Valid(h) && Scanning(h, freep, w, j, prevp, p) && p in h.hdr && h.hdr[p].size >= 1
    ensures 1 <= i < |h.free| && h.free[i] == p && h.free[i - 1] == prevp
    ensures prevp in h.hdr && Size(h, p) == h.hdr[p].size
  {
    assert p in w;
    i :| 0 <= i < |h.free| && h.free[i] == p;
    PrevIs(h, prevp, i);
  }

  lemma ScanAt(h: Heap, freep: int, w: seq<int>, j: int, prevp: int, p: int)
    requires Scanning(h, freep, w, j, prevp, p)
    ensures 0 <= j < |w| && w[j] == p && w[|w| - 1] == freep && forall x :: x in w <==> x in h.free
  {
  }

  lemma ScanMembers(h: Heap, freep: int, w: seq<int>, j: int, prevp: int, p: int)
    requires Scanning(h, freep, w, j, prevp, p)
    ensures |w| > 0 && forall x :: x in w <==> x in h.free
  {
  }

  lemma TakeAllWrites(h: Heap, i: nat)
    requires 1 <= i < |h.free| && h.free[i - 1] in h.hdr && h.free[i] in h.hdr
    ensures TakeAll(h, i).hdr == h.hdr[h.free[i - 1] := Header(h.hdr[h.free[i]].ptr, h.hdr[h.free[i - 1]].size)]
  {
  }

  lemma TakeTailWrites(h: Heap, i: nat, n: nat)
    requires i < |h.free| && n < Size(h, h.free[i]) && h.free[i] in h.hdr && n > 0
    ensures var p := h.free[i];
            var h1 := h.hdr[p := Header(h.hdr[p].ptr, h.hdr[p].size - n)];
            var q := p + h1[p].size;
            TakeTail(h, i, n).hdr == h1[q := Header(if q in h1 then h1[q].ptr else q, n)]
  {
  }

  lemma IsExtended(arena: set<int>, arena': set<int>, brk: int, brk': int, nbytes: nat)
    requires var nu := Max(UnitsFor(nbytes), MIN_UNITS);
             && arena' == arena + Region(brk, nu) && brk' == NewBreak(brk, nu)
             && ((forall u :: u in arena' ==> u < brk') <==> SbrkArgument(nu) == nu * UNIT)
    ensures Extended(arena, arena', brk, brk', nbytes)
  {
  }

  /** The scan has passed no block that fits: the one it stops at is the first. */
  lemma FitIsFirst(h: Heap, freep: int, w: seq<int>, j: int, prevp: int, p: int, n: nat)
    requires Scanning(h, freep, w, j, prevp, p) && Size(h, p) >= n && p in h.free
    requires forall k :: 0 <= k < j ==> Size(h, w[k]) < n
    ensures FirstFit(h, freep, n, p) && HasFit(h, n)
  {
    forall y | y in h.free && Size(h, y) >= n && y != p ensures Before(freep, p, y) {
      assert y in w;
      var k :| 0 <= k < |w| && w[k] == y;
      assert j < k;
    }
    var i :| 0 <= i < |h.free| && h.free[i] == p;
    assert Size(h, h.free[i]) >= n;
  }

  lemma NoFit(h: Heap, w: seq<int>, n: nat)
    requires forall x :: x in w <==> x in h.free
    requires forall k :: 0 <= k < |w| ==> Size(h, w[k]) < n
    ensures !HasFit(h, n)
  {
    forall i | 0 <= i < |h.free| ensures Size(h, h.free[i]) < n {
      assert h.free[i] in h.free;
      var k :| 0 <= k < |w| && w[k] == h.free[i];
    }
  }

  lemma SomeFit(h: Heap, w: seq<int>, n: nat)
    requires forall x :: x in w <==> x in h.free
    requires exists i :: 0 <= i < |h.free| && Size(h, h.free[i]) >= n
    ensures exists k :: 0 <= k < |w| && Size(h, w[k]) >= n
  {
    var i :| 0 <= i < |h.free| && Size(h, h.free[i]) >= n;
    assert h.free[i] in w;
    var k :| 0 <= k < |w| && w[k] == h.free[i];
    assert Size(h, w[k]) >= n;
  }

  lemma EmptyHeap(h: Heap)
    requires h.free == [h.base] && h.live == map[] && h.arena == {}
    requires h.base in h.hdr && h.hdr[h.base] == Header(h.base, 0)
    ensures Valid(h)
  {
  }

  lemma GrownIs(h: Heap, p: int, n: nat)
    requires p !in h.live
    ensures var h' := Grown(h, p, n);
            && h'.base == h.base && h'.free == h.free && h'.live == h.live[p := n] && h'.live - {p} == h.live
            && h'.arena == h.arena + Region(p, n) && Size(h', p) == n
            && h'.hdr == h.hdr[p := Header(if p in h.hdr then h.hdr[p].ptr else p, n)]
  {
  }

  /** Along the rotated list the search stops exactly at its k-th element. */
  lemma StopsAlong(h: Heap, bp: int, f: nat, k: nat)
    requires Loose(h) && h.base < bp && bp !in h.free
    requires f < |h.free| && |h.free| > 0 && h.free[0] < bp && Sorted(h.free)
    requires var t := Below(h.free, bp); k == if f <= t then t - f else t - f + |h.free|
    ensures var r := Rotated(h.free, f);
            && k < |r| && r[k] == h.free[Below(h.free, bp)]
            && forall j :: 0 <= j <= k ==> (FoundPlace(bp, r[j], Next(h, r[j])) <==> j == k)
  {
    hide Loose, Below;
    var r, n := Rotated(h.free, f), |h.free|;
    forall j | 0 <= j <= k ensures FoundPlace(bp, r[j], Next(h, r[j])) <==> j == k {
      StopsAt(h, bp, if f + j < n then f + j else f + j - n);
    }
  }

  lemma FreePlace(h: Heap, bp: int)
    requires Valid(h) && bp in h.live
    ensures Loose(h) && bp !in h.free && h.base < bp && bp in h.hdr
    ensures |h.free| > 0 && h.free[0] == h.base && Sorted(h.free)
    ensures Fits(h, bp, Below(h.free, bp))
  {
    LiveNotFree(h, bp);
  }

  lemma LinksOf(h: Heap, f: nat)
    requires Valid(h) && f < |h.free|
    ensures var r := Rotated(h.free, f);
            forall i :: 0 <= i < |r| ==> r[i] in h.hdr && h.hdr[r[i]].ptr == r[if i + 1 < |r| then i + 1 else 0]
  {
    RotatedLinks(h, f);
    var r := Rotated(h.free, f);
    forall i | 0 <= i < |r| ensures r[i] in h.hdr {
      assert r[i] == h.free[if f + i < |r| then f + i else f + i - |r|];
    }
  }

  lemma SuccIs(h: Heap, t: nat)
    requires Valid(h) && t < |h.free|
    ensures h.free[t] in h.hdr && h.hdr[h.free[t]].ptr == h.free[Succ(h, t)]
  {
    assert Next(h, h.free[t]) == h.free[if t + 1 < |h.free| then t + 1 else 0];
  }
}
