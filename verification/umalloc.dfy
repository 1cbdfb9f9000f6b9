/** The user heap (umalloc.c): an address-sorted circular free list, in units of one header. */
module UserHeap {
  import opened Prelude

  /** sizeof(Header). */
  const UNIT: nat := 8
  /** morecore never asks sbrk for less. */
  const MIN_UNITS: nat := 4096

  /** A block header: next free block, and size in units including the header itself. */
  datatype Header = Header(ptr: int, size: nat)

  /** The headers in memory; the free list in address order, starting with `base`; the blocks
      that callers hold; and all units ever obtained from sbrk. */
  datatype Heap = Heap(base: int, hdr: map<int, Header>, free: seq<int>, live: map<int, nat>, arena: set<int>)

  predicate Sorted(s: seq<int>) {
    forall i, j :: 0 <= i < j < |s| ==> s[i] < s[j]
  }

  predicate HasHeaders(h: Heap) {
    (forall i :: 0 <= i < |h.free| ==> h.free[i] in h.hdr) && forall a :: a in h.live ==> a in h.hdr
  }

  function Size(h: Heap, a: int): nat {
    if a in h.hdr then h.hdr[a].size else 0
  }

  function Next(h: Heap, a: int): int {
    if a in h.hdr then h.hdr[a].ptr else a
  }

  /** The list is a cycle through h.free. */
  predicate Linked(h: Heap) {
    forall i :: 0 <= i < |h.free| ==> Next(h, h.free[i]) == h.free[if i + 1 < |h.free| then i + 1 else 0]
  }

  /** Sorted by address, without overlap. */
  predicate Spaced(h: Heap) {
    && Sorted(h.free)
    && forall i, j :: 0 <= i < j < |h.free| ==> h.free[i] + Size(h, h.free[i]) <= h.free[j]
  }

  predicate Touch(h: Heap, i: int) {
    0 <= i < |h.free| - 1 && h.free[i] + Size(h, h.free[i]) == h.free[i + 1]
  }

  predicate Apart(a: int, m: nat, b: int, n: nat) {
    a + m <= b || b + n <= a
  }

  ghost predicate LiveOk(h: Heap) {
    && (forall a :: a in h.live ==> h.base < a && Size(h, a) == h.live[a] > 0)
    && (forall a, b :: a in h.live && b in h.live && a != b ==> Apart(a, h.live[a], b, h.live[b]))
    && (forall i, a :: 1 <= i < |h.free| && a in h.live ==> Apart(h.free[i], Size(h, h.free[i]), a, h.live[a]))
  }

  predicate InFree(h: Heap, i: int, u: int) {
    1 <= i < |h.free| && h.free[i] <= u < h.free[i] + Size(h, h.free[i])
  }

  predicate InLive(h: Heap, a: int, u: int) {
    a in h.live && a <= u < a + h.live[a]
  }

  /** Free and live blocks together cover exactly the units obtained from sbrk. */
  ghost predicate Tiled(h: Heap) {
    forall u :: u in h.arena <==> (exists i :: InFree(h, i, u)) || (exists a :: InLive(h, a, u))
  }

  /** Everything but maximality of the free blocks. */
  ghost predicate Loose(h: Heap) {
    && |h.free| > 0 && h.free[0] == h.base && HasHeaders(h)
    && Size(h, h.base) == 0 && (forall i :: 1 <= i < |h.free| ==> Size(h, h.free[i]) > 0)
    && Linked(h) && Spaced(h) && LiveOk(h) && Tiled(h)
  }

  /** No two free blocks touch. */
  ghost predicate Valid(h: Heap) {
    Loose(h) && forall i :: !Touch(h, i)
  }

  // ---- request sizes ----

  /** nunits in malloc, computed in 32-bit unsigned arithmetic. */
  function UnitsFor(nbytes: nat): (n: nat)
    ensures n >= 1
  {
    ((nbytes + UNIT - 1) % UINT) / UNIT + 1
  }

  /** The block malloc looks for is large enough for the request and its header exactly when
      nbytes + 7 does not wrap around. */
  lemma UnitsSufficeIff(nbytes: nat)
    requires nbytes < UINT
    ensures (UnitsFor(nbytes) - 1) * UNIT >= nbytes <==> nbytes + UNIT - 1 < UINT
  {
  }

  /** What morecore passes to sbrk for nu units: a 32-bit product, read as a signed number. */
  function SbrkArgument(nu: nat): (n: int)
    ensures n < UINT / 2 <= n + UINT && (nu * UNIT - n) % UINT == 0
  {
    var product := nu * UNIT % UINT;
    if product < UINT / 2 then product else product - UINT
  }

  /** What malloc asks sbrk for on behalf of a request. */
  function Asked(nbytes: nat): int {
    SbrkArgument(Max(UnitsFor(nbytes), MIN_UNITS))
  }

  /** The block is large enough and morecore asks for all of it exactly up to 2^31 - 16 bytes. */
  lemma RequestBackedIff(nbytes: nat)
    requires nbytes < UINT
    ensures (UnitsFor(nbytes) - 1) * UNIT >= nbytes && Asked(nbytes) == Max(UnitsFor(nbytes), MIN_UNITS) * UNIT
            <==> nbytes <= UINT / 2 - 2 * UNIT
  {
    var nu := Max(UnitsFor(nbytes), MIN_UNITS);
    assert nu * UNIT <= UINT;
    assert nu * UNIT < UINT / 2 <==> nu < 0x1000_0000;
  }

  /** Past that bound, unless nbytes + 7 wraps around, sbrk is asked to give memory back. */
  lemma LargeRequestShrinks(nbytes: nat)
    requires UINT / 2 - 2 * UNIT < nbytes < UINT && nbytes + UNIT - 1 < UINT
    ensures Asked(nbytes) <= 0
    ensures Asked(nbytes) == 0 <==> nbytes > UINT - 2 * UNIT
  {
    var nu := UnitsFor(nbytes);
    assert 0x1000_0000 <= nu <= 0x2000_0000;
    assert UINT / 2 <= nu * UNIT <= UINT;
  }

  /** The largest request is taken for one unit: its header and no room at all. */
  lemma HugeRequestGetsNothing()
    ensures UnitsFor(UINT - 1) == 1
  {
  }

  // ---- positions in the list ----

  /** The list read from position f on. */
  function Rotated(s: seq<int>, f: nat): (r: seq<int>)
    requires f < |s|
    ensures |r| == |s| && r[0] == s[f]
    ensures forall i :: 0 <= i < |s| ==> r[i] == s[if f + i < |s| then f + i else f + i - |s|]
  {
    s[f..] + s[..f]
  }

  /** Following ptr walks the rotated list. */
  lemma RotatedLinks(h: Heap, f: nat)
    requires Linked(h) && f < |h.free|
    ensures var r := Rotated(h.free, f);
            forall i :: 0 <= i < |r| ==> Next(h, r[i]) == r[if i + 1 < |r| then i + 1 else 0]
  {
    var r, n := Rotated(h.free, f), |h.free|;
    forall i | 0 <= i < n ensures Next(h, r[i]) == r[if i + 1 < n then i + 1 else 0] {
      var k := if f + i < n then f + i else f + i - n;
      assert Next(h, h.free[k]) == h.free[if k + 1 < n then k + 1 else 0];
    }
  }

  /** Last list position below address x. */
  function Below(s: seq<int>, x: int): (t: nat)
    requires |s| > 0 && s[0] < x && Sorted(s)
    ensures t < |s| && s[t] < x && forall j :: t < j < |s| ==> x <= s[j]
  {
    if s[|s| - 1] < x then |s| - 1 else Below(s[..|s| - 1], x)
  }

  // ---- free ----

  /** Position of the list successor. */
  function Succ(h: Heap, t: nat): nat
    requires t < |h.free|
  {
    if t + 1 < |h.free| then t + 1 else 0
  }

  /** Link the live block bp in after list position t. */
  function Insert(h: Heap, bp: int, t: nat): Heap
    requires t < |h.free|
  {
    var p, q := h.free[t], h.free[Succ(h, t)];
    Heap(h.base, h.hdr[bp := Header(q, Size(h, bp))][p := Header(bp, Size(h, p))],
         h.free[..t + 1] + [bp] + h.free[t + 1..], h.live - {bp}, h.arena)
  }

  /** Merge the blocks at list positions i and i + 1. */
  function Join(h: Heap, i: nat): Heap
    requires i + 1 < |h.free|
  {
    var p, q := h.free[i], h.free[i + 1];
    h.(hdr := h.hdr[p := Header(Next(h, q), Size(h, p) + Size(h, q))], free := h.free[..i + 1] + h.free[i + 2..])
  }

  function JoinIf(h: Heap, i: nat): Heap {
    if Touch(h, i) then Join(h, i) else h
  }

  /** The heap after free(bp): insert, merge upwards, merge downwards. */
  function Freed(h: Heap, bp: int, t: nat): Heap
    requires t < |h.free|
  {
    JoinIf(JoinIf(Insert(h, bp, t), t + 1), t)
  }

  /** bp lies between list position t and the next. */
  predicate Fits(h: Heap, bp: int, t: nat) {
    && t < |h.free| && h.free[t] < bp
    && (t + 1 < |h.free| ==> bp < h.free[t + 1])
  }

  /** Where the old and new list positions are. */
  lemma InsertAt(h: Heap, bp: int, t: nat, i: nat)
    requires Loose(h) && bp in h.live && Fits(h, bp, t) && i <= |h.free|
    ensures var h' := Insert(h, bp, t);
            && |h'.free| == |h.free| + 1
            && h'.free[i] == (if i == t + 1 then bp else h.free[OldPos(i, t)])
            && Size(h', h'.free[i]) == Size(h, h'.free[i]) && h'.free[i] in h'.hdr
            && (i != t + 1 ==> h'.free[i] != bp)
            && (i != t && i != t + 1 ==> Next(h', h'.free[i]) == Next(h, h'.free[i]))
  {
    hide Tiled, LiveOk, Linked, Spaced;
    var h' := Insert(h, bp, t);
    if i != t + 1 {
      var j := if i <= t then i else i - 1;
      assert h.free[j] in h.hdr;
      if j < t { InOrder(h, j, t); }
      if j > t { InOrder(h, t, j); }
      if j > t + 1 { InOrder(h, t + 1, j); }
    }
  }

  lemma InOrder(h: Heap, i: nat, j: nat)
    requires Spaced(h) && i < j < |h.free|
    ensures h.free[i] < h.free[j]
  {
  }

  /** Position in the old list of what is at position i after an insertion behind t. */
  function OldPos(i: int, t: nat): int {
    if i <= t then i else i - 1
  }

  lemma InsertAll(h: Heap, bp: int, t: nat)
    requires Loose(h) && bp in h.live && Fits(h, bp, t)
    ensures var h' := Insert(h, bp, t);
            && |h'.free| == |h.free| + 1
            && forall i :: 0 <= i <= |h.free| ==>
                 && h'.free[i] == (if i == t + 1 then bp else h.free[OldPos(i, t)])
                 && Size(h', h'.free[i]) == Size(h, h'.free[i]) && h'.free[i] in h'.hdr
  {
    forall i | 0 <= i <= |h.free| { InsertAt(h, bp, t, i); }
  }

  /** The block and the free blocks around it do not overlap. */
  lemma BlockFits(h: Heap, bp: int, t: nat, i: nat)
    requires Loose(h) && bp in h.live && Fits(h, bp, t) && i < |h.free|
    ensures if i <= t then h.free[i] < bp && h.free[i] + Size(h, h.free[i]) <= bp
            else bp + Size(h, bp) <= h.free[i] && bp < h.free[i]
  {
    assert i >= 1 ==> Apart(h.free[i], Size(h, h.free[i]), bp, h.live[bp]);
    assert i < t ==> h.free[i] < h.free[t];
    assert t + 1 < i ==> h.free[t + 1] < h.free[i];
  }

  lemma InsertSpaced(h: Heap, bp: int, t: nat)
    requires Loose(h) && bp in h.live && Fits(h, bp, t)
    ensures Spaced(Insert(h, bp, t))
  {
    hide Insert;
    var h' := Insert(h, bp, t);
    InsertAt(h, bp, t, 0);
    forall i, j | 0 <= i < j < |h'.free|
      ensures h'.free[i] < h'.free[j] && h'.free[i] + Size(h', h'.free[i]) <= h'.free[j]
    {
      InsertAt(h, bp, t, i);
      InsertAt(h, bp, t, j);
      var a, b := OldPos(i, t), OldPos(j, t);
      if i == t + 1 {
        BlockFits(h, bp, t, b);
      } else if j == t + 1 {
        BlockFits(h, bp, t, a);
      } else {
        assert 0 <= a < b < |h.free|;
        assert h.free[a] < h.free[b];
      }
    }
  }

  lemma InsertLinked(h: Heap, bp: int, t: nat)
    requires Loose(h) && bp in h.live && Fits(h, bp, t)
    ensures Linked(Insert(h, bp, t))
  {
    var h', n := Insert(h, bp, t), |h.free|;
    forall i | 0 <= i < n + 1 ensures Next(h', h'.free[i]) == h'.free[if i + 1 < n + 1 then i + 1 else 0] {
      InsertAt(h, bp, t, i);
      InsertAt(h, bp, t, if i + 1 < n + 1 then i + 1 else 0);
      InsertAt(h, bp, t, t);
      var k := if i <= t then i else i - 1;
      assert Next(h, h.free[k]) == h.free[if k + 1 < n then k + 1 else 0];
    }
  }

  lemma InsertLive(h: Heap, bp: int, t: nat)
    requires Loose(h) && bp in h.live && Fits(h, bp, t)
    ensures LiveOk(Insert(h, bp, t)) && HasHeaders(Insert(h, bp, t))
  {
    InsertAll(h, bp, t);
    var h' := Insert(h, bp, t);
    forall a | a in h'.live ensures Size(h', a) == h.live[a] && a in h'.hdr && a != h.free[t] {
      assert t >= 1 ==> Apart(h.free[t], Size(h, h.free[t]), a, h.live[a]);
    }
    forall i, a | 1 <= i < |h'.free| && a in h'.live ensures Apart(h'.free[i], Size(h', h'.free[i]), a, h'.live[a]) {
      if i == t + 1 {
        assert Apart(bp, h.live[bp], a, h.live[a]);
      } else {
        assert Apart(h.free[OldPos(i, t)], Size(h, h'.free[i]), a, h.live[a]);
      }
    }
  }

  lemma InsertTiled(h: Heap, bp: int, t: nat)
    requires Loose(h) && bp in h.live && Fits(h, bp, t)
    ensures Tiled(Insert(h, bp, t))
  {
    hide Insert, Loose, InFree, InLive;
    var h' := Insert(h, bp, t);
    forall u ensures u in h'.arena <==> (exists i :: InFree(h', i, u)) || (exists a :: InLive(h', a, u)) {
      InsertTiledAt(h, bp, t, u);
    }
  }

  lemma InsertTiledAt(h: Heap, bp: int, t: nat, u: int)
    requires Loose(h) && bp in h.live && Fits(h, bp, t)
    ensures var h' := Insert(h, bp, t);
            u in h'.arena <==> (exists i :: InFree(h', i, u)) || (exists a :: InLive(h', a, u))
  {
    hide Insert, Linked, Spaced;
    InsertAt(h, bp, t, t + 1);
    InsertKeepsRest(h, bp, t);
    var h' := Insert(h, bp, t);
    forall i | InFree(h, i, u) ensures InFree(h', if i <= t then i else i + 1, u) {
      InsertAt(h, bp, t, if i <= t then i else i + 1);
    }
    forall i | InFree(h', i, u) ensures if i == t + 1 then InLive(h, bp, u) else InFree(h, OldPos(i, t), u) {
      InsertAt(h, bp, t, i);
    }
    forall a | InLive(h, a, u) ensures if a == bp then InFree(h', t + 1, u) else InLive(h', a, u) {}
    forall a | InLive(h', a, u) ensures InLive(h, a, u) {}
  }

  lemma InsertKeepsRest(h: Heap, bp: int, t: nat)
    requires t < |h.free|
    ensures Insert(h, bp, t).live == h.live - {bp}
    ensures Insert(h, bp, t).arena == h.arena && Insert(h, bp, t).base == h.base
  {
  }

  lemma InsertKeeps(h: Heap, bp: int, t: nat)
    requires Valid(h) && bp in h.live && Fits(h, bp, t)
    ensures Loose(Insert(h, bp, t)) && |Insert(h, bp, t).free| == |h.free| + 1
    ensures forall i :: Touch(Insert(h, bp, t), i) ==> i == t || i == t + 1
  {
    hide Insert, Tiled, LiveOk, Linked;
    InsertKeepsRest(h, bp, t);
    InsertSpaced(h, bp, t);
    InsertLinked(h, bp, t);
    InsertLive(h, bp, t);
    InsertTiled(h, bp, t);
    InsertAt(h, bp, t, 0);
    var h' := Insert(h, bp, t);
    forall i | Touch(h', i) ensures i == t || i == t + 1 {
      InsertAt(h, bp, t, i);
      InsertAt(h, bp, t, i + 1);
      assert i < t || i > t + 1 ==> !Touch(h, OldPos(i, t));
    }
    forall i | 1 <= i < |h'.free| ensures Size(h', h'.free[i]) > 0 {
      InsertAt(h, bp, t, i);
      LiveSize(h, bp);
    }
  }

  lemma LiveSize(h: Heap, a: int)
    requires LiveOk(h) && a in h.live
    ensures Size(h, a) == h.live[a] > 0 && h.base < a
  {
  }

  // ---- merging ----

  /** Position before a merge of i and i + 1 of what is at position k afterwards. */
  function PosBefore(k: int, i: nat): int {
    if k <= i then k else k + 1
  }

  lemma JoinAt(h: Heap, i: nat, k: nat)
    requires Loose(h) && i + 1 < |h.free| && k < |h.free| - 1
    ensures var h' := Join(h, i);
            && |h'.free| == |h.free| - 1 && h'.free[k] == h.free[PosBefore(k, i)] && h'.free[k] in h'.hdr
            && Size(h', h'.free[k]) == Size(h, h'.free[k]) + (if k == i then Size(h, h.free[i + 1]) else 0)
            && Next(h', h'.free[k]) == Next(h, if k == i then h.free[i + 1] else h'.free[k])
  {
    hide Tiled, LiveOk, Linked;
    var j := PosBefore(k, i);
    assert h.free[j] in h.hdr;
    assert j < i ==> h.free[j] < h.free[i];
    assert j > i ==> h.free[i] < h.free[j];
  }

  lemma JoinSpaced(h: Heap, i: nat)
    requires Loose(h) && Touch(h, i)
    ensures Spaced(Join(h, i))
  {
    hide Join, Tiled, LiveOk, Linked;
    var h' := Join(h, i);
    JoinAt(h, i, 0);
    forall k, l | 0 <= k < l < |h'.free|
      ensures h'.free[k] < h'.free[l] && h'.free[k] + Size(h', h'.free[k]) <= h'.free[l]
    {
      JoinAt(h, i, k);
      JoinAt(h, i, l);
      var a, b := PosBefore(k, i), PosBefore(l, i);
      assert h.free[a] < h.free[b] && h.free[a] + Size(h, h.free[a]) <= h.free[b];
      if k == i { assert h.free[i + 1] + Size(h, h.free[i + 1]) <= h.free[b]; }
    }
  }

  lemma JoinLinked(h: Heap, i: nat)
    requires Loose(h) && Touch(h, i)
    ensures Linked(Join(h, i))
  {
    hide Join, Tiled, LiveOk;
    var h', n := Join(h, i), |h.free|;
    JoinAt(h, i, 0);
    forall k | 0 <= k < n - 1 ensures Next(h', h'.free[k]) == h'.free[if k + 1 < n - 1 then k + 1 else 0] {
      JoinAt(h, i, k);
      if k + 1 < n - 1 { JoinAt(h, i, k + 1); }
      var a := if k == i then i + 1 else PosBefore(k, i);
      assert Next(h, h.free[a]) == h.free[if a + 1 < n then a + 1 else 0];
    }
  }

  lemma JoinLive(h: Heap, i: nat)
    requires Loose(h) && Touch(h, i) && i >= 1
    ensures LiveOk(Join(h, i)) && HasHeaders(Join(h, i))
  {
    hide Tiled, Linked;
    var h', p, q := Join(h, i), h.free[i], h.free[i + 1];
    JoinAt(h, i, 0);
    forall a | a in h'.live ensures Size(h', a) == h.live[a] && a in h'.hdr {
      assert Apart(p, Size(h, p), a, h.live[a]);
    }
    forall k | 0 <= k < |h'.free| ensures h'.free[k] in h'.hdr { JoinAt(h, i, k); }
    forall k, a | 1 <= k < |h'.free| && a in h'.live ensures Apart(h'.free[k], Size(h', h'.free[k]), a, h'.live[a]) {
      JoinAt(h, i, k);
      assert Apart(h.free[PosBefore(k, i)], Size(h, h'.free[k]), a, h.live[a]);
      assert Apart(q, Size(h, q), a, h.live[a]);
    }
  }

  lemma JoinTiled(h: Heap, i: nat)
    requires Loose(h) && Touch(h, i) && i >= 1
    ensures Tiled(Join(h, i))
  {
    hide Join, Linked, LiveOk;
    JoinAt(h, i, i);
    JoinKeepsRest(h, i);
    var h' := Join(h, i);
    forall u ensures u in h'.arena <==> (exists k :: InFree(h', k, u)) || (exists a :: InLive(h', a, u)) {
      forall k | InFree(h, k, u) ensures InFree(h', if k <= i then k else k - 1, u) {
        JoinAt(h, i, if k <= i then k else k - 1);
      }
      forall k | InFree(h', k, u) ensures InFree(h, PosBefore(k, i), u) || InFree(h, i + 1, u) {
        JoinAt(h, i, k);
      }
      forall a ensures InLive(h, a, u) <==> InLive(h', a, u) {}
    }
  }

  lemma JoinKeepsRest(h: Heap, i: nat)
    requires i + 1 < |h.free|
    ensures Join(h, i).live == h.live && Join(h, i).arena == h.arena && Join(h, i).base == h.base
  {
  }

  /** Merging two touching blocks loses no unit and leaves the other touching pairs. */
  lemma JoinKeeps(h: Heap, i: nat)
    requires Loose(h) && Touch(h, i) && i >= 1
    ensures Loose(Join(h, i))
    ensures forall k :: Touch(Join(h, i), k) ==> Touch(h, if k < i then k else k + 1)
  {
    hide Join, Tiled, LiveOk, Linked;
    JoinSpaced(h, i);
    JoinLinked(h, i);
    JoinLive(h, i);
    JoinTiled(h, i);
    JoinKeepsRest(h, i);
    JoinAt(h, i, 0);
    var h' := Join(h, i);
    forall k | 1 <= k < |h'.free| ensures Size(h', h'.free[k]) > 0 { JoinAt(h, i, k); }
    forall k | Touch(h', k) ensures Touch(h, if k < i then k else k + 1) {
      JoinAt(h, i, k);
      JoinAt(h, i, k + 1);
    }
  }

  /** free returns the block to the free list, merged with the free blocks it touches. */
  lemma FreedKeeps(h: Heap, bp: int, t: nat)
    requires Valid(h) && bp in h.live && Fits(h, bp, t)
    ensures Valid(Freed(h, bp, t)) && Freed(h, bp, t).live == h.live - {bp}
    ensures Freed(h, bp, t).arena == h.arena && Freed(h, bp, t).base == h.base
    ensures h.free[t] in Freed(h, bp, t).free
  {
    hide Insert, Join, Loose;
    InsertKeeps(h, bp, t);
    InsertKeepsRest(h, bp, t);
    InsertPrefix(h, bp, t);
    var h1 := Insert(h, bp, t);
    if Touch(h1, t + 1) {
      JoinKeeps(h1, t + 1);
      JoinKeepsRest(h1, t + 1);
      JoinPrefix(h1, t + 1);
    }
    var h2 := JoinIf(h1, t + 1);
    assert forall i :: Touch(h2, i) ==> i == t;
    if Touch(h2, t) {
      BaseTouchesNothing(h2, t);
      JoinKeeps(h2, t);
      JoinKeepsRest(h2, t);
      JoinPrefix(h2, t);
    }
  }

  lemma BaseTouchesNothing(h: Heap, i: nat)
    requires Loose(h) && Touch(h, i)
    ensures i >= 1
  {
  }

  lemma InsertPrefix(h: Heap, bp: int, t: nat)
    requires t < |h.free|
    ensures |Insert(h, bp, t).free| == |h.free| + 1 && Insert(h, bp, t).free[t] == h.free[t]
  {
  }

  lemma JoinPrefix(h: Heap, i: nat)
    requires i + 1 < |h.free|
    ensures |Join(h, i).free| == |h.free| - 1 && forall k :: 0 <= k <= i ==> Join(h, i).free[k] == h.free[k]
  {
  }

  // ---- malloc ----

  /** Take the whole block at list position i. */
  function TakeAll(h: Heap, i: nat): Heap
    requires 1 <= i < |h.free|
  {
    var p0, p := h.free[i - 1], h.free[i];
    h.(hdr := h.hdr[p0 := Header(Next(h, p), Size(h, p0))], free := h.free[..i] + h.free[i + 1..],
       live := h.live[p := Size(h, p)])
  }

  /** Take n units from the tail of the block at list position i. */
  function TakeTail(h: Heap, i: nat, n: nat): Heap
    requires i < |h.free| && n < Size(h, h.free[i])
  {
    var p := h.free[i];
    var q := p + (Size(h, p) - n);
    h.(hdr := h.hdr[p := Header(Next(h, p), Size(h, p) - n)][q := Header(Next(h, q), n)], live := h.live[q := n])
  }

  /** Take n units from the block at list position i: all of it, or its tail. */
  function Carved(h: Heap, i: nat, n: nat): Heap
    requires 1 <= i < |h.free| && n <= Size(h, h.free[i])
  {
    if Size(h, h.free[i]) == n then TakeAll(h, i) else TakeTail(h, i, n)
  }

  // ---- first fit ----

  /** The order of malloc's scan from freep on: the blocks above freep come first. */
  predicate Before(freep: int, x: int, y: int) {
    if (x > freep) == (y > freep) then x < y else x > freep
  }

  predicate HasFit(h: Heap, n: nat) {
    exists i :: 0 <= i < |h.free| && Size(h, h.free[i]) >= n
  }

  /** x is the first free block in that order that holds n units. */
  ghost predicate FirstFit(h: Heap, freep: int, n: nat, x: int) {
    && x in h.free && Size(h, x) >= n
    && forall y :: y in h.free && Size(h, y) >= n && y != x ==> Before(freep, x, y)
  }

  /** n units at the end of the first fit, at list position i, were taken and returned as ap. */
  ghost predicate TookFirst(h: Heap, freep: int, n: nat, h': Heap, freep': Option<int>, ap: int, i: nat) {
    && 1 <= i < |h.free| && FirstFit(h, freep, n, h.free[i]) && h' == Carved(h, i, n)
    && ap == h.free[i] + Size(h, h.free[i]) - n + 1 && freep' == Some(h.free[i - 1])
  }

  /** A region that sbrk has just added to the heap, as a block about to be freed. */
  function Grown(h: Heap, p: int, n: nat): Heap {
    h.(hdr := h.hdr[p := Header(Next(h, p), n)], live := h.live[p := n], arena := h.arena + Region(p, n))
  }

  function Region(p: int, n: nat): (r: set<int>)
    ensures forall u :: u in r <==> p <= u < p + n
  {
    if n == 0 then {} else Region(p, n - 1) + {p + n - 1}
  }

  /** Position before taking i of what is at position k afterwards. */
  function PosKept(k: int, i: nat): int {
    if k < i then k else k + 1
  }

  lemma TakeAllAt(h: Heap, i: nat, k: nat)
    requires Loose(h) && 1 <= i < |h.free| && k < |h.free| - 1
    ensures var h' := TakeAll(h, i);
            && |h'.free| == |h.free| - 1 && h'.free[k] == h.free[PosKept(k, i)] && h'.free[k] in h'.hdr
            && Size(h', h'.free[k]) == Size(h, h'.free[k])
            && Next(h', h'.free[k]) == Next(h, if k == i - 1 then h.free[i] else h'.free[k])
  {
    hide Tiled, LiveOk, Linked;
    var j := PosKept(k, i);
    assert h.free[j] in h.hdr;
    assert j < i - 1 ==> h.free[j] < h.free[i - 1];
    assert j > i - 1 ==> h.free[i - 1] < h.free[j];
  }

  lemma TakeAllSpaced(h: Heap, i: nat)
    requires Valid(h) && 1 <= i < |h.free|
    ensures Spaced(TakeAll(h, i))
  {
    hide TakeAll, Tiled, LiveOk, Linked;
    var h', n := TakeAll(h, i), |h.free|;
    TakeAllAt(h, i, 0);
    forall k, l | 0 <= k < l < n - 1
      ensures h'.free[k] < h'.free[l] && h'.free[k] + Size(h', h'.free[k]) <= h'.free[l]
    {
      TakeAllAt(h, i, k);
      TakeAllAt(h, i, l);
      var a, b := PosKept(k, i), PosKept(l, i);
      assert h.free[a] < h.free[b] && h.free[a] + Size(h, h.free[a]) <= h.free[b];
    }
  }

  lemma TakeAllLinked(h: Heap, i: nat)
    requires Valid(h) && 1 <= i < |h.free|
    ensures Linked(TakeAll(h, i))
  {
    hide TakeAll, Tiled, LiveOk, Spaced;
    var h', n := TakeAll(h, i), |h.free|;
    TakeAllAt(h, i, 0);
    forall k | 0 <= k < n - 1 ensures Next(h', h'.free[k]) == h'.free[if k + 1 < n - 1 then k + 1 else 0] {
      TakeAllAt(h, i, k);
      if k + 1 < n - 1 { TakeAllAt(h, i, k + 1); }
      var a := if k == i - 1 then i else PosKept(k, i);
      assert Next(h, h.free[a]) == h.free[if a + 1 < n then a + 1 else 0];
    }
  }

  lemma TakeAllApart(h: Heap, i: nat)
    requires Valid(h) && 1 <= i < |h.free|
    ensures forall k :: !Touch(TakeAll(h, i), k)
  {
    hide TakeAll, Tiled, LiveOk, Linked;
    var h', n := TakeAll(h, i), |h.free|;
    TakeAllAt(h, i, 0);
    forall k ensures !Touch(h', k) {
      if 0 <= k < n - 2 {
        TakeAllAt(h, i, k);
        TakeAllAt(h, i, k + 1);
        assert !Touch(h, PosKept(k, i));
        assert k == i - 1 ==> h.free[k] + Size(h, h.free[k]) <= h.free[i] < h.free[k + 2];
      }
    }
  }

  lemma TakeAllLive(h: Heap, i: nat)
    requires Loose(h) && 1 <= i < |h.free|
    ensures LiveOk(TakeAll(h, i)) && HasHeaders(TakeAll(h, i)) && h.free[i] !in h.live
  {
    hide Tiled, Linked;
    var h', p := TakeAll(h, i), h.free[i];
    TakeAllAt(h, i, 0);
    forall a | a in h.live ensures a != p && Size(h', a) == h.live[a] && a in h'.hdr {
      assert Apart(p, Size(h, p), a, h.live[a]);
      assert i > 1 ==> Apart(h.free[i - 1], Size(h, h.free[i - 1]), a, h.live[a]);
    }
    assert h.base < p && h.free[i - 1] < p;
    forall k | 0 <= k < |h'.free| ensures h'.free[k] in h'.hdr { TakeAllAt(h, i, k); }
    forall k, a | 1 <= k < |h'.free| && a in h'.live ensures Apart(h'.free[k], Size(h', h'.free[k]), a, h'.live[a]) {
      TakeAllAt(h, i, k);
      var j := PosKept(k, i);
      if a == p {
        assert j < i ==> h.free[j] + Size(h, h.free[j]) <= h.free[i];
        assert j > i ==> h.free[i] + Size(h, h.free[i]) <= h.free[j];
      } else {
        assert Apart(h.free[j], Size(h, h.free[j]), a, h.live[a]);
      }
    }
  }

  lemma TakeAllTiled(h: Heap, i: nat)
    requires Loose(h) && 1 <= i < |h.free| && h.free[i] !in h.live
    ensures Tiled(TakeAll(h, i))
  {
    hide TakeAll, Linked, LiveOk;
    TakeAllRest(h, i);
    var h', p := TakeAll(h, i), h.free[i];
    TakeAllAt(h, i, 0);
    forall u ensures u in h'.arena <==> (exists k :: InFree(h', k, u)) || (exists a :: InLive(h', a, u)) {
      forall k | InFree(h, k, u)
        ensures if k == i then InLive(h', p, u) else InFree(h', if k < i then k else k - 1, u)
      {
        if k != i { TakeAllAt(h, i, if k < i then k else k - 1); }
      }
      forall k | InFree(h', k, u) ensures InFree(h, PosKept(k, i), u) { TakeAllAt(h, i, k); }
      forall a | InLive(h, a, u) ensures InLive(h', a, u) {}
      forall a | InLive(h', a, u) ensures if a == p then InFree(h, i, u) else InLive(h, a, u) {}
    }
  }

  lemma TakeAllRest(h: Heap, i: nat)
    requires 1 <= i < |h.free|
    ensures var h' := TakeAll(h, i);
            h'.live == h.live[h.free[i] := Size(h, h.free[i])] && h'.arena == h.arena && h'.base == h.base
  {
  }

  lemma TakeAllKeeps(h: Heap, i: nat)
    requires Valid(h) && 1 <= i < |h.free|
    ensures var h' := TakeAll(h, i);
            Valid(h') && h.free[i] !in h.live && h'.arena == h.arena && h'.base == h.base && h.free[i - 1] in h'.free
  {
    hide TakeAll, Linked, LiveOk, Tiled, Spaced;
    TakeAllSpaced(h, i);
    TakeAllLinked(h, i);
    TakeAllApart(h, i);
    TakeAllLive(h, i);
    TakeAllTiled(h, i);
    TakeAllRest(h, i);
    TakeAllAt(h, i, 0);
    TakeAllAt(h, i, i - 1);
    var h' := TakeAll(h, i);
    forall k | 1 <= k < |h'.free| ensures Size(h', h'.free[k]) > 0 { TakeAllAt(h, i, k); }
  }

  lemma TakeTailAt(h: Heap, i: nat, n: nat, k: nat)
    requires Loose(h) && 1 <= i < |h.free| && 0 < n < Size(h, h.free[i]) && k < |h.free|
    ensures var h' := TakeTail(h, i, n);
            && h'.free == h.free && h.free[k] in h'.hdr && Next(h', h.free[k]) == Next(h, h.free[k])
            && Size(h', h.free[k]) == Size(h, h.free[k]) - if k == i then n else 0
  {
    hide Tiled, LiveOk, Linked;
    assert h.free[k] in h.hdr;
    assert k < i ==> h.free[k] < h.free[i];
    assert k > i ==> h.free[i] + Size(h, h.free[i]) <= h.free[k];
  }

  lemma TakeTailLive(h: Heap, i: nat, n: nat)
    requires Loose(h) && 1 <= i < |h.free| && 0 < n < Size(h, h.free[i])
    ensures var h' := TakeTail(h, i, n); var q := h.free[i] + (Size(h, h.free[i]) - n);
            LiveOk(h') && HasHeaders(h') && q !in h.live
  {
    hide Tiled, Linked;
    var h', p, z := TakeTail(h, i, n), h.free[i], Size(h, h.free[i]);
    var q := p + (z - n);
    assert h.base < p;
    forall a | a in h.live
      ensures a != q && a != p && Size(h', a) == h.live[a] && a in h'.hdr && Apart(q, n, a, h.live[a])
    {
      assert Apart(p, z, a, h.live[a]);
    }
    forall k | 0 <= k < |h.free| ensures h.free[k] in h'.hdr { TakeTailAt(h, i, n, k); }
    forall k, a | 1 <= k < |h.free| && a in h'.live ensures Apart(h.free[k], Size(h', h.free[k]), a, h'.live[a]) {
      TakeTailAt(h, i, n, k);
      if a == q {
        assert k < i ==> h.free[k] + Size(h, h.free[k]) <= h.free[i];
        assert k > i ==> h.free[i] + Size(h, h.free[i]) <= h.free[k];
      } else {
        assert Apart(h.free[k], Size(h, h.free[k]), a, h.live[a]);
      }
    }
  }

  lemma TakeTailTiled(h: Heap, i: nat, n: nat)
    requires Loose(h) && 1 <= i < |h.free| && 0 < n < Size(h, h.free[i])
    requires h.free[i] + (Size(h, h.free[i]) - n) !in h.live
    ensures Tiled(TakeTail(h, i, n))
  {
    hide TakeTail, Linked, LiveOk;
    TakeTailRest(h, i, n);
    TakeTailAt(h, i, n, i);
    var h', q := TakeTail(h, i, n), h.free[i] + (Size(h, h.free[i]) - n);
    forall u ensures u in h'.arena <==> (exists k :: InFree(h', k, u)) || (exists a :: InLive(h', a, u)) {
      forall k | InFree(h, k, u) ensures InFree(h', k, u) || InLive(h', q, u) { TakeTailAt(h, i, n, k); }
      forall k | InFree(h', k, u) ensures InFree(h, k, u) { TakeTailAt(h, i, n, k); }
      forall a | InLive(h, a, u) ensures InLive(h', a, u) {}
      forall a | InLive(h', a, u) ensures if a == q then InFree(h, i, u) else InLive(h, a, u) {}
    }
  }

  lemma TakeTailRest(h: Heap, i: nat, n: nat)
    requires i < |h.free| && n < Size(h, h.free[i])
    ensures var h' := TakeTail(h, i, n);
            && h'.live == h.live[h.free[i] + (Size(h, h.free[i]) - n) := n]
            && h'.arena == h.arena && h'.base == h.base && h'.free == h.free
  {
  }

  lemma TakeTailKeeps(h: Heap, i: nat, n: nat)
    requires Valid(h) && 1 <= i < |h.free| && 0 < n < Size(h, h.free[i])
    ensures var h' := TakeTail(h, i, n);
            && Valid(h') && h.free[i] + (Size(h, h.free[i]) - n) !in h.live
            && h'.arena == h.arena && h'.base == h.base && h'.free == h.free
  {
    hide TakeTail, LiveOk, Tiled;
    TakeTailLive(h, i, n);
    TakeTailTiled(h, i, n);
    TakeTailRest(h, i, n);
    var h' := TakeTail(h, i, n);
    forall k | 0 <= k < |h.free|
      ensures Next(h', h.free[k]) == Next(h, h.free[k])
      ensures Size(h', h.free[k]) <= Size(h, h.free[k]) && (k >= 1 ==> Size(h', h.free[k]) > 0)
    {
      TakeTailAt(h, i, n, k);
    }
    forall k ensures !Touch(h', k) { assert !Touch(h, k); }
  }

  /** Everything obtained so far lies below the break p, counted in units. */
  ghost predicate Backed(h: Heap, p: int) {
    h.base < p && forall u :: u in h.arena ==> u < p
  }

  /** The break after morecore's sbrk for nu units. */
  function NewBreak(p: int, nu: nat): int {
    p + SbrkArgument(nu) / UNIT
  }

  lemma BackedIsFresh(h: Heap, p: int, n: nat)
    requires Backed(h, p) && n > 0
    ensures Fresh(h, p, n)
  {
  }

  /** From arena to arena', with the break moved from brk to brk', one region for the request was
      added; it lies below the new break exactly when sbrk was asked for all of it. */
  ghost predicate Extended(arena: set<int>, arena': set<int>, brk: int, brk': int, nbytes: nat) {
    var nu := Max(UnitsFor(nbytes), MIN_UNITS);
    && arena' == arena + Region(brk, nu) && brk' == NewBreak(brk, nu)
    && ((forall u :: u in arena' ==> u < brk') <==> Asked(nbytes) == nu * UNIT)
  }

  /** sbrk's answer holds a block of nu units exactly when the product did not wrap around. */
  lemma GrownBackedIff(h: Heap, p: int, nu: nat)
    requires Backed(h, p) && nu > 0
    ensures (forall u :: u in h.arena + Region(p, nu) ==> u < NewBreak(p, nu)) <==> SbrkArgument(nu) == nu * UNIT
  {
    var n := SbrkArgument(nu);
    assert nu * UNIT % UINT <= nu * UNIT;
    assert p + nu - 1 in h.arena + Region(p, nu);
    if n != nu * UNIT {
      assert n < nu * UNIT;
    }
  }

  /** The units from p to p + n are new. */
  ghost predicate Fresh(h: Heap, p: int, n: nat) {
    h.base < p && n > 0 && forall u :: p <= u < p + n ==> u !in h.arena
  }

  lemma GrownKeeps(h: Heap, p: int, n: nat)
    requires Valid(h) && Fresh(h, p, n)
    ensures Valid(Grown(h, p, n)) && p !in h.live && p !in h.free
  {
    hide Linked, Spaced, Tiled;
    FreshApart(h, p, n);
    GrownFree(h, p, n);
    SameList(h, Grown(h, p, n));
    GrownTiled(h, p, n);
  }

  lemma GrownFree(h: Heap, p: int, n: nat)
    requires Loose(h) && Fresh(h, p, n)
    requires forall i :: 1 <= i < |h.free| ==> Apart(h.free[i], Size(h, h.free[i]), p, n)
    ensures p !in h.free
    ensures forall i :: 0 <= i < |h.free| ==>
              && Size(Grown(h, p, n), h.free[i]) == Size(h, h.free[i])
              && Next(Grown(h, p, n), h.free[i]) == Next(h, h.free[i])
  {
    hide Linked, Spaced, Tiled, LiveOk;
    forall i | 0 <= i < |h.free| ensures h.free[i] != p {
      assert i >= 1 ==> Apart(h.free[i], Size(h, h.free[i]), p, n);
    }
  }

  lemma GrownTiled(h: Heap, p: int, n: nat)
    requires Loose(h) && p !in h.live && p !in h.free
    requires forall i :: 0 <= i < |h.free| ==> Size(Grown(h, p, n), h.free[i]) == Size(h, h.free[i])
    ensures Tiled(Grown(h, p, n))
  {
    hide Linked, Spaced, LiveOk;
    var h' := Grown(h, p, n);
    forall u ensures u in h'.arena <==> (exists i :: InFree(h', i, u)) || (exists a :: InLive(h', a, u)) {
      forall i ensures InFree(h, i, u) <==> InFree(h', i, u) {}
      forall a | InLive(h, a, u) ensures InLive(h', a, u) {}
      forall a | InLive(h', a, u) ensures if a == p then u in Region(p, n) else InLive(h, a, u) {}
      assert u in Region(p, n) ==> InLive(h', p, u);
    }
  }

  /** New units overlap no block. */
  lemma FreshApart(h: Heap, p: int, n: nat)
    requires Loose(h) && Fresh(h, p, n)
    ensures forall a :: a in h.live ==> a != p && Apart(a, h.live[a], p, n) && Apart(p, n, a, h.live[a])
    ensures forall i :: 1 <= i < |h.free| ==> Apart(h.free[i], Size(h, h.free[i]), p, n)
  {
    hide Linked, Spaced;
    forall a | a in h.live ensures a != p && Apart(a, h.live[a], p, n) {
      var u := if a < p then p else a;
      assert (InLive(h, a, u) ==> u in h.arena) && (u == a ==> InLive(h, a, u));
      assert !Apart(a, h.live[a], p, n) ==> InLive(h, a, u) && u in h.arena;
    }
    forall i | 1 <= i < |h.free| ensures Apart(h.free[i], Size(h, h.free[i]), p, n) {
      var u := if h.free[i] < p then p else h.free[i];
      assert InFree(h, i, u) ==> u in h.arena;
      assert !Apart(h.free[i], Size(h, h.free[i]), p, n) ==> InFree(h, i, u);
    }
  }

  lemma SameList(h: Heap, h': Heap)
    requires h'.free == h.free && Linked(h) && Spaced(h)
    requires forall i :: 0 <= i < |h.free| ==>
               Size(h', h.free[i]) == Size(h, h.free[i]) && Next(h', h.free[i]) == Next(h, h.free[i])
    ensures Linked(h') && Spaced(h')
    ensures forall i :: Touch(h', i) <==> Touch(h, i)
  {
  }

  /** Blocks do not overlap: a unit of the heap belongs to exactly one free or live block. */
  lemma OneOwner(h: Heap, u: int)
    requires Valid(h)
    ensures u in h.arena <==> (exists i :: InFree(h, i, u)) || (exists a :: InLive(h, a, u))
    ensures forall i, j :: InFree(h, i, u) && InFree(h, j, u) ==> i == j
    ensures forall a, b :: InLive(h, a, u) && InLive(h, b, u) ==> a == b
    ensures forall i, a :: InFree(h, i, u) ==> !InLive(h, a, u)
  {
    forall i, a | InFree(h, i, u) && a in h.live ensures !InLive(h, a, u) {
      assert Apart(h.free[i], Size(h, h.free[i]), a, h.live[a]);
    }
  }
}
