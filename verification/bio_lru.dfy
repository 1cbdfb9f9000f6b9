/** Least recently used, as a property of runs of the buffer cache (bio.c): the list is the order
    of last releases, and bget recycles the buffer whose last release is the oldest. */
module BufferLru {
  import opened Param
  import opened LruRing
  import opened BufferCache
  import opened BufferTheorems

  /** The step drops the only reference to buffer b. */
  predicate Releases(s: St, a: Action, b: nat) {
    && a.Drop? && a.h in s.refs && s.refs[a.h].b == b
    && forall g :: g in s.refs && s.refs[g].b == b ==> g == a.h
  }

  /** The position in the run, from 1, of the last release of b; 0 if there is none. */
  function LastRelease(s: St, acts: seq<Action>, b: nat): nat
    requires RunOk(s, acts)
    decreases |acts|
  {
    if acts == [] then 0 else
    var later := LastRelease(Next(s, acts[0]), acts[1..], b);
    if later > 0 then later + 1 else if Releases(s, acts[0], b) then 1 else 0
  }

  /** Released later in the run than y; or neither was released, and it came first at the start. */
  ghost predicate MoreRecent(s: St, acts: seq<Action>, x: nat, y: nat)
    requires RunOk(s, acts)
  {
    var rx, ry := LastRelease(s, acts, x), LastRelease(s, acts, y);
    rx > ry || (rx == ry == 0 && Precedes(s.order, x, y))
  }

  lemma DropMoves(s: St, a: Action)
    requires CacheInv(s) && Enabled(s, a)
    ensures var t := Next(s, a);
            if exists b :: Releases(s, a, b) then
              var b := s.refs[a.h].b; Releases(s, a, b) && MovedToFront(s.order, t.order, b)
            else t.order == s.order
  {
    hide Find, Victim, Touched, Holders, Pinned, MovedToFront;
    if a.Drop? {
      var h, b := a.h, s.refs[a.h].b;
      AllPresent(s.order, b);
      TouchedMoves(s.order, b);
      assert BufOk(s, b);
      SoleHolder(s, h);
    }
  }

  lemma SoleHolder(s: St, h: nat)
    requires h in s.refs
    ensures Releases(s, Drop(h), s.refs[h].b) <==> |Holders(s.refs, s.refs[h].b)| == 1
  {
    var b := s.refs[h].b;
    var hs := Holders(s.refs, b);
    assert h in hs;
    if |hs| == 1 {
      assert |hs - {h}| == 0;
      forall g | g in s.refs && s.refs[g].b == b ensures g == h {
        assert g in hs && hs - {h} == {};
      }
    }
    if Releases(s, Drop(h), b) {
      assert hs == {h};
    }
  }

  /** Over every run the list holds the buffers from the latest to the oldest release, and those
      never released as they were. */
  lemma {:induction false} OrderIsRecency(s: St, acts: seq<Action>, x: nat, y: nat)
    requires CacheInv(s) && RunOk(s, acts) && Precedes(Run(s, acts).order, x, y)
    ensures MoreRecent(s, acts, x, y)
    decreases |acts|
  {
    hide CacheInv, Next, Enabled, Releases, MovedToFront;
    InvShape(s);
    if acts != [] {
      StepKeeps(s, acts[0]);
      DropMoves(s, acts[0]);
      InvShape(Next(s, acts[0]));
      OrderIsRecency(Next(s, acts[0]), acts[1..], x, y);
      RecencyStep(s, acts, x, y);
    }
  }

  lemma RecencyStep(s: St, acts: seq<Action>, x: nat, y: nat)
    requires RunOk(s, acts) && acts != [] && CacheInv(s)
    requires MoreRecent(Next(s, acts[0]), acts[1..], x, y)
    ensures MoreRecent(s, acts, x, y)
  {
    hide CacheInv, Next, Enabled, Precedes, MovedToFront, Shape;
    var a, t := acts[0], Next(s, acts[0]);
    DropMoves(s, a);
    if Precedes(t.order, x, y) && exists b :: Releases(s, a, b) {
      MovedBack(s.order, t.order, s.refs[a.h].b, x, y);
    }
  }

  lemma {:induction false} VictimIsLast(bufs: seq<Buf>, order: seq<nat>)
    requires forall k :: 0 <= k < |order| ==> order[k] < |bufs|
    requires Victim(bufs, order).Some?
    ensures var v := Victim(bufs, order).value;
            v in order && forall b :: b in order && b != v && Recyclable(bufs[b]) ==> Precedes(order, b, v)
  {
    var last := |order| - 1;
    var v := Victim(bufs, order).value;
    if !Recyclable(bufs[order[last]]) {
      VictimIsLast(bufs, order[..last]);
      forall b | b in order && b != v && Recyclable(bufs[b]) ensures Precedes(order, b, v) {
        assert b in order[..last];
      }
    }
  }

  /** Over every run, a bget that finds the block nowhere recycles an unreferenced clean buffer, and
      every other such buffer was released more recently. */
  lemma RecyclesLru(s: St, acts: seq<Action>, h: nat, blk: nat, b: nat)
    requires CacheInv(s) && RunOk(s, acts) && Enabled(Run(s, acts), Bget(h, blk))
    requires forall c :: 0 <= c < NBUF ==> !Caches(Run(s, acts).bufs[c], blk)
    requires b < NBUF && Recyclable(Run(s, acts).bufs[b])
    ensures var v := Next(Run(s, acts), Bget(h, blk)).refs[h].b;
            && v < NBUF && Recyclable(Run(s, acts).bufs[v])
            && (b != v ==> MoreRecent(s, acts, b, v)) && LastRelease(s, acts, v) <= LastRelease(s, acts, b)
  {
    hide CacheInv, Precedes, MoreRecent;
    var t := Run(s, acts);
    CacheIsOverlay(s, acts);
    InvShape(t);
    var v := Victim(t.bufs, t.order).value;
    VictimIsLast(t.bufs, t.order);
    AllPresent(t.order, b);
    if b != v {
      OrderIsRecency(s, acts, b, v);
    }
    RecentLater(s, acts, b, v);
  }

  lemma RecentLater(s: St, acts: seq<Action>, b: nat, v: nat)
    requires RunOk(s, acts) && (b != v ==> MoreRecent(s, acts, b, v))
    ensures LastRelease(s, acts, v) <= LastRelease(s, acts, b)
  {
  }

  /** bget finds the block if any buffer caches it, and takes it as it is.  It panics exactly when
      none does and every buffer is referenced or dirty. */
  lemma BgetIs(s: St, h: nat, blk: nat)
    requires CacheInv(s) && h !in s.refs && blk < |s.disk|
    ensures var hit := exists b :: 0 <= b < NBUF && Caches(s.bufs[b], blk);
            && (!Enabled(s, Bget(h, blk)) <==> !hit && forall b :: 0 <= b < NBUF ==> !Recyclable(s.bufs[b]))
            && (Enabled(s, Bget(h, blk)) ==>
                  var t := Next(s, Bget(h, blk));
                  h in t.refs && var b := t.refs[h].b;
                  && b < NBUF && t.refs == s.refs[h := Ref(b, blk, Waiting)] && t.order == s.order
                  && t.bufs == s.bufs[b := t.bufs[b]] && Caches(t.bufs[b], blk)
                  && t.bufs[b].refcnt == s.bufs[b].refcnt + 1
                  && if hit then t.bufs[b] == s.bufs[b].(refcnt := t.bufs[b].refcnt)
                     else Recyclable(s.bufs[b]) && !t.bufs[b].valid && !t.bufs[b].dirty)
  {
    hide Find, Victim;
    InvShape(s);
    forall b | 0 <= b < NBUF
      ensures Caches(s.bufs[b], blk) ==> Find(s.bufs, s.order, blk).Some?
      ensures Recyclable(s.bufs[b]) ==> Victim(s.bufs, s.order).Some?
    {
      AllPresent(s.order, b);
      assert s.order[IndexOf(s.order, b)] == b;
    }
  }
}
