/** What every step of the buffer cache keeps, and what bread returns. */
module BufferTheorems {
  import opened Param
  import opened LruRing
  import opened BufferCache

  type Block = FsState.Block

  // ---- reference counts ----

  lemma HoldersAdd(refs: map<nat, Ref>, h: nat, r: Ref, b: nat)
    requires h !in refs
    ensures |Holders(refs[h := r], b)| == |Holders(refs, b)| + if r.b == b then 1 else 0
  {
    if r.b == b {
      assert Holders(refs[h := r], b) == Holders(refs, b) + {h};
    } else {
      assert Holders(refs[h := r], b) == Holders(refs, b);
    }
  }

  lemma HoldersPhase(refs: map<nat, Ref>, h: nat, p: Phase, b: nat)
    requires h in refs
    ensures |Holders(refs[h := refs[h].(phase := p)], b)| == |Holders(refs, b)|
  {
    assert Holders(refs[h := refs[h].(phase := p)], b) == Holders(refs, b);
  }

  lemma HoldersDrop(refs: map<nat, Ref>, h: nat, b: nat)
    requires h in refs
    ensures |Holders(Minus(refs, h), b)| + (if refs[h].b == b then 1 else 0) == |Holders(refs, b)|
  {
    var rest := Minus(refs, h);
    if refs[h].b == b {
      assert Holders(refs, b) == Holders(rest, b) + {h};
    } else {
      assert Holders(refs, b) == Holders(rest, b);
    }
  }

  lemma Unreferenced(s: St, b: nat, h: nat)
    requires CacheInv(s) && b < NBUF && s.bufs[b].refcnt == 0 && h in s.refs
    ensures s.refs[h].b != b
  {
    assert BufOk(s, b);
    assert s.refs[h].b == b ==> h in Holders(s.refs, b);
  }

  lemma SoleLock(s: St, h: nat, g: nat)
    requires CacheInv(s) && h in s.refs && g in s.refs && s.refs[h].phase.Locked?
    requires s.refs[g].phase.Locked? && s.refs[h].b == s.refs[g].b
    ensures g == h
  {
  }

  // ---- each step ----

  /** Acquire and Unlock: only the phase of one call changes, and it stays untouched. */
  lemma PhaseKeeps(s: St, h: nat, p: Phase)
    requires CacheInv(s) && h in s.refs
    requires s.refs[h].phase.Locked? ==> !s.refs[h].phase.touched
    requires (p == Locked(false, false) && LockFree(s.refs, s.refs[h].b))
             || (p == Dropping && s.refs[h].phase.Locked? && s.refs[h].phase.ready)
    ensures CacheInv(SetPhase(s, h, p))
  {
    hide Holders, BufOk, TouchedBy, Pinned;
    var t := SetPhase(s, h, p);
    forall b | 0 <= b < NBUF ensures BufOk(t, b) {
      assert BufOk(s, b);
      PhaseBuf(s, h, p, b);
    }
    forall g | g in t.refs ensures RefOk(t, g) {
      assert RefOk(s, g);
    }
    forall blk | blk in t.pending ensures Pinned(t, blk) {
      assert Pinned(s, blk);
      PinnedSame(s, t, blk);
    }
  }

  lemma PhaseBuf(s: St, h: nat, p: Phase, b: nat)
    requires h in s.refs && (s.refs[h].phase.Locked? ==> !s.refs[h].phase.touched) && (p.Locked? ==> !p.touched)
    requires b < |s.bufs| && BufOk(s, b)
    ensures BufOk(SetPhase(s, h, p), b)
  {
    hide Holders, TouchedBy;
    HoldersPhase(s.refs, h, p, b);
    TouchedSame(s.refs, h, p, b);
  }

  lemma PinnedSame(s: St, t: St, blk: nat)
    requires |s.bufs| == |t.bufs| == NBUF && Pinned(s, blk)
    requires forall c :: 0 <= c < NBUF && s.bufs[c].dirty ==>
               t.bufs[c].dirty && t.bufs[c].dev == s.bufs[c].dev && t.bufs[c].blockno == s.bufs[c].blockno
    ensures Pinned(t, blk)
  {
    var c :| 0 <= c < NBUF && Caches(s.bufs[c], blk) && s.bufs[c].dirty;
    assert Caches(t.bufs[c], blk) && t.bufs[c].dirty;
  }

  lemma TouchedSame(refs: map<nat, Ref>, h: nat, p: Phase, b: nat)
    requires h in refs && (refs[h].phase.Locked? ==> !refs[h].phase.touched) && (p.Locked? ==> !p.touched)
    ensures TouchedBy(refs[h := refs[h].(phase := p)], b) <==> TouchedBy(refs, b)
  {
    var t := refs[h := refs[h].(phase := p)];
    if TouchedBy(refs, b) {
      var g :| g in refs && refs[g].b == b && refs[g].phase.Locked? && refs[g].phase.touched;
      assert g in t && t[g].phase.touched;
    }
  }

  lemma BgetHitKeeps(s: St, h: nat, blk: nat, b: nat)
    requires CacheInv(s) && h !in s.refs && blk < |s.disk| && b < NBUF && Caches(s.bufs[b], blk)
    ensures CacheInv(BgetBuf(s, h, blk, b, s.bufs[b].(refcnt := s.bufs[b].refcnt + 1)))
  {
    hide Holders, BufOk, TouchedBy, Pinned;
    var t := BgetBuf(s, h, blk, b, s.bufs[b].(refcnt := s.bufs[b].refcnt + 1));
    forall c | 0 <= c < NBUF ensures BufOk(t, c) {
      assert BufOk(s, c);
      BgetHitBuf(s, h, blk, b, c);
    }
    forall g | g in t.refs ensures RefOk(t, g) {
      assert g in s.refs ==> RefOk(s, g);
    }
    forall k | k in t.pending ensures Pinned(t, k) {
      assert Pinned(s, k);
      PinnedSame(s, t, k);
    }
  }

  lemma BgetHitBuf(s: St, h: nat, blk: nat, b: nat, c: nat)
    requires h !in s.refs && b < |s.bufs| && c < |s.bufs| && BufOk(s, c)
    ensures BufOk(BgetBuf(s, h, blk, b, s.bufs[b].(refcnt := s.bufs[b].refcnt + 1)), c)
  {
    hide Holders, TouchedBy;
    HoldersAdd(s.refs, h, Ref(b, blk, Waiting), c);
    TouchedAdd(s.refs, h, Ref(b, blk, Waiting), c);
  }

  lemma TouchedAdd(refs: map<nat, Ref>, h: nat, r: Ref, b: nat)
    requires h !in refs && r.phase == Waiting
    ensures TouchedBy(refs[h := r], b) <==> TouchedBy(refs, b)
  {
    var t := refs[h := r];
    if TouchedBy(refs, b) {
      var g :| g in refs && refs[g].b == b && refs[g].phase.Locked? && refs[g].phase.touched;
      assert g in t && t[g].phase.touched;
    }
  }

  /** Recycling: the victim caches nothing pending and nobody refers to it. */
  lemma BgetMissKeeps(s: St, h: nat, blk: nat, v: nat)
    requires CacheInv(s) && h !in s.refs && blk < |s.disk| && v < NBUF && Recyclable(s.bufs[v])
    requires forall b :: 0 <= b < NBUF ==> !Caches(s.bufs[b], blk)
    ensures CacheInv(BgetBuf(s, h, blk, v, Buf(ROOTDEV, blk, false, false, 1, s.bufs[v].data)))
  {
    hide Holders, BufOk, TouchedBy, Pinned;
    var t := BgetBuf(s, h, blk, v, Buf(ROOTDEV, blk, false, false, 1, s.bufs[v].data));
    assert BufOk(s, v);
    NotPending(s, blk);
    forall c | 0 <= c < NBUF ensures BufOk(t, c) {
      assert BufOk(s, c);
      BgetMissBuf(s, h, blk, v, c);
    }
    forall g | g in t.refs ensures RefOk(t, g) {
      if g in s.refs {
        Unreferenced(s, v, g);
        assert RefOk(s, g);
      }
    }
    forall k | k in t.pending ensures Pinned(t, k) {
      assert Pinned(s, k);
      PinnedSame(s, t, k);
    }
  }

  lemma BgetMissBuf(s: St, h: nat, blk: nat, v: nat, c: nat)
    requires h !in s.refs && v < |s.bufs| && c < |s.bufs| && BufOk(s, c)
    requires BufOk(s, v) && Recyclable(s.bufs[v]) && blk !in s.pending
    ensures BufOk(BgetBuf(s, h, blk, v, Buf(ROOTDEV, blk, false, false, 1, s.bufs[v].data)), c)
  {
    hide Holders, TouchedBy;
    HoldersAdd(s.refs, h, Ref(v, blk, Waiting), c);
    TouchedAdd(s.refs, h, Ref(v, blk, Waiting), c);
  }

  lemma NotPending(s: St, blk: nat)
    requires CacheInv(s) && forall b :: 0 <= b < NBUF ==> !Caches(s.bufs[b], blk)
    ensures blk !in s.pending
  {
    assert blk in s.pending ==> Pinned(s, blk);
  }

  /** Steps of a lock holder on its own buffer: refcnt and block number stay. */
  ghost predicate OwnStep(s: St, t: St, h: nat, u: Buf, p: Phase)
    requires CacheInv(s) && h in s.refs
  {
    var b := s.refs[h].b;
    && t.bufs == s.bufs[b := u] && t.order == s.order && t.refs == s.refs[h := s.refs[h].(phase := p)]
    && |t.disk| == |s.disk|
    && u.refcnt == s.bufs[b].refcnt && u.dev == s.bufs[b].dev && u.blockno == s.bufs[b].blockno && u.valid
    && s.refs[h].phase.Locked? && p.Locked? && p.ready
    && (u.dirty <==> u.blockno in t.pending)
    && (!p.touched ==> u.data == Overlay(t, u.blockno))
    && (forall k :: k != u.blockno ==> (k in t.pending <==> k in s.pending))
    && (forall k :: k != u.blockno && k in s.pending ==> t.pending[k] == s.pending[k])
    && (forall k :: 0 <= k < |s.disk| && k != u.blockno ==> t.disk[k] == s.disk[k])
  }

  lemma OwnStepKeeps(s: St, t: St, h: nat, u: Buf, p: Phase)
    requires CacheInv(s) && h in s.refs && s.refs[h].b < NBUF && u.blockno < |t.disk| && OwnStep(s, t, h, u, p)
    ensures CacheInv(t)
  {
    hide Holders;
    var b := s.refs[h].b;
    assert RefOk(s, h);
    forall c | 0 <= c < NBUF ensures BufOk(t, c) {
      OwnStepBuf(s, t, h, u, p, c);
    }
    forall g | g in t.refs ensures RefOk(t, g) {
      assert RefOk(s, g);
    }
    forall k | k in t.pending ensures Pinned(t, k) {
      if k == u.blockno {
        assert Caches(t.bufs[b], k) && t.bufs[b].dirty;
      } else {
        assert Pinned(s, k);
        var c :| 0 <= c < NBUF && Caches(s.bufs[c], k) && s.bufs[c].dirty;
        assert Caches(t.bufs[c], k) && t.bufs[c].dirty;
      }
    }
  }

  lemma OwnStepBuf(s: St, t: St, h: nat, u: Buf, p: Phase, c: nat)
    requires CacheInv(s) && h in s.refs && s.refs[h].b < NBUF
    requires u.blockno < |t.disk| && OwnStep(s, t, h, u, p) && c < NBUF
    ensures BufOk(t, c)
  {
    hide Holders;
    var b := s.refs[h].b;
    assert BufOk(s, c) && BufOk(s, b) && RefOk(s, h);
    HoldersPhase(s.refs, h, p, c);
    if c != b {
      TouchedElsewhere(s.refs, h, p, c);
    } else if p.touched {
      assert h in t.refs && t.refs[h].phase.touched;
    }
  }

  lemma TouchedElsewhere(refs: map<nat, Ref>, h: nat, p: Phase, c: nat)
    requires h in refs && refs[h].b != c
    ensures TouchedBy(refs[h := refs[h].(phase := p)], c) <==> TouchedBy(refs, c)
  {
    var t := refs[h := refs[h].(phase := p)];
    if TouchedBy(refs, c) {
      var g :| g in refs && refs[g].b == c && refs[g].phase.Locked? && refs[g].phase.touched;
      assert g in t && t[g].phase.touched;
    }
  }

  lemma DropKeeps(s: St, h: nat)
    requires CacheInv(s) && h in s.refs && s.refs[h].phase == Dropping
    requires s.refs[h].b < NBUF && s.bufs[s.refs[h].b].refcnt > 0
    ensures var b := s.refs[h].b; var u := s.bufs[b];
      CacheInv(DropRef(SetBuf(s, b, u.(refcnt := u.refcnt - 1)), h))
  {
    hide Holders, BufOk, TouchedBy, Pinned;
    var b := s.refs[h].b;
    var t := DropRef(SetBuf(s, b, s.bufs[b].(refcnt := s.bufs[b].refcnt - 1)), h);
    forall c | 0 <= c < NBUF ensures BufOk(t, c) {
      assert BufOk(s, c);
      DropBuf(s, h, c);
    }
    forall g | g in t.refs ensures RefOk(t, g) {
      assert RefOk(s, g);
    }
    forall k | k in t.pending ensures Pinned(t, k) {
      assert Pinned(s, k);
      PinnedSame(s, t, k);
    }
  }

  lemma DropBuf(s: St, h: nat, c: nat)
    requires h in s.refs && s.refs[h].phase == Dropping && s.refs[h].b < |s.bufs| && s.bufs[s.refs[h].b].refcnt > 0
    requires c < |s.bufs| && BufOk(s, c)
    ensures var b := s.refs[h].b; BufOk(DropRef(SetBuf(s, b, s.bufs[b].(refcnt := s.bufs[b].refcnt - 1)), h), c)
  {
    hide Holders, TouchedBy;
    HoldersDrop(s.refs, h, c);
    TouchedDrop(s.refs, h, c);
  }

  lemma TouchedDrop(refs: map<nat, Ref>, h: nat, c: nat)
    requires h in refs && refs[h].phase == Dropping
    ensures TouchedBy(Minus(refs, h), c) <==> TouchedBy(refs, c)
  {
    var t := Minus(refs, h);
    if TouchedBy(refs, c) {
      var g :| g in refs && refs[g].b == c && refs[g].phase.Locked? && refs[g].phase.touched;
      assert g in t && t[g].phase.touched;
    }
  }

  lemma Counted(s: St, h: nat)
    requires CacheInv(s) && h in s.refs
    ensures s.refs[h].b < NBUF && s.bufs[s.refs[h].b].refcnt > 0
    ensures RefOk(s, h) && BufOk(s, s.refs[h].b)
  {
    assert BufOk(s, s.refs[h].b) && RefOk(s, h);
    assert h in Holders(s.refs, s.refs[h].b);
  }

  lemma ReorderKeeps(s: St, b: nat)
    requires CacheInv(s) && b in s.order
    ensures CacheInv(s.(order := Touched(s.order, b)))
  {
    hide Holders, TouchedBy, Touched;
    TouchedOk(s.order, b);
    var t := s.(order := Touched(s.order, b));
    forall c | 0 <= c < NBUF ensures BufOk(t, c) {
      assert BufOk(s, c);
    }
    forall g | g in t.refs ensures RefOk(t, g) {
      assert RefOk(s, g);
    }
    forall k | k in t.pending ensures Pinned(t, k) {
      assert Pinned(s, k);
    }
  }

  lemma BgetKeeps(s: St, h: nat, blk: nat)
    requires CacheInv(s) && Enabled(s, Bget(h, blk))
    ensures CacheInv(Next(s, Bget(h, blk)))
  {
    hide CacheInv, Find, Victim, BgetBuf, Caches;
    InvShape(s);
    if Find(s.bufs, s.order, blk).Some? {
      BgetHitKeeps(s, h, blk, Find(s.bufs, s.order, blk).value);
    } else {
      forall b | 0 <= b < NBUF ensures !Caches(s.bufs[b], blk) {
        AllPresent(s.order, b);
      }
      BgetMissKeeps(s, h, blk, Victim(s.bufs, s.order).value);
    }
  }

  lemma InvShape(s: St)
    requires CacheInv(s)
    ensures Shape(s)
  {
  }

  lemma HolderKeeps(s: St, a: Action)
    requires CacheInv(s) && Enabled(s, a) && (a.Fill? || a.Modify? || a.LogWrite? || a.Bwrite?)
    ensures CacheInv(Next(s, a))
  {
    hide CacheInv, OwnStep, Next, Enabled, BufOk, RefOk;
    InvShape(s);
    if a.Fill? {
      FillOwn(s, a.h);
    } else if a.Bwrite? {
      BwriteOwn(s, a.h);
    } else {
      DataOwn(s, a);
    }
    var t := Next(s, a);
    OwnStepKeeps(s, t, a.h, t.bufs[s.refs[a.h].b], t.refs[a.h].phase);
  }

  /** Holder steps that touch neither the disk nor the valid flag. */
  lemma DataOwn(s: St, a: Action)
    requires CacheInv(s) && Enabled(s, a) && (a.Modify? || a.LogWrite?)
    ensures var t := Next(s, a);
      && a.h in s.refs && a.h in t.refs && s.refs[a.h].b < NBUF && |t.bufs| == NBUF
      && t.bufs[s.refs[a.h].b].blockno < |t.disk|
      && OwnStep(s, t, a.h, t.bufs[s.refs[a.h].b], t.refs[a.h].phase)
  {
    hide Holders, Pinned, TouchedBy;
    Counted(s, a.h);
  }

  lemma BwriteOwn(s: St, h: nat)
    requires CacheInv(s) && Enabled(s, Bwrite(h))
    ensures var t := Next(s, Bwrite(h));
      && h in s.refs && h in t.refs && s.refs[h].b < NBUF && |t.bufs| == NBUF && t.bufs[s.refs[h].b].blockno < |t.disk|
      && OwnStep(s, t, h, t.bufs[s.refs[h].b], t.refs[h].phase)
  {
    hide Holders, Pinned, TouchedBy;
    Counted(s, h);
  }

  lemma FillOwn(s: St, h: nat)
    requires CacheInv(s) && Enabled(s, Fill(h))
    ensures var t := Next(s, Fill(h));
      && h in s.refs && h in t.refs && s.refs[h].b < NBUF && |t.bufs| == NBUF && t.bufs[s.refs[h].b].blockno < |t.disk|
      && OwnStep(s, t, h, t.bufs[s.refs[h].b], t.refs[h].phase)
  {
    hide Holders, Pinned, TouchedBy;
    Counted(s, h);
    FillFresh(s, h);
  }

  /** A call that has not read its block yet finds the buffer free of unpublished changes. */
  lemma FillFresh(s: St, h: nat)
    requires CacheInv(s) && Holds(s, h, false)
    ensures !TouchedBy(s.refs, s.refs[h].b)
  {
    assert RefOk(s, h);
    forall g | g in s.refs && s.refs[g].b == s.refs[h].b && s.refs[g].phase.Locked? ensures !s.refs[g].phase.touched {
      SoleLock(s, h, g);
    }
  }

  /** Every step keeps the invariant. */
  lemma StepKeeps(s: St, a: Action)
    requires CacheInv(s) && Enabled(s, a)
    ensures CacheInv(Next(s, a))
  {
    hide CacheInv, OwnStep, Find, Victim, Touched;
    InvShape(s);
    match a {
      case Bget(h, blk) => BgetKeeps(s, h, blk);
      case Acquire(h) => PhaseKeeps(s, h, Locked(false, false));
      case Unlock(h) => PhaseKeeps(s, h, Dropping);
      case Drop(h) =>
        Counted(s, h);
        DropKeeps(s, h);
        var b := s.refs[h].b;
        var u := s.bufs[b];
        if u.refcnt == 1 && b in s.order {
          ReorderKeeps(DropRef(SetBuf(s, b, u.(refcnt := u.refcnt - 1)), h), b);
        }
      case _ => HolderKeeps(s, a);
    }
  }

  // ---- the cache over whole runs ----

  function Run(s: St, acts: seq<Action>): (t: St)
    requires RunOk(s, acts)
    ensures Shape(t)
    decreases |acts|
  {
    if acts == [] then s else Run(Next(s, acts[0]), acts[1..])
  }

  /** Every step of the run can be taken when its turn comes. */
  predicate RunOk(s: St, acts: seq<Action>)
    decreases |acts|
  {
    Shape(s) && (acts != [] ==> Enabled(s, acts[0]) && RunOk(Next(s, acts[0]), acts[1..]))
  }

  /** The disk overlaid with the pending writes. */
  function View(s: St): (v: seq<Block>)
    ensures |v| == |s.disk| && forall k :: 0 <= k < |v| ==> v[k] == Overlay(s, k)
  {
    seq(|s.disk|, k requires 0 <= k < |s.disk| => Overlay(s, k))
  }

  /** What log_write and bwrite publish; other steps publish nothing. */
  function Publish(s: St, a: Action, v: seq<Block>): seq<Block>
    requires Shape(s) && Enabled(s, a) && |v| == |s.disk|
  {
    if a.LogWrite? || a.Bwrite? then v[s.refs[a.h].blk := s.bufs[s.refs[a.h].b].data] else v
  }

  lemma ViewStep(s: St, a: Action)
    requires CacheInv(s) && Enabled(s, a)
    ensures View(Next(s, a)) == Publish(s, a, View(s))
  {
    hide Holders, Find, Victim, Touched, BufOk, Pinned;
    if a.h in s.refs {
      Counted(s, a.h);
    }
    var t := Next(s, a);
    forall k | 0 <= k < |s.disk| ensures |t.disk| == |s.disk| && View(t)[k] == Publish(s, a, View(s))[k] {
    }
  }

  /** The blocks as an observer of the published writes knows them. */
  function Published(s: St, acts: seq<Action>, v: seq<Block>): seq<Block>
    requires RunOk(s, acts) && |v| == |s.disk|
    decreases |acts|
  {
    if acts == [] then v
    else Published(Next(s, acts[0]), acts[1..], Publish(s, acts[0], v))
  }

  /** Over every interleaving: each device block is cached at most once, a valid clean buffer
      that nobody holds equals the disk, a logged block stays in a dirty buffer, and a call
      back from bread sees exactly the last published write of its block, or the disk. */
  lemma {:induction false} CacheIsOverlay(s: St, acts: seq<Action>)
    requires CacheInv(s) && RunOk(s, acts)
    ensures var t := Run(s, acts); CacheInv(t) && View(t) == Published(s, acts, View(s))
    decreases |acts|
  {
    hide CacheInv, Next, Enabled, Publish;
    InvShape(s);
    if acts != [] {
      StepKeeps(s, acts[0]);
      ViewStep(s, acts[0]);
      PublishSize(s, acts[0], View(s));
      CacheIsOverlay(Next(s, acts[0]), acts[1..]);
    }
  }

  lemma PublishSize(s: St, a: Action, v: seq<Block>)
    requires Shape(s) && Enabled(s, a) && |v| == |s.disk|
    ensures |Publish(s, a, v)| == |v|
  {
  }

  /** What the invariant says to a caller. */
  lemma BreadSees(s: St, h: nat)
    requires CacheInv(s) && Holds(s, h, true) && !s.refs[h].phase.touched
    ensures s.bufs[s.refs[h].b].data == View(s)[s.refs[h].blk]
  {
    Counted(s, h);
    forall g | g in s.refs && s.refs[g].b == s.refs[h].b && s.refs[g].phase.Locked? ensures !s.refs[g].phase.touched {
      SoleLock(s, h, g);
    }
  }

  lemma CleanEqualsDisk(s: St, b: nat)
    requires CacheInv(s) && b < NBUF && s.bufs[b].valid && !s.bufs[b].dirty && LockFree(s.refs, b)
    ensures s.bufs[b].blockno < |s.disk| && s.bufs[b].data == s.disk[s.bufs[b].blockno]
  {
    assert BufOk(s, b);
  }

  /** bget never takes a buffer that is referenced or holds a logged block. */
  lemma LoggedNeverRecycled(s: St, h: nat, blk: nat, b: nat)
    requires CacheInv(s) && Enabled(s, Bget(h, blk)) && b < NBUF && (s.bufs[b].dirty || s.bufs[b].refcnt > 0)
    ensures var u := Next(s, Bget(h, blk)).bufs[b]; u == s.bufs[b].(refcnt := u.refcnt)
  {
    hide Find, Victim;
  }

  /** After binit: nothing cached, so every buffer is dev 0 block 0. */
  function Boot(disk: seq<Block>, order: seq<nat>, junk: Block): St {
    St(seq(NBUF, _ => Buf(0, 0, false, false, 0, junk)), order, disk, map[], map[])
  }

  lemma BootInv(disk: seq<Block>, order: seq<nat>, junk: Block)
    requires OrderOk(order) && |order| == NBUF
    ensures CacheInv(Boot(disk, order, junk)) && View(Boot(disk, order, junk)) == disk
  {
    var s := Boot(disk, order, junk);
    forall b | 0 <= b < NBUF ensures BufOk(s, b) {
      assert Holders(s.refs, b) == {};
    }
  }
}
