/** The buffer cache (bio.c) as a state machine over the atomic steps of concurrent bread,
    log_write, bwrite and brelse calls: the cache is an overlay of pending writes on the disk. */
module BufferCache {
  import opened Prelude
  import opened Param
  import opened FsState
  import opened LruRing

  const ROOTDEV: nat := 1

  datatype Buf = Buf(dev: nat, blockno: nat, valid: bool, dirty: bool, refcnt: nat, data: Block)

  /** Where a call stands: counted but waiting for the sleep lock; holding it, with or without
      the block read in, and with or without changes not yet passed to log_write or bwrite;
      or past releasesleep but not yet uncounted. */
  datatype Phase = Waiting | Locked(ready: bool, touched: bool) | Dropping

  datatype Ref = Ref(b: nat, blk: nat, phase: Phase)

  /** `refs` holds the calls in progress; `pending` records what log_write was last given for
      each block not yet written home. */
  datatype St = St(bufs: seq<Buf>, order: seq<nat>, disk: seq<Block>, refs: map<nat, Ref>, pending: map<nat, Block>)

  // ---- bget's two scans ----

  predicate Caches(u: Buf, blk: nat) {
    u.dev == ROOTDEV && u.blockno == blk
  }

  predicate Recyclable(u: Buf) {
    u.refcnt == 0 && !u.dirty
  }

  /** The first buffer from the front that caches blk. */
  function Find(bufs: seq<Buf>, order: seq<nat>, blk: nat): (r: Option<nat>)
    requires forall k :: 0 <= k < |order| ==> order[k] < |bufs|
    ensures r.Some? ==> r.value < |bufs| && Caches(bufs[r.value], blk)
    ensures r.None? ==> forall k :: 0 <= k < |order| ==> !Caches(bufs[order[k]], blk)
  {
    if order == [] then None
    else if Caches(bufs[order[0]], blk) then Some(order[0])
    else Find(bufs, order[1..], blk)
  }

  /** The first buffer from the back that is neither referenced nor dirty. */
  function Victim(bufs: seq<Buf>, order: seq<nat>): (r: Option<nat>)
    requires forall k :: 0 <= k < |order| ==> order[k] < |bufs|
    ensures r.Some? ==> r.value < |bufs| && Recyclable(bufs[r.value])
    ensures r.None? ==> forall k :: 0 <= k < |order| ==> !Recyclable(bufs[order[k]])
  {
    if order == [] then None
    else
      var last := |order| - 1;
      if Recyclable(bufs[order[last]]) then Some(order[last]) else Victim(bufs, order[..last])
  }

  // ---- the steps ----

  datatype Action =
    | Bget(h: nat, blk: nat)
    | Acquire(h: nat)
    | Fill(h: nat)
    | Modify(h: nat, data: Block)
    | LogWrite(h: nat)
    | Bwrite(h: nat)
    | Unlock(h: nat)
    | Drop(h: nat)

  predicate Shape(s: St) {
    && |s.bufs| == |s.order| == NBUF && OrderOk(s.order)
    && forall h :: h in s.refs ==> s.refs[h].b < NBUF && s.refs[h].blk < |s.disk|
  }

  predicate LockFree(refs: map<nat, Ref>, b: nat) {
    forall h :: h in refs && refs[h].b == b ==> !refs[h].phase.Locked?
  }

  predicate Holds(s: St, h: nat, ready: bool) {
    h in s.refs && s.refs[h].phase.Locked? && s.refs[h].phase.ready == ready
  }

  /** When a step can be taken. A caller passes changes on before brelse (log_write or bwrite);
      a bget that finds neither the block nor a victim, or a block off the disk, is a panic. */
  predicate Enabled(s: St, a: Action)
    requires Shape(s)
  {
    match a
    case Bget(h, blk) =>
      && h !in s.refs && blk < |s.disk|
      && (Find(s.bufs, s.order, blk).Some? || Victim(s.bufs, s.order).Some?)
    case Acquire(h) => h in s.refs && s.refs[h].phase == Waiting && LockFree(s.refs, s.refs[h].b)
    case Fill(h) => Holds(s, h, false)
    case Modify(h, _) => Holds(s, h, true)
    case LogWrite(h) => Holds(s, h, true)
    case Bwrite(h) => Holds(s, h, true)
    case Unlock(h) => Holds(s, h, true) && !s.refs[h].phase.touched
    case Drop(h) => h in s.refs && s.refs[h].phase == Dropping
  }

  function SetPhase(s: St, h: nat, p: Phase): St
    requires h in s.refs
  {
    s.(refs := s.refs[h := s.refs[h].(phase := p)])
  }

  function SetBuf(s: St, b: nat, u: Buf): St
    requires b < |s.bufs|
  {
    s.(bufs := s.bufs[b := u])
  }

  function BgetBuf(s: St, h: nat, blk: nat, b: nat, u: Buf): St
    requires b < |s.bufs|
  {
    SetBuf(s, b, u).(refs := s.refs[h := Ref(b, blk, Waiting)])
  }

  function Minus(refs: map<nat, Ref>, h: nat): map<nat, Ref> {
    map g | g in refs && g != h :: refs[g]
  }

  function DropRef(s: St, h: nat): St
  {
    s.(refs := Minus(s.refs, h))
  }

  function Next(s: St, a: Action): (t: St)
    requires Shape(s) && Enabled(s, a)
    ensures |t.disk| == |s.disk|
  {
    match a
    case Bget(h, blk) =>
      var f := Find(s.bufs, s.order, blk);
      if f.Some? then BgetBuf(s, h, blk, f.value, s.bufs[f.value].(refcnt := s.bufs[f.value].refcnt + 1))
      else
        var v := Victim(s.bufs, s.order).value;
        BgetBuf(s, h, blk, v, Buf(ROOTDEV, blk, false, false, 1, s.bufs[v].data))
    case Acquire(h) => SetPhase(s, h, Locked(false, false))
    case Fill(h) =>
      var b := s.refs[h].b;
      var u := s.bufs[b];
      var t := if u.valid || u.blockno >= |s.disk| then s
               else SetBuf(s, b, u.(valid := true, data := s.disk[u.blockno]));
      SetPhase(t, h, Locked(true, false))
    case Modify(h, d) =>
      SetPhase(SetBuf(s, s.refs[h].b, s.bufs[s.refs[h].b].(data := d)), h, Locked(true, true))
    case LogWrite(h) =>
      var u := s.bufs[s.refs[h].b];
      var t := SetPhase(SetBuf(s, s.refs[h].b, u.(dirty := true)), h, Locked(true, false));
      t.(pending := s.pending[u.blockno := u.data])
    case Bwrite(h) =>
      var u := s.bufs[s.refs[h].b];
      if u.blockno >= |s.disk| then s
      else SetPhase(SetBuf(s, s.refs[h].b, u.(dirty := false, valid := true)), h, Locked(true, false)).(
        disk := s.disk[u.blockno := u.data], pending := map k | k in s.pending && k != u.blockno :: s.pending[k])
    case Unlock(h) => SetPhase(s, h, Dropping)
    case Drop(h) =>
      var b := s.refs[h].b;
      var u := s.bufs[b];
      var t := DropRef(SetBuf(s, b, u.(refcnt := if u.refcnt > 0 then u.refcnt - 1 else 0)), h);
      if u.refcnt == 1 && b in s.order then t.(order := Touched(s.order, b)) else t
  }

  // ---- the invariant ----

  function Overlay(s: St, blk: nat): Block
    requires blk < |s.disk|
  {
    if blk in s.pending then s.pending[blk] else s.disk[blk]
  }

  function Holders(refs: map<nat, Ref>, b: nat): set<nat> {
    set h | h in refs && refs[h].b == b
  }

  predicate TouchedBy(refs: map<nat, Ref>, b: nat) {
    exists h :: h in refs && refs[h].b == b && refs[h].phase.Locked? && refs[h].phase.touched
  }

  /** A buffer's flags and data agree with the disk and the pending writes. */
  predicate BufOk(s: St, b: nat)
    requires b < |s.bufs|
  {
    var u := s.bufs[b];
    && u.refcnt == |Holders(s.refs, b)|
    && (u.dirty ==> u.valid && u.blockno in s.pending)
    && (u.valid ==> u.dev == ROOTDEV && u.blockno < |s.disk|)
    && (u.dev == ROOTDEV && !u.dirty ==> u.blockno !in s.pending)
    && (u.valid && u.blockno < |s.disk| && !TouchedBy(s.refs, b) ==> u.data == Overlay(s, u.blockno))
  }

  /** A call's buffer stays the one for its block for as long as it is counted. */
  predicate RefOk(s: St, h: nat)
    requires h in s.refs && s.refs[h].b < |s.bufs|
  {
    var r := s.refs[h];
    && Caches(s.bufs[r.b], r.blk)
    && (r.phase.Dropping? || (r.phase.Locked? && r.phase.ready) ==> s.bufs[r.b].valid)
    && (r.phase.Locked? && r.phase.touched ==> r.phase.ready)
  }

  ghost predicate CacheInv(s: St) {
    && Shape(s)
    && (forall b, c :: 0 <= b < NBUF && 0 <= c < NBUF && b != c && s.bufs[b].dev == ROOTDEV == s.bufs[c].dev ==>
          s.bufs[b].blockno != s.bufs[c].blockno)
    && (forall b :: 0 <= b < NBUF ==> BufOk(s, b))
    && (forall h :: h in s.refs ==> RefOk(s, h))
    && (forall h, g :: h in s.refs && g in s.refs && s.refs[h].phase.Locked? && s.refs[g].phase.Locked? ==>
          s.refs[h].b == s.refs[g].b ==> h == g)
    && (forall blk :: blk in s.pending ==> Pinned(s, blk))
  }

  /** A logged block sits in a dirty buffer. */
  ghost predicate Pinned(s: St, blk: nat)
    requires |s.bufs| == NBUF
  {
    exists b :: 0 <= b < NBUF && Caches(s.bufs[b], blk) && s.bufs[b].dirty
  }
}
