/** binit, bget and brelse (bio.c) on the linked ring itself, each proved against the order
    of buffers that the state machine uses. */
module BufferRing {
  import opened Prelude
  import opened Param
  import opened LruRing
  import opened BufferCache

  class Bcache {
    const next: array<nat>
    const prev: array<nat>
    const bufs: array<Buf>
    /** Buffers from most to least recently used. */
    ghost var order: seq<nat>

    ghost predicate Valid()
      reads this, next, prev, bufs
    {
      && next != prev && bufs.Length == NBUF && next.Length == prev.Length == NBUF + 1
      && Ring(next[..], prev[..], order) && |order| == NBUF
    }

    /** binit: every buffer linked in, the last one first. */
    constructor (junk: FsState.Block)
      ensures Valid() && fresh(next) && fresh(prev) && fresh(bufs)
      ensures forall b :: 0 <= b < NBUF ==> bufs[b] == Buf(0, 0, false, false, 0, junk)
      ensures forall k :: 0 <= k < NBUF ==> order[k] == NBUF - 1 - k
    {
      next := new nat[NBUF + 1](_ => HEAD);
      prev := new nat[NBUF + 1](_ => HEAD);
      bufs := new Buf[NBUF](_ => Buf(0, 0, false, false, 0, junk));
      order := [];
      new;
      assert Linked(next[..], prev[..], At(order, 0), At(order, 1));
      var b := 0;
      while b < NBUF
        invariant b <= NBUF && Ring(next[..], prev[..], order) && |order| == b
        invariant forall k :: 0 <= k < b ==> order[k] == b - 1 - k
        invariant bufs[..] == seq(NBUF, _ => Buf(0, 0, false, false, 0, junk))
      {
        PushFront(b);
        b := b + 1;
      }
      assert forall c :: 0 <= c < NBUF ==> bufs[c] == bufs[..][c];
    }

    /** The four pointer writes that put b behind the head. */
    method PushFront(b: nat)
      requires next != prev && next.Length == prev.Length == NBUF + 1
      requires Ring(next[..], prev[..], order) && b < NBUF && b !in order
      modifies next, prev, `order
      ensures Ring(next[..], prev[..], order) && order == [b] + old(order)
    {
      hide Ring;
      LinkFrontKeeps(next[..], prev[..], order, b);
      next[b] := next[HEAD];
      prev[b] := HEAD;
      prev[next[HEAD]] := b;
      next[HEAD] := b;
      assert next[..] == LinkFront(old(next[..]), old(prev[..]), b).0;
      assert prev[..] == LinkFront(old(next[..]), old(prev[..]), b).1;
      order := [b] + order;
    }

    method TakeOut(b: nat)
      requires next != prev && next.Length == prev.Length == NBUF + 1 && Ring(next[..], prev[..], order) && b in order
      modifies next, prev, `order
      ensures Ring(next[..], prev[..], order) && order == Without(old(order), b)
    {
      hide Ring, Without;
      UnlinkKeeps(next[..], prev[..], order, b);
      prev[next[b]] := prev[b];
      next[prev[b]] := next[b];
      assert next[..] == Unlink(old(next[..]), old(prev[..]), b).0;
      assert prev[..] == Unlink(old(next[..]), old(prev[..]), b).1;
      order := Without(order, b);
    }

    /** Scan from the front for a buffer that caches blk. */
    method Lookup(blk: nat) returns (r: Option<nat>)
      requires Valid()
      ensures r == Find(bufs[..], order, blk)
    {
      hide Find;
      ghost var k := 1;
      RingEnds(next[..], prev[..], order);
      var b := next[HEAD];
      assert order[0..] == order;
      while b != HEAD
        invariant 1 <= k <= NBUF + 1 && b == At(order, k)
        invariant Find(bufs[..], order, blk) == Find(bufs[..], order[k - 1..], blk)
        decreases NBUF + 1 - k
      {
        FindStep(bufs[..], order[k - 1..], blk);
        assert order[k - 1..][1..] == order[k..];
        if bufs[b].dev == ROOTDEV && bufs[b].blockno == blk {
          return Some(b);
        }
        assert Linked(next[..], prev[..], At(order, k), At(order, k + 1));
        b := next[b];
        k := k + 1;
      }
      FindStep(bufs[..], order[k - 1..], blk);
      return None;
    }

    /** Scan from the back for a buffer to recycle. */
    method PickVictim() returns (r: Option<nat>)
      requires Valid()
      ensures r == Victim(bufs[..], order)
    {
      hide Victim;
      ghost var k := NBUF;
      RingEnds(next[..], prev[..], order);
      var b := prev[HEAD];
      assert order[..NBUF] == order;
      while b != HEAD
        invariant 0 <= k <= NBUF && b == At(order, k)
        invariant Victim(bufs[..], order) == Victim(bufs[..], order[..k])
        decreases k
      {
        VictimStep(bufs[..], order[..k]);
        assert order[..k][..k - 1] == order[..k - 1];
        if bufs[b].refcnt == 0 && !bufs[b].dirty {
          return Some(b);
        }
        assert Linked(next[..], prev[..], At(order, k - 1), At(order, k));
        b := prev[b];
        k := k - 1;
      }
      VictimStep(bufs[..], order[..k]);
      return None;
    }

    /** bget up to the release of the cache lock; None is the no-buffers panic. */
    method Bget(blk: nat) returns (r: Option<nat>)
      requires Valid()
      modifies bufs
      ensures Valid()
      ensures var us := old(bufs[..]);
        var f := Find(us, order, blk);
        var v := Victim(us, order);
        if f.Some? then r == f && bufs[..] == us[f.value := us[f.value].(refcnt := us[f.value].refcnt + 1)]
        else if v.Some? then r == v && bufs[..] == us[v.value := Buf(ROOTDEV, blk, false, false, 1, us[v.value].data)]
        else r == None && bufs[..] == us
    {
      hide Find, Victim, Ring;
      RingOrder(next[..], prev[..], order);
      r := Lookup(blk);
      if r.Some? {
        bufs[r.value] := bufs[r.value].(refcnt := bufs[r.value].refcnt + 1);
        return;
      }
      r := PickVictim();
      if r.Some? {
        bufs[r.value] := Buf(ROOTDEV, blk, false, false, 1, bufs[r.value].data);
      }
    }

    /** brelse after the sleep lock is released. */
    method Release(b: nat)
      requires Valid() && b < NBUF && bufs[b].refcnt > 0
      modifies this, next, prev, bufs
      ensures Valid()
      ensures bufs[..] == old(bufs[..])[b := old(bufs[b]).(refcnt := old(bufs[b].refcnt) - 1)]
      ensures b in old(order) && order == if old(bufs[b].refcnt) == 1 then Touched(old(order), b) else old(order)
      ensures old(bufs[b].refcnt) == 1 ==> MovedToFront(old(order), order, b)
    {
      hide Ring;
      RingOrder(next[..], prev[..], order);
      AllPresent(order, b);
      TouchedOk(order, b);
      TouchedMoves(order, b);
      bufs[b] := bufs[b].(refcnt := bufs[b].refcnt - 1);
      if bufs[b].refcnt == 0 {
        TakeOut(b);
        PushFront(b);
      }
    }
  }

  lemma RingOrder(next: seq<nat>, prev: seq<nat>, order: seq<nat>)
    requires Ring(next, prev, order)
    ensures OrderOk(order)
  {
  }

  lemma FindStep(bufs: seq<Buf>, order: seq<nat>, blk: nat)
    requires forall k :: 0 <= k < |order| ==> order[k] < |bufs|
    ensures Find(bufs, order, blk) ==
      if order == [] then None else if Caches(bufs[order[0]], blk) then Some(order[0]) else Find(bufs, order[1..], blk)
  {
  }

  lemma VictimStep(bufs: seq<Buf>, order: seq<nat>)
    requires forall k :: 0 <= k < |order| ==> order[k] < |bufs|
    ensures Victim(bufs, order) ==
      if order == [] then None
      else if Recyclable(bufs[order[|order| - 1]]) then Some(order[|order| - 1])
      else Victim(bufs, order[..|order| - 1])
  {
  }
}
