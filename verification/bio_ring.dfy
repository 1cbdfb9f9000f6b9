/** The buffer cache's LRU list (bio.c): a doubly linked ring through a head, given by the
    order of buffers from most to least recently used. */
module LruRing {
  import opened Prelude
  import opened Param
  const HEAD: nat := NBUF

  predicate OrderOk(order: seq<nat>) {
    Distinct(order) && forall k :: 0 <= k < |order| ==> order[k] < NBUF
  }

  /** Node k of the cycle: the head, the buffers in order, the head again. */
  function At(order: seq<nat>, k: nat): nat
    requires k <= |order| + 1
  {
    if k == 0 || k == |order| + 1 then HEAD else order[k - 1]
  }

  /** next and prev link exactly the head and `order`, in both directions. */
  ghost predicate Ring(next: seq<nat>, prev: seq<nat>, order: seq<nat>) {
    && |next| == |prev| == NBUF + 1 && OrderOk(order)
    && forall k :: 0 <= k <= |order| ==> Linked(next, prev, At(order, k), At(order, k + 1))
  }

  predicate Linked(next: seq<nat>, prev: seq<nat>, a: nat, b: nat)
    requires |next| == |prev| == NBUF + 1
  {
    a <= NBUF && b <= NBUF && next[a] == b && prev[b] == a
  }

  function IndexOf(order: seq<nat>, b: nat): (k: nat)
    requires b in order
    ensures k < |order| && order[k] == b && b !in order[..k]
  {
    if order[0] == b then 0 else 1 + IndexOf(order[1..], b)
  }

  function Without(order: seq<nat>, b: nat): (r: seq<nat>)
    requires b in order
  {
    order[..IndexOf(order, b)] + order[IndexOf(order, b) + 1..]
  }

  /** Most recently used first. */
  function Touched(order: seq<nat>, b: nat): seq<nat>
    requires b in order
  {
    [b] + Without(order, b)
  }

  ghost predicate Precedes(order: seq<nat>, x: nat, y: nat) {
    exists i, j :: 0 <= i < j < |order| && order[i] == x && order[j] == y
  }

  /** b comes first, and the others keep their order. */
  ghost predicate MovedToFront(was: seq<nat>, now: seq<nat>, b: nat) {
    && OrderOk(now) && |now| == |was| > 0 && now[0] == b
    && forall x, y :: x != b && y != b ==> (Precedes(now, x, y) <==> Precedes(was, x, y))
  }

  lemma TouchedMoves(order: seq<nat>, b: nat)
    requires OrderOk(order) && b in order
    ensures MovedToFront(order, Touched(order, b), b)
  {
    TouchedOk(order, b);
    forall x, y | x != b && y != b ensures Precedes(Touched(order, b), x, y) <==> Precedes(order, x, y) {
      TouchedKeeps(order, b, x, y);
    }
  }

  lemma TouchedAt(order: seq<nat>, b: nat, k: nat)
    requires b in order && k < |order|
    ensures |Touched(order, b)| == |order|
    ensures var m := IndexOf(order, b);
            Touched(order, b)[k] == if k == 0 then b else if k <= m then order[k - 1] else order[k]
  {
    hide IndexOf;
  }

  lemma TouchedKeeps(order: seq<nat>, b: nat, x: nat, y: nat)
    requires OrderOk(order) && b in order && x != b && y != b
    ensures Precedes(Touched(order, b), x, y) <==> Precedes(order, x, y)
  {
    hide IndexOf, Touched, OrderOk;
    var now, m := Touched(order, b), IndexOf(order, b);
    TouchedAt(order, b, m);
    if Precedes(now, x, y) {
      var i, j :| 0 <= i < j < |now| && now[i] == x && now[j] == y;
      var p, q := if i <= m then i - 1 else i, if j <= m then j - 1 else j;
      TouchedAt(order, b, i);
      TouchedAt(order, b, j);
      assert order[p] == x && order[q] == y;
    }
    if Precedes(order, x, y) {
      var i, j :| 0 <= i < j < |order| && order[i] == x && order[j] == y;
      var p, q := if i < m then i + 1 else i, if j < m then j + 1 else j;
      TouchedAt(order, b, p);
      TouchedAt(order, b, q);
      assert now[p] == x && now[q] == y;
    }
  }

  lemma MovedBack(was: seq<nat>, now: seq<nat>, b: nat, x: nat, y: nat)
    requires MovedToFront(was, now, b) && Precedes(now, x, y)
    ensures y != b && x != y && (x != b ==> Precedes(was, x, y))
  {
  }

  // ---- the two pointer surgeries ----

  function LinkFront(next: seq<nat>, prev: seq<nat>, b: nat): (seq<nat>, seq<nat>)
    requires |next| == |prev| == NBUF + 1 && b < NBUF && next[HEAD] <= NBUF
  {
    (next[b := next[HEAD]][HEAD := b], prev[b := HEAD][next[HEAD] := b])
  }

  function Unlink(next: seq<nat>, prev: seq<nat>, b: nat): (seq<nat>, seq<nat>)
    requires |next| == |prev| == NBUF + 1 && b < NBUF && next[b] <= NBUF && prev[b] <= NBUF
  {
    (next[prev[b] := next[b]], prev[next[b] := prev[b]])
  }

  lemma RingEnds(next: seq<nat>, prev: seq<nat>, order: seq<nat>)
    requires Ring(next, prev, order)
    ensures next[HEAD] == At(order, 1) <= NBUF && prev[HEAD] == At(order, |order|) <= NBUF
  {
    assert Linked(next, prev, At(order, 0), At(order, 1));
    assert Linked(next, prev, At(order, |order|), At(order, |order| + 1));
  }

  lemma LinkFrontKeeps(next: seq<nat>, prev: seq<nat>, order: seq<nat>, b: nat)
    requires Ring(next, prev, order) && b < NBUF && b !in order
    ensures next[HEAD] <= NBUF
    ensures var (n, p) := LinkFront(next, prev, b); Ring(n, p, [b] + order)
  {
    RingEnds(next, prev, order);
    var (n, p) := LinkFront(next, prev, b);
    var o := [b] + order;
    forall k | 0 <= k <= |o|
      ensures Linked(n, p, At(o, k), At(o, k + 1))
    {
      if k >= 2 {
        assert Linked(next, prev, At(order, k - 1), At(order, k));
        assert At(o, k) == At(order, k - 1) && At(o, k + 1) == At(order, k);
        AtDistinct(order, 1, k);
      } else if k == 1 {
        assert At(o, 2) == At(order, 1);
      }
    }
  }

  /** Nodes of the cycle differ, except that it closes at the head. */
  lemma AtDistinct(order: seq<nat>, j: nat, k: nat)
    requires OrderOk(order) && j < k <= |order| + 1
    ensures At(order, j) == At(order, k) ==> j == 0 && k == |order| + 1
  {
  }

  lemma UnlinkKeeps(next: seq<nat>, prev: seq<nat>, order: seq<nat>, b: nat)
    requires Ring(next, prev, order) && b in order
    ensures b < NBUF && next[b] <= NBUF && prev[b] <= NBUF
    ensures var (n, p) := Unlink(next, prev, b); Ring(n, p, Without(order, b))
  {
    var i := IndexOf(order, b);
    assert Linked(next, prev, At(order, i), At(order, i + 1)) && At(order, i + 1) == b;
    assert Linked(next, prev, At(order, i + 1), At(order, i + 2));
    var (n, p) := Unlink(next, prev, b);
    var o := Without(order, b);
    forall k | 0 <= k <= |o|
      ensures Linked(n, p, At(o, k), At(o, k + 1))
    {
      UnlinkLink(next, prev, order, b, i, k);
    }
  }

  lemma UnlinkLink(next: seq<nat>, prev: seq<nat>, order: seq<nat>, b: nat, i: nat, k: nat)
    requires Ring(next, prev, order) && b in order && i == IndexOf(order, b) && k <= |order| - 1
    requires Linked(next, prev, At(order, i), b) && Linked(next, prev, b, At(order, i + 2))
    ensures var (n, p) := Unlink(next, prev, b); var o := Without(order, b); Linked(n, p, At(o, k), At(o, k + 1))
  {
    WithoutAt(order, b, i, k);
    WithoutAt(order, b, i, k + 1);
    hide Without, IndexOf, At;
    if k < i {
      assert Linked(next, prev, At(order, k), At(order, k + 1));
      AtDistinct(order, k, i);
      AtDistinct(order, k + 1, i + 2);
    } else if k > i {
      assert Linked(next, prev, At(order, k + 1), At(order, k + 2));
      AtDistinct(order, i, k + 1);
      AtDistinct(order, i + 2, k + 2);
    }
  }

  lemma WithoutAt(order: seq<nat>, b: nat, i: nat, k: nat)
    requires OrderOk(order) && b in order && i == IndexOf(order, b) && k <= |order|
    ensures |Without(order, b)| == |order| - 1
    ensures At(Without(order, b), k) == if k <= i then At(order, k) else At(order, k + 1)
  {
    hide IndexOf;
  }

  /** A list of NBUF distinct buffers holds every buffer. */
  lemma AllPresent(order: seq<nat>, b: nat)
    requires OrderOk(order) && |order| == NBUF && b < NBUF
    ensures b in order
  {
    hide Numbers, Elements;
    if b !in order {
      CardMono(Elements(order), Numbers(NBUF) - {b});
    }
  }

  /** Moving a buffer to the front keeps the ring and the set of buffers. */
  lemma TouchedOk(order: seq<nat>, b: nat)
    requires OrderOk(order) && b in order
    ensures OrderOk(Touched(order, b)) && |Touched(order, b)| == |order| && b !in Without(order, b)
  {
  }
}
