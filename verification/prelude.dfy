/** Definitions that several components share. */
module Prelude {
  datatype Option<+T> = None | Some(value: T)

  /** One more than the largest 32-bit unsigned value. */
  const UINT: nat := 0x1_0000_0000

  type Byte = b: int | 0 <= b < 256

  function Min(a: nat, b: nat): nat {
    if a < b then a else b
  }

  function Max(a: nat, b: nat): nat {
    if a < b then b else a
  }

  predicate Distinct<T(==)>(s: seq<T>) {
    forall i, j :: 0 <= i < j < |s| ==> s[i] != s[j]
  }

  function Elements(s: seq<nat>): (r: set<nat>)
    ensures (forall x :: x in r <==> x in s) && |r| <= |s| && (Distinct(s) ==> |r| == |s|)
  {
    if s == [] then {} else Elements(s[1..]) + {s[0]}
  }

  lemma CardMono(a: set<nat>, b: set<nat>)
    requires a <= b
    ensures |a| <= |b|
  {
    assert b == a + (b - a);
  }

  /** The numbers below n. */
  function Numbers(n: nat): (r: set<nat>)
    ensures |r| == n && forall x :: x in r <==> 0 <= x < n
  {
    if n == 0 then {} else Numbers(n - 1) + {n - 1}
  }

  lemma UnionSize(a: set<nat>, b: set<nat>)
    ensures |a + b| <= |a| + |b|
  {
    assert a + b == a + (b - a);
    CardMono(b - a, b);
  }
}

/** Kernel parameters (param.h). */
module Param {
  const MAXOPBLOCKS: nat := 10
  const LOGSIZE: nat := MAXOPBLOCKS * 3
  const NBUF: nat := MAXOPBLOCKS * 3
}
