/** The copy loops of pipewrite and piperead between two sleeps, in place on the ring (pipe.c). */
module PipeBuffer {
  import opened Prelude
  import opened Pipe

  class Buffer {
    const data: array<Byte>
    var nread: nat
    var nwrite: nat
    /** Every byte accepted and delivered so far. */
    ghost var accepted: seq<Byte>
    ghost var delivered: seq<Byte>

    ghost function Value(): St
      reads this, data
    {
      St(nread, nwrite, data[..], true, true, None, None, map[], accepted, delivered)
    }

    ghost predicate Valid()
      reads this, data
    {
      Fifo(Value())
    }

    /** pipealloc. */
    constructor ()
      ensures Valid() && fresh(data) && accepted == [] && delivered == []
    {
      data := new Byte[PIPESIZE](_ => 0);
      nread, nwrite := 0, 0;
      accepted, delivered := [], [];
    }

    /** pipewrite's inner work: bytes go in, in order, until all are in or the ring is full. */
    method WriteSome(src: seq<Byte>) returns (n: nat)
      requires Valid()
      modifies this, data
      ensures Valid() && n <= |src| && accepted == old(accepted) + src[..n] && delivered == old(delivered)
      ensures n == |src| || |InFlight(Value())| == PIPESIZE
    {
      hide InFlight;
      n := 0;
      while n < |src| && nwrite != (nread + PIPESIZE) % UINT
        invariant Valid() && n <= |src| && accepted == old(accepted) + src[..n] && delivered == old(delivered)
      {
        ghost var st := Value();
        PutFifo(st, src[n]);
        data[nwrite % PIPESIZE] := src[n];
        nwrite := (nwrite + 1) % UINT;
        accepted := accepted + [src[n]];
        assert Value() == PutByte(st, src[n]);
        n := n + 1;
      }
      FullIsFull(nread, nwrite);
    }

    /** piperead's copy loop: the oldest bytes come out, in order. */
    method ReadSome(n: nat) returns (dst: seq<Byte>)
      requires Valid()
      modifies this
      ensures Valid() && |dst| <= n && delivered == old(delivered) + dst && accepted == old(accepted)
      ensures |dst| == n || nread == nwrite
      ensures dst <= old(InFlight(Value()))
    {
      hide InFlight;
      dst := [];
      while |dst| < n && nread != nwrite
        invariant Valid() && |dst| <= n && delivered == old(delivered) + dst && accepted == old(accepted)
      {
        ghost var st := Value();
        TakeFifo(st);
        dst := dst + [data[nread % PIPESIZE]];
        delivered := delivered + [data[nread % PIPESIZE]];
        nread := (nread + 1) % UINT;
        assert Value() == TakeByte(st);
      }
      assert old(delivered) + old(InFlight(Value())) == old(delivered) + (dst + InFlight(Value()));
      AppendCancel(old(delivered), old(InFlight(Value())), dst + InFlight(Value()));
    }
  }

  lemma AppendCancel(a: seq<Byte>, b: seq<Byte>, c: seq<Byte>)
    requires a + b == a + c
    ensures b == c
  {
    assert b == (a + b)[|a|..] && c == (a + c)[|a|..];
  }

  lemma FullIsFull(r: nat, w: nat)
    requires r < UINT
    ensures w == (r + PIPESIZE) % UINT ==> (w - r) % UINT == PIPESIZE
  {
  }
}
