/** fs.c as it updates the bitmap, blocks and inodes in place, each method proved against its
    function. */
module FsDevice {
  import opened Prelude
  import opened FsState
  import opened FsBlocks
  import opened FsContent
  import opened FsFiles
  import opened FsTrunc

  lemma {:induction false} FreeAllAppend(fs: Fs, a: seq<nat>, b: seq<nat>)
    ensures FreeAll(fs, a + b) == if FreeAll(fs, a).None? then None else FreeAll(FreeAll(fs, a).value, b)
    decreases |a|
  {
    if a == [] {
      assert a + b == b;
    } else {
      assert (a + b)[1..] == a[1..] + b;
      if Bfree(fs, a[0]).Some? {
        FreeAllAppend(Bfree(fs, a[0]).value, a[1..], b);
      }
    }
  }

  lemma {:induction false} NonzeroAppend(a: seq<nat>, b: seq<nat>)
    ensures Nonzero(a + b) == Nonzero(a) + Nonzero(b)
  {
    if a == [] {
      assert a + b == b;
    } else {
      assert (a + b)[1..] == a[1..] + b;
      NonzeroAppend(a[1..], b);
    }
  }

  lemma NonzeroStep(s: seq<nat>, k: nat)
    requires k < |s|
    ensures Nonzero(s[..k + 1]) == Nonzero(s[..k]) + (if s[k] == 0 then [] else [s[k]])
  {
    assert s[..k + 1] == s[..k] + [s[k]];
    NonzeroAppend(s[..k], [s[k]]);
  }

  /** One more address of s freed, or the panic that ends the run. */
  lemma FreeStep(fs: Fs, f: Fs, s: seq<nat>, k: nat, rest: seq<nat>)
    requires k < |s| && FreeAll(fs, Nonzero(s[..k])) == Some(f)
    ensures s[k] == 0 ==> FreeAll(fs, Nonzero(s[..k + 1])) == Some(f)
    ensures s[k] != 0 ==> FreeAll(fs, Nonzero(s[..k + 1])) == Bfree(f, s[k])
    ensures s[k] != 0 && Bfree(f, s[k]).None? ==> FreeAll(fs, Nonzero(s) + rest).None?
  {
    NonzeroStep(s, k);
    FreeAllAppend(fs, Nonzero(s[..k]), [s[k]]);
    assert s[k] == 0 ==> Nonzero(s[..k + 1]) == Nonzero(s[..k]);
    assert s == s[..k + 1] + s[k + 1..];
    NonzeroAppend(s[..k + 1], s[k + 1..]);
    var done := Nonzero(s[..k + 1]);
    assert Nonzero(s) + rest == done + (Nonzero(s[k + 1..]) + rest);
    FreeAllAppend(fs, done, Nonzero(s[k + 1..]) + rest);
  }

  lemma PrependNone(r: Option<(Fs, seq<Byte>)>)
    ensures Prepend([], r) == r
  {
    assert r.Some? ==> [] + r.value.1 == r.value.1;
  }

  lemma NonePrepended(a: seq<Byte>)
    ensures Prepend(a, None) == None
  {
  }

  lemma PrependTwice(a: seq<Byte>, b: seq<Byte>, r: Option<(Fs, seq<Byte>)>)
    ensures Prepend(a, Prepend(b, r)) == Prepend(a + b, r) && (Prepend(b, r).None? <==> r.None?)
  {
    assert r.Some? ==> a + (b + r.value.1) == a + b + r.value.1;
  }

  lemma ReadNothing(fs: Fs, i: nat, off: nat, a: seq<Byte>)
    requires Shaped(fs) && i < |fs.ino|
    ensures Prepend(a, ReadLoop(fs, i, off, 0)) == Some((fs, a))
  {
    assert a + [] == a;
  }

  lemma NothingFreed(fs: Fs)
    ensures FreeAll(fs, Nonzero([])) == Some(fs)
  {
  }

  lemma OneFreed(fs: Fs, b: nat)
    ensures FreeAll(fs, [b]) == Bfree(fs, b)
  {
  }

  /** Freeing blocks does not look at inodes. */
  lemma {:induction false} FreeAllFrame(fs: Fs, bs: seq<nat>, x: seq<Inode>)
    ensures FreeAll(fs, bs).None? <==> FreeAll(fs.(ino := x), bs).None?
    ensures FreeAll(fs, bs).Some? ==> FreeAll(fs.(ino := x), bs) == Some(FreeAll(fs, bs).value.(ino := x))
    decreases |bs|
  {
    if bs != [] && Bfree(fs, bs[0]).Some? {
      FreeAllFrame(Bfree(fs, bs[0]).value, bs[1..], x);
      assert Bfree(fs.(ino := x), bs[0]).value == Bfree(fs, bs[0]).value.(ino := x);
    }
  }

  /** The addresses with the first k set to 0. */
  function PartCleared(a: seq<nat>, k: nat): seq<nat>
    requires k <= |a|
  {
    seq(k, _ => 0) + a[k..]
  }

  lemma PartNone(a: seq<nat>)
    ensures PartCleared(a, 0) == a
  {
  }

  lemma PartStep(a: seq<nat>, k: nat)
    requires k < |a|
    ensures |PartCleared(a, k)| == |a| && PartCleared(a, k)[k] == a[k]
    ensures PartCleared(a, k + 1) == PartCleared(a, k)[k := 0]
    ensures a[k] == 0 ==> PartCleared(a, k + 1) == PartCleared(a, k)
  {
  }

  class FileSystem {
    const sb: Super
    var used: seq<bool>
    var blk: seq<Block>
    var ino: seq<Inode>
    var dino: seq<Inode>
    var log: seq<nat>

    constructor (fs: Fs)
      ensures Value() == fs
    {
      sb, used, blk, ino, dino, log := fs.sb, fs.used, fs.blk, fs.ino, fs.dino, fs.log;
    }

    function Value(): Fs
      reads this
    {
      Fs(sb, used, blk, ino, dino, log)
    }

    method ZeroOut(b: nat)
      requires b < |blk|
      modifies `blk, `log
      ensures blk == old(blk)[b := ZeroBlock()] && log == old(log) + [b]
    {
      blk := blk[b := ZeroBlock()];
      log := log + [b];
    }

    method AllocBlock() returns (r: Option<nat>)
      requires Shaped(Value())
      modifies `used, `blk, `log
      ensures r.Some? ==> Balloc(old(Value())) == Some((Value(), r.value))
      ensures r.None? ==> Balloc(old(Value())) == None && Value() == old(Value())
    {
      var b := 0;
      while b < |used|
        invariant b % BPB == 0 && Value() == old(Value())
        invariant forall k :: 0 <= k < b && k < |used| ==> used[k]
      {
        var bi := 0;
        while bi < BPB && b + bi < |used|
          invariant bi <= BPB && Value() == old(Value())
          invariant forall k :: 0 <= k < b + bi && k < |used| ==> used[k]
        {
          if !used[b + bi] {
            assert BBlock(sb, b) == BBlock(sb, b + bi) && FirstFree(used, 0) == b + bi;
            used := used[b + bi := true];
            log := log + [BBlock(sb, b)];
            ZeroOut(b + bi);
            assert log == old(log) + [BBlock(sb, b + bi), b + bi];
            return Some(b + bi);
          }
          bi := bi + 1;
        }
        b := b + BPB;
      }
      return None;
    }

    method FreeBlock(b: nat) returns (ok: bool)
      modifies `used, `log
      ensures ok ==> Bfree(old(Value()), b) == Some(Value())
      ensures !ok ==> Bfree(old(Value()), b) == None && Value() == old(Value())
    {
      if b >= |used| || !used[b] {
        return false;
      }
      used := used[b := false];
      log := log + [BBlock(sb, b)];
      return true;
    }

    method MapBlock(i: nat, bn: nat) returns (r: Option<nat>)
      requires Shaped(Value()) && i < |ino|
      modifies this
      ensures r.Some? ==> Bmap(old(Value()), i, bn) == Some((Value(), r.value))
      ensures r.None? ==> Bmap(old(Value()), i, bn) == None
    {
      hide Word, PutWord, FirstFree;
      if bn < NDIRECT {
        var addr := ino[i].addrs[bn];
        if addr == 0 {
          var a := AllocBlock();
          if a.None? { return None; }
          addr := a.value;
          ino := ino[i := ino[i].(addrs := ino[i].addrs[bn := addr])];
        }
        return Some(addr);
      }
      if bn - NDIRECT < NINDIRECT {
        var addr := ino[i].addrs[NDIRECT];
        if addr == 0 {
          var a := AllocBlock();
          if a.None? { return None; }
          addr := a.value;
          ino := ino[i := ino[i].(addrs := ino[i].addrs[NDIRECT := addr])];
        }
        if addr >= |blk| { return None; }
        r := MapEntry(addr, bn - NDIRECT);
        return;
      }
      return None;
    }

    /** The entry of an indirect block, allocated if it was 0. */
    method MapEntry(a: nat, j: nat) returns (r: Option<nat>)
      requires Shaped(Value()) && a < |blk| && j < NINDIRECT
      modifies this
      ensures r.Some? ==> OwnEntry(old(Value()), a, j) == Some((Value(), r.value))
      ensures r.None? ==> OwnEntry(old(Value()), a, j) == None
    {
      hide Word, PutWord, FirstFree;
      var addr := Word(blk[a], j);
      if addr == 0 {
        var b := AllocBlock();
        if b.None? { return None; }
        addr := b.value;
        blk := blk[a := PutWord(blk[a], j, addr)];
        log := log + [a];
      }
      return Some(addr);
    }

    method UpdateInode(i: nat)
      requires i < |ino| && i < |dino|
      modifies `dino, `log
      ensures Value() == Iupdate(old(Value()), i)
    {
      dino := dino[i := ino[i]];
      log := log + [IBlock(sb, i)];
    }

    method FreeDirect(i: nat, ghost rest: seq<nat>) returns (ok: bool)
      requires Shaped(Value()) && i < |ino|
      modifies `used, `log, `ino
      ensures ok ==>
        && FreeAll(old(Value()), Nonzero(old(ino[i].addrs)[..NDIRECT])) == Some(Value().(ino := old(ino)))
        && ino == old(ino)[i := old(ino[i]).(addrs := PartCleared(old(ino[i].addrs), NDIRECT))]
      ensures !ok ==> FreeAll(old(Value()), Nonzero(old(ino[i].addrs)[..NDIRECT]) + rest).None?
    {
      hide FreeAll, Nonzero, PartCleared;
      ghost var fs := Value();
      ghost var direct := fs.ino[i].addrs[..NDIRECT];
      NothingFreed(fs);
      assert direct[..0] == [];
      PartNone(fs.ino[i].addrs);
      var k := 0;
      while k < NDIRECT
        invariant k <= NDIRECT && FreeAll(fs, Nonzero(direct[..k])) == Some(Value().(ino := fs.ino))
        invariant |ino| == |fs.ino| && (forall j :: 0 <= j < |ino| && j != i ==> ino[j] == fs.ino[j])
        invariant ino[i] == fs.ino[i].(addrs := PartCleared(fs.ino[i].addrs, k))
      {
        FreeStep(fs, Value().(ino := fs.ino), direct, k, rest);
        PartStep(fs.ino[i].addrs, k);
        if ino[i].addrs[k] != 0 {
          ok := FreeBlock(ino[i].addrs[k]);
          if !ok { return; }
          ino := ino[i := ino[i].(addrs := ino[i].addrs[k := 0])];
        }
        k := k + 1;
      }
      assert direct[..NDIRECT] == direct;
      return true;
    }

    method FreeIndirect(a: nat) returns (ok: bool)
      requires a < |blk|
      modifies `used, `log
      ensures ok ==> FreeAll(old(Value()), Nonzero(Words(blk[a])) + [a]) == Some(Value())
      ensures !ok ==> FreeAll(old(Value()), Nonzero(Words(blk[a])) + [a]).None?
    {
      hide FreeAll, Nonzero, Word;
      ghost var fs := Value();
      ghost var w := Words(blk[a]);
      NothingFreed(fs);
      assert w[..0] == [];
      var j := 0;
      while j < NINDIRECT
        invariant j <= NINDIRECT && blk == fs.blk && FreeAll(fs, Nonzero(w[..j])) == Some(Value())
      {
        FreeStep(fs, Value(), w, j, [a]);
        if Word(blk[a], j) != 0 {
          ok := FreeBlock(Word(blk[a], j));
          if !ok { return; }
        }
        j := j + 1;
      }
      assert w[..NINDIRECT] == w;
      FreeAllAppend(fs, Nonzero(w), [a]);
      OneFreed(Value(), a);
      ok := FreeBlock(a);
    }

    method Truncate(i: nat) returns (ok: bool)
      requires Shaped(Value()) && i < |ino| == |dino|
      modifies this
      ensures ok ==> Itrunc(old(Value()), i) == Some(Value())
      ensures !ok ==> Itrunc(old(Value()), i) == None
    {
      hide FreeAll, Nonzero, Words;
      ghost var fs := Value();
      ghost var direct := Nonzero(fs.ino[i].addrs[..NDIRECT]);
      ghost var b := fs.ino[i].addrs[NDIRECT];
      ok := FreeDirect(i, if b == 0 || b >= |blk| then [] else Nonzero(Words(blk[b])) + [b]);
      assert direct + [] == direct;
      if !ok { return; }
      ghost var f := Value();
      var a := ino[i].addrs[NDIRECT];
      if a != 0 {
        if a >= |blk| { return false; }
        ghost var rest := Nonzero(Words(blk[a])) + [a];
        FreeAllAppend(fs, direct, rest);
        FreeAllFrame(f, rest, fs.ino);
        ok := FreeIndirect(a);
        if !ok { return; }
        ino := ino[i := ino[i].(addrs := ino[i].addrs[NDIRECT := 0])];
      }
      ino := ino[i := ino[i].(size := 0)];
      assert ino[i].addrs == EMPTY.addrs;
      assert ino == fs.ino[i := EMPTY];
      UpdateInode(i);
    }

    method ReadAt(i: nat, off: nat, n: nat) returns (r: Option<int>, dst: seq<Byte>)
      requires Shaped(Value()) && i < |ino| && off < UINT && n < UINT
      modifies this
      ensures r.Some? ==> Readi(old(Value()), i, off, n) == Some((Value(), r.value, dst))
      ensures r.None? ==> Readi(old(Value()), i, off, n) == None
    {
      hide Bmap, ReadLoop, Chunk, Prepend;
      ghost var fs := Value();
      dst := [];
      if off > ino[i].size || (off + n) % UINT < off {
        return Some(-1), [];
      }
      var len := if (off + n) % UINT > ino[i].size then ino[i].size - off else n;
      var tot, o := 0, off;
      PrependNone(ReadLoop(fs, i, off, len));
      while tot < len
        invariant tot <= len && 0 <= o && Shaped(Value()) && i < |ino|
        invariant ReadLoop(fs, i, off, len) == Prepend(dst, ReadLoop(Value(), i, o, len - tot))
      {
        ReadUnfold(Value(), i, o, len - tot);
        ChunkSize(o, len - tot);
        ghost var before := dst;
        var a := MapBlock(i, o / BSIZE);
        if a.None? || a.value >= |blk| {
          NonePrepended(before);
          return None, [];
        }
        var m := Chunk(o, len - tot);
        PrependTwice(before, blk[a.value][o % BSIZE..o % BSIZE + m], ReadLoop(Value(), i, o + m, len - tot - m));
        dst := dst + blk[a.value][o % BSIZE..o % BSIZE + m];
        tot, o := tot + m, o + m;
      }
      ReadNothing(Value(), i, o, dst);
      return Some(len), dst;
    }

    method WriteOnce(i: nat, off: nat, bs: seq<Byte>) returns (ok: bool)
      requires Shaped(Value()) && i < |ino| && off % BSIZE + |bs| <= BSIZE
      modifies this
      ensures ok ==> WriteRound(old(Value()), i, off, bs) == Some(Value())
      ensures !ok ==> WriteRound(old(Value()), i, off, bs) == None
    {
      hide Bmap, SpliceBlock;
      var a := MapBlock(i, off / BSIZE);
      if a.None? || a.value >= |blk| {
        return false;
      }
      blk := blk[a.value := SpliceBlock(blk[a.value], off % BSIZE, bs)];
      log := log + [a.value];
      return true;
    }

    method WriteAll(i: nat, off: nat, src: seq<Byte>) returns (ok: bool)
      requires Shaped(Value()) && i < |ino|
      modifies this
      ensures ok ==> WriteLoop(old(Value()), i, off, src) == Some(Value())
      ensures !ok ==> WriteLoop(old(Value()), i, off, src) == None
    {
      hide WriteRound, WriteLoop, Chunk;
      ghost var fs := Value();
      var tot, o := 0, off;
      assert src[0..] == src;
      while tot < |src|
        invariant tot <= |src| && o == off + tot && Shaped(Value()) && i < |ino|
        invariant WriteLoop(fs, i, off, src) == WriteLoop(Value(), i, o, src[tot..])
      {
        LoopUnfold(Value(), i, o, src[tot..]);
        ChunkSize(o, |src| - tot);
        var m := Chunk(o, |src| - tot);
        assert src[tot..][..m] == src[tot..tot + m] && src[tot..][m..] == src[tot + m..];
        ok := WriteOnce(i, o, src[tot..tot + m]);
        if !ok { return; }
        tot, o := tot + m, o + m;
      }
      assert src[tot..] == [];
      EmptyWrite(Value(), i, o);
      return true;
    }

    method WriteAt(i: nat, off: nat, src: seq<Byte>) returns (r: Option<int>)
      requires Shaped(Value()) && i < |ino| == |dino| && off < UINT && |src| < UINT
      modifies this
      ensures r.Some? ==> Writei(old(Value()), i, off, src) == Some((Value(), r.value))
      ensures r.None? ==> Writei(old(Value()), i, off, src) == None
    {
      hide WriteLoop;
      var n := |src|;
      if off > ino[i].size || (off + n) % UINT < off {
        return Some(-1);
      }
      if (off + n) % UINT > MAXFILE * BSIZE {
        return Some(-1);
      }
      var ok := WriteAll(i, off, src);
      if !ok {
        return None;
      }
      if n > 0 && off + n > ino[i].size {
        ino := ino[i := ino[i].(size := off + n)];
        UpdateInode(i);
      }
      return Some(n);
    }
  }
}
