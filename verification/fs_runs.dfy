/** Whole runs: the block-level file system behaves exactly like byte sequences with a count
    of free blocks. */
module FsRuns {
  import opened Prelude
  import opened FsState
  import opened FsContent
  import opened FsFiles
  import opened FsTrunc

  datatype Op = Write(i: nat, off: nat, src: seq<Byte>) | Trunc(i: nat)

  /** Arguments the callers can pass: an inode that exists, and 32-bit offsets and counts. */
  predicate OpOk(n: nat, op: Op) {
    op.i < n && (op.Write? ==> op.off < UINT && |op.src| < UINT)
  }

  /** Files as bytes, and the number of free blocks. */
  datatype Abstract = Abstract(files: seq<seq<Byte>>, free: nat)

  function Step(fs: Fs, op: Op): Option<Fs>
    requires Shaped(fs) && op.i < |fs.ino| == |fs.dino|
  {
    match op
    case Write(i, off, src) => (match Writei(fs, i, off, src) case None => None case Some(p) => Some(p.0))
    case Trunc(i) => Itrunc(fs, i)
  }

  /** The same operation on bytes; None when the free blocks run out. */
  function AbsStep(a: Abstract, op: Op): (r: Option<Abstract>)
    requires op.i < |a.files|
    ensures r.Some? ==> |r.value.files| == |a.files|
  {
    var c := a.files[op.i];
    match op
    case Write(i, off, src) =>
      if !(off <= |c| && off + |src| <= MAXFILE * BSIZE) then Some(a)
      else if a.free < BlocksTaken(|c|, off, |src|) then None
      else Some(Abstract(a.files[i := Overwrite(c, off, src)], a.free - BlocksTaken(|c|, off, |src|)))
    case Trunc(i) => Some(Abstract(a.files[i := []], a.free + Total(NBlocks(|c|))))
  }

  ghost function Abs(fs: Fs): (a: Abstract)
    requires Inv(fs)
    ensures |a.files| == |fs.ino| && a.free == Free(fs.used)
    ensures forall i :: 0 <= i < |fs.ino| ==> a.files[i] == Content(fs, i)
  {
    Abstract(seq(|fs.ino|, i requires 0 <= i < |fs.ino| => Content(fs, i)), Free(fs.used))
  }

  lemma StepRefines(fs: Fs, op: Op)
    requires Inv(fs) && OpOk(|fs.ino|, op)
    ensures |fs.dino| == |fs.ino|
    ensures Step(fs, op).None? <==> AbsStep(Abs(fs), op).None?
    ensures Step(fs, op).Some? ==>
      var f := Step(fs, op).value; Inv(f) && |f.ino| == |fs.ino| && AbsStep(Abs(fs), op) == Some(Abs(f))
  {
    hide Inv, Writei, Itrunc, Overwrite, Total, NBlocks, Free;
    InvFacts(fs, op.i);
    match op {
      case Write(i, off, src) =>
        WriteiRefines(fs, i, off, src);
        if Writei(fs, i, off, src).Some? && off <= fs.ino[i].size && off + |src| <= MAXFILE * BSIZE {
          var f := Writei(fs, i, off, src).value.0;
          assert Abs(f).files == Abs(fs).files[i := Overwrite(Content(fs, i), off, src)];
        }
      case Trunc(i) =>
        ItruncFrees(fs, i);
        assert Abs(Itrunc(fs, i).value).files == Abs(fs).files[i := []];
    }
  }

  ghost function Run(fs: Fs, ops: seq<Op>): Option<Fs>
    requires Inv(fs) && forall k :: 0 <= k < |ops| ==> OpOk(|fs.ino|, ops[k])
    decreases |ops|
  {
    if ops == [] then Some(fs)
    else
      StepRefines(fs, ops[0]);
      match Step(fs, ops[0])
      case None => None
      case Some(f) => Run(f, ops[1..])
  }

  function AbsRun(a: Abstract, ops: seq<Op>): (r: Option<Abstract>)
    requires forall k :: 0 <= k < |ops| ==> OpOk(|a.files|, ops[k])
    ensures r.Some? ==> |r.value.files| == |a.files|
    decreases |ops|
  {
    if ops == [] then Some(a)
    else
      assert OpOk(|a.files|, ops[0]);
      match AbsStep(a, ops[0])
      case None => None
      case Some(b) => AbsRun(b, ops[1..])
  }

  /** Over every sequence of writes and truncations the file system panics exactly when the
      byte model runs out of blocks, and otherwise holds exactly the byte model's files, with
      every block still accounted for. */
  lemma {:induction false} RunRefines(fs: Fs, ops: seq<Op>)
    requires Inv(fs) && forall k :: 0 <= k < |ops| ==> OpOk(|fs.ino|, ops[k])
    ensures Run(fs, ops).None? <==> AbsRun(Abs(fs), ops).None?
    ensures Run(fs, ops).Some? ==> Inv(Run(fs, ops).value) && AbsRun(Abs(fs), ops) == Some(Abs(Run(fs, ops).value))
    decreases |ops|
  {
    hide Inv, Step, AbsStep;
    if ops != [] {
      assert OpOk(|fs.ino|, ops[0]);
      InvFacts(fs, ops[0].i);
      StepRefines(fs, ops[0]);
      if Step(fs, ops[0]).Some? {
        RunRefines(Step(fs, ops[0]).value, ops[1..]);
      }
    }
  }

  lemma {:induction false} AbsRunAppend(a: Abstract, x: seq<Op>, y: seq<Op>)
    requires forall k :: 0 <= k < |x| ==> OpOk(|a.files|, x[k])
    requires forall k :: 0 <= k < |y| ==> OpOk(|a.files|, y[k])
    requires forall k :: 0 <= k < |x + y| ==> OpOk(|a.files|, (x + y)[k])
    ensures AbsRun(a, x + y) == if AbsRun(a, x).None? then None else AbsRun(AbsRun(a, x).value, y)
    decreases |x|
  {
    hide AbsStep;
    if x == [] {
      assert x + y == y;
    } else {
      assert (x + y)[0] == x[0] && (x + y)[1..] == x[1..] + y;
      assert OpOk(|a.files|, x[0]);
      if AbsStep(a, x[0]).Some? {
        AbsRunAppend(AbsStep(a, x[0]).value, x[1..], y);
      }
    }
  }

  /** An image in which only the metadata is marked and every inode is empty satisfies the
      invariant, so the runs above start somewhere. */
  lemma FreshImage(fs: Fs)
    requires Shaped(fs) && fs.dino == fs.ino && forall i :: 0 <= i < |fs.ino| ==> fs.ino[i] == EMPTY
    requires forall b :: 0 <= b < |fs.used| ==> (fs.used[b] <==> b < fs.sb.meta)
    ensures Inv(fs)
  {
    forall s | SlotOk(fs, s) ensures Addr(fs, s) == 0 {
    }
    hide Addr;
    assert forall b :: 0 < b ==> !Reached(fs, b);
  }
}
