/** filewrite (file.c): a write split into transactions that fit the log. */
module FileWrites {
  import opened Prelude
  import opened Param
  import LogAdmission
  import opened FsState
  import opened FsBlocks
  import opened FsContent
  import opened FsFiles
  import opened FsTrunc
  import opened FsRuns
  import opened FsDevice

  // ---- transaction size ----

  /** filewrite's chunk: ((MAXOPBLOCKS - 1 - 1 - 2) / 2) * 512. */
  const CHUNK: nat := (MAXOPBLOCKS - 1 - 1 - 2) / 2 * 512

  /** A chunk touches at most four blocks, and four only if the first is already there. */
  lemma ChunkBlocks(size: nat, off: nat, n: nat)
    requires off <= size && 0 < n <= CHUNK
    ensures var lo, hi := off / BSIZE, NBlocks(off + n);
      lo <= hi <= lo + 4 && (hi - lo) + (if Max(lo, NBlocks(size)) <= hi then hi - Max(lo, NBlocks(size)) else 0) <= 7
  {
  }

  lemma LogsSize(f: Fs, i: nat, c: nat, lo: nat, hi: nat)
    requires Shaped(f) && i < |f.ino| && lo <= hi <= MAXFILE
    ensures |WriteLogs(f, i, c, lo, hi)| <= (hi - lo) + (if Max(lo, c) <= hi then hi - Max(lo, c) else 0) + 2
  {
    hide Addr;
    var d, m, x := DataBlocks(f, i, lo, hi), MapBlocks(f, i, Max(lo, c), hi), IndBlocks(f, i);
    UnionSize(d, m);
    UnionSize(d + m, x);
    UnionSize({Addr(f, Ind(i))}, {BBlock(f.sb, Addr(f, Ind(i)))});
    assert x == {} || x == {Addr(f, Ind(i))} + {BBlock(f.sb, Addr(f, Ind(i)))};
  }

  /** A log over fewer than MAXOPBLOCKS blocks, and perhaps one more at the end. */
  lemma BoundedLog(log: seq<nat>, w: set<nat>, last: nat)
    requires |w| < MAXOPBLOCKS && forall k :: 0 <= k < |log| ==> log[k] in w
    ensures |Elements(log)| <= MAXOPBLOCKS && LogAdmission.Thrifty(log)
    ensures |Elements(log + [last])| <= MAXOPBLOCKS && LogAdmission.Thrifty(log + [last])
  {
    hide Elements;
    CardMono(Elements(log), w);
    CardMono(Elements(log + [last]), w + {last});
    forall j | 0 <= j <= |log| ensures |Elements(log[..j])| < MAXOPBLOCKS && (log + [last])[..j] == log[..j] {
      CardMono(Elements(log[..j]), w);
    }
  }

  /** Every chunk filewrite hands to writei in a fresh transaction logs at most MAXOPBLOCKS
      distinct blocks, wherever the allocator finds its blocks, and has logged fewer before each
      of its log_writes, so that re-logging a block never finds the header full. */
  lemma TransactionFits(fs: Fs, i: nat, off: nat, src: seq<Byte>)
    requires Inv(fs) && i < |fs.ino| && off < UINT && |src| <= CHUNK && fs.log == []
    requires |fs.dino| == |fs.ino| && Writei(fs, i, off, src).Some?
    ensures var log := Writei(fs, i, off, src).value.0.log;
      |Elements(log)| <= MAXOPBLOCKS && LogAdmission.Thrifty(log)
  {
    hide Inv, Conserved, HasBlocks, WriteLoop, WriteLogs, NBlocks, WriteAllowed, Wrote, Free, Total, CountAfter;
    hide Elements, LogAdmission.Thrifty;
    InvFacts(fs, i);
    AllowedIff(fs, i, off, |src|);
    BoundedLog(fs.log, {}, 0);
    if WriteAllowed(fs, i, off, |src|) {
      if src == [] {
        EmptyWrite(fs, i, off);
      } else {
        var c := NBlocks(fs.ino[i].size);
        SizeCount(fs.ino[i].size, off, |src|);
        LoopLogs(fs, i, c, off, src);
        LoopWrote(fs, i, c, off, src);
        var f := WriteLoop(fs, i, off, src).value;
        WroteSize(fs, f, i, c, CountAfter(c, off, |src|), off, src);
        ChunkBlocks(fs.ino[i].size, off, |src|);
        ChunkArith(c, off, |src|);
        var w := WriteLogs(f, i, c, off / BSIZE, NBlocks(off + |src|));
        LogsSize(f, i, c, off / BSIZE, NBlocks(off + |src|));
        BoundedLog(f.log, w, IBlock(f.sb, i));
      }
    }
  }

  // ---- a whole filewrite ----

  const LIMIT: nat := MAXFILE * BSIZE

  /** What happens before a transaction of filewrite: operations of other processes, and a new
      offset if one of them shares the open file. */
  datatype Turn = Turn(ops: seq<Op>, seek: Option<nat>)

  predicate TurnOk(n: nat, t: Turn) {
    (forall k :: 0 <= k < |t.ops| ==> OpOk(n, t.ops[k])) && (t.seek.Some? ==> t.seek.value < UINT)
  }

  predicate TurnsOk(n: nat, turns: seq<Turn>) {
    forall k :: 0 <= k < |turns| ==> TurnOk(n, turns[k])
  }

  function First(turns: seq<Turn>): Turn {
    if turns == [] then Turn([], None) else turns[0]
  }

  function Rest(turns: seq<Turn>): seq<Turn> {
    if turns == [] then [] else turns[1..]
  }

  function Offset(t: Turn, off: nat): nat {
    if t.seek.Some? then t.seek.value else off
  }

  /** How filewrite ends: the file system, the offset and the number of bytes stored. */
  datatype Written = Written(fs: Fs, off: nat, stored: nat) | Panicked

  function Plus(n: nat, w: Written): Written {
    if w.Panicked? then w else w.(stored := n + w.stored)
  }

  lemma TurnRun(fs: Fs, t: Turn)
    requires Inv(fs) && TurnOk(|fs.ino|, t) && Run(fs, t.ops).Some?
    ensures var g := Run(fs, t.ops).value;
            Inv(g) && |g.ino| == |fs.ino| && Inv(g.(log := [])) && |g.dino| == |g.ino|
  {
    hide Inv, Step, AbsStep;
    RunRefines(fs, t.ops);
    LogIrrelevant(Run(fs, t.ops).value, []);
    GoodInv(Run(fs, t.ops).value);
  }

  lemma GoodInv(fs: Fs)
    requires Inv(fs)
    ensures |fs.dino| == |fs.ino| && Shaped(fs)
  {
  }

  lemma WriteStep(g: Fs, ip: nat, off: nat, bs: seq<Byte>)
    requires Inv(g) && ip < |g.ino| && off < UINT && |bs| < UINT
    ensures |g.dino| == |g.ino| && Shaped(g)
    ensures Writei(g, ip, off, bs).Some? ==>
              var (h, r) := Writei(g, ip, off, bs).value;
              Inv(h) && |h.ino| == |g.ino| && (r >= 0 ==> r == |bs| && off + |bs| <= LIMIT < UINT)
  {
    hide Inv, Writei, WriteDone;
    GoodInv(g);
    WriteiRefines(g, ip, off, bs);
    if Writei(g, ip, off, bs).Some? && off <= g.ino[ip].size && off + |bs| <= LIMIT {
      WriteDoneInv(g, Writei(g, ip, off, bs).value.0, ip, off, bs);
    }
  }

  lemma WriteDoneInv(g: Fs, h: Fs, i: nat, off: nat, bs: seq<Byte>)
    requires Inv(g) && i < |g.ino| && off <= g.ino[i].size && WriteDone(g, h, i, off, bs)
    ensures Inv(h) && |h.ino| == |g.ino|
  {
  }

  /** filewrite's loop: one transaction per chunk, each after the next of `turns`. */
  ghost function Filewrite(fs: Fs, ip: nat, off: nat, src: seq<Byte>, turns: seq<Turn>): Written
    requires Inv(fs) && ip < |fs.ino| && off < UINT && |src| < UINT && TurnsOk(|fs.ino|, turns)
    decreases |src|
  {
    if src == [] then Written(fs, off, 0) else
    var t, n := First(turns), Min(|src|, CHUNK);
    var o := Offset(t, off);
    match Run(fs, t.ops)
    case None => Panicked
    case Some(g) =>
      TurnRun(fs, t);
      WriteStep(g.(log := []), ip, o, src[..n]);
      match Writei(g.(log := []), ip, o, src[..n])
      case None => Panicked
      case Some((h, r)) =>
        if r < 0 then Written(h, o, 0) else Plus(n, Filewrite(h, ip, o + n, src[n..], Rest(turns)))
  }

  /** The same on bytes: chunks go to the file wherever it then ends, until one is refused. */
  function AbsFilewrite(a: Abstract, ip: nat, off: nat, src: seq<Byte>, turns: seq<Turn>)
    : Option<(Abstract, nat, nat)>
    requires ip < |a.files| && TurnsOk(|a.files|, turns)
    decreases |src|
  {
    if src == [] then Some((a, off, 0)) else
    var t, n := First(turns), Min(|src|, CHUNK);
    var o := Offset(t, off);
    match AbsRun(a, t.ops)
    case None => None
    case Some(b) =>
      if !(o <= |b.files[ip]| && o + n <= LIMIT) then Some((b, o, 0)) else
      match AbsStep(b, Write(ip, o, src[..n]))
      case None => None
      case Some(c) =>
        match AbsFilewrite(c, ip, o + n, src[n..], Rest(turns))
        case None => None
        case Some((d, e, m)) => Some((d, e, n + m))
  }

  ghost predicate SameEnd(w: Written, r: Option<(Abstract, nat, nat)>) {
    match w
    case Panicked => r == None
    case Written(f, e, m) => Inv(f) && r == Some((Abs(f), e, m))
  }

  lemma SameEndPlus(n: nat, w: Written, r: Option<(Abstract, nat, nat)>)
    requires SameEnd(w, r)
    ensures SameEnd(Plus(n, w), if r.None? then None else Some((r.value.0, r.value.1, n + r.value.2)))
  {
  }

  lemma AbsLog(fs: Fs)
    requires Inv(fs)
    ensures Inv(fs.(log := [])) && Abs(fs.(log := [])) == Abs(fs)
  {
    hide Inv, Content, Free;
    LogIrrelevant(fs, []);
    assert Abs(fs.(log := [])).files == Abs(fs).files;
  }

  /** Whatever other processes write and truncate in between, filewrite does to the files what
      the byte model does, and panics exactly when the byte model runs out of blocks. */
  lemma {:induction false} FilewriteRefines(fs: Fs, ip: nat, off: nat, src: seq<Byte>, turns: seq<Turn>)
    requires Inv(fs) && ip < |fs.ino| && off < UINT && |src| < UINT && TurnsOk(|fs.ino|, turns)
    ensures SameEnd(Filewrite(fs, ip, off, src, turns), AbsFilewrite(Abs(fs), ip, off, src, turns))
    decreases |src|
  {
    hide Inv, Writei, AbsStep, Run, AbsRun, SameEnd, Content, Free;
    if src == [] {
      EndHere(fs, off);
    } else {
      var t, n := First(turns), Min(|src|, CHUNK);
      var o := Offset(t, off);
      RunRefines(fs, t.ops);
      if Run(fs, t.ops).Some? {
        var g := Run(fs, t.ops).value;
        TurnRun(fs, t);
        AbsLog(g);
        WriteStep(g.(log := []), ip, o, src[..n]);
        ChunkRefines(g.(log := []), ip, o, src[..n]);
        if Writei(g.(log := []), ip, o, src[..n]).Some? {
          var (h, r) := Writei(g.(log := []), ip, o, src[..n]).value;
          EndHere(h, o);
          if r >= 0 {
            FilewriteRefines(h, ip, o + n, src[n..], Rest(turns));
            SameEndPlus(n, Filewrite(h, ip, o + n, src[n..], Rest(turns)),
                        AbsFilewrite(Abs(h), ip, o + n, src[n..], Rest(turns)));
          }
        } else {
          EndPanic();
        }
      } else {
        EndPanic();
      }
    }
  }

  lemma EndHere(fs: Fs, off: nat)
    requires Inv(fs)
    ensures SameEnd(Written(fs, off, 0), Some((Abs(fs), off, 0)))
  {
  }

  lemma EndPanic()
    ensures SameEnd(Panicked, None)
  {
  }

  lemma ChunkRefines(g: Fs, ip: nat, off: nat, bs: seq<Byte>)
    requires Inv(g) && ip < |g.ino| == |g.dino| && Shaped(g) && off < UINT && |bs| < UINT
    ensures var ok, w := off <= |Abs(g).files[ip]| && off + |bs| <= LIMIT, Writei(g, ip, off, bs);
      && (!ok ==> w == Some((g, -1)))
      && (ok ==> if AbsStep(Abs(g), Write(ip, off, bs)).None? then w.None?
                 else w.Some? && w.value.1 == |bs| && Inv(w.value.0)
                      && AbsStep(Abs(g), Write(ip, off, bs)) == Some(Abs(w.value.0)))
  {
    hide Inv, Writei, AbsStep, WriteDone, Free;
    WriteiRefines(g, ip, off, bs);
    StepRefines(g, Write(ip, off, bs));
  }

  // ---- filewrite with nobody else writing ----

  /** Bytes filewrite stores: all, none past the end, or the whole chunks below the limit. */
  function Delivered(size: nat, off: nat, n: nat): nat {
    if off > size then 0
    else if off + n <= LIMIT then n
    else if off > LIMIT then 0
    else (LIMIT - off) / CHUNK * CHUNK
  }

  /** From fs, the bytes done were stored at off of file i and nothing else changed. */
  ghost predicate Stored(fs: Fs, g: Fs, i: nat, off: nat, done: seq<Byte>)
    requires Inv(fs) && i < |fs.ino|
  {
    && Inv(g) && |g.ino| == |fs.ino|
    && (done != [] ==> off <= fs.ino[i].size)
    && Content(g, i) == (if off <= fs.ino[i].size then Overwrite(Content(fs, i), off, done) else Content(fs, i))
    && (forall j :: 0 <= j < |fs.ino| && j != i ==> Content(g, j) == Content(fs, j))
    && Free(g.used) + (if off <= fs.ino[i].size then BlocksTaken(fs.ino[i].size, off, |done|) else 0) == Free(fs.used)
  }

  lemma OverwriteTwice(c: seq<Byte>, off: nat, a: seq<Byte>, b: seq<Byte>)
    requires off <= |c|
    ensures off + |a| <= |Overwrite(c, off, a)|
    ensures Overwrite(Overwrite(c, off, a), off + |a|, b) == Overwrite(c, off, a + b)
  {
  }

  lemma SizeAfter(fs: Fs, g: Fs, i: nat, off: nat, done: seq<Byte>)
    requires Inv(fs) && i < |fs.ino| && off <= fs.ino[i].size && Stored(fs, g, i, off, done)
    ensures g.ino[i].size == Max(fs.ino[i].size, off + |done|)
  {
    hide Inv, Free;
    assert |Content(g, i)| == g.ino[i].size;
  }

  /** Storing a and then b right behind it stores both. */
  lemma StoredTrans(fs: Fs, g: Fs, h: Fs, i: nat, off: nat, a: seq<Byte>, b: seq<Byte>)
    requires Inv(fs) && i < |fs.ino| && off <= fs.ino[i].size && Stored(fs, g, i, off, a)
    requires i < |g.ino| && off + |a| <= g.ino[i].size && Stored(g, h, i, off + |a|, b)
    ensures Stored(fs, h, i, off, a + b)
  {
    hide Inv, Free, Overwrite, Total, NBlocks, Content, BlocksTaken;
    OverwriteTwice(Content(fs, i), off, a, b);
    SizeAfter(fs, g, i, off, a);
    TakenTwice(fs.ino[i].size, off, |a|, |b|);
  }

  lemma StoredNothing(fs: Fs, i: nat, off: nat)
    requires Inv(fs) && i < |fs.ino|
    ensures Inv(fs.(log := [])) && Stored(fs, fs, i, off, []) && Stored(fs, fs.(log := []), i, off, [])
  {
    hide Inv, Free, NBlocks, Content;
    LogIrrelevant(fs, []);
    if off <= fs.ino[i].size {
      assert |Content(fs, i)| == fs.ino[i].size;
      assert Overwrite(Content(fs, i), off, []) == Content(fs, i);
    }
  }

  lemma OneStored(fs: Fs, h: Fs, i: nat, off: nat, bs: seq<Byte>)
    requires Inv(fs) && Inv(fs.(log := [])) && i < |fs.ino| && off <= fs.ino[i].size
    requires WriteDone(fs.(log := []), h, i, off, bs)
    ensures Stored(fs, h, i, off, bs)
  {
    hide Inv, Free, Overwrite, BlocksTaken, Content;
    LogIrrelevant(fs, []);
  }

  /** Starting a transaction changes no file. */
  lemma LogIrrelevant(fs: Fs, l: seq<nat>)
    requires Inv(fs)
    ensures Inv(fs.(log := l))
    ensures forall i :: 0 <= i < |fs.ino| ==> Content(fs.(log := l), i) == Content(fs, i)
  {
    var g := fs.(log := l);
    forall s | SlotOk(fs, s) ensures Addr(g, s) == Addr(fs, s) {
    }
    hide Addr;
    assert forall s :: SlotOk(g, s) <==> SlotOk(fs, s);
    forall b | 0 <= b < |fs.used| ensures Reached(g, b) <==> Reached(fs, b) {
      if Reached(fs, b) {
        var s :| SlotOk(fs, s) && Addr(fs, s) == b;
        assert SlotOk(g, s) && Addr(g, s) == b;
      }
    }
    forall i | 0 <= i < |fs.ino| ensures HasBlocks(g, i, NBlocks(g.ino[i].size)) {
      assert HasBlocks(fs, i, NBlocks(fs.ino[i].size));
    }
    assert Inv(g);
    forall i | 0 <= i < |fs.ino| ensures Content(g, i) == Content(fs, i) {
      ContentIs(g, i, Content(fs, i));
    }
  }

  /** What is delivered behind the first chunk. */
  lemma DeliveredStep(size: nat, off: nat, n: nat)
    requires off <= size <= LIMIT
    ensures var k := Min(n, CHUNK);
      && Delivered(size, off, n) <= n
      && if off + k <= LIMIT then Delivered(size, off, n) == k + Delivered(Max(size, off + k), off + k, n - k)
         else Delivered(size, off, n) == 0
  {
    var x, k := LIMIT - off, Min(n, CHUNK);
    if off + n > LIMIT {
      if k <= x {
        OneLess(x);
      } else {
        assert x / CHUNK == 0;
      }
    }
  }

  lemma OneLess(x: nat)
    requires x >= CHUNK
    ensures x / CHUNK * CHUNK == CHUNK + (x - CHUNK) / CHUNK * CHUNK && x / CHUNK * CHUNK <= x
  {
    assert (x - CHUNK) / CHUNK == x / CHUNK - 1;
  }

  lemma TakenMono(size: nat, off: nat, a: nat, b: nat)
    requires a <= b && off <= size
    ensures 0 == BlocksTaken(size, off, 0) <= BlocksTaken(size, off, a) <= BlocksTaken(size, off, b)
  {
  }

  lemma TakenTwice(size: nat, off: nat, a: nat, b: nat)
    requires off <= size
    ensures BlocksTaken(size, off, a) + BlocksTaken(Max(size, off + a), off + a, b) == BlocksTaken(size, off, a + b)
  {
    hide NBlocks, Total;
  }

  /** What a transaction of filewrite logs. */
  ghost predicate ChunkLog(log: seq<nat>) {
    |Elements(log)| <= MAXOPBLOCKS && LogAdmission.Thrifty(log)
  }

  lemma EmptyChunk()
    ensures ChunkLog([])
  {
  }

  /** However the transactions of concurrent filewrites interleave, none panics in log_write if
      the log has more than LOGSIZE blocks. */
  lemma FileWritesFitTheLog(size: nat, evs: seq<LogAdmission.Event>, scripts: map<nat, seq<nat>>)
    requires size > LOGSIZE && forall t :: t in scripts ==> ChunkLog(scripts[t])
    requires LogAdmission.Scripted(size, LogAdmission.INIT, evs, scripts, map[])
    ensures !LogAdmission.Run(size, LogAdmission.INIT, evs).panicked
  {
    LogAdmission.AdmissionHolds(size, []);
    LogAdmission.ThriftyCallsFit(size, LogAdmission.INIT, evs, scripts, map[]);
  }

  /** states are the file system before filewrite and after each of its transactions. */
  ghost predicate Chunks(states: seq<Fs>, i: nat, off: nat, src: seq<Byte>)
    decreases |src|
  {
    && |states| >= 1 && Inv(states[0]) && i < |states[0].ino| == |states[0].dino|
    && if src == [] then |states| == 1
       else
         var n := Min(|src|, CHUNK);
         && |states| >= 2
         && Writei(states[0].(log := []), i, off, src[..n]) == Some((states[1], n))
         && Chunks(states[1..], i, off + n, src[n..])
  }

  /** The call as a chain of transactions, if it ends well. */
  ghost predicate Alone(fs: Fs, ip: nat, off: nat, src: seq<Byte>, states: seq<Fs>, w: Written)
    requires Inv(fs) && ip < |fs.ino|
  {
    var done := Delivered(fs.ino[ip].size, off, |src|);
    && (w.Panicked? <==> off <= fs.ino[ip].size && Free(fs.used) < BlocksTaken(fs.ino[ip].size, off, done))
    && (w.Written? ==>
          && w.stored == done <= |src| && w.off == off + done && Stored(fs, w.fs, ip, off, src[..done])
          && Chunks(states, ip, off, src[..done]) && states[0] == fs
          && states[|states| - 1].(log := []) == w.fs.(log := []))
  }

  /** With nobody else writing, filewrite stores a prefix of src, all of it exactly when the file
      may grow that far, and panics exactly when blocks run out. */
  lemma {:induction false} FilewriteAlone(fs: Fs, ip: nat, off: nat, src: seq<Byte>) returns (states: seq<Fs>)
    requires Inv(fs) && ip < |fs.ino| && off < UINT && |src| < UINT
    ensures Alone(fs, ip, off, src, states, Filewrite(fs, ip, off, src, []))
    decreases |src|
  {
    hide Inv, Writei, Alone, Free, BlocksTaken, Stored, WriteDone, Run;
    states := [fs];
    InvFacts(fs, ip);
    var n, size, g := Min(|src|, CHUNK), fs.ino[ip].size, fs.(log := []);
    LogIrrelevant(fs, []);
    RunNothing(fs);
    if src == [] {
      AloneStops(fs, fs, ip, off, src);
    } else {
      TurnRun(fs, Turn([], None));
      WriteStep(g, ip, off, src[..n]);
      WriteiRefines(g, ip, off, src[..n]);
      if !(off <= size && off + n <= LIMIT) {
        AloneStops(fs, g, ip, off, src);
      } else if Writei(g, ip, off, src[..n]).None? {
        AlonePanics(fs, ip, off, src, states);
      } else {
        var h := Writei(g, ip, off, src[..n]).value.0;
        var rest := FilewriteAlone(h, ip, off + n, src[n..]);
        states := [fs] + rest;
        OneStored(fs, h, ip, off, src[..n]);
        AloneNext(fs, h, ip, off, src, rest, Filewrite(h, ip, off + n, src[n..], []));
      }
    }
  }

  lemma RunNothing(fs: Fs)
    requires Inv(fs)
    ensures Run(fs, []) == Some(fs)
  {
  }

  lemma AloneStops(fs: Fs, g: Fs, ip: nat, off: nat, src: seq<Byte>)
    requires Inv(fs) && ip < |fs.ino| == |fs.dino| && fs.ino[ip].size <= LIMIT && (g == fs || g == fs.(log := []))
    requires src == [] || !(off <= fs.ino[ip].size && off + Min(|src|, CHUNK) <= LIMIT)
    ensures Alone(fs, ip, off, src, [fs], Written(g, off, 0))
  {
    hide Inv, Stored, Free, BlocksTaken, Delivered;
    var size := fs.ino[ip].size;
    StoredNothing(fs, ip, off);
    assert src[..0] == [];
    NothingDelivered(size, off, |src|);
    if off <= size {
      TakenMono(size, off, 0, 0);
    }
  }

  lemma NothingDelivered(size: nat, off: nat, n: nat)
    requires size <= LIMIT && (n == 0 || !(off <= size && off + Min(n, CHUNK) <= LIMIT))
    ensures Delivered(size, off, n) == 0
  {
    if off <= size {
      DeliveredStep(size, off, n);
    }
  }

  lemma AlonePanics(fs: Fs, ip: nat, off: nat, src: seq<Byte>, states: seq<Fs>)
    requires Inv(fs) && ip < |fs.ino| && off <= fs.ino[ip].size <= LIMIT && off + Min(|src|, CHUNK) <= LIMIT
    requires Free(fs.used) < BlocksTaken(fs.ino[ip].size, off, Min(|src|, CHUNK))
    ensures Alone(fs, ip, off, src, states, Panicked)
  {
    hide Inv, Stored, Free, BlocksTaken, Delivered, Chunks;
    DeliveredStep(fs.ino[ip].size, off, |src|);
    TakenMono(fs.ino[ip].size, off, Min(|src|, CHUNK), Delivered(fs.ino[ip].size, off, |src|));
  }

  /** One transaction, then the rest of the call. */
  lemma AloneNext(fs: Fs, h: Fs, ip: nat, off: nat, src: seq<Byte>, rest: seq<Fs>, w: Written)
    requires Inv(fs) && ip < |fs.ino| == |fs.dino| && src != [] && off <= fs.ino[ip].size <= LIMIT
    requires var n := Min(|src|, CHUNK);
             && off + n <= LIMIT && Inv(fs.(log := [])) && Stored(fs, h, ip, off, src[..n]) && Inv(h) && ip < |h.ino|
             && Writei(fs.(log := []), ip, off, src[..n]) == Some((h, n)) && Alone(h, ip, off + n, src[n..], rest, w)
    ensures Alone(fs, ip, off, src, [fs] + rest, Plus(Min(|src|, CHUNK), w))
  {
    hide Inv, Stored, Free, BlocksTaken, Delivered, Writei;
    var n, size := Min(|src|, CHUNK), fs.ino[ip].size;
    SizeAfter(fs, h, ip, off, src[..n]);
    DeliveredStep(size, off, |src|);
    var m := Delivered(Max(size, off + n), off + n, |src| - n);
    TakenTwice(size, off, n, m);
    StoredFree(fs, h, ip, off, src[..n]);
    if w.Written? {
      assert src[..n] + src[n..][..m] == src[..n + m];
      StoredTrans(fs, h, w.fs, ip, off, src[..n], src[n..][..m]);
      assert src[..n + m][..n] == src[..n] && src[..n + m][n..] == src[n..][..m];
      assert ([fs] + rest)[1..] == rest;
    }
  }

  lemma StoredFree(fs: Fs, g: Fs, i: nat, off: nat, done: seq<Byte>)
    requires Inv(fs) && i < |fs.ino| && off <= fs.ino[i].size && Stored(fs, g, i, off, done)
    ensures Free(g.used) + BlocksTaken(fs.ino[i].size, off, |done|) == Free(fs.used)
  {
  }

  // ---- in place ----

  class OpenFile {
    const ip: nat
    const writable: bool
    var off: nat

    constructor (i: nat, w: bool)
      ensures ip == i && writable == w && off == 0
    {
      ip, writable, off := i, w, 0;
    }

    /** One transaction: begin_op, writei, advance the offset, end_op. */
    method WriteChunk(d: FileSystem, bs: seq<Byte>) returns (r: Option<int>, ghost tx: seq<nat>)
      requires Inv(d.Value()) && ip < |d.ino| && off < UINT && 0 < |bs| <= CHUNK
      modifies this, d
      ensures r.Some? ==> ChunkLog(tx)
      ensures var fs := old(d.Value()).(log := []); var size := old(d.ino[ip].size);
        && Inv(fs) && |fs.dino| == |fs.ino|
        && if !(old(off) <= size && old(off) + |bs| <= LIMIT)
           then && r == Some(-1) && d.Value() == fs && off == old(off) && tx == []
                && Writei(fs, ip, off, bs) == Some((fs, -1))
           else if Free(old(d.used)) < BlocksTaken(size, old(off), |bs|)
           then r == None && Writei(fs, ip, old(off), bs) == None
           else
             && r == Some(|bs|) && off == old(off) + |bs| && tx == d.log && WriteDone(fs, d.Value(), ip, old(off), bs)
             && Writei(fs, ip, old(off), bs) == Some((d.Value(), |bs|))
    {
      hide Inv, WriteDone, Writei, Free, Conserved, BlocksTaken, Elements;
      EmptyChunk();
      LogIrrelevant(d.Value(), []);
      d.log := [];
      ghost var fs := d.Value();
      InvFacts(fs, ip);
      WriteiRefines(fs, ip, off, bs);
      r := d.WriteAt(ip, off, bs);
      tx := d.log;
      if r.Some? {
        TransactionFits(fs, ip, off, bs);
        if r.value > 0 {
          off := off + r.value;
        }
      }
    }

    /** filewrite on an inode, with the turns of other processes before its transactions. */
    method FileWrite(d: FileSystem, src: seq<Byte>, turns: seq<Turn>)
      returns (r: int, panicked: bool, ghost txs: seq<seq<nat>>)
      requires Inv(d.Value()) && ip < |d.ino| && off < UINT && |src| < UINT && TurnsOk(|d.ino|, turns)
      modifies this, d
      ensures forall t :: 0 <= t < |txs| ==> ChunkLog(txs[t])
      ensures !writable ==> r == -1 && !panicked && d.Value() == old(d.Value()) && off == old(off)
      ensures writable ==>
        var w := Filewrite(old(d.Value()), ip, old(off), src, turns);
        && (panicked <==> w.Panicked?)
        && (!panicked ==> w == Written(d.Value(), off, w.stored) && r == (if w.stored == |src| then |src| else -1))
    {
      hide Inv, Free, WriteDone, BlocksTaken, ChunkLog, Writei, Run, Filewrite;
      txs := [];
      if !writable {
        return -1, false, [];
      }
      var i, ts := 0, turns;
      ghost var all, n := Filewrite(d.Value(), ip, off, src, turns), |d.ino|;
      assert src[0..] == src;
      while i < |src|
        invariant i <= |src| && Inv(d.Value()) && ip < |d.ino| == n && off < UINT && TurnsOk(n, ts)
        invariant all == Plus(i, Filewrite(d.Value(), ip, off, src[i..], ts))
        invariant forall t :: 0 <= t < |txs| ==> ChunkLog(txs[t])
      {
        var n1, t := Min(|src| - i, CHUNK), First(ts);
        ghost var fs, o := d.Value(), Offset(t, off);
        FilewriteUnfold(fs, ip, off, src[i..], ts);
        assert src[i..][..n1] == src[i..i + n1] && src[i..][n1..] == src[i + n1..];
        var ok := RunOps(d, t.ops);
        if !ok {
          return -1, true, txs;
        }
        off := Offset(t, off);
        TurnRun(fs, t);
        WriteStep(Run(fs, t.ops).value.(log := []), ip, off, src[i..i + n1]);
        var w, tx := WriteChunk(d, src[i..i + n1]);
        if w.None? {
          return -1, true, txs;
        }
        txs := txs + [tx];
        if w.value < 0 {
          return -1, false, txs;
        }
        i, ts := i + w.value, Rest(ts);
      }
      FilewriteNothing(d.Value(), ip, off, ts);
      assert src[i..] == [];
      r, panicked := |src|, false;
    }
  }

  lemma FilewriteUnfold(fs: Fs, ip: nat, off: nat, src: seq<Byte>, turns: seq<Turn>)
    requires Inv(fs) && ip < |fs.ino| && off < UINT && |src| < UINT && TurnsOk(|fs.ino|, turns) && src != []
    ensures var t, n, w := First(turns), Min(|src|, CHUNK), Filewrite(fs, ip, off, src, turns);
      var o, r := Offset(t, off), Run(fs, t.ops);
      && (r.None? ==> w == Panicked)
      && (r.Some? ==>
            var g := r.value.(log := []);
            && Shaped(g) && ip < |g.ino| == |g.dino|
            && var x := Writei(g, ip, o, src[..n]);
               && (x.None? ==> w == Panicked)
               && (x.Some? && x.value.1 < 0 ==> w == Written(x.value.0, o, 0))
               && (x.Some? && x.value.1 >= 0 ==>
                     && Inv(x.value.0) && |x.value.0.ino| == |fs.ino| && o + n < UINT
                     && w == Plus(n, Filewrite(x.value.0, ip, o + n, src[n..], Rest(turns)))))
  {
    hide Inv, Writei, Run;
    var t, n := First(turns), Min(|src|, CHUNK);
    if Run(fs, t.ops).Some? {
      TurnRun(fs, t);
      WriteStep(Run(fs, t.ops).value.(log := []), ip, Offset(t, off), src[..n]);
    }
  }

  lemma FilewriteNothing(fs: Fs, ip: nat, off: nat, turns: seq<Turn>)
    requires Inv(fs) && ip < |fs.ino| && off < UINT && TurnsOk(|fs.ino|, turns)
    ensures Filewrite(fs, ip, off, [], turns) == Written(fs, off, 0)
  {
  }

  /** The operations of other processes. */
  method RunOps(d: FileSystem, ops: seq<Op>) returns (ok: bool)
    requires Inv(d.Value()) && forall k :: 0 <= k < |ops| ==> OpOk(|d.ino|, ops[k])
    modifies d
    ensures Run(old(d.Value()), ops) == if ok then Some(d.Value()) else None
  {
    hide Inv, Writei, Itrunc, AbsStep;
    ghost var fs := d.Value();
    var k := 0;
    while k < |ops|
      invariant k <= |ops| && Inv(d.Value()) && |d.ino| == |fs.ino|
      invariant Run(fs, ops) == Run(d.Value(), ops[k..])
    {
      var op := ops[k];
      GoodInv(d.Value());
      ghost var g := d.Value();
      StepRefines(g, op);
      RunUnfold(g, ops[k..]);
      if op.Write? {
        var r := d.WriteAt(op.i, op.off, op.src);
        if r.None? {
          return false;
        }
      } else {
        var done := d.Truncate(op.i);
        if !done {
          return false;
        }
      }
      k := k + 1;
    }
    RunNothing(d.Value());
    ok := true;
  }

  lemma RunUnfold(fs: Fs, ops: seq<Op>)
    requires Inv(fs) && ops != [] && forall k :: 0 <= k < |ops| ==> OpOk(|fs.ino|, ops[k])
    ensures Shaped(fs) && ops[0].i < |fs.ino| == |fs.dino|
    ensures Step(fs, ops[0]).None? ==> Run(fs, ops) == None
    ensures Step(fs, ops[0]).Some? ==>
              var f := Step(fs, ops[0]).value; Inv(f) && |f.ino| == |fs.ino| && Run(fs, ops) == Run(f, ops[1..])
  {
    hide Inv, Step, AbsStep;
    GoodInv(fs);
    assert OpOk(|fs.ino|, ops[0]);
    StepRefines(fs, ops[0]);
  }
}
