/** Crash safety of file operations: their transactions through the redo log. */
module FsCrash {
  import opened Prelude
  import opened Param
  import opened FsState
  import opened FsBlocks
  import opened FsContent
  import opened FsFiles
  import opened FsTrunc
  import opened FsRuns
  import opened FsImage
  import opened FsEncode
  import opened FileWrites

  /** Where things lie on the disk: log, inodes and bitmap are apart, below the data blocks. */
  ghost predicate LayoutOk(fs: Fs, a: RedoLog.Area) {
    && fs.sb.meta <= |fs.blk| == |fs.used|
    && fs.sb.inodestart + InodeBlocks(fs) <= fs.sb.meta && fs.sb.bmapstart + BitmapBlocks(fs) <= fs.sb.meta
    && (forall b: nat :: InBitmap(fs, b) ==> !InInodes(fs, b))
    && (forall b: nat :: RedoLog.InArea(a, b) ==> b < fs.sb.meta && !InBitmap(fs, b) && !InInodes(fs, b))
  }

  lemma SameLayout(fs: Fs, f: Fs, a: RedoLog.Area)
    requires LayoutOk(fs, a) && SameSizes(fs, f)
    ensures LayoutOk(f, a)
  {
    assert forall b: nat :: InBitmap(f, b) <==> InBitmap(fs, b);
    assert forall b: nat :: InInodes(f, b) <==> InInodes(fs, b);
  }

  // ---- the blocks a transaction names ----

  ghost predicate Home(fs: Fs, a: RedoLog.Area, x: nat) {
    x < |fs.blk| && !RedoLog.InArea(a, x)
  }

  lemma BitmapHome(fs: Fs, a: RedoLog.Area, x: nat)
    requires LayoutOk(fs, a) && x < |fs.used|
    ensures Home(fs, a, BBlock(fs.sb, x))
  {
    assert InBitmap(fs, BBlock(fs.sb, x));
  }

  lemma InodeHome(fs: Fs, a: RedoLog.Area, i: nat)
    requires LayoutOk(fs, a) && i < |fs.dino|
    ensures Home(fs, a, IBlock(fs.sb, i))
  {
    assert InInodes(fs, IBlock(fs.sb, i));
  }

  lemma SlotHome(f: Fs, a: RedoLog.Area, s: Slot)
    requires LayoutOk(f, a) && Conserved(f) && SlotOk(f, s) && Addr(f, s) != 0
    ensures Home(f, a, Addr(f, s)) && Home(f, a, BBlock(f.sb, Addr(f, s)))
  {
    hide Addr;
    BitmapHome(f, a, Addr(f, s));
  }

  lemma {:induction false} DataHome(f: Fs, a: RedoLog.Area, i: nat, d: nat, lo: nat, hi: nat, x: nat)
    requires LayoutOk(f, a) && Conserved(f) && i < |f.ino| && HasBlocks(f, i, d) && hi <= d
    requires x in DataBlocks(f, i, lo, hi) || x in MapBlocks(f, i, lo, hi)
    ensures Home(f, a, x)
    decreases hi - lo
  {
    hide Addr, InRange, Injective, BitmapExact, LayoutOk, Home;
    if lo < hi {
      OwnedAddr(f, i, d, lo);
      SlotHome(f, a, Data(i, lo));
      if x != Addr(f, Data(i, lo)) && x != BBlock(f.sb, Addr(f, Data(i, lo))) {
        DataHome(f, a, i, d, lo + 1, hi, x);
      }
    }
  }

  lemma WriteLogsHome(f: Fs, a: RedoLog.Area, i: nat, c: nat, d: nat, lo: nat, hi: nat, x: nat)
    requires LayoutOk(f, a) && Conserved(f) && i < |f.ino| && HasBlocks(f, i, d) && hi <= d
    requires x in WriteLogs(f, i, c, lo, hi)
    ensures Home(f, a, x)
  {
    hide Addr, LayoutOk, Home, DataBlocks, MapBlocks, InRange, Injective, BitmapExact;
    if x in IndBlocks(f, i) {
      SlotHome(f, a, Ind(i));
    } else if x in DataBlocks(f, i, lo, hi) {
      DataHome(f, a, i, d, lo, hi, x);
    } else {
      DataHome(f, a, i, d, Max(lo, c), hi, x);
    }
  }

  /** Every block that a write logs lies outside the log itself. */
  lemma WriteLogHome(fs: Fs, a: RedoLog.Area, i: nat, off: nat, src: seq<Byte>, k: nat)
    requires Inv(fs) && LayoutOk(fs, a) && i < |fs.ino| == |fs.dino| && off < UINT && |src| < UINT
    requires Writei(fs, i, off, src).Some? && |fs.log| <= k < |Writei(fs, i, off, src).value.0.log|
    ensures Home(fs, a, Writei(fs, i, off, src).value.0.log[k])
  {
    hide Inv, Conserved, HasBlocks, WriteLoop, WriteLogs, NBlocks, WriteAllowed, Wrote, Free, Total, CountAfter;
    hide LayoutOk, ChangesLogged;
    InvFacts(fs, i);
    AllowedIff(fs, i, off, |src|);
    if WriteAllowed(fs, i, off, |src|) {
      if src == [] {
        EmptyWrite(fs, i, off);
      } else {
        var c := NBlocks(fs.ino[i].size);
        SizeCount(fs.ino[i].size, off, |src|);
        LoopLogs(fs, i, c, off, src);
        LoopWrote(fs, i, c, off, src);
        LoopLogged(fs, i, off, src);
        var f := WriteLoop(fs, i, off, src).value;
        LoopSizes(fs, f);
        SameLayout(fs, f, a);
        WroteKeeps(fs, f, i, c, CountAfter(c, off, |src|), off, src);
        ReachesCount(c, off, |src|);
        InodeHome(fs, a, i);
        if k < |f.log| {
          WriteLogsHome(f, a, i, c, CountAfter(c, off, |src|), off / BSIZE, NBlocks(off + |src|), f.log[k]);
        }
      }
    }
  }

  lemma LoopSizes(fs: Fs, f: Fs)
    requires ChangesLogged(fs, f)
    ensures SameSizes(fs, f)
  {
  }

  lemma ReachesCount(c: nat, off: nat, n: nat)
    requires n > 0
    ensures NBlocks(off + n) <= CountAfter(c, off, n)
  {
  }

  // ---- the transaction of a state ----

  /** The header that log_write builds from these calls. */
  function Header(log: seq<nat>): (lh: seq<nat>)
    ensures Distinct(lh) && (forall x :: x in lh <==> x in log) && (log != [] ==> lh != [])
  {
    if log == [] then [] else
    var n := |log| - 1;
    assert log == log[..n] + [log[n]];
    LogAdmission.Absorb(Header(log[..n]), log[n])
  }

  lemma HeaderSize(log: seq<nat>)
    ensures |Header(log)| == |Elements(log)|
  {
    hide Elements, Header;
    assert Elements(Header(log)) == Elements(log);
  }

  function BlockWords(f: Fs, x: nat): RedoLog.Block {
    if x < |f.blk| then ToWords(ImageOf(f, x)) else seq(RedoLog.WORDS, _ => 0)
  }

  /** The logged blocks of f with their contents. */
  function TxnOf(f: Fs): (t: RedoLog.Txn)
    ensures t.lh == Header(f.log) && |t.data| == |t.lh|
    ensures forall k :: 0 <= k < |t.lh| ==> t.data[k] == BlockWords(f, t.lh[k])
  {
    var lh := Header(f.log);
    RedoLog.Txn(lh, seq(|lh|, k requires 0 <= k < |lh| => BlockWords(f, lh[k])))
  }

  /** Installing a transaction on the disk of fs gives the disk of f. */
  lemma InstalledIs(d: RedoLog.Disk, a: RedoLog.Area, fs: Fs, f: Fs)
    requires fs.log == [] && ChangesLogged(fs, f)
    requires RedoLog.SameHome(a, d, Enc(fs)) && RedoLog.LhOk(|d|, a, Header(f.log))
    ensures RedoLog.SameHome(a, RedoLog.Installed(d, TxnOf(f)), Enc(f))
  {
    hide RedoLog.Installed, ImageOf, Header, ToWords;
    var t := TxnOf(f);
    assert f.log[0..] == f.log;
    forall b | 0 <= b < |d| && !RedoLog.InArea(a, b) ensures RedoLog.Installed(d, t)[b] == Enc(f)[b] {
      RedoLog.InstalledAt(d, a, t, b);
      if b in t.lh {
        var k :| 0 <= k < |t.lh| && t.lh[k] == b;
        assert t.data[k] == BlockWords(f, b);
      }
    }
  }

  // ---- one operation, one commit ----

  lemma {:induction false} FreeAllHome(fs: Fs, a: RedoLog.Area, bs: seq<nat>)
    requires LayoutOk(fs, a) && FreeAll(fs, bs).Some?
    ensures var f := FreeAll(fs, bs).value;
            |fs.log| <= |f.log| && forall k :: |fs.log| <= k < |f.log| ==> Home(fs, a, f.log[k])
    decreases |bs|
  {
    hide LayoutOk, Home;
    if bs != [] {
      var f := Bfree(fs, bs[0]).value;
      LoopSizes(fs, f) by { BitChange(fs, f, bs[0], false); }
      SameLayout(fs, f, a);
      BitmapHome(fs, a, bs[0]);
      FreeAllHome(f, a, bs[1..]);
      HomeSame(fs, f, a);
      OldLog(f, FreeAll(f, bs[1..]).value) by { FreeAllLogged(f, bs[1..]); }
    }
  }

  lemma HomeSame(fs: Fs, f: Fs, a: RedoLog.Area)
    requires SameSizes(fs, f)
    ensures forall x :: Home(fs, a, x) <==> Home(f, a, x)
  {
  }

  /** An operation logs what it changes, and only blocks outside the log itself. */
  lemma StepLogged(fs: Fs, a: RedoLog.Area, op: Op)
    requires Inv(fs) && LayoutOk(fs, a) && OpOk(|fs.ino|, op) && |fs.dino| == |fs.ino| && Step(fs, op).Some?
    ensures var f := Step(fs, op).value;
      && ChangesLogged(fs, f) && LayoutOk(f, a) && forall k :: |fs.log| <= k < |f.log| ==> Home(fs, a, f.log[k])
  {
    hide Inv, Writei, FreeAll, FileBlocks, ChangesLogged, LayoutOk, Home;
    GoodInv(fs);
    var f := Step(fs, op).value;
    match op {
      case Write(i, off, src) =>
        WriteiLogged(fs, i, off, src);
        forall k | |fs.log| <= k < |f.log| ensures Home(fs, a, f.log[k]) {
          WriteLogHome(fs, a, i, off, src, k);
        }
      case Trunc(i) =>
        ItruncLogged(fs, i);
        FreeAllHome(fs, a, FileBlocks(fs, i));
        FreeAllSb(fs, FileBlocks(fs, i));
        InodeHome(fs, a, i);
    }
    LoopSizes(fs, f);
    SameLayout(fs, f, a);
  }

  lemma {:induction false} FreeAllSb(fs: Fs, bs: seq<nat>)
    requires FreeAll(fs, bs).Some?
    ensures FreeAll(fs, bs).value.sb == fs.sb
    decreases |bs|
  {
    if bs != [] { FreeAllSb(Bfree(fs, bs[0]).value, bs[1..]); }
  }

  lemma {:induction false} RunLogged(fs: Fs, a: RedoLog.Area, ops: seq<Op>)
    requires Inv(fs) && LayoutOk(fs, a) && (forall k :: 0 <= k < |ops| ==> OpOk(|fs.ino|, ops[k])) && Run(fs, ops).Some?
    requires forall k :: 0 <= k < |fs.log| ==> Home(fs, a, fs.log[k])
    ensures var f := Run(fs, ops).value;
      && Inv(f) && ChangesLogged(fs, f) && LayoutOk(f, a) && forall k :: 0 <= k < |f.log| ==> Home(f, a, f.log[k])
    decreases |ops|
  {
    hide Inv, Step, AbsStep, ChangesLogged, LayoutOk, Home;
    if ops == [] {
      NoChange(fs, fs);
    } else {
      RunUnfold(fs, ops);
      StepLogged(fs, a, ops[0]);
      var f := Step(fs, ops[0]).value;
      LoopSizes(fs, f);
      HomeSame(fs, f, a);
      OldLog(fs, f);
      RunLogged(f, a, ops[1..]);
      ChangesTrans(fs, f, Run(f, ops[1..]).value);
    }
  }

  lemma OldLog(fs: Fs, f: Fs)
    requires ChangesLogged(fs, f)
    ensures |fs.log| <= |f.log| && forall k :: 0 <= k < |fs.log| ==> f.log[k] == fs.log[k]
  {
    forall k | 0 <= k < |fs.log| ensures f.log[k] == fs.log[k] {
      assert f.log[..|fs.log|][k] == fs.log[k];
    }
  }

  /** The operations of one commit take fs to f. */
  ghost predicate Commit(fs: Fs, f: Fs, ops: seq<Op>) {
    && Inv(fs) && Inv(fs.(log := [])) && (forall k :: 0 <= k < |ops| ==> OpOk(|fs.ino|, ops[k]))
    && Run(fs.(log := []), ops) == Some(f)
  }

  /** The header fits: what begin_op's admission and the test in log_write see to. */
  ghost predicate Fits(f: Fs, a: RedoLog.Area) {
    |Header(f.log)| <= LOGSIZE && |Header(f.log)| < a.size
  }

  lemma CommitInstalled(fs: Fs, f: Fs, a: RedoLog.Area, ops: seq<Op>, d: RedoLog.Disk)
    requires Commit(fs, f, ops) && LayoutOk(fs, a) && Fits(f, a)
    requires |d| == |fs.blk| && RedoLog.SameHome(a, d, Enc(fs))
    ensures Inv(f) && LayoutOk(f, a) && |f.blk| == |fs.blk| && |f.ino| == |fs.ino|
    ensures RedoLog.CommitOk(|d|, a, TxnOf(f)) && RedoLog.SameHome(a, RedoLog.Installed(d, TxnOf(f)), Enc(f))
  {
    hide Inv, Step, AbsStep, ChangesLogged, LayoutOk, Header, ToWords, Run;
    var g := fs.(log := []);
    SameLayout(fs, g, a);
    RunLogged(g, a, ops);
    RunRefines(g, ops);
    LoopSizes(g, f);
    assert forall b :: 0 <= b < |g.blk| ==> ImageOf(g, b) == ImageOf(fs, b);
    var lh := Header(f.log);
    forall k | 0 <= k < |lh| ensures lh[k] < |d| && !RedoLog.InArea(a, lh[k]) {
      assert lh[k] in f.log;
      var j :| 0 <= j < |f.log| && f.log[j] == lh[k];
      assert Home(f, a, f.log[j]);
    }
    InstalledIs(d, a, g, f);
  }

  // ---- chains of commits ----

  /** states are the file system before and after each of a sequence of commits. */
  ghost predicate Commits(states: seq<Fs>, groups: seq<seq<Op>>) {
    && |states| == |groups| + 1 && Inv(states[0])
    && forall j :: 0 <= j < |groups| ==> Commit(states[j], states[j + 1], groups[j])
  }

  lemma CommitsRest(states: seq<Fs>, groups: seq<seq<Op>>)
    requires Commits(states, groups) && groups != [] && Inv(states[1])
    ensures Commits(states[1..], groups[1..])
  {
    hide Commit, Inv;
    forall j | 0 <= j < |groups| - 1 ensures Commit(states[1..][j], states[1..][j + 1], groups[1..][j]) {
      assert Commit(states[j + 1], states[j + 2], groups[j + 1]);
    }
  }

  function Txns(states: seq<Fs>): (ts: seq<RedoLog.Txn>)
    requires |states| >= 1
    ensures |ts| == |states| - 1 && forall j :: 0 <= j < |ts| ==> ts[j] == TxnOf(states[j + 1])
  {
    seq(|states| - 1, j requires 0 <= j < |states| - 1 => TxnOf(states[j + 1]))
  }

  /** Installing the first c commits takes the disk from the first state to state c. */
  lemma {:induction false} ChainInstalled(states: seq<Fs>, groups: seq<seq<Op>>, d: RedoLog.Disk, a: RedoLog.Area,
                                          c: nat)
    requires Commits(states, groups) && LayoutOk(states[0], a) && c < |states|
    requires forall j :: 0 < j < |states| ==> Fits(states[j], a)
    requires |d| == |states[0].blk| && RedoLog.SameHome(a, d, Enc(states[0]))
    ensures forall j :: 0 <= j < |states| - 1 ==> RedoLog.CommitOk(|d|, a, Txns(states)[j])
    ensures RedoLog.SameHome(a, RedoLog.AllInstalled(d, Txns(states)[..c]), Enc(states[c]))
    decreases |states|
  {
    hide Inv, Commit, Commits, LayoutOk, Enc, TxnOf, Fits, RedoLog.SameHome, RedoLog.Installed;
    var ts := Txns(states);
    if groups == [] {
      OneState(states, groups);
      assert ts[..c] == [];
    } else {
      FirstCommit(states, groups);
      CommitInstalled(states[0], states[1], a, groups[0], d);
      var d1 := RedoLog.Installed(d, TxnOf(states[1]));
      CommitsRest(states, groups);
      assert Txns(states[1..]) == ts[1..];
      ChainInstalled(states[1..], groups[1..], d1, a, if c == 0 then 0 else c - 1);
      forall j | 0 <= j < |states| - 1 ensures RedoLog.CommitOk(|d|, a, ts[j]) {
        assert j > 0 ==> ts[j] == Txns(states[1..])[j - 1];
      }
      if c == 0 {
        assert ts[..0] == [];
      } else {
        assert ts[..c][1..] == ts[1..][..c - 1] && ts[..c][0] == TxnOf(states[1]);
      }
    }
  }

  lemma OneState(states: seq<Fs>, groups: seq<seq<Op>>)
    requires Commits(states, groups) && groups == []
    ensures |states| == 1 && Inv(states[0])
  {
  }

  lemma FirstCommit(states: seq<Fs>, groups: seq<seq<Op>>)
    requires Commits(states, groups) && groups != []
    ensures |states| == |groups| + 1 >= 2 && Commit(states[0], states[1], groups[0])
  {
  }

  /** All operations of these commits, in order. */
  function Flat(groups: seq<seq<Op>>): seq<Op> {
    if groups == [] then [] else groups[0] + Flat(groups[1..])
  }

  /** State c holds what the byte model holds after the operations of the first c commits. */
  lemma {:induction false} ChainMeans(states: seq<Fs>, groups: seq<seq<Op>>, c: nat)
    requires Commits(states, groups) && c < |states|
    ensures Inv(states[0]) && Inv(states[c])
    ensures forall k :: 0 <= k < |Flat(groups[..c])| ==> OpOk(|states[0].ino|, Flat(groups[..c])[k])
    ensures AbsRun(Abs(states[0]), Flat(groups[..c])) == Some(Abs(states[c]))
    decreases c
  {
    hide Inv, Commit, Commits, AbsRun;
    StartInv(states, groups);
    if c == 0 {
      assert groups[..0] == [];
      AbsRunNothing(Abs(states[0]));
    } else {
      FirstCommit(states, groups);
      CommitMeans(states[0], states[1], groups[0]);
      CommitsRest(states, groups);
      ChainMeans(states[1..], groups[1..], c - 1);
      var rest := Flat(groups[1..][..c - 1]);
      assert groups[..c][0] == groups[0] && groups[..c][1..] == groups[1..][..c - 1];
      AbsRunAppend(Abs(states[0]), groups[0], rest);
    }
  }

  lemma StartInv(states: seq<Fs>, groups: seq<seq<Op>>)
    requires Commits(states, groups)
    ensures |states| == |groups| + 1 && Inv(states[0])
  {
  }

  lemma AbsRunNothing(a: Abstract)
    ensures AbsRun(a, []) == Some(a)
  {
  }

  lemma CommitMeans(fs: Fs, f: Fs, ops: seq<Op>)
    requires Commit(fs, f, ops)
    ensures Inv(fs) && Inv(f) && |f.ino| == |fs.ino| && forall k :: 0 <= k < |ops| ==> OpOk(|fs.ino|, ops[k])
    ensures AbsRun(Abs(fs), ops) == Some(Abs(f))
  {
    hide Inv, Run, AbsRun;
    AbsLog(fs);
    RunRefines(fs.(log := []), ops);
  }

  /** Crash after any block write of any sequence of commits, each of any number of writes and
      truncations, crash any number of times while recovering: the disk holds exactly the file
      system after a whole number of commits, those whose header was written, and its files are
      those of the byte model after the operations of these commits. */
  lemma CommitsAreCrashSafe(states: seq<Fs>, groups: seq<seq<Op>>, d: RedoLog.Disk, a: RedoLog.Area, k: nat,
                            ks: seq<nat>)
    requires Commits(states, groups) && LayoutOk(states[0], a) && forall j :: 0 < j < |states| ==> Fits(states[j], a)
    requires RedoLog.DiskOk(d, a) && d[a.start][0] == 0
    requires |d| == |states[0].blk| && RedoLog.SameHome(a, d, Enc(states[0]))
    ensures forall j :: 0 <= j < |states| - 1 ==> RedoLog.CommitOk(|d|, a, Txns(states)[j])
    ensures k <= |RedoLog.RunWrites(d, a, Txns(states))| ==>
      var c := RedoLog.Committed(Txns(states), k);
      var e := RedoLog.Apply(d, RedoLog.RunWrites(d, a, Txns(states))[..k]);
      && c < |states| && RedoLog.DiskOk(e, a) && Inv(states[c])
      && RedoLog.SameHome(a, RedoLog.Recover(RedoLog.Crashes(e, a, ks), a), Enc(states[c]))
      && (forall k :: 0 <= k < |Flat(groups[..c])| ==> OpOk(|states[0].ino|, Flat(groups[..c])[k]))
      && AbsRun(Abs(states[0]), Flat(groups[..c])) == Some(Abs(states[c]))
  {
    hide Inv, Commit, LayoutOk, Enc, Txns, Fits, Flat, AbsRun, RedoLog.SameHome, RedoLog.Recover, RedoLog.Apply;
    hide RedoLog.DiskOk, RedoLog.TxnOk, RedoLog.RunWrites, RedoLog.Committed, RedoLog.Crashes, RedoLog.AllInstalled;
    var ts := Txns(states);
    ChainInstalled(states, groups, d, a, 0);
    if k <= |RedoLog.RunWrites(d, a, ts)| {
      var c := RedoLog.Committed(ts, k);
      RedoLog.RunsAreAtomic(d, a, ts, k, ks);
      ChainInstalled(states, groups, d, a, c);
      ChainMeans(states, groups, c);
      var e := RedoLog.Apply(d, RedoLog.RunWrites(d, a, ts)[..k]);
      RedoLog.HomeTrans(a, RedoLog.Recover(RedoLog.Crashes(e, a, ks), a), RedoLog.AllInstalled(d, ts[..c]),
                        Enc(states[c]));
    }
  }

  // ---- filewrite ----

  /** The commits of a filewrite whose transactions commit alone. */
  function ChunkGroups(i: nat, off: nat, src: seq<Byte>): seq<seq<Op>>
    decreases |src|
  {
    if src == [] then [] else
    var n := Min(|src|, CHUNK);
    [[Write(i, off, src[..n])]] + ChunkGroups(i, off + n, src[n..])
  }

  lemma {:induction false} ChunksCommit(states: seq<Fs>, a: RedoLog.Area, i: nat, off: nat, src: seq<Byte>)
    requires Chunks(states, i, off, src) && off + |src| < UINT && MAXOPBLOCKS < a.size
    ensures Commits(states, ChunkGroups(i, off, src)) && forall j :: 0 < j < |states| ==> Fits(states[j], a)
    decreases |src|
  {
    hide Inv, Writei, Commit, Fits;
    if src != [] {
      var n := Min(|src|, CHUNK);
      ChunkCommit(states[0], states[1], a, i, off, src[..n]);
      ChunksCommit(states[1..], a, i, off + n, src[n..]);
      var rest := ChunkGroups(i, off + n, src[n..]);
      var all := ChunkGroups(i, off, src);
      forall j | 0 <= j < |all| ensures Commit(states[j], states[j + 1], all[j]) {
        assert j > 0 ==> Commit(states[1..][j - 1], states[1..][j], rest[j - 1]);
      }
      forall j | 0 < j < |states| ensures Fits(states[j], a) {
        assert j > 1 ==> Fits(states[1..][j - 1], a);
      }
    }
  }

  lemma ChunkCommit(fs: Fs, f: Fs, a: RedoLog.Area, i: nat, off: nat, bs: seq<Byte>)
    requires Inv(fs) && i < |fs.ino| == |fs.dino| && off < UINT && 0 < |bs| <= CHUNK && MAXOPBLOCKS < a.size
    requires Writei(fs.(log := []), i, off, bs) == Some((f, |bs|))
    ensures Commit(fs, f, [Write(i, off, bs)]) && Fits(f, a)
  {
    hide Inv, Writei, Header, Elements;
    var g, ops := fs.(log := []), [Write(i, off, bs)];
    LogIrrelevant(fs, []);
    RunUnfold(g, ops);
    WriteStep(g, i, off, bs);
    assert ops[1..] == [];
    RunNothing(f);
    TransactionFits(g, i, off, bs);
    HeaderSize(f.log);
  }

  /** Bytes in the first c chunks of n bytes. */
  function WholeChunks(c: nat, n: nat): (r: nat)
    ensures r <= n
  {
    Min(c * CHUNK, n)
  }

  lemma OneChunkMore(c: nat, n: nat)
    requires c > 0
    ensures WholeChunks(c, n) == Min(n, CHUNK) + WholeChunks(c - 1, n - Min(n, CHUNK)) && WholeChunks(0, n) == 0
  {
  }

  /** State c of the chain holds the first c chunks of src. */
  lemma {:induction false} ChainStored(states: seq<Fs>, i: nat, off: nat, src: seq<Byte>, c: nat)
    requires Chunks(states, i, off, src) && off <= states[0].ino[i].size && off + |src| < UINT && c < |states|
    ensures Stored(states[0], states[c], i, off, src[..WholeChunks(c, |src|)])
    decreases |src|
  {
    hide Inv, Writei, Stored, WholeChunks;
    StoredNothing(states[0], i, off);
    OneChunkMore(1, |src|);
    if c == 0 {
      assert src[..0] == [];
    } else {
      var n := Min(|src|, CHUNK);
      FirstStored(states, i, off, src);
      ChainStored(states[1..], i, off + n, src[n..], c - 1);
      var rest := src[n..][..WholeChunks(c - 1, |src| - n)];
      StoredTrans(states[0], states[1], states[c], i, off, src[..n], rest);
      OneChunkMore(c, |src|);
      assert src[..n] + rest == src[..WholeChunks(c, |src|)];
    }
  }

  lemma FirstStored(states: seq<Fs>, i: nat, off: nat, src: seq<Byte>)
    requires Chunks(states, i, off, src) && src != [] && off <= states[0].ino[i].size && off + |src| < UINT
    ensures var n := Min(|src|, CHUNK);
      |states| >= 2 && Stored(states[0], states[1], i, off, src[..n]) && off + n <= states[1].ino[i].size
  {
    hide Inv, Writei, Free, BlocksTaken, Content, Stored, WriteDone;
    var fs, n := states[0].(log := []), Min(|src|, CHUNK);
    LogIrrelevant(states[0], []);
    WriteiRefines(fs, i, off, src[..n]);
    OneStored(states[0], states[1], i, off, src[..n]);
    SizeAfter(states[0], states[1], i, off, src[..n]);
  }

  /** Crash anywhere in filewrite, crash any number of times while recovering: the disk holds
      exactly the file system after a whole number of chunks, those whose header was written;
      the file has these chunks stored, and no other file changed. */
  lemma FileWriteIsCrashSafe(states: seq<Fs>, d: RedoLog.Disk, a: RedoLog.Area, i: nat, off: nat, src: seq<Byte>,
                             k: nat, ks: seq<nat>)
    requires Chunks(states, i, off, src) && LayoutOk(states[0], a) && off <= states[0].ino[i].size && off + |src| < UINT
    requires MAXOPBLOCKS < a.size && RedoLog.DiskOk(d, a) && d[a.start][0] == 0
    requires |d| == |states[0].blk| && RedoLog.SameHome(a, d, Enc(states[0]))
    ensures forall j :: 0 <= j < |states| - 1 ==> RedoLog.CommitOk(|d|, a, Txns(states)[j])
    ensures k <= |RedoLog.RunWrites(d, a, Txns(states))| ==>
      var c := RedoLog.Committed(Txns(states), k);
      var e := RedoLog.Apply(d, RedoLog.RunWrites(d, a, Txns(states))[..k]);
      && c < |states| && RedoLog.DiskOk(e, a)
      && RedoLog.SameHome(a, RedoLog.Recover(RedoLog.Crashes(e, a, ks), a), Enc(states[c]))
      && Stored(states[0], states[c], i, off, src[..WholeChunks(c, |src|)])
  {
    hide Inv, Writei, Stored, LayoutOk, Enc, Txns, WholeChunks, RedoLog.SameHome, RedoLog.Recover, RedoLog.Apply;
    hide RedoLog.DiskOk, RedoLog.RunWrites, RedoLog.Committed, RedoLog.Crashes;
    hide Commits, Fits, ChunkGroups, Flat, AbsRun;
    ChunksCommit(states, a, i, off, src);
    CommitsAreCrashSafe(states, ChunkGroups(i, off, src), d, a, k, ks);
    if k <= |RedoLog.RunWrites(d, a, Txns(states))| {
      ChainStored(states, i, off, src, RedoLog.Committed(Txns(states), k));
    }
  }

  // ---- the disk determines the files ----

  lemma SameWords(f: Fs, g: Fs, a: RedoLog.Area, b: nat)
    requires SameSizes(f, g) && RedoLog.SameHome(a, Enc(f), Enc(g)) && Home(f, a, b)
    ensures ToWords(ImageOf(f, b)) == ToWords(ImageOf(g, b))
  {
    hide ToWords, ImageOf;
    assert Enc(f)[b] == Enc(g)[b];
  }

  lemma SameBit(f: Fs, g: Fs, a: RedoLog.Area, j: nat)
    requires LayoutOk(f, a) && SameSizes(f, g) && RedoLog.SameHome(a, Enc(f), Enc(g)) && j < |f.used|
    ensures f.used[j] == g.used[j]
  {
    hide ToWords, Enc, Part;
    var k := j / BPB;
    var b := f.sb.bmapstart + k;
    BitmapHome(f, a, j);
    assert InBitmap(f, b) && InBitmap(g, b) && b == BBlock(f.sb, j);
    SameWords(f, g, a, b);
    BitsFaithful(Part(f.used, k, BPB), Part(g.used, k, BPB));
    assert Part(f.used, k, BPB)[j - k * BPB] == f.used[j] && Part(g.used, k, BPB)[j - k * BPB] == g.used[j];
  }

  lemma SameDiskInode(f: Fs, g: Fs, a: RedoLog.Area, i: nat)
    requires LayoutOk(f, a) && SameSizes(f, g) && RedoLog.SameHome(a, Enc(f), Enc(g)) && i < |f.dino|
    requires forall j :: 0 <= j < |f.dino| ==> |f.dino[j].addrs| == |g.dino[j].addrs| == NDIRECT + 1
    ensures f.dino[i] == g.dino[i]
  {
    hide ToWords, Enc, Part;
    var k := i / IPB;
    var b := f.sb.inodestart + k;
    InodeHome(f, a, i);
    assert InInodes(f, b) && InInodes(g, b) && b == IBlock(f.sb, i) && !InBitmap(f, b) && !InBitmap(g, b);
    SameWords(f, g, a, b);
    InodesFaithful(Part(f.dino, k, IPB), Part(g.dino, k, IPB));
    assert Part(f.dino, k, IPB)[i - k * IPB] == f.dino[i] && Part(g.dino, k, IPB)[i - k * IPB] == g.dino[i];
  }

  lemma SameData(f: Fs, g: Fs, a: RedoLog.Area, b: nat)
    requires LayoutOk(f, a) && SameSizes(f, g) && RedoLog.SameHome(a, Enc(f), Enc(g)) && f.sb.meta <= b < |f.blk|
    ensures f.blk[b] == g.blk[b]
  {
    hide ToWords, Enc, Part;
    assert !RedoLog.InArea(a, b);
    SameWords(f, g, a, b);
    BytesFaithful(f.blk[b], g.blk[b]);
  }

  /** Two file systems whose disks agree outside the log agree on bitmap, inodes and files. */
  lemma DiskDeterminesFiles(f: Fs, g: Fs, a: RedoLog.Area)
    requires Inv(f) && Inv(g) && LayoutOk(f, a) && SameSizes(f, g) && RedoLog.SameHome(a, Enc(f), Enc(g))
    ensures f.used == g.used && f.ino == g.ino && forall i :: 0 <= i < |f.ino| ==> Content(f, i) == Content(g, i)
  {
    hide ToWords, Enc, LayoutOk, RedoLog.SameHome, InRange, Injective, BitmapExact, HasBlocks, FileByte;
    forall j | 0 <= j < |f.used| ensures f.used[j] == g.used[j] {
      SameBit(f, g, a, j);
    }
    forall i | 0 <= i < |f.dino| ensures f.dino[i] == g.dino[i] {
      SameDiskInode(f, g, a, i);
    }
    assert f.ino == g.ino;
    forall i | 0 <= i < |f.ino| ensures Content(f, i) == Content(g, i) {
      forall k | 0 <= k < f.ino[i].size ensures k / BSIZE < MAXFILE && FileByte(g, i, k) == Content(f, i)[k] {
        SameByteOnDisk(f, g, a, i, k);
      }
      ContentIs(g, i, Content(f, i));
    }
  }

  lemma SameByteOnDisk(f: Fs, g: Fs, a: RedoLog.Area, i: nat, k: nat)
    requires Inv(f) && Inv(g) && LayoutOk(f, a) && SameSizes(f, g) && RedoLog.SameHome(a, Enc(f), Enc(g))
    requires f.ino == g.ino && i < |f.ino| && k < f.ino[i].size
    ensures k / BSIZE < MAXFILE && FileByte(g, i, k) == FileByte(f, i, k)
  {
    hide Enc, LayoutOk, RedoLog.SameHome, Injective, BitmapExact;
    InvFacts(f, i);
    var c, bn := NBlocks(f.ino[i].size), k / BSIZE;
    SizeCount(f.ino[i].size, 0, 0);
    OwnedAddr(f, i, c, bn);
    assert SlotOk(f, Data(i, bn)) && SlotOk(f, Ind(i));
    if bn >= NDIRECT {
      SameData(f, g, a, Addr(f, Ind(i)));
    }
    SameData(f, g, a, Addr(f, Data(i, bn)));
  }
}
