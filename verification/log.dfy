/** The redo log (log.c): commit and recovery as sequences of atomic block writes
    (memide.c), with a crash allowed between any two of them. */
module RedoLog {
  import opened Prelude
  import opened Param
  /** A 512-byte block as 128 words; the header is word 0 (n) and words 1..1+n (block numbers). */
  const WORDS: nat := 128

  type Block = b: seq<nat> | |b| == WORDS witness seq(WORDS, _ => 0)
  type Disk = seq<Block>

  datatype Write = Write(b: nat, data: Block)

  /** The log occupies blocks start..start+size, its header being block start. */
  datatype Area = Area(start: nat, size: nat)

  predicate InArea(a: Area, b: nat) {
    a.start <= b < a.start + a.size
  }

  function Apply(d: Disk, ws: seq<Write>): (r: Disk)
    ensures |r| == |d|
  {
    if ws == [] then d else
    var e := Apply(d, ws[..|ws| - 1]);
    var w := ws[|ws| - 1];
    if w.b < |e| then e[w.b := w.data] else e
  }

  // ---- header ----

  /** write_head stores n and the first n numbers; later words keep what they held. */
  function HeadBlock(old_: Block, lh: seq<nat>): (r: Block)
    requires |lh| <= LOGSIZE
    ensures r[0] == |lh| && r[1..1 + |lh|] == lh
  {
    [|lh|] + lh + old_[1 + |lh|..]
  }

  predicate HeadOk(h: Block) {
    h[0] <= LOGSIZE
  }

  function Entries(h: Block): seq<nat>
    requires HeadOk(h)
  {
    h[1..1 + h[0]]
  }

  // ---- transactions ----

  /** Block numbers that a header may name: distinct home blocks that fit the log. */
  predicate LhOk(n: nat, a: Area, lh: seq<nat>) {
    && |lh| <= LOGSIZE && |lh| < a.size && Distinct(lh)
    && forall i :: 0 <= i < |lh| ==> lh[i] < n && !InArea(a, lh[i])
  }

  predicate DiskOk(d: Disk, a: Area) {
    && a.size > 0 && a.start + a.size <= |d|
    && HeadOk(d[a.start]) && LhOk(|d|, a, Entries(d[a.start]))
  }

  datatype Txn = Txn(lh: seq<nat>, data: seq<Block>)

  predicate TxnOk(n: nat, a: Area, t: Txn) {
    LhOk(n, a, t.lh) && |t.data| == |t.lh| > 0
  }

  function LogWrites(a: Area, data: seq<Block>): (ws: seq<Write>)
    ensures |ws| == |data| && forall i :: 0 <= i < |ws| ==> ws[i] == Write(a.start + 1 + i, data[i])
  {
    seq(|data|, i requires 0 <= i < |data| => Write(a.start + 1 + i, data[i]))
  }

  function HomeWrites(lh: seq<nat>, data: seq<Block>): (ws: seq<Write>)
    requires |lh| == |data|
    ensures |ws| == |lh| && forall i :: 0 <= i < |ws| ==> ws[i] == Write(lh[i], data[i])
  {
    seq(|lh|, i requires 0 <= i < |lh| => Write(lh[i], data[i]))
  }

  /** x, then h, then y, then c. */
  function Chain(x: seq<Write>, h: Write, y: seq<Write>, c: Write): (ws: seq<Write>)
    ensures |ws| == |x| + |y| + 2
    ensures forall i :: 0 <= i < |x| ==> ws[i] == x[i]
    ensures ws[|x|] == h && ws[|x| + 1 + |y|] == c
    ensures forall i :: |x| < i < |x| + 1 + |y| ==> ws[i] == y[i - |x| - 1]
  {
    x + [h] + y + [c]
  }

  /** The block writes of commit() in order: write_log, write_head, install_trans, write_head. */
  function CommitWrites(d: Disk, a: Area, t: Txn): (ws: seq<Write>)
    requires DiskOk(d, a) && TxnOk(|d|, a, t)
    ensures |ws| == 2 * |t.lh| + 2
  {
    var h := HeadBlock(d[a.start], t.lh);
    Chain(LogWrites(a, t.data), Write(a.start, h), HomeWrites(t.lh, t.data), Write(a.start, HeadBlock(h, [])))
  }

  lemma CommitWriteAt(d: Disk, a: Area, t: Txn)
    requires DiskOk(d, a) && TxnOk(|d|, a, t)
    ensures var ws := CommitWrites(d, a, t);
      && (forall i :: 0 <= i < |t.lh| ==> ws[i] == Write(a.start + 1 + i, t.data[i]))
      && ws[|t.lh|] == Write(a.start, HeadBlock(d[a.start], t.lh))
      && (forall i :: |t.lh| < i < |ws| - 1 ==> ws[i] == Write(t.lh[i - |t.lh| - 1], t.data[i - |t.lh| - 1]))
      && ws[|ws| - 1] == Write(a.start, HeadBlock(HeadBlock(d[a.start], t.lh), []))
  {
    hide HeadBlock, Chain, LogWrites, HomeWrites, LhOk;
  }

  /** Log blocks 1..n of the area. */
  function Logged(d: Disk, a: Area, n: nat): seq<Block>
    requires a.start + n < |d|
  {
    d[a.start + 1..a.start + 1 + n]
  }

  /** The block writes of recover_from_log: install what the header names, clear the header. */
  function RecoverWrites(d: Disk, a: Area): (ws: seq<Write>)
    requires DiskOk(d, a)
    ensures |ws| == |Entries(d[a.start])| + 1
  {
    var lh := Entries(d[a.start]);
    HomeWrites(lh, Logged(d, a, |lh|)) + [Write(a.start, HeadBlock(d[a.start], []))]
  }

  function Recover(d: Disk, a: Area): (r: Disk)
    requires DiskOk(d, a)
    ensures |r| == |d|
  {
    Apply(d, RecoverWrites(d, a))
  }

  /** Equal outside the log area. */
  predicate SameHome(a: Area, d: Disk, e: Disk) {
    |d| == |e| && forall b :: 0 <= b < |d| && !InArea(a, b) ==> d[b] == e[b]
  }

  /** The disk with a transaction's blocks at home. */
  function Installed(d: Disk, t: Txn): (r: Disk)
    requires |t.lh| == |t.data|
    ensures |r| == |d|
  {
    Apply(d, HomeWrites(t.lh, t.data))
  }

  // ---- effect of write sequences ----

  lemma {:induction false} ApplyAppend(d: Disk, u: seq<Write>, v: seq<Write>)
    ensures Apply(d, u + v) == Apply(Apply(d, u), v)
  {
    if v == [] {
      assert u + v == u;
    } else {
      ApplyAppend(d, u, v[..|v| - 1]);
      assert (u + v)[..|u + v| - 1] == u + v[..|v| - 1];
    }
  }

  /** Writes that miss block b leave it. */
  lemma {:induction false} ApplyMiss(d: Disk, ws: seq<Write>, b: nat)
    requires b < |d| && forall i :: 0 <= i < |ws| ==> ws[i].b != b
    ensures Apply(d, ws)[b] == d[b]
  {
    if ws != [] { ApplyMiss(d, ws[..|ws| - 1], b); }
  }

  /** Write i is what block ws[i].b ends up with if no later write hits it. */
  lemma {:induction false} ApplyHit(d: Disk, ws: seq<Write>, i: nat)
    requires i < |ws| && ws[i].b < |d| && forall j :: i < j < |ws| ==> ws[j].b != ws[i].b
    ensures Apply(d, ws)[ws[i].b] == ws[i].data
  {
    if i < |ws| - 1 { ApplyHit(d, ws[..|ws| - 1], i); }
  }

  // ---- recovery ----

  /** Whatever home held, recovery installs exactly what the header and the log blocks say. */
  lemma RecoverIs(d: Disk, a: Area, e: Disk, t: Txn)
    requires DiskOk(d, a) && |e| == |d|
    requires t.lh == Entries(d[a.start]) && t.data == Logged(d, a, |t.lh|)
    requires forall b :: 0 <= b < |d| && !InArea(a, b) && b !in t.lh ==> d[b] == e[b]
    ensures SameHome(a, Recover(d, a), Installed(e, t))
  {
    hide Apply, HeadBlock, HomeWrites, Recover, RecoverWrites, Installed;
    forall b | 0 <= b < |d| && !InArea(a, b) ensures Recover(d, a)[b] == Installed(e, t)[b] {
      RecoverAt(d, a, t, b);
      InstalledAt(e, a, t, b);
    }
  }

  /** Recovery, block by block. */
  lemma RecoverAt(d: Disk, a: Area, t: Txn, b: nat)
    requires DiskOk(d, a) && t.lh == Entries(d[a.start]) && t.data == Logged(d, a, |t.lh|) && b < |d| && !InArea(a, b)
    ensures b !in t.lh ==> Recover(d, a)[b] == d[b]
    ensures forall i :: 0 <= i < |t.lh| && t.lh[i] == b ==> Recover(d, a)[b] == t.data[i]
  {
    hide Apply, HeadBlock, HomeWrites;
    var ws := RecoverWrites(d, a);
    if b in t.lh {
      var i :| 0 <= i < |t.lh| && t.lh[i] == b;
      ApplyHit(d, ws, i);
    } else {
      ApplyMiss(d, ws, b);
    }
  }

  /** With an empty header recovery changes nothing at home. */
  lemma RecoverEmpty(d: Disk, a: Area)
    requires DiskOk(d, a) && d[a.start][0] == 0
    ensures SameHome(a, Recover(d, a), d)
  {
    RecoverIs(d, a, d, Txn([], []));
  }

  /** Where a crash during recovery leaves the disk: still well-formed, and recovering from
      there gives the same home blocks. */
  lemma RecoverCrash(d: Disk, a: Area, k: nat)
    requires DiskOk(d, a) && k <= |RecoverWrites(d, a)|
    ensures var e := Apply(d, RecoverWrites(d, a)[..k]);
            DiskOk(e, a) && SameHome(a, Recover(e, a), Recover(d, a))
  {
    hide Apply, HeadBlock, HomeWrites, Recover, RecoverWrites, Installed;
    var lh := Entries(d[a.start]);
    var t := Txn(lh, Logged(d, a, |lh|));
    var e := Apply(d, RecoverWrites(d, a)[..k]);
    RecoverIs(d, a, d, t);
    RecoverDef(d, a);
    if k <= |lh| {
      CrashEarly(d, a, t, k);
      RecoverIs(e, a, d, t);
    } else {
      CrashLate(d, a);
      assert RecoverWrites(d, a)[..k] == RecoverWrites(d, a);
      RecoverEmpty(e, a);
    }
  }

  /** Before its last write recovery has changed only blocks the header names. */
  lemma CrashEarly(d: Disk, a: Area, t: Txn, k: nat)
    requires DiskOk(d, a) && t.lh == Entries(d[a.start]) && t.data == Logged(d, a, |t.lh|) && k <= |t.lh|
    ensures var e := Apply(d, RecoverWrites(d, a)[..k]);
      && DiskOk(e, a) && Entries(e[a.start]) == t.lh && Logged(e, a, |t.lh|) == t.data
      && forall b :: 0 <= b < |d| && !InArea(a, b) && b !in t.lh ==> e[b] == d[b]
  {
    hide Apply, RecoverWrites, LhOk, HeadOk, Entries, Logged;
    AreaFits(d, a);
    var e := Apply(d, RecoverWrites(d, a)[..k]);
    forall b | 0 <= b < |d| && (InArea(a, b) || b !in t.lh) ensures e[b] == d[b] {
      CrashEarlyAt(d, a, t, k, b);
    }
    LoggedIs(e, a, |t.lh|, d);
  }

  lemma AreaFits(d: Disk, a: Area)
    requires DiskOk(d, a)
    ensures a.start < |d| && InArea(a, a.start)
    ensures |Entries(d[a.start])| < a.size && a.start + |Entries(d[a.start])| < |d|
  {
  }

  lemma LoggedIs(e: Disk, a: Area, n: nat, d: Disk)
    requires |e| == |d| && n < a.size && a.start + a.size <= |d|
    requires forall b :: 0 <= b < |d| && InArea(a, b) ==> e[b] == d[b]
    ensures Logged(e, a, n) == Logged(d, a, n)
  {
    forall i | 0 <= i < n ensures Logged(e, a, n)[i] == Logged(d, a, n)[i] {
      assert InArea(a, a.start + 1 + i);
    }
  }

  lemma CrashEarlyAt(d: Disk, a: Area, t: Txn, k: nat, b: nat)
    requires DiskOk(d, a) && t.lh == Entries(d[a.start]) && t.data == Logged(d, a, |t.lh|) && k <= |t.lh|
    requires b < |d| && (InArea(a, b) || b !in t.lh)
    ensures Apply(d, RecoverWrites(d, a)[..k])[b] == d[b]
  {
    hide Apply, HeadBlock, HomeWrites;
    ApplyMiss(d, RecoverWrites(d, a)[..k], b);
  }

  lemma RecoverDef(d: Disk, a: Area)
    requires DiskOk(d, a)
    ensures Recover(d, a) == Apply(d, RecoverWrites(d, a))
  {
  }

  lemma CrashLate(d: Disk, a: Area)
    requires DiskOk(d, a)
    ensures var e := Recover(d, a); DiskOk(e, a) && e[a.start][0] == 0
  {
    hide Apply, HomeWrites;
    ApplyHit(d, RecoverWrites(d, a), |RecoverWrites(d, a)| - 1);
  }

  /** Reboot again and again, crashing after ks[i] block writes of the i-th recovery. */
  function Crashes(d: Disk, a: Area, ks: seq<nat>): (r: Disk)
    requires DiskOk(d, a)
    ensures DiskOk(r, a) && |r| == |d|
    decreases |ks|
  {
    if ks == [] then d else
    var ws := RecoverWrites(d, a);
    var k := if ks[0] <= |ws| then ks[0] else |ws|;
    RecoverCrash(d, a, k);
    Crashes(Apply(d, ws[..k]), a, ks[1..])
  }

  /** Any number of crashes during recovery changes nothing about its result. */
  lemma {:induction false} RepeatedCrashes(d: Disk, a: Area, ks: seq<nat>)
    requires DiskOk(d, a)
    ensures SameHome(a, Recover(Crashes(d, a, ks), a), Recover(d, a))
    decreases |ks|
  {
    if ks != [] {
      var ws := RecoverWrites(d, a);
      var k := if ks[0] <= |ws| then ks[0] else |ws|;
      RecoverCrash(d, a, k);
      RepeatedCrashes(Apply(d, ws[..k]), a, ks[1..]);
    }
  }

  // ---- commit ----

  /** The header write is the commit point: a crash after k block writes of a commit
      recovers to the old home blocks if k <= n, and to the new ones if k > n. */
  lemma CommitCrash(d: Disk, a: Area, t: Txn, k: nat)
    requires DiskOk(d, a) && d[a.start][0] == 0 && TxnOk(|d|, a, t)
    requires k <= |CommitWrites(d, a, t)|
    ensures var e := Apply(d, CommitWrites(d, a, t)[..k]);
            && DiskOk(e, a)
            && SameHome(a, Recover(e, a), if k <= |t.lh| then d else Installed(d, t))
  {
    hide CommitWrites, Apply, Recover, Installed;
    var n := |t.lh|;
    if k <= n {
      BeforeHeader(d, a, t, k);
    } else if k <= 2 * n + 1 {
      AfterHeader(d, a, t, k - n - 1);
    } else {
      AfterClear(d, a, t);
    }
  }

  lemma BeforeHeader(d: Disk, a: Area, t: Txn, k: nat)
    requires DiskOk(d, a) && d[a.start][0] == 0 && TxnOk(|d|, a, t) && k <= |t.lh|
    ensures var e := Apply(d, CommitWrites(d, a, t)[..k]);
            DiskOk(e, a) && SameHome(a, Recover(e, a), d)
  {
    hide CommitWrites, HeadBlock, Apply;
    CommitWriteAt(d, a, t);
    var ws := CommitWrites(d, a, t)[..k];
    var e := Apply(d, ws);
    forall b | 0 <= b < |d| && (!InArea(a, b) || b == a.start) ensures e[b] == d[b] {
      ApplyMiss(d, ws, b);
    }
    RecoverEmpty(e, a);
  }

  /** After the header and j home writes the whole transaction is in the log. */
  lemma AfterHeader(d: Disk, a: Area, t: Txn, j: nat)
    requires DiskOk(d, a) && TxnOk(|d|, a, t) && j <= |t.lh|
    ensures var e := Apply(d, CommitWrites(d, a, t)[..|t.lh| + 1 + j]);
            && DiskOk(e, a) && Entries(e[a.start]) == t.lh && Logged(e, a, |t.lh|) == t.data
            && SameHome(a, Recover(e, a), Installed(d, t))
  {
    hide CommitWrites, HeadBlock, Apply, Recover, Installed, Distinct;
    var n := |t.lh|;
    var e := Apply(d, CommitWrites(d, a, t)[..n + 1 + j]);
    AfterHeaderAt(d, a, t, j, a.start);
    forall i | 0 <= i < n ensures e[a.start + 1 + i] == t.data[i] {
      AfterHeaderAt(d, a, t, j, a.start + 1 + i);
    }
    assert Logged(e, a, n) == t.data;
    forall b | 0 <= b < |d| && !InArea(a, b) && b !in t.lh ensures e[b] == d[b] {
      AfterHeaderAt(d, a, t, j, b);
    }
    RecoverIs(e, a, d, t);
  }

  lemma AfterHeaderAt(d: Disk, a: Area, t: Txn, j: nat, b: nat)
    requires DiskOk(d, a) && TxnOk(|d|, a, t) && j <= |t.lh| && b < |d|
    ensures var e := Apply(d, CommitWrites(d, a, t)[..|t.lh| + 1 + j]);
      && (b == a.start ==> e[b] == HeadBlock(d[a.start], t.lh))
      && (a.start < b <= a.start + |t.lh| ==> e[b] == t.data[b - a.start - 1])
      && (!InArea(a, b) && b !in t.lh ==> e[b] == d[b])
  {
    hide CommitWrites, HeadBlock, Apply;
    CommitWriteAt(d, a, t);
    var ws := CommitWrites(d, a, t)[..|t.lh| + 1 + j];
    if b == a.start {
      ApplyHit(d, ws, |t.lh|);
    } else if a.start < b <= a.start + |t.lh| {
      ApplyHit(d, ws, b - a.start - 1);
    } else if !InArea(a, b) && b !in t.lh {
      ApplyMiss(d, ws, b);
    }
  }

  /** A finished commit leaves an empty header and the new blocks at home. */
  lemma AfterClear(d: Disk, a: Area, t: Txn)
    requires DiskOk(d, a) && TxnOk(|d|, a, t)
    ensures var e := Apply(d, CommitWrites(d, a, t));
            && DiskOk(e, a) && e[a.start][0] == 0 && SameHome(a, e, Installed(d, t))
            && SameHome(a, Recover(e, a), Installed(d, t))
    ensures var ws := CommitWrites(d, a, t); ws[..|ws|] == ws
  {
    hide CommitWrites, HeadBlock, Apply, Recover, Installed;
    CommitWriteAt(d, a, t);
    var n, ws := |t.lh|, CommitWrites(d, a, t);
    var e := Apply(d, ws);
    ApplyHit(d, ws, 2 * n + 1);
    forall b | 0 <= b < |d| && !InArea(a, b) ensures e[b] == Installed(d, t)[b] {
      CommittedAt(d, a, t, b);
    }
    RecoverEmpty(e, a);
  }

  lemma CommittedAt(d: Disk, a: Area, t: Txn, b: nat)
    requires DiskOk(d, a) && TxnOk(|d|, a, t) && b < |d| && !InArea(a, b)
    ensures Apply(d, CommitWrites(d, a, t))[b] == Installed(d, t)[b]
  {
    hide CommitWrites, HeadBlock, Apply, Installed;
    InstalledAt(d, a, t, b);
    if b in t.lh {
      var i :| 0 <= i < |t.lh| && t.lh[i] == b;
      CommittedHit(d, a, t, i);
    } else {
      CommitWriteAt(d, a, t);
      ApplyMiss(d, CommitWrites(d, a, t), b);
    }
  }

  lemma CommittedHit(d: Disk, a: Area, t: Txn, i: nat)
    requires DiskOk(d, a) && TxnOk(|d|, a, t) && i < |t.lh|
    ensures Apply(d, CommitWrites(d, a, t))[t.lh[i]] == t.data[i]
  {
    hide CommitWrites, HeadBlock, Apply;
    CommitWriteAt(d, a, t);
    var ws := CommitWrites(d, a, t);
    var n := |t.lh|;
    forall j | n + 1 + i < j < |ws| ensures ws[j].b != ws[n + 1 + i].b {
      if j < |ws| - 1 {
        assert ws[j].b == t.lh[j - n - 1];
      }
    }
    ApplyHit(d, ws, n + 1 + i);
  }

  lemma InstalledAt(d: Disk, a: Area, t: Txn, b: nat)
    requires LhOk(|d|, a, t.lh) && |t.data| == |t.lh| && b < |d|
    ensures b !in t.lh ==> Installed(d, t)[b] == d[b]
    ensures forall i :: 0 <= i < |t.lh| && t.lh[i] == b ==> Installed(d, t)[b] == t.data[i]
  {
    var home := HomeWrites(t.lh, t.data);
    if b in t.lh {
      var i :| 0 <= i < |t.lh| && t.lh[i] == b;
      ApplyHit(d, home, i);
    } else {
      ApplyMiss(d, home, b);
    }
  }

  // ---- whole runs ----

  /** What commit finds: a transaction, or an empty header, for which it does nothing. */
  predicate CommitOk(n: nat, a: Area, t: Txn) {
    t == Txn([], []) || TxnOk(n, a, t)
  }

  /** All block writes of committing ts one after the other. */
  function RunWrites(d: Disk, a: Area, ts: seq<Txn>): seq<Write>
    requires DiskOk(d, a) && d[a.start][0] == 0 && forall i :: 0 <= i < |ts| ==> CommitOk(|d|, a, ts[i])
    decreases |ts|
  {
    if ts == [] then [] else
    if ts[0].lh == [] then RunWrites(d, a, ts[1..]) else
    assert CommitOk(|d|, a, ts[0]);
    AfterClear(d, a, ts[0]);
    var ws := CommitWrites(d, a, ts[0]);
    ws + RunWrites(Apply(d, ws), a, ts[1..])
  }

  /** How many of ts have written their header, if any, within the first k block writes. */
  function Committed(ts: seq<Txn>, k: nat): (c: nat)
    ensures c <= |ts|
    decreases |ts|
  {
    if ts == [] then 0 else
    var n := |ts[0].lh|;
    if n == 0 then 1 + Committed(ts[1..], k) else
    if k < 2 * n + 2 then (if k <= n then 0 else 1) else 1 + Committed(ts[1..], k - (2 * n + 2))
  }

  function AllInstalled(d: Disk, ts: seq<Txn>): Disk
    requires forall i :: 0 <= i < |ts| ==> |ts[i].lh| == |ts[i].data|
    decreases |ts|
  {
    if ts == [] then d else AllInstalled(Installed(d, ts[0]), ts[1..])
  }

  lemma {:induction false} InstalledSameHome(a: Area, d: Disk, e: Disk, ts: seq<Txn>)
    requires SameHome(a, d, e) && forall i :: 0 <= i < |ts| ==> |ts[i].lh| == |ts[i].data|
    ensures SameHome(a, AllInstalled(d, ts), AllInstalled(e, ts))
    decreases |ts|
  {
    if ts != [] {
      ApplySameHome(a, d, e, HomeWrites(ts[0].lh, ts[0].data));
      InstalledSameHome(a, Installed(d, ts[0]), Installed(e, ts[0]), ts[1..]);
    }
  }

  lemma {:induction false} ApplySameHome(a: Area, d: Disk, e: Disk, ws: seq<Write>)
    requires SameHome(a, d, e)
    ensures SameHome(a, Apply(d, ws), Apply(e, ws))
  {
    if ws != [] { ApplySameHome(a, d, e, ws[..|ws| - 1]); }
  }

  /** Crash atomicity of whole runs: crash after any number k of block writes of any sequence
      of commits, crash any number of times while recovering, and the home blocks are those of
      exactly the transactions whose header had been written. */
  lemma {:induction false} RunsAreAtomic(d: Disk, a: Area, ts: seq<Txn>, k: nat, ks: seq<nat>)
    requires DiskOk(d, a) && d[a.start][0] == 0 && forall i :: 0 <= i < |ts| ==> CommitOk(|d|, a, ts[i])
    requires k <= |RunWrites(d, a, ts)|
    ensures var e := Apply(d, RunWrites(d, a, ts)[..k]);
            && DiskOk(e, a)
            && SameHome(a, Recover(Crashes(e, a, ks), a), AllInstalled(d, ts[..Committed(ts, k)]))
    decreases |ts|
  {
    hide CommitWrites, Apply, Recover, Installed, DiskOk, SameHome, LhOk, HeadBlock;
    var e := Apply(d, RunWrites(d, a, ts)[..k]);
    if ts == [] {
      assert RunWrites(d, a, ts)[..k] == [] && ts[..Committed(ts, k)] == [];
      ApplyNone(d);
      RecoverEmpty(d, a);
      RepeatedCrashes(d, a, ks);
      HomeTrans(a, Recover(Crashes(d, a, ks), a), Recover(d, a), d);
    } else if ts[0].lh == [] {
      RunsAreAtomic(d, a, ts[1..], k, ks);
      var c := Committed(ts, k);
      assert ts[..c][1..] == ts[1..][..c - 1];
      InstalledNone(d);
    } else {
      var t, c := ts[0], Committed(ts, k);
      var ws := CommitWrites(d, a, t);
      AfterClear(d, a, t);
      var d1 := Apply(d, ws);
      var rest := RunWrites(d1, a, ts[1..]);
      if k < |ws| {
        CommitCrash(d, a, t, k);
        assert (ws + rest)[..k] == ws[..k];
        RepeatedCrashes(e, a, ks);
        assert AllInstalled(d, ts[..c]) == if k <= |t.lh| then d else Installed(d, t) by {
          assert ts[..1] == [t] && [t][1..] == [] && ts[..0] == [];
        }
        HomeTrans(a, Recover(Crashes(e, a, ks), a), Recover(e, a), AllInstalled(d, ts[..c]));
      } else {
        RunsAreAtomic(d1, a, ts[1..], k - |ws|, ks);
        assert (ws + rest)[..k] == ws + rest[..k - |ws|];
        ApplyAppend(d, ws, rest[..k - |ws|]);
        assert ts[..c][1..] == ts[1..][..c - 1];
        InstalledSameHome(a, d1, Installed(d, t), ts[1..][..c - 1]);
        HomeTrans(a, Recover(Crashes(e, a, ks), a), AllInstalled(d1, ts[1..][..c - 1]), AllInstalled(d, ts[..c]));
      }
    }
  }

  lemma InstalledNone(d: Disk)
    ensures Installed(d, Txn([], [])) == d
  {
  }

  lemma ApplyNone(d: Disk)
    ensures Apply(d, []) == d
  {
  }

  lemma HomeTrans(a: Area, d: Disk, e: Disk, f: Disk)
    requires SameHome(a, d, e) && SameHome(a, e, f)
    ensures SameHome(a, d, f)
  {
  }
}
