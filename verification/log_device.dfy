/** commit() and recover_from_log() in place, writing one block at a time (log.c). */
module LogDevice {
  import opened Param
  import opened RedoLog
  import LogAdmission

  /** The blocks of lh as the cache shows them. */
  function Seen(d: Disk, pending: map<nat, Block>, lh: seq<nat>): (r: seq<Block>)
    requires forall i :: 0 <= i < |lh| ==> lh[i] < |d|
    ensures |r| == |lh|
    ensures forall i :: 0 <= i < |lh| ==> r[i] == if lh[i] in pending then pending[lh[i]] else d[lh[i]]
  {
    seq(|lh|, i requires 0 <= i < |lh| => if lh[i] in pending then pending[lh[i]] else d[lh[i]])
  }

  class Log {
    const area: Area
    const disk: array<Block>
    /** In-memory header: the block numbers logged so far. */
    var lh: seq<nat>
    /** Cached blocks with B_DIRTY set by log_write. */
    var pending: map<nat, Block>
    /** Every block write so far, in order. */
    ghost var trace: seq<Write>

    ghost predicate Ok()
      reads this, disk
    {
      DiskOk(disk[..], area) && LhOk(disk.Length, area, lh)
    }

    /** What bread returns: the cached block if it is pending, else the disk's. */
    function View(b: nat): Block
      requires b < disk.Length
      reads this, disk
    {
      if b in pending then pending[b] else disk[b]
    }

    ghost function Views(): (r: seq<Block>)
      requires forall i :: 0 <= i < |lh| ==> lh[i] < disk.Length
      reads this, disk
    {
      Seen(disk[..], pending, lh)
    }

    constructor (area: Area, disk: array<Block>)
      ensures this.area == area && this.disk == disk && lh == [] && pending == map[] && trace == []
    {
      this.area := area;
      this.disk := disk;
      lh := [];
      pending := map[];
      trace := [];
    }

    method Bwrite(b: nat, data: Block)
      requires b < disk.Length
      modifies disk, this`trace
      ensures disk[..] == Apply(old(disk[..]), [Write(b, data)])
      ensures trace == old(trace) + [Write(b, data)]
    {
      ghost var w := [Write(b, data)];
      assert w[..0] == [];
      disk[b] := data;
      trace := trace + w;
      assert disk[..] == old(disk[..])[b := data];
    }

    /** log_write: absorb the block or append it, and keep its cached contents until commit. */
    method LogWrite(b: nat, data: Block)
      requires Ok() && b < disk.Length && !InArea(area, b)
      requires |lh| < LOGSIZE && |lh| < area.size - 1
      modifies this`lh, this`pending
      ensures Ok() && lh == LogAdmission.Absorb(old(lh), b) && pending == old(pending)[b := data]
    {
      var i := 0;
      while i < |lh| && lh[i] != b
        invariant i <= |lh| && b !in lh[..i]
      {
        i := i + 1;
      }
      if i == |lh| {
        assert lh[..|lh|] == lh;
        lh := lh + [b];
      }
      pending := pending[b := data];
    }

    method WriteHead()
      requires Ok()
      modifies disk, this`trace
      ensures var w := [Write(area.start, HeadBlock(old(disk[area.start]), lh))];
              disk[..] == Apply(old(disk[..]), w) && trace == old(trace) + w
      ensures disk[area.start] == HeadBlock(old(disk[area.start]), lh)
    {
      ApplyHit(disk[..], [Write(area.start, HeadBlock(disk[area.start], lh))], 0);
      Bwrite(area.start, HeadBlock(disk[area.start], lh));
    }

    /** write_log: copy modified blocks from cache to log. */
    method WriteLog()
      requires Ok()
      modifies disk, this`trace
      ensures var ws := LogWrites(area, old(Views()));
              disk[..] == Apply(old(disk[..]), ws) && trace == old(trace) + ws
    {
      hide Apply, LogWrites, Seen, HeadBlock;
      ghost var d, ws := disk[..], LogWrites(area, Views());
      ApplyNone(d);
      var tail := 0;
      assert ws[..0] == [];
      while tail < |lh|
        invariant tail <= |lh| == |ws|
        invariant disk[..] == Apply(d, ws[..tail]) && trace == old(trace) + ws[..tail]
      {
        ApplyMiss(d, ws[..tail], lh[tail]);
        ApplyAppend(d, ws[..tail], [ws[tail]]);
        assert ws[..tail + 1] == ws[..tail] + [ws[tail]];
        Bwrite(area.start + tail + 1, View(lh[tail]));
        tail := tail + 1;
      }
      assert ws[..|lh|] == ws;
    }

    /** install_trans: copy committed blocks from log to their home location. */
    method InstallTrans()
      requires Ok()
      modifies disk, this`trace, this`pending
      ensures var ws := HomeWrites(lh, Logged(old(disk[..]), area, |lh|));
              disk[..] == Apply(old(disk[..]), ws) && trace == old(trace) + ws
      ensures pending == old(pending) - (set b | b in lh)
    {
      hide Apply, HomeWrites, HeadBlock;
      ghost var d := disk[..];
      ghost var ws := HomeWrites(lh, Logged(d, area, |lh|));
      ApplyNone(d);
      var tail := 0;
      assert ws[..0] == [];
      while tail < |lh|
        invariant tail <= |lh| == |ws|
        invariant disk[..] == Apply(d, ws[..tail]) && trace == old(trace) + ws[..tail]
        invariant pending == old(pending) - (set b | b in lh[..tail])
      {
        ApplyMiss(d, ws[..tail], area.start + tail + 1);
        ApplyAppend(d, ws[..tail], [ws[tail]]);
        assert ws[..tail + 1] == ws[..tail] + [ws[tail]];
        Bwrite(lh[tail], disk[area.start + tail + 1]);
        assert lh[..tail + 1] == lh[..tail] + [lh[tail]];
        pending := pending - {lh[tail]};
        tail := tail + 1;
      }
      assert ws[..|lh|] == ws && lh[..|lh|] == lh;
    }

    /** commit(): its block writes are exactly CommitWrites, of the blocks as bread shows them. */
    method Commit()
      requires Ok()
      modifies disk, this
      ensures old(lh) == [] ==> disk[..] == old(disk[..]) && trace == old(trace)
      ensures old(lh) != [] ==>
                var ws := CommitWrites(old(disk[..]), area, Txn(old(lh), old(Views())));
                disk[..] == Apply(old(disk[..]), ws) && trace == old(trace) + ws
      ensures lh == [] && pending == old(pending) - (set b | b in old(lh))
    {
      hide CommitWrites, DiskOk, Apply, LogWrites, HomeWrites, Seen, HeadBlock;
      if |lh| > 0 {
        ghost var d, t := disk[..], Txn(lh, Views());
        CommitWritesAre(d, area, t);
        LogAndHead();
        ghost var h := disk[area.start];
        InstallAndClear();
        ApplyAppend(d, LogWrites(area, t.data) + [Write(area.start, h)],
                    HomeWrites(t.lh, t.data) + [Write(area.start, HeadBlock(h, []))]);
      } else {
        assert pending == pending - (set b | b in lh);
      }
    }

    /** install_trans, then an empty header: how commit and recovery both end. */
    method InstallAndClear()
      requires Ok()
      modifies disk, this
      ensures var ws := HomeWrites(old(lh), Logged(old(disk[..]), area, |old(lh)|))
                        + [Write(area.start, HeadBlock(old(disk[area.start]), []))];
              disk[..] == Apply(old(disk[..]), ws) && trace == old(trace) + ws
      ensures lh == [] && pending == old(pending) - (set b | b in old(lh))
      ensures disk[area.start] == HeadBlock(old(disk[area.start]), [])
    {
      hide Apply, HomeWrites, HeadBlock, DiskOk;
      DiskFits(disk[..], area);
      ghost var d := disk[..];
      ghost var ws := HomeWrites(lh, Logged(d, area, |lh|));
      InstallTrans();
      assert d[area.start] == disk[area.start] by { ApplyMiss(d, ws, area.start); }
      SameHeadOk(d, disk[..], area);
      lh := [];
      WriteHead();
      ApplyAppend(d, ws, [Write(area.start, HeadBlock(d[area.start], []))]);
    }

    /** The first half of commit, up to the commit point. */
    method LogAndHead()
      requires Ok() && |lh| > 0
      modifies disk, this`trace
      ensures var t := Txn(lh, old(Views()));
              var ws := LogWrites(area, t.data) + [Write(area.start, HeadBlock(old(disk[area.start]), lh))];
              && disk[..] == Apply(old(disk[..]), ws) && trace == old(trace) + ws
              && Ok() && Logged(disk[..], area, |lh|) == t.data
              && disk[area.start] == HeadBlock(old(disk[area.start]), lh)
    {
      hide Apply, LogWrites, HomeWrites, Seen, HeadBlock;
      ghost var d, t := disk[..], Txn(lh, Views());
      ghost var w1, w2 := LogWrites(area, t.data), [Write(area.start, HeadBlock(d[area.start], lh))];
      WriteLog();
      ApplyMiss(d, w1, area.start);
      WriteHead();
      ApplyAppend(d, w1, w2);
      LogInPlace(d, area, t);
    }

    /** recover_from_log(): its block writes are exactly RecoverWrites. */
    method RecoverFromLog()
      requires DiskOk(disk[..], area) && pending == map[]
      modifies disk, this
      ensures disk[..] == Recover(old(disk[..]), area)
      ensures trace == old(trace) + RecoverWrites(old(disk[..]), area)
      ensures lh == [] && pending == map[] && disk[area.start][0] == 0
    {
      hide Apply, HomeWrites, HeadBlock;
      ghost var d := disk[..];
      var n := disk[area.start][0];
      lh := [];
      var i := 0;
      while i < n
        invariant i <= n <= LOGSIZE && disk[..] == d && lh == Entries(d[area.start])[..i]
        invariant trace == old(trace) && pending == old(pending)
      {
        lh := lh + [disk[area.start][1 + i]];
        i := i + 1;
      }
      assert lh == Entries(d[area.start]);
      InstallAndClear();
    }
  }

  lemma DiskFits(d: Disk, a: Area)
    requires DiskOk(d, a)
    ensures a.start < |d| && a.size > 0 && a.start + a.size <= |d|
  {
  }

  lemma SameHeadOk(d: Disk, e: Disk, a: Area)
    requires DiskOk(d, a) && |e| == |d| && e[a.start] == d[a.start]
    ensures DiskOk(e, a) && LhOk(|e|, a, [])
  {
  }

  lemma CommitWritesAre(d: Disk, a: Area, t: Txn)
    requires DiskOk(d, a) && TxnOk(|d|, a, t)
    ensures var h := HeadBlock(d[a.start], t.lh);
            && a.start < |d|
            && CommitWrites(d, a, t) ==
               (LogWrites(a, t.data) + [Write(a.start, h)])
               + (HomeWrites(t.lh, t.data) + [Write(a.start, HeadBlock(h, []))])
  {
    hide HeadBlock, LogWrites, HomeWrites, LhOk;
  }

  /** After write_log and write_head the log area holds the whole transaction. */
  lemma LogInPlace(d: Disk, a: Area, t: Txn)
    requires DiskOk(d, a) && TxnOk(|d|, a, t)
    ensures var e := Apply(d, LogWrites(a, t.data) + [Write(a.start, HeadBlock(d[a.start], t.lh))]);
            && DiskOk(e, a) && Logged(e, a, |t.lh|) == t.data && e[a.start] == HeadBlock(d[a.start], t.lh)
  {
    hide Apply, CommitWrites, LogWrites, HeadBlock, Recover, HomeWrites, Installed, LhOk;
    AfterHeader(d, a, t, 0);
    CommitWriteAt(d, a, t);
    CommitWritesAre(d, a, t);
    var n, ws := |t.lh|, CommitWrites(d, a, t);
    assert ws[..n + 1] == LogWrites(a, t.data) + [Write(a.start, HeadBlock(d[a.start], t.lh))];
    ApplyHit(d, ws[..n + 1], n);
  }
}
