/** Pipes over whole runs. */
module PipeTheorems {
  import opened Prelude
  import opened Pipe
  import opened PipeWakeup

  lemma {:induction false} RunBase(evs: seq<Event>)
    ensures Base(Run(Init(), evs))
  {
    hide Base, Step;
    InitBase();
    if evs != [] {
      RunBase(evs[..|evs| - 1]);
      StepBase(Run(Init(), evs[..|evs| - 1]), evs[|evs| - 1]);
    }
  }

  /** First in, first out: in every interleaving the delivered bytes are a prefix of the
      accepted ones, and at most PIPESIZE bytes are under way. */
  lemma PipesAreFifo(evs: seq<Event>)
    ensures var st := Run(Init(), evs);
            && st.delivered <= st.accepted && |st.accepted| - |st.delivered| == Used(st) <= PIPESIZE
            && st.accepted == st.delivered + InFlight(st)
  {
    RunBase(evs);
  }

  /** A reader and a writer of one pipe are never both asleep. */
  lemma NeverBothAsleep(evs: seq<Event>, r: Tid, w: Tid)
    ensures var st := Run(Init(), evs);
            !(&& r in st.threads && st.threads[r].pc == Asleep(NRead)
              && w in st.threads && st.threads[w].pc == Asleep(NWrite))
  {
    RunBase(evs);
    var st := Run(Init(), evs);
    assert r in st.threads && st.threads[r].pc == Asleep(NRead) ==> Sleeper(st.threads[r], NRead);
    assert w in st.threads && st.threads[w].pc == Asleep(NWrite) ==> Sleeper(st.threads[w], NWrite);
  }

  ghost predicate NeverAbandons(evs: seq<Event>) {
    forall k :: 0 <= k < |evs| ==> !Abandons(Run(Init(), evs[..k]), evs[k])
  }

  ghost predicate AlwaysNoLostWakeup(evs: seq<Event>) {
    forall k :: 0 <= k <= |evs| ==> NoLostWakeup(Run(Init(), evs[..k]))
  }

  lemma {:induction false} CarefulRun(evs: seq<Event>)
    requires NeverAbandons(evs)
    ensures ReadersOk(Run(Init(), evs))
  {
    hide Base, Step, ReadersOk, Abandons;
    InitBase();
    if evs != [] {
      var n := |evs| - 1;
      forall k | 0 <= k < n ensures !Abandons(Run(Init(), evs[..n][..k]), evs[..n][k]) {
        assert evs[..n][..k] == evs[..k];
      }
      CarefulRun(evs[..n]);
      RunBase(evs[..n]);
      StepReaders(Run(Init(), evs[..n]), evs[n]);
    }
  }

  /** No wakeup is lost in a run exactly when no pipewrite in it gives up on a full pipe with
      unsignalled bytes while a reader sleeps. */
  lemma NoLostWakeupIff(evs: seq<Event>)
    ensures AlwaysNoLostWakeup(evs) <==> NeverAbandons(evs)
  {
    hide Base, Step, ReadersOk, Abandons, NoLostWakeup, Run;
    if NeverAbandons(evs) {
      forall k | 0 <= k <= |evs| ensures NoLostWakeup(Run(Init(), evs[..k])) {
        forall j | 0 <= j < k ensures !Abandons(Run(Init(), evs[..k][..j]), evs[..k][j]) {
          assert evs[..k][..j] == evs[..j];
        }
        CarefulRun(evs[..k]);
        RunBase(evs[..k]);
        GoodState(Run(Init(), evs[..k]));
      }
    } else {
      var k :| 0 <= k < |evs| && Abandons(Run(Init(), evs[..k]), evs[k]);
      RunBase(evs[..k]);
      AbandonLosesWakeup(Run(Init(), evs[..k]), evs[k]);
      RunLast(evs[..k], evs[k]);
      assert evs[..k] + [evs[k]] == evs[..k + 1];
      assert !NoLostWakeup(Run(Init(), evs[..k + 1]));
    }
  }

  lemma RunLast(evs: seq<Event>, ev: Event)
    ensures Run(Init(), evs + [ev]) == Step(Run(Init(), evs), ev)
  {
    assert (evs + [ev])[..|evs|] == evs;
  }

  // ---- a run that loses a wakeup: the reader sleeps, then a killed writer fills the pipe ----

  const N: nat := 513

  function Zeros(n: nat): seq<Byte> {
    seq(n, _ => 0)
  }

  function ReaderAt(pc: Pc): Thread {
    Thread(Reader(1, 0), pc, false)
  }

  function Waiting(pc: Pc, lock: Option<Tid>, ptlock: Option<Tid>): St {
    Init().(lock := lock, ptlock := ptlock, threads := map[1 := ReaderAt(pc)])
  }

  /** The reader is asleep and the killed writer, holding the lock, has written k bytes. */
  function Writing(k: nat): St {
    St(0, k, Zeros(PIPESIZE), true, true, Some(2), None,
       map[1 := ReaderAt(Asleep(NRead)), 2 := Thread(Writer(Zeros(N), k, k > 0), Loop, true)], Zeros(k), [])
  }

  function Prefix(): seq<Event> {
    [Call(1, Reader(1, 0)), Go(1), Go(1), Go(1), Go(1), Go(1), Call(2, Writer(Zeros(N), 0, false)), Kill(2), Go(2)]
  }

  lemma FallsAsleep()
    ensures Run(Init(), Prefix()[..6]) == Waiting(Asleep(NRead), None, None)
  {
    var p := Prefix();
    assert Step(Init(), p[0]) == Waiting(Enter, None, None);
    assert Step(Waiting(Enter, None, None), Go(1)) == Waiting(Loop, Some(1), None);
    assert Step(Waiting(Loop, Some(1), None), Go(1)) == Waiting(Sleep0(NRead), Some(1), None);
    assert Step(Waiting(Sleep0(NRead), Some(1), None), Go(1)) == Waiting(Sleep1(NRead), Some(1), Some(1));
    assert Step(Waiting(Sleep1(NRead), Some(1), Some(1)), Go(1)) == Waiting(Sleep2(NRead), None, Some(1));
    assert Step(Waiting(Sleep2(NRead), None, Some(1)), Go(1)) == Waiting(Asleep(NRead), None, None);
    hide Step;
    assert p[..0] == [];
    forall i | 0 <= i < 6 ensures p[..i + 1] == p[..i] + [p[i]] {}
    RunLast(p[..0], p[0]); RunLast(p[..1], p[1]); RunLast(p[..2], p[2]);
    RunLast(p[..3], p[3]); RunLast(p[..4], p[4]); RunLast(p[..5], p[5]);
  }

  lemma StartsWriting()
    ensures Run(Init(), Prefix()) == Writing(0)
  {
    var p := Prefix();
    FallsAsleep();
    var s := Waiting(Asleep(NRead), None, None);
    var th := Thread(Writer(Zeros(N), 0, false), Enter, false);
    var s1 := Step(s, p[6]);
    assert s1.threads == map[1 := ReaderAt(Asleep(NRead)), 2 := th];
    var s2 := Step(s1, p[7]);
    assert s2.threads == map[1 := ReaderAt(Asleep(NRead)), 2 := th.(killed := true)];
    assert Step(s2, p[8]).threads == Writing(0).threads;
    assert Step(s2, p[8]) == Writing(0);
    hide Step;
    assert p[..6] + [p[6]] == p[..7] && p[..7] + [p[7]] == p[..8] && p[..8] + [p[8]] == p;
    RunLast(p[..6], p[6]);
    RunLast(p[..7], p[7]);
    RunLast(p[..8], p[8]);
  }

  lemma WritesOne(k: nat)
    requires k < PIPESIZE
    ensures Step(Writing(k), Go(2)) == Writing(k + 1)
  {
    var st := Writing(k);
    var s := Step(st, Go(2));
    assert Zeros(k) + [0] == Zeros(k + 1);
    assert st.data[k % PIPESIZE := 0] == st.data;
    assert s.threads == Writing(k + 1).threads;
  }

  function Losing(k: nat): seq<Event> {
    if k == 0 then Prefix() else Losing(k - 1) + [Go(2)]
  }

  lemma {:induction false} WritesMany(k: nat)
    requires k <= PIPESIZE
    ensures Run(Init(), Losing(k)) == Writing(k)
  {
    hide Step, Writing;
    if k == 0 {
      StartsWriting();
    } else {
      WritesMany(k - 1);
      WritesOne(k - 1);
      RunLast(Losing(k - 1), Go(2));
    }
  }

  /** The wakeup can be lost: a concrete run after which a reader sleeps beside a full pipe. */
  lemma WakeupCanBeLost()
    ensures var evs := Losing(PIPESIZE) + [Go(2)];
            var st := Run(Init(), evs);
            && Abandons(Run(Init(), Losing(PIPESIZE)), Go(2)) && !NoLostWakeup(st)
            && 1 in st.threads && st.threads[1].pc == Asleep(NRead) && Full(st) && st.lock.None?
  {
    WritesMany(PIPESIZE);
    var st := Writing(PIPESIZE);
    assert Sleeper(st.threads[1], NRead) && SomeSleeper(st, NRead);
    RunBase(Losing(PIPESIZE));
    AbandonLosesWakeup(st, Go(2));
    RunLast(Losing(PIPESIZE), Go(2));
  }
}
