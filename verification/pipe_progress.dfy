/** Pipes do not deadlock (pipe.c, proc.c): when no thread can take a step, every call has returned
    or sleeps for a reason. */
module PipeProgress {
  import opened Prelude
  import opened Pipe
  import opened PipeWakeup
  import opened PipeTheorems

  /** Thread t's next action changes something. */
  predicate Moves(st: St, t: Tid)
    requires |st.data| == PIPESIZE
  {
    t in st.threads && Step(st, Go(t)) != st
  }

  predicate Resting(pc: Pc) {
    pc.Idle? || pc.Asleep?
  }

  /** The holder of ptable.lock moves. */
  lemma SleeperMoves(st: St, t: Tid)
    requires |st.data| == PIPESIZE && t in st.threads && HoldsPtable(st.threads[t].pc)
    ensures Moves(st, t)
  {
    assert Step(st, Go(t)).threads[t].pc != st.threads[t].pc;
  }

  /** With ptable.lock free, the holder of p->lock moves. */
  lemma HolderMoves(st: St, t: Tid)
    requires |st.data| == PIPESIZE && t in st.threads && HoldsLock(st.threads[t].pc) && st.ptlock.None?
    requires st.threads[t].pc.Copy? ==> st.threads[t].role.Reader?
    ensures Moves(st, t)
  {
    hide TakeByte, PutByte;
    var s := Step(st, Go(t));
    assert st.threads[t].pc.Loop? || st.threads[t].pc.Copy? || s.threads[t].pc != st.threads[t].pc;
    assert s.threads[t] != st.threads[t];
  }

  /** With both locks free, a thread that is neither asleep nor done moves. */
  lemma EntrantMoves(st: St, t: Tid)
    requires |st.data| == PIPESIZE && t in st.threads && st.lock.None?
    requires st.threads[t].pc.Enter? || st.threads[t].pc.Woken?
    ensures Moves(st, t)
  {
    assert Step(st, Go(t)).lock == Some(t);
  }

  /** Deadlock freedom: in every reachable state in which some call has not returned and does not
      sleep, some thread can take a step. */
  lemma {:induction false} SomeoneMoves(evs: seq<Event>, u: Tid)
    requires u in Run(Init(), evs).threads && !Resting(Run(Init(), evs).threads[u].pc)
    ensures exists t :: Moves(Run(Init(), evs), t)
  {
    hide Step, Run, WritersOk, SomeSleeper;
    RunBase(evs);
    var st := Run(Init(), evs);
    assert ThreadOk(st, u);
    if st.ptlock.Some? {
      var t := st.ptlock.value;
      assert ThreadOk(st, t);
      SleeperMoves(st, t);
    } else if st.lock.Some? {
      var t := st.lock.value;
      assert ThreadOk(st, t);
      HolderMoves(st, t);
    } else {
      EntrantMoves(st, u);
    }
  }

  /** Nobody can take a step. */
  ghost predicate Stuck(st: St)
    requires |st.data| == PIPESIZE
  {
    forall t :: !Moves(st, t)
  }

  /** When nobody can take a step, every call has returned or sleeps.  Writers sleep only with 512
      bytes under way and the read end open; readers, unless a pipewrite has abandoned them, only
      with none under way and the write end open. */
  lemma {:induction false} StuckMeansWaiting(evs: seq<Event>, t: Tid)
    requires Stuck(Run(Init(), evs)) && t in Run(Init(), evs).threads
    ensures var st := Run(Init(), evs);
            && Resting(st.threads[t].pc)
            && (st.threads[t].pc == Asleep(NWrite) ==> |st.accepted| == |st.delivered| + 512 && st.readopen)
            && (st.threads[t].pc == Asleep(NRead) && NeverAbandons(evs) ==>
                  st.accepted == st.delivered && st.writeopen)
  {
    hide Step, Run, Moves, NeverAbandons;
    var st := Run(Init(), evs);
    if !Resting(st.threads[t].pc) {
      SomeoneMoves(evs, t);
    }
    NoHolder(evs);
    RunBase(evs);
    PipesAreFifo(evs);
    if st.threads[t].pc == Asleep(NWrite) {
      assert Sleeper(st.threads[t], NWrite) && SomeSleeper(st, NWrite);
    }
    if st.threads[t].pc == Asleep(NRead) && NeverAbandons(evs) {
      assert Sleeper(st.threads[t], NRead) && SomeSleeper(st, NRead);
      CarefulRun(evs);
    }
  }

  lemma {:induction false} NoHolder(evs: seq<Event>)
    requires Stuck(Run(Init(), evs))
    ensures Run(Init(), evs).lock.None?
  {
    hide Step, Run, Moves, WritersOk, SomeSleeper;
    var st := Run(Init(), evs);
    RunBase(evs);
    if st.lock.Some? {
      assert ThreadOk(st, st.lock.value);
      SomeoneMoves(evs, st.lock.value);
    }
  }
}
