/** The shard lock never gets stuck: every call that has begun can return. */
module LockProgress {
  import opened Sequences
  import opened Float64
  import opened Machine
  import opened ShardLock

  /** A process's mutex is held by one of its own threads, which is on its way through a call. */
  ghost predicate MutexOk(s: State, pid: nat) {
    pid in s.mutex ==> s.mutex[pid].pid == pid && UsesMutex(s.At(s.mutex[pid]))
  }

  ghost predicate Inv(s: State) {
    LockInv(s) && forall pid: nat :: MutexOk(s, pid)
  }

  /** A thread's step takes or gives back its own process's mutex only, and takes none that another thread holds. */
  lemma MutexMoves(s: State, step: Step, pid: nat)
    requires Do(s, step).Some? && !step.Crash? && !step.Flush? && !step.MetaFails? && ThreadOk(s, step.t)
    requires pid in s.mutex && s.mutex[pid] == step.t ==> pid == step.t.pid && UsesMutex(s.At(step.t))
    ensures var s' := Do(s, step).value;
      if pid in s'.mutex && s'.mutex[pid] == step.t then pid == step.t.pid && UsesMutex(s'.At(step.t))
      else pid in s'.mutex ==> pid in s.mutex && s'.mutex[pid] == s.mutex[pid]
  {
    hide Total;
  }

  lemma MutexStep(s: State, step: Step, pid: nat)
    requires Inv(s) && Do(s, step).Some? && !step.MetaFails?
    ensures MutexOk(Do(s, step).value, pid)
  {
    assert MutexOk(s, pid);
    if !step.Crash? && !step.Flush? {
      assert ThreadOk(s, step.t);
      hide Do, UsesMutex, ThreadOk, LockInv;
      MutexMoves(s, step, pid);
      var s' := Do(s, step).value;
      if pid in s'.mutex && s'.mutex[pid] != step.t {
        OnlyMoves(s, step, s'.mutex[pid]);
      }
    }
  }

  lemma InvStep(s: State, step: Step)
    requires Inv(s) && Do(s, step).Some? && !step.MetaFails?
    ensures Inv(Do(s, step).value)
  {
    LockInvStep(s, step);
    forall pid: nat ensures MutexOk(Do(s, step).value, pid) {
      MutexStep(s, step, pid);
    }
  }

  lemma {:induction false} InvRun(files: map<string, Word64>, steps: seq<Step>)
    requires Run(Init(files), steps).Some?
    requires forall step :: step in steps ==> !step.MetaFails?
    ensures Inv(Run(Init(files), steps).value)
  {
    hide Inv, Do;
    if steps == [] {
      StartInv(files);
    } else {
      var before, last := steps[..|steps| - 1], steps[|steps| - 1];
      assert last in steps && forall step :: step in before ==> step in steps;
      InvRun(files, before);
      InvStep(Run(Init(files), before).value, last);
    }
  }

  lemma StartInv(files: map<string, Word64>)
    ensures Inv(Init(files))
  {
  }

  /** A thread's own step of a call: not a crash, a flush, a failure of the metadata, or a missed deadline. */
  predicate Ordinary(step: Step) {
    !step.Crash? && !step.Flush? && !step.MetaFails? && !step.Unlink? && !(step.TryLock? && step.deadlinePassed)
  }

  ghost predicate AllOrdinary(steps: seq<Step>) {
    forall step :: step in steps ==> Ordinary(step)
  }

  /** How far a continuation of s0 has come. */
  ghost predicate Reached(s0: State, steps: seq<Step>, s: State) {
    Run(s0, steps) == Some(s) && Inv(s) && AllOrdinary(steps)
  }

  /** One more step; only its own thread moves. */
  lemma Extend(s0: State, steps: seq<Step>, s: State, step: Step)
    returns (steps': seq<Step>, s': State)
    requires Reached(s0, steps, s) && Do(s, step).Some? && Ordinary(step)
    ensures Reached(s0, steps', s') && s' == Do(s, step).value
    ensures forall u :: u != step.t ==> s'.At(u) == s.At(u)
  {
    hide Inv, Do, Run;
    RunSnoc(s0, steps, step);
    InvStep(s, step);
    steps', s' := steps + [step], Do(s, step).value;
    forall u | u != step.t ensures s'.At(u) == s.At(u) {
      OnlyMoves(s, step, u);
    }
  }

  /** A thread has come back from its call; of the others only owners of the kernel lock may have, too. */
  ghost predicate Back(s: State, s': State, t: Thread) {
    && s'.At(t) == Idle && t.pid !in s'.mutex
    && forall u :: u != t ==> s'.At(u) == s.At(u) || s.At(u).Inside?
  }

  lemma Leave(s0: State, steps: seq<Step>, s: State, t: Thread) returns (steps': seq<Step>, s': State)
    requires Reached(s0, steps, s) && (s.At(t).Unlocked? || s.At(t).Leaving?)
    ensures Reached(s0, steps', s') && Back(s, s', t) && s'.owner == s.owner
    ensures forall u :: u != t ==> s'.At(u) == s.At(u)
  {
    hide Inv, Run, Total, AllOrdinary;
    steps', s' := steps, s;
    if s.At(t).Unlocked? {
      steps', s' := Extend(s0, steps', s', Close(t));
    }
    steps', s' := Extend(s0, steps', s', UnlockMutex(t));
  }

  /** The owner of the kernel lock reads and writes. */
  lemma FinishWork(s0: State, steps: seq<Step>, s: State, t: Thread) returns (steps': seq<Step>, s': State)
    requires Reached(s0, steps, s) && s.At(t).Inside?
    ensures Reached(s0, steps', s') && s'.At(t).Inside? && s'.At(t).work.Stored? && s'.At(t).ino == s.At(t).ino
    ensures s'.owner == s.owner && forall u :: u != t ==> s'.At(u) == s.At(u)
  {
    hide Inv, Run, Total, AllOrdinary;
    steps', s' := steps, s;
    if s'.At(t).work.Entered? {
      steps', s' := Extend(s0, steps', s', ReadFile(t));
    }
    if s'.At(t).work.Loaded? {
      steps', s' := Extend(s0, steps', s', WriteFile(t));
    }
  }

  /** Then it unlocks and leaves. */
  lemma FinishInside(s0: State, steps: seq<Step>, s: State, t: Thread) returns (steps': seq<Step>, s': State)
    requires Reached(s0, steps, s) && s.At(t).Inside?
    ensures Reached(s0, steps', s') && Back(s, s', t) && s'.owner == s.owner - {s.At(t).ino}
    ensures forall u :: u != t ==> s'.At(u) == s.At(u)
  {
    steps', s' := FinishWork(s0, steps, s, t);
    hide Inv, Run, Total, AllOrdinary;
    var done := s';
    steps', s' := Extend(s0, steps', s', Unlock(t));
    var between := s';
    steps', s' := Leave(s0, steps', s', t);
    forall u | u != t ensures s'.At(u) == s.At(u) {
      assert s'.At(u) == between.At(u) == done.At(u);
    }
  }

  lemma OwnerInside(s: State, i: Inode)
    requires Inv(s) && i in s.owner
    ensures s.At(s.owner[i]).Inside? && s.At(s.owner[i]).ino == i
  {
    assert OwnerOk(s, i);
  }

  /** A thread with the lock file open waits for the owner, if there is one, and goes on. */
  lemma FinishOpened(s0: State, steps: seq<Step>, s: State, t: Thread) returns (steps': seq<Step>, s': State)
    requires Reached(s0, steps, s) && s.At(t).Opened?
    ensures Reached(s0, steps', s') && Back(s, s', t)
  {
    var ino := s.At(t).ino;
    steps', s' := steps, s;
    if ino in s.owner {
      OwnerInside(s, ino);
      steps', s' := FinishInside(s0, steps', s', s.owner[ino]);
    }
    hide Inv, Run, Total, AllOrdinary;
    var freed := s';
    assert freed.At(t) == s.At(t) && ino !in freed.owner;
    steps', s' := Extend(s0, steps', s', TryLock(t, false));
    var entered := s';
    steps', s' := FinishInside(s0, steps', s', t);
    forall u | u != t ensures s'.At(u) == s.At(u) || s.At(u).Inside? {
      assert s'.At(u) == entered.At(u) == freed.At(u);
    }
  }

  lemma NotUnlinking(s: State, t: Thread)
    requires Inv(s)
    ensures !s.At(t).Unlinking?
  {
    assert ThreadOk(s, t);
  }

  /** A thread that holds its process's mutex can finish its call. */
  lemma FinishHolder(s0: State, steps: seq<Step>, s: State, t: Thread) returns (steps': seq<Step>, s': State)
    requires Reached(s0, steps, s) && UsesMutex(s.At(t))
    ensures Reached(s0, steps', s') && Back(s, s', t)
  {
    NotUnlinking(s, t);
    hide Inv, Run, Total, AllOrdinary;
    steps', s' := steps, s;
    if s.At(t).Holding? {
      steps', s' := Extend(s0, steps', s', Open(t));
      var ready := s';
      steps', s' := FinishOpened(s0, steps', s', t);
      assert forall u :: u != t ==> ready.At(u) == s.At(u);
    } else if s.At(t).Opened? {
      steps', s' := FinishOpened(s0, steps', s', t);
    } else if s.At(t).Inside? {
      steps', s' := FinishInside(s0, steps', s', t);
    } else {
      steps', s' := Leave(s0, steps', s', t);
    }
  }

  lemma HolderOf(s: State, pid: nat)
    requires Inv(s) && pid in s.mutex
    ensures s.mutex[pid].pid == pid && UsesMutex(s.At(s.mutex[pid]))
  {
    assert MutexOk(s, pid);
  }

  /**
   * From every reachable state every call that has begun can return by ordinary steps of the threads, without
   * missing a deadline: neither the mutexes nor the kernel lock are ever left behind.
   */
  lemma CallReturns(files: map<string, Word64>, steps: seq<Step>, t: Thread) returns (more: seq<Step>, s': State)
    requires Run(Init(files), steps).Some?
    requires forall step :: step in steps ==> !step.MetaFails?
    ensures Run(Run(Init(files), steps).value, more) == Some(s') && AllOrdinary(more) && s'.At(t) == Idle
  {
    var s := Run(Init(files), steps).value;
    InvRun(files, steps);
    more, s' := [], s;
    assert Run(s, more) == Some(s);
    hide Run, Total, AllOrdinary;
    assert AllOrdinary([]) by {
      NoSteps();
    }
    if s.At(t).Arriving? {
      if t.pid in s.mutex {
        HolderOf(s, t.pid);
        more, s' := FinishHolder(s, more, s', s.mutex[t.pid]);
      }
      hide Inv;
      more, s' := Extend(s, more, s', LockMutex(t));
    }
    if s'.At(t) != Idle {
      more, s' := FinishHolder(s, more, s', t);
    }
  }

  /**
   * A thread that finds the kernel lock taken tries again, or gives up if its deadline has passed: then it
   * comes back without having read or written anything, and its process's mutex is free.
   */
  lemma GivesUp(s: State, t: Thread) returns (s': State)
    requires Inv(s) && s.At(t).Opened? && s.At(t).ino in s.owner
    ensures Do(s, TryLock(t, false)) == Some(s.Go(t, Holding(s.At(t).call)))
    ensures Run(s, [TryLock(t, true), UnlockMutex(t)]) == Some(s')
    ensures s' == s.(mutex := s.mutex - {t.pid}, pc := s.pc[t := Idle])
  {
    hide Inv, Run, Total;
    RunSnoc(s, [], TryLock(t, true));
    RunSnoc(s, [TryLock(t, true)], UnlockMutex(t));
    assert [] + [TryLock(t, true)] == [TryLock(t, true)];
    assert [TryLock(t, true)] + [UnlockMutex(t)] == [TryLock(t, true), UnlockMutex(t)];
    RunNothing(s);
    var tried := Do(s, TryLock(t, true)).value;
    assert tried.pc[t := Idle] == s.pc[t := Idle];
    s' := Do(tried, UnlockMutex(t)).value;
  }

  /** A flush empties the counters and leaves locks, lock file and threads as they are. */
  lemma FlushKeepsLocks(s: State)
    ensures Do(s, Flush).Some?
    ensures var s' := Do(s, Flush).value;
      && s'.files == map[] && s'.path == s.path && s'.owner == s.owner && s'.mutex == s.mutex && s'.pc == s.pc
      && s'.log == s.log && s'.done == s.done
  {
  }

  lemma RunNothing(s: State)
    ensures Run(s, []) == Some(s)
  {
  }

  lemma NoSteps()
    ensures AllOrdinary([])
  {
  }
}
