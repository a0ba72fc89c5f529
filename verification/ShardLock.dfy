/**
 * The lock that guards one shard of the file cache, as a step system: a mutex per process on top of
 * a kernel lock on the inode the lock path currently names, with counter updates inside it.
 */
module ShardLock {
  import opened Sequences
  import opened Float64
  import opened Machine

  type Inode = nat
  datatype Thread = Thread(pid: nat, id: nat)
  datatype Call = Call(key: string, delta: Word64)

  /** Where a thread is in its call. */
  datatype Pc =
    | Idle
    | Arriving(call: Call)                                   // before the process mutex
    | Holding(call: Call)                                    // mutex held, no descriptor open
    | Opened(call: Call, ino: Inode)                         // lock file open, not locked
    | Inside(call: Call, ino: Inode, work: Work)             // kernel lock held
    | Unlocked(ino: Inode, out: Out)                         // kernel lock released, still open
    | Leaving(out: Out)                                      // closed, mutex still held
    | Unlinking                                              // metadata write failed, about to remove the path

  /** Progress of the read-modify-write. */
  datatype Work = Entered | Loaded(cur: Option<Word64>) | Stored(entry: nat, result: Word64)

  datatype Out = TimedOut | Returns(entry: nat, result: Word64)

  /** One counter update that reached the disk: who, what, and the total written. */
  datatype Update = Update(thread: Thread, call: Call, total: Word64)

  datatype State = State(
    path: Option<Inode>,          // the inode the lock path names
    nextInode: Inode,
    owner: map<Inode, Thread>,    // kernel locks
    mutex: map<nat, Thread>,      // process mutexes
    pc: map<Thread, Pc>,
    files: map<string, Word64>,      // counter files
    log: seq<Update>,             // history: updates in the order they were written
    done: map<nat, Word64>           // history: results returned to callers, by update
  )
  {
    function At(t: Thread): Pc {
      if t in pc then pc[t] else Idle
    }

    function Go(t: Thread, p: Pc): State {
      this.(pc := pc[t := p])
    }
  }

  datatype Step =
    | Begin(t: Thread, call: Call)
    | LockMutex(t: Thread)
    | Open(t: Thread)
    | TryLock(t: Thread, deadlinePassed: bool)
    | MetaFails(t: Thread)
    | Unlink(t: Thread)
    | ReadFile(t: Thread)
    | WriteFile(t: Thread)
    | Unlock(t: Thread)
    | Close(t: Thread)
    | UnlockMutex(t: Thread)
    | Crash(pid: nat)
    | Flush

  function Init(files: map<string, Word64>): State {
    State(None, 0, map[], map[], map[], files, [], map[])
  }

  /** What a counter update writes, given what the file held. */
  function Total(cur: Option<Word64>, delta: Word64): Word64 {
    match cur
    case None => delta
    case Some(n) => Wrap64(ReadBack(n) + delta)
  }

  function FileAt(s: State, key: string): Option<Word64> {
    if key in s.files then Some(s.files[key]) else None
  }

  /** The state after a step; None when the step is not possible. */
  function Do(s: State, step: Step): Option<State> {
    match step
    case Begin(t, call) =>
      if s.At(t) == Idle then Some(s.Go(t, Arriving(call))) else None
    case LockMutex(t) =>
      if s.At(t).Arriving? && t.pid !in s.mutex
      then Some(s.(mutex := s.mutex[t.pid := t]).Go(t, Holding(s.At(t).call))) else None
    case Open(t) =>
      if !s.At(t).Holding? then None
      else if s.path.Some? then Some(s.Go(t, Opened(s.At(t).call, s.path.value)))
      else Some(s.(path := Some(s.nextInode), nextInode := s.nextInode + 1).Go(t, Opened(s.At(t).call, s.nextInode)))
    case TryLock(t, deadlinePassed) =>
      if !s.At(t).Opened? then None
      else if s.At(t).ino !in s.owner then
        Some(s.(owner := s.owner[s.At(t).ino := t]).Go(t, Inside(s.At(t).call, s.At(t).ino, Entered)))
      else if deadlinePassed then Some(s.Go(t, Leaving(TimedOut)))
      else Some(s.Go(t, Holding(s.At(t).call)))
    case MetaFails(t) =>
      if s.At(t).Inside? && s.At(t).work.Entered?
      then Some(s.(owner := s.owner - {s.At(t).ino}).Go(t, Unlinking)) else None
    case Unlink(t) =>
      if s.At(t).Unlinking? then Some(s.(path := None).Go(t, Leaving(TimedOut))) else None
    case ReadFile(t) =>
      if s.At(t).Inside? && s.At(t).work.Entered?
      then Some(s.Go(t, s.At(t).(work := Loaded(FileAt(s, s.At(t).call.key))))) else None
    case WriteFile(t) =>
      if s.At(t).Inside? && s.At(t).work.Loaded? then
        var call, total := s.At(t).call, Total(s.At(t).work.cur, s.At(t).call.delta);
        Some(s.(files := s.files[call.key := total], log := s.log + [Update(t, call, total)])
              .Go(t, s.At(t).(work := Stored(|s.log|, total))))
      else None
    case Unlock(t) =>
      if s.At(t).Inside? && s.At(t).work.Stored?
      then Some(s.(owner := s.owner - {s.At(t).ino})
                 .Go(t, Unlocked(s.At(t).ino, Returns(s.At(t).work.entry, s.At(t).work.result)))) else None
    case Close(t) =>
      if s.At(t).Unlocked? then Some(s.Go(t, Leaving(s.At(t).out))) else None
    case UnlockMutex(t) =>
      if !s.At(t).Leaving? then None
      else
        var s' := s.(mutex := s.mutex - {t.pid}).Go(t, Idle);
        Some(if s.At(t).out.Returns? then s'.(done := s.done[s.At(t).out.entry := s.At(t).out.result]) else s')
    case Crash(pid) =>
      Some(s.(owner := map i | i in s.owner && s.owner[i].pid != pid :: s.owner[i],
              mutex := s.mutex - {pid},
              pc := map t | t in s.pc && t.pid != pid :: s.pc[t]))
    case Flush =>
      Some(s.(files := map[]))
  }

  /** A whole run; None when some step was not possible. */
  function Run(s: State, steps: seq<Step>): Option<State> {
    if steps == [] then Some(s)
    else
      var before := Run(s, steps[..|steps| - 1]);
      if before == None then None else Do(before.value, steps[|steps| - 1])
  }

  // ---- mutual exclusion ------------------------------------------------------------------------

  function Descriptor(p: Pc): Option<Inode> {
    match p
    case Opened(_, ino) => Some(ino)
    case Inside(_, ino, _) => Some(ino)
    case Unlocked(ino, _) => Some(ino)
    case _ => None
  }

  predicate UsesMutex(p: Pc) {
    !p.Idle? && !p.Arriving?
  }

  /** A thread's descriptor is on the path's inode, and its locks and its mutex are its own. */
  ghost predicate ThreadOk(s: State, t: Thread) {
    var p := s.At(t);
    && (Descriptor(p).Some? ==> s.path == Descriptor(p))
    && (p.Inside? ==> p.ino in s.owner && s.owner[p.ino] == t)
    && (UsesMutex(p) ==> t.pid in s.mutex && s.mutex[t.pid] == t)
    && !p.Unlinking?
  }

  ghost predicate OwnerOk(s: State, i: Inode) {
    i in s.owner ==> s.At(s.owner[i]).Inside? && s.At(s.owner[i]).ino == i
  }

  ghost predicate LockInv(s: State) {
    && (forall t: Thread :: ThreadOk(s, t))
    && (forall i: Inode :: OwnerOk(s, i))
  }

  ghost predicate OneDescriptorInode(s: State) {
    forall t: Thread, u: Thread :: Descriptor(s.At(t)).Some? && Descriptor(s.At(u)).Some? ==>
      Descriptor(s.At(t)) == Descriptor(s.At(u))
  }

  ghost predicate AtMostOneInside(s: State) {
    forall t: Thread, u: Thread :: s.At(t).Inside? && s.At(u).Inside? ==> t == u
  }

  lemma OwnStep(s: State, step: Step)
    requires !step.Crash? && !step.Flush? && !step.MetaFails?
    requires ThreadOk(s, step.t) && Do(s, step).Some?
    ensures ThreadOk(Do(s, step).value, step.t)
  {
    hide Total;
  }

  lemma OtherStep(s: State, step: Step, u: Thread)
    requires !step.Crash? && !step.Flush? && !step.MetaFails? && u != step.t
    requires ThreadOk(s, step.t) && ThreadOk(s, u) && Do(s, step).Some?
    ensures ThreadOk(Do(s, step).value, u)
  {
    hide Total;
  }

  lemma ThreadStep(s: State, step: Step, u: Thread)
    requires LockInv(s) && Do(s, step).Some? && !step.MetaFails?
    ensures ThreadOk(Do(s, step).value, u)
  {
    assert ThreadOk(s, u);
    if step.Crash? || step.Flush? {
      assert u in Do(s, step).value.pc ==> Do(s, step).value.pc[u] == s.pc[u];
    } else {
      assert ThreadOk(s, step.t);
      hide Do;
      if u == step.t {
        OwnStep(s, step);
      } else {
        OtherStep(s, step, u);
      }
    }
  }

  lemma OwnerStep(s: State, step: Step, i: Inode)
    requires LockInv(s) && Do(s, step).Some? && !step.MetaFails?
    ensures OwnerOk(Do(s, step).value, i)
  {
    assert OwnerOk(s, i);
    if !step.Crash? && !step.Flush? {
      assert ThreadOk(s, step.t);
    }
  }

  lemma LockInvStep(s: State, step: Step)
    requires LockInv(s) && Do(s, step).Some? && !step.MetaFails?
    ensures LockInv(Do(s, step).value)
  {
    var s' := Do(s, step).value;
    forall t: Thread
      ensures ThreadOk(s', t)
    {
      ThreadStep(s, step, t);
    }
    forall i: Inode
      ensures OwnerOk(s', i)
    {
      OwnerStep(s, step, i);
    }
  }

  lemma {:induction false} LockInvRun(files: map<string, Word64>, steps: seq<Step>)
    requires Run(Init(files), steps).Some?
    requires forall step :: step in steps ==> !step.MetaFails?
    ensures LockInv(Run(Init(files), steps).value)
  {
    if steps != [] {
      var before, last := steps[..|steps| - 1], steps[|steps| - 1];
      assert forall step :: step in before ==> step in steps;
      LockInvRun(files, before);
      assert last in steps;
      LockInvStep(Run(Init(files), before).value, last);
    }
  }

  /**
   * Any number of processes and threads, crashes and Flush at any step: every open descriptor on
   * the lock path is on one inode, and at most one thread is in the critical section.
   */
  lemma MutualExclusion(files: map<string, Word64>, steps: seq<Step>)
    requires Run(Init(files), steps).Some?
    requires forall step :: step in steps ==> !step.MetaFails?
    ensures var s := Run(Init(files), steps).value; OneDescriptorInode(s) && AtMostOneInside(s)
  {
    LockInvRun(files, steps);
    var s := Run(Init(files), steps).value;
    forall t: Thread, u: Thread | Descriptor(s.At(t)).Some? && Descriptor(s.At(u)).Some?
      ensures Descriptor(s.At(t)) == Descriptor(s.At(u)) && (s.At(t).Inside? && s.At(u).Inside? ==> t == u)
    {
      assert ThreadOk(s, t) && ThreadOk(s, u);
    }
  }

  lemma RunSnoc(s: State, steps: seq<Step>, step: Step)
    ensures Run(s, steps + [step]) == if Run(s, steps) == None then None else Do(Run(s, steps).value, step)
  {
    assert (steps + [step])[..|steps|] == steps;
  }

  lemma {:induction false} RunConcat(s: State, xs: seq<Step>, ys: seq<Step>)
    ensures Run(s, xs + ys) == if Run(s, xs) == None then None else Run(Run(s, xs).value, ys)
  {
    hide Do;
    if ys == [] {
      assert xs + ys == xs;
    } else {
      RunConcat(s, xs, ys[..|ys| - 1]);
      assert xs + ys == (xs + ys[..|ys| - 1]) + [ys[|ys| - 1]];
      RunSnoc(s, xs + ys[..|ys| - 1], ys[|ys| - 1]);
    }
  }

  function Opening(t: Thread, call: Call): seq<Step> {
    [Begin(t, call), LockMutex(t), Open(t)]
  }

  lemma Opens(s: State, t: Thread, call: Call)
    requires s.At(t) == Idle && t.pid !in s.mutex
    ensures Run(s, Opening(t, call)).Some?
    ensures var s' := Run(s, Opening(t, call)).value;
            && s'.path == Some(if s.path.Some? then s.path.value else s.nextInode)
            && s'.nextInode == (if s.path.Some? then s.nextInode else s.nextInode + 1) &&
               s'.owner == s.owner && s'.mutex == s.mutex[t.pid := t]
            && s'.At(t) == Opened(call, s'.path.value)
            && (forall u :: u != t ==> s'.At(u) == s.At(u))
  {
    hide Run, Total;
    var s1 := Do(s, Begin(t, call)).value;
    var s2 := Do(s1, LockMutex(t)).value;
    RunThree(s, Begin(t, call), s1, LockMutex(t), s2, Open(t));
  }

  lemma RunThree(s: State, x: Step, s1: State, y: Step, s2: State, z: Step)
    requires Do(s, x) == Some(s1) && Do(s1, y) == Some(s2)
    ensures Run(s, [x, y, z]) == Do(s2, z)
  {
    RunSnoc(s, [], x);
    RunSnoc(s, [x], y);
    RunSnoc(s, [x, y], z);
    assert [] + [x] == [x] && [x] + [y] == [x, y] && [x, y] + [z] == [x, y, z];
  }

  lemma OneInsideOneWaiting(files: map<string, Word64>, call: Call, a: Thread, b: Thread)
    returns (steps: seq<Step>, s: State)
    requires a.pid != b.pid
    ensures Run(Init(files), steps) == Some(s)
    ensures s.path == Some(0) && s.At(a) == Inside(call, 0, Entered) && s.At(b) == Opened(call, 0)
    ensures s.nextInode == 1 && s.owner == map[0 := a] && s.mutex == map[a.pid := a, b.pid := b]
    ensures forall u :: u != a && u != b ==> s.At(u) == Idle
  {
    var s0 := Init(files);
    Opens(s0, a, call);
    var s1 := Run(s0, Opening(a, call)).value;
    var s2 := Do(s1, TryLock(a, false)).value;
    RunSnoc(s0, Opening(a, call), TryLock(a, false));
    assert forall u :: u != a ==> s1.At(u) == Idle && s2.At(u) == s1.At(u);
    Opens(s2, b, call);
    steps := Opening(a, call) + [TryLock(a, false)] + Opening(b, call);
    RunConcat(s0, Opening(a, call) + [TryLock(a, false)], Opening(b, call));
    s := Run(s2, Opening(b, call)).value;
  }

  lemma WaiterHoldsUnlinked(files: map<string, Word64>, call: Call, a: Thread, b: Thread)
    returns (steps: seq<Step>, s: State)
    requires a.pid != b.pid
    ensures Run(Init(files), steps) == Some(s)
    ensures s.path == None && s.At(b).Inside? && s.owner == map[0 := b] && s.mutex == map[a.pid := a, b.pid := b]
    ensures forall u :: u != a && u != b ==> s.At(u) == Idle
    ensures s.nextInode > 0
  {
    var before, s3 := OneInsideOneWaiting(files, call, a, b);
    var s4 := Do(s3, MetaFails(a)).value;
    var s5 := Do(s4, TryLock(b, false)).value;
    s := Do(s5, Unlink(a)).value;
    RunThree(s3, MetaFails(a), s4, TryLock(b, false), s5, Unlink(a));
    RunConcat(Init(files), before, [MetaFails(a), TryLock(b, false), Unlink(a)]);
    steps := before + [MetaFails(a), TryLock(b, false), Unlink(a)];
    assert forall u :: u != a && u != b ==> s.At(u) == s3.At(u);
  }

  /** One process's metadata write fails while another has the file open: the unlinked path lets a third in. */
  lemma MetaFailureBreaksExclusion(files: map<string, Word64>, call: Call)
    ensures exists steps :: Run(Init(files), steps).Some? && !AtMostOneInside(Run(Init(files), steps).value)
  {
    hide Run, LockInv;
    var a, b, c := Thread(1, 0), Thread(2, 0), Thread(3, 0);
    var before, s6 := WaiterHoldsUnlinked(files, call, a, b);
    Opens(s6, c, call);
    var s7 := Run(s6, Opening(c, call)).value;
    assert s7.At(b) == s6.At(b);
    var s8 := Do(s7, TryLock(c, false)).value;
    assert s8.At(b).Inside? && s8.At(c).Inside? && b != c;
    RunConcat(Init(files), before, Opening(c, call));
    RunSnoc(Init(files), before + Opening(c, call), TryLock(c, false));
    assert Run(Init(files), before + Opening(c, call) + [TryLock(c, false)]) == Some(s8);
  }

  /** Exclusion holds in every run exactly where metadata writes cannot fail. */
  lemma ExclusionIff(files: map<string, Word64>, mayFail: bool)
    ensures (forall steps :: Possible(files, steps, mayFail) ==> AtMostOneInside(Run(Init(files), steps).value)) <==>
            !mayFail
  {
    hide AtMostOneInside;
    if mayFail {
      MetaFailureBreaksExclusion(files, Call("", 0));
      var steps :| Run(Init(files), steps).Some? && !AtMostOneInside(Run(Init(files), steps).value);
      assert Possible(files, steps, true);
    } else {
      forall steps | Possible(files, steps, false) ensures AtMostOneInside(Run(Init(files), steps).value) {
        MutualExclusion(files, steps);
      }
    }
  }

  ghost predicate Possible(files: map<string, Word64>, steps: seq<Step>, mayFail: bool) {
    Run(Init(files), steps).Some? && (mayFail || forall step :: step in steps ==> !step.MetaFails?)
  }

  // ---- conservation ----------------------------------------------------------------------------

  /** The deltas applied to one key, in lock order. */
  function Deltas(log: seq<Update>, key: string): seq<Word64> {
    if log == [] then []
    else
      Deltas(log[..|log| - 1], key) +
      (if log[|log| - 1].call.key == key then [log[|log| - 1].call.delta] else [])
  }

  /** What the file holds after deltas are applied one by one through the JSON round trip. */
  function Fold(init: Option<Word64>, deltas: seq<Word64>): Option<Word64> {
    if deltas == [] then init
    else Some(Total(Fold(init, deltas[..|deltas| - 1]), deltas[|deltas| - 1]))
  }

  function Sum(deltas: seq<Word64>): int {
    if deltas == [] then 0 else Sum(deltas[..|deltas| - 1]) + deltas[|deltas| - 1]
  }

  function Start(init: Option<Word64>): int {
    if init.Some? then init.value else 0
  }

  function InFlight(p: Pc): Option<(nat, Word64)> {
    match p
    case Inside(_, _, Stored(e, r)) => Some((e, r))
    case Unlocked(_, Returns(e, r)) => Some((e, r))
    case Leaving(Returns(e, r)) => Some((e, r))
    case _ => None
  }

  function InitialAt(files: map<string, Word64>, key: string): Option<Word64> {
    if key in files then Some(files[key]) else None
  }

  /** The counter file is the fold of the updates logged for it. */
  ghost predicate FileOk(files: map<string, Word64>, s: State, key: string) {
    FileAt(s, key) == Fold(InitialAt(files, key), Deltas(s.log, key))
  }

  /** The i-th update wrote the fold of the updates up to and including it. */
  ghost predicate EntryOk(files: map<string, Word64>, log: seq<Update>, i: nat)
    requires i < |log|
  {
    Some(log[i].total) == Fold(InitialAt(files, log[i].call.key), Deltas(log[..i + 1], log[i].call.key))
  }

  /** What a thread has read is current, and its result is its own update's total. */
  ghost predicate WorkOk(s: State, t: Thread) {
    var p := s.At(t);
    && (p.Inside? && p.work.Loaded? ==> p.work.cur == FileAt(s, p.call.key))
    && (InFlight(p).Some? ==>
          var (e, r) := InFlight(p).value;
          e < |s.log| && s.log[e].thread == t && s.log[e].total == r && e !in s.done)
  }

  ghost predicate DoneOk(s: State, e: nat) {
    e in s.done ==> e < |s.log| && s.done[e] == s.log[e].total
  }

  ghost predicate CountInv(files: map<string, Word64>, s: State) {
    && (forall key: string :: FileOk(files, s, key))
    && (forall i: nat :: i < |s.log| ==> EntryOk(files, s.log, i))
    && (forall t: Thread :: WorkOk(s, t))
    && (forall e: nat :: DoneOk(s, e))
  }

  lemma DeltasSnoc(log: seq<Update>, u: Update, key: string)
    ensures Deltas(log + [u], key) == Deltas(log, key) + if u.call.key == key then [u.call.delta] else []
  {
    assert (log + [u])[..|log|] == log;
  }

  lemma FoldSnoc(init: Option<Word64>, deltas: seq<Word64>, d: Word64)
    ensures Fold(init, deltas + [d]) == Some(Total(Fold(init, deltas), d))
  {
    assert (deltas + [d])[..|deltas|] == deltas;
  }

  predicate CountsOnly(step: Step) {
    !step.MetaFails? && !step.Flush?
  }

  lemma OnlyWritesLog(s: State, step: Step)
    requires Do(s, step).Some? && CountsOnly(step)
    ensures var s' := Do(s, step).value;
            if step.WriteFile? then
              s.At(step.t).Inside? && s.At(step.t).work.Loaded? &&
              var u := Update(step.t, s.At(step.t).call, Total(s.At(step.t).work.cur, s.At(step.t).call.delta));
              s'.log == s.log + [u] && s'.files == s.files[u.call.key := u.total]
            else
              s'.log == s.log && s'.files == s.files
  {
  }

  lemma FileStep(files: map<string, Word64>, s: State, step: Step, key: string)
    requires CountInv(files, s) && Do(s, step).Some? && CountsOnly(step)
    ensures FileOk(files, Do(s, step).value, key)
  {
    var s' := Do(s, step).value;
    assert FileOk(files, s, key);
    OnlyWritesLog(s, step);
    if step.WriteFile? {
      assert WorkOk(s, step.t);
      LoggedUpdate(files, s, s', s'.log[|s.log|], key);
    }
  }

  lemma LoggedUpdate(files: map<string, Word64>, s: State, s': State, u: Update, key: string)
    requires FileOk(files, s, key) && u.total == Total(FileAt(s, u.call.key), u.call.delta)
    requires s'.log == s.log + [u] && s'.files == s.files[u.call.key := u.total]
    ensures FileOk(files, s', key)
  {
    var init, before := InitialAt(files, key), Deltas(s.log, key);
    DeltasSnoc(s.log, u, key);
    if key == u.call.key {
      FoldSnoc(init, before, u.call.delta);
      assert FileAt(s', key) == Some(u.total);
    } else {
      assert before + [] == before;
      assert FileAt(s', key) == FileAt(s, key);
    }
  }

  lemma EntryStep(files: map<string, Word64>, s: State, step: Step, i: nat)
    requires CountInv(files, s) && Do(s, step).Some? && CountsOnly(step)
    requires i < |Do(s, step).value.log|
    ensures EntryOk(files, Do(s, step).value.log, i)
  {
    var s' := Do(s, step).value;
    if i < |s.log| {
      assert EntryOk(files, s.log, i);
      assert s'.log[..i + 1] == s.log[..i + 1];
    } else {
      assert s'.log[..i + 1] == s'.log;
      FileStep(files, s, step, s'.log[i].call.key);
    }
  }

  /** Two threads cannot both be past the read and before the unlock. */
  lemma OtherWork(s: State, t: Thread, u: Thread)
    requires LockInv(s) && s.At(t).Inside? && s.At(u).Inside?
    ensures t == u
  {
    assert ThreadOk(s, t) && ThreadOk(s, u);
  }

  lemma OnlyMoves(s: State, step: Step, u: Thread)
    requires Do(s, step).Some? && !step.Crash? && !step.Flush? && step.t != u
    ensures Do(s, step).value.At(u) == s.At(u)
  {
  }

  lemma WorkStep(files: map<string, Word64>, s: State, step: Step, t: Thread)
    requires LockInv(s) && CountInv(files, s) && Do(s, step).Some? && CountsOnly(step)
    ensures WorkOk(Do(s, step).value, t)
  {
    assert WorkOk(s, t);
    OnlyWritesLog(s, step);
    if step.Crash? {
    } else if step.t == t {
      assert DoneOk(s, |s.log|);
    } else {
      OnlyMoves(s, step, t);
      OthersWork(files, s, step, t);
    }
  }

  lemma OthersWork(files: map<string, Word64>, s: State, step: Step, t: Thread)
    requires LockInv(s) && CountInv(files, s) && Do(s, step).Some? && CountsOnly(step)
    requires !step.Crash? && step.t != t && Do(s, step).value.At(t) == s.At(t)
    ensures WorkOk(Do(s, step).value, t)
  {
    assert WorkOk(s, t) && WorkOk(s, step.t);
    OnlyWritesLog(s, step);
    if step.WriteFile? && s.At(t).Inside? {
      OtherWork(s, t, step.t);
    }
  }

  lemma DoneStep(files: map<string, Word64>, s: State, step: Step, e: nat)
    requires CountInv(files, s) && Do(s, step).Some? && CountsOnly(step)
    ensures DoneOk(Do(s, step).value, e)
  {
    assert DoneOk(s, e);
    if step.UnlockMutex? {
      assert WorkOk(s, step.t);
    }
  }

  lemma CountInvStep(files: map<string, Word64>, s: State, step: Step)
    requires LockInv(s) && CountInv(files, s) && Do(s, step).Some? && CountsOnly(step)
    ensures CountInv(files, Do(s, step).value)
  {
    var s' := Do(s, step).value;
    forall key: string
      ensures FileOk(files, s', key)
    {
      FileStep(files, s, step, key);
    }
    forall i: nat | i < |s'.log|
      ensures EntryOk(files, s'.log, i)
    {
      EntryStep(files, s, step, i);
    }
    forall t: Thread
      ensures WorkOk(s', t)
    {
      WorkStep(files, s, step, t);
    }
    forall e: nat
      ensures DoneOk(s', e)
    {
      DoneStep(files, s, step, e);
    }
  }

  lemma {:induction false} CountInvRun(files: map<string, Word64>, steps: seq<Step>)
    requires Run(Init(files), steps).Some?
    requires forall step :: step in steps ==> CountsOnly(step)
    ensures CountInv(files, Run(Init(files), steps).value)
  {
    if steps != [] {
      var before, last := steps[..|steps| - 1], steps[|steps| - 1];
      assert forall step :: step in before ==> step in steps;
      assert last in steps;
      CountInvRun(files, before);
      LockInvRun(files, before);
      CountInvStep(files, Run(Init(files), before).value, last);
    }
  }

  /** The running sum of the first n deltas. */
  function RunningSum(init: Option<Word64>, deltas: seq<Word64>, n: nat): int
    requires n <= |deltas|
  {
    Start(init) + Sum(deltas[..n])
  }

  /** The n-th update writes the running sum. */
  ghost predicate WritesSum(init: Option<Word64>, deltas: seq<Word64>, n: nat)
    requires 0 < n <= |deltas|
  {
    Fold(init, deltas[..n]) == Some(RunningSum(init, deltas, n))
  }

  /** The counter read before the n-th update, if there was one, comes back; and the sum is a 64-bit integer. */
  ghost predicate SumFits(init: Option<Word64>, deltas: seq<Word64>, n: nat)
    requires 0 < n <= |deltas|
  {
    && InInt64(RunningSum(init, deltas, n))
    && (n > 1 || init.Some? ==> InInt64(RunningSum(init, deltas, n - 1)) && Survives(RunningSum(init, deltas, n - 1)))
  }

  ghost predicate SumsFit(init: Option<Word64>, deltas: seq<Word64>) {
    forall n: nat :: 0 < n <= |deltas| ==> SumFits(init, deltas, n)
  }

  lemma SumSnoc(deltas: seq<Word64>, d: Word64)
    ensures Sum(deltas + [d]) == Sum(deltas) + d
  {
    assert (deltas + [d])[..|deltas|] == deltas;
  }

  /** Counting on from a number is exact when it comes back and the sum fits. */
  lemma TotalExact(cur: Word64, d: Word64)
    ensures Total(Some(cur), d) == cur + d <==> InInt64(cur + d) && Survives(cur)
  {
    ReadBackExact(cur);
    WrapAdd(ReadBack(cur), cur, d);
  }

  /** One more update keeps the running sum exactly when the sum before comes back and the new one fits. */
  lemma SumStep(init: Option<Word64>, deltas: seq<Word64>, n: nat)
    requires 0 < n <= |deltas|
    requires n > 1 ==> WritesSum(init, deltas, n - 1)
    ensures WritesSum(init, deltas, n) <==> SumFits(init, deltas, n)
  {
    var before, d := deltas[..n - 1], deltas[n - 1];
    assert deltas[..n] == before + [d];
    SumSnoc(before, d);
    FoldSnoc(init, before, d);
    assert before == [] ==> Fold(init, before) == init && Sum(before) == 0;
    if n > 1 || init.Some? {
      hide Fold, Sum, Survives, Total;
      TotalExact(Fold(init, before).value, d);
    }
  }

  lemma {:induction false} TotalsAreSumsUpTo(init: Option<Word64>, deltas: seq<Word64>, n: nat)
    requires 0 < n <= |deltas| && SumsFit(init, deltas)
    ensures WritesSum(init, deltas, n)
  {
    if n > 1 {
      TotalsAreSumsUpTo(init, deltas, n - 1);
    }
    SumStep(init, deltas, n);
  }

  /** Every update writes the running sum if and only if every sum fits and every sum read comes back. */
  lemma ConservedIff(init: Option<Word64>, deltas: seq<Word64>)
    ensures (forall n: nat :: 0 < n <= |deltas| ==> WritesSum(init, deltas, n)) <==> SumsFit(init, deltas)
  {
    if SumsFit(init, deltas) {
      forall n: nat | 0 < n <= |deltas| ensures WritesSum(init, deltas, n) {
        TotalsAreSumsUpTo(init, deltas, n);
      }
    } else {
      var n: nat :| 0 < n <= |deltas| && !SumFits(init, deltas, n);
      if n == 1 || WritesSum(init, deltas, n - 1) {
        SumStep(init, deltas, n);
      }
    }
  }

  /**
   * Increments are conserved: whatever the interleaving and the crashes, the file holds the start
   * value plus every applied delta, each update wrote its running sum in lock order, and each
   * returned result is the total of its own update.
   */
  lemma IncrementsConserved(files: map<string, Word64>, steps: seq<Step>, key: string)
    requires Run(Init(files), steps).Some?
    requires forall step :: step in steps ==> CountsOnly(step)
    requires SumsFit(InitialAt(files, key), Deltas(Run(Init(files), steps).value.log, key))
    ensures var s, init := Run(Init(files), steps).value, InitialAt(files, key);
            && FileAt(s, key) == (if Deltas(s.log, key) == [] then init
                                  else Some(Start(init) + Sum(Deltas(s.log, key))))
            && (forall i: nat :: i < |s.log| && s.log[i].call.key == key ==>
                  s.log[i].total == Start(init) + Sum(Deltas(s.log[..i + 1], key)))
            && (forall e: nat :: e in s.done ==> e < |s.log| && s.done[e] == s.log[e].total)
  {
    hide Run, Fold, SumsFit;
    CountInvRun(files, steps);
    var s, init := Run(Init(files), steps).value, InitialAt(files, key);
    FileIsSum(files, s, key);
    forall i: nat | i < |s.log| && s.log[i].call.key == key
      ensures s.log[i].total == Start(init) + Sum(Deltas(s.log[..i + 1], key))
    {
      assert EntryOk(files, s.log, i);
      EntryIsSum(init, s.log, i, key);
    }
    forall e: nat | e in s.done
      ensures e < |s.log| && s.done[e] == s.log[e].total
    {
      assert DoneOk(s, e);
    }
  }

  lemma FileIsSum(files: map<string, Word64>, s: State, key: string)
    requires CountInv(files, s) && SumsFit(InitialAt(files, key), Deltas(s.log, key))
    ensures FileAt(s, key) == if Deltas(s.log, key) == [] then InitialAt(files, key)
                              else Some(Start(InitialAt(files, key)) + Sum(Deltas(s.log, key)))
  {
    var deltas := Deltas(s.log, key);
    assert FileOk(files, s, key);
    if deltas != [] {
      TotalsAreSumsUpTo(InitialAt(files, key), deltas, |deltas|);
      assert deltas[..|deltas|] == deltas;
    }
  }

  lemma EntryIsSum(init: Option<Word64>, log: seq<Update>, i: nat, key: string)
    requires i < |log| && log[i].call.key == key && SumsFit(init, Deltas(log, key))
    requires Some(log[i].total) == Fold(init, Deltas(log[..i + 1], key))
    ensures log[i].total == Start(init) + Sum(Deltas(log[..i + 1], key))
  {
    var upTo, deltas := Deltas(log[..i + 1], key), Deltas(log, key);
    DeltasPrefix(log, i + 1, key);
    assert log[..i + 1] == log[..i] + [log[i]];
    DeltasSnoc(log[..i], log[i], key);
    TotalsAreSumsUpTo(init, deltas, |upTo|);
    assert deltas[..|upTo|] == upTo;
  }

  lemma {:induction false} DeltasPrefix(log: seq<Update>, n: nat, key: string)
    requires n <= |log|
    ensures Deltas(log[..n], key) <= Deltas(log, key)
    decreases |log| - n
  {
    if n == |log| {
      assert log[..n] == log;
    } else {
      DeltasPrefix(log, n + 1, key);
      assert log[..n + 1][..n] == log[..n];
    }
  }

  /** Within 2^53 every sum fits and comes back. */
  lemma SmallSumsFit(init: Option<Word64>, deltas: seq<Word64>)
    requires forall n: nat :: n <= |deltas| ==> Abs(RunningSum(init, deltas, n)) <= EXACT_LIMIT
    ensures SumsFit(init, deltas)
  {
    forall n: nat | 0 < n <= |deltas| ensures SumFits(init, deltas, n) {
      assert Abs(RunningSum(init, deltas, n)) <= EXACT_LIMIT && Abs(RunningSum(init, deltas, n - 1)) <= EXACT_LIMIT;
      SmallIsExact(RunningSum(init, deltas, n - 1));
    }
  }

  /** Past 2^53 an increment can be lost: two increments by one add only one. */
  lemma LostIncrement()
    ensures Fold(Some(EXACT_LIMIT), [1, 1]) == Some(EXACT_LIMIT + 1)
  {
    var d := [1, 1];
    assert d[..1] == [1] && [1][..0] == [];
    assert Ulp(EXACT_LIMIT) == 2 * Ulp(EXACT_LIMIT / 2) == 2;
    assert Ulp(EXACT_LIMIT + 1) == 2 * Ulp((EXACT_LIMIT + 1) / 2) == 2;
    assert Fold(Some(EXACT_LIMIT), [1]) == Some(EXACT_LIMIT + 1);
  }

  const NEAR_MAX: Word64 := 0x7FFF_FFFF_FFFF_FC00 // 2^63 - 1024

  /** A sum past 2^63 - 1 wraps around, although every counter read comes back exactly. */
  lemma WrappedIncrement()
    ensures Survives(NEAR_MAX) && Fold(Some(NEAR_MAX), [1024]) == Some(MIN_INT64)
  {
    NearMaxUlp();
    ReadBackExact(NEAR_MAX);
    FoldSnoc(Some(NEAR_MAX), [], 1024);
    assert [] + [1024 as Word64] == [1024];
  }

  lemma UlpQuarter(a: nat)
    requires a >= 2 * EXACT_LIMIT
    ensures Ulp(a) == 4 * Ulp(a / 4)
  {
    assert Ulp(a / 2) == 2 * Ulp(a / 2 / 2) && a / 2 / 2 == a / 4;
  }

  lemma NearMaxUlp()
    ensures Ulp(NEAR_MAX) == 1024
  {
    UlpQuarter(NEAR_MAX);
    UlpQuarter(0x1FFF_FFFF_FFFF_FF00);
    UlpQuarter(0x07FF_FFFF_FFFF_FFC0);
    UlpQuarter(0x01FF_FFFF_FFFF_FFF0);
    UlpQuarter(0x007F_FFFF_FFFF_FFFC);
  }
}
