/** What a client of the in-memory cache can rely on along a run: what it wrote, what it removed, what it counted. */
module CacheLaws {
  import opened Machine
  import opened Sequences
  import opened TagSets
  import opened TimedMap

  /** A call that leaves a new value under the key. */
  predicate Writes(op: Op, key: string) {
    match op
    case Put(k, _, _) => k == key
    case TagPut(_, k, _, _) => k == key
    case Increment(k, _) => k == key
    case TagIncrement(_, k, _) => k == key
    case _ => false
  }

  /** A call that takes the key away. */
  ghost predicate Removes(v: View, op: Op, key: string) {
    match op
    case Forget(k) => k == key
    case Pull(k) => k == key
    case Flush => true
    case TagFlush(ts) => exists t :: t in ts && key in KeysUnder(v.tags, t)
    case _ => false
  }

  predicate NoWrites(calls: seq<Call>, key: string) {
    forall i :: 0 <= i < |calls| ==> !Writes(calls[i].op, key)
  }

  /** No call of the run writes the key or takes it away. */
  ghost predicate Untouched(v: View, calls: seq<Call>, key: string)
    decreases |calls|
  {
    calls == [] ||
    (!Writes(calls[0].op, key) && !Removes(v, calls[0].op, key) &&
     Untouched(Apply(v, calls[0].now, calls[0].op).0, calls[1..], key))
  }

  /** What a read of the key answers at a time. */
  function Answer(v: View, key: string, t: int): Option<Any> {
    match Apply(v, t, Get(key)).1
    case Found(x) => x
    case _ => None
  }

  /** All three ways to ask agree. */
  lemma AskedAlike(v: View, key: string, t: int)
    ensures Apply(v, t, Get(key)).1 == Apply(v, t, Pull(key)).1 == Found(Answer(v, key, t))
    ensures Apply(v, t, Has(key)).1 == Is(Answer(v, key, t).Some?)
    ensures Apply(v, t, Get(key)).0 == Apply(v, t, Has(key)).0 == v
  {
  }

  // ---- what is removed stays away ------------------------------------------------------------------

  lemma AbsentStep(v: View, now: int, op: Op, key: string)
    requires key !in v.items && !Writes(op, key)
    ensures key !in Apply(v, now, op).0.items
  {
  }

  lemma {:induction false} AbsentRun(v: View, calls: seq<Call>, key: string)
    requires key !in v.items && NoWrites(calls, key)
    ensures key !in Run(v, calls).items
    decreases |calls|
  {
    hide Apply;
    if calls != [] {
      AbsentStep(v, calls[0].now, calls[0].op, key);
      AbsentRun(Apply(v, calls[0].now, calls[0].op).0, calls[1..], key);
    }
  }

  /** After a pull, a forget or a flush the key is not found, at any time, until it is written again. */
  lemma RemovedStays(v: View, now: int, op: Op, calls: seq<Call>, key: string, t: int)
    requires op == Pull(key) || op == Forget(key) || op == Flush
    requires NoWrites(calls, key)
    ensures Answer(Run(Apply(v, now, op).0, calls), key, t) == None
  {
    AbsentRun(Apply(v, now, op).0, calls, key);
  }

  /** Removing one key changes no answer about another, and no tag of another. */
  lemma OthersStay(v: View, now: int, op: Op, key: string, other: string, t: int, tag: string)
    requires (op == Pull(key) || op == Forget(key)) && other != key
    ensures Answer(Apply(v, now, op).0, other, t) == Answer(v, other, t)
    ensures other in KeysUnder(Apply(v, now, op).0.tags, tag) <==> other in KeysUnder(v.tags, tag)
    ensures key !in KeysUnder(Apply(v, now, op).0.tags, tag)
  {
  }

  // ---- what is written is read back ----------------------------------------------------------------

  lemma AnswerIsLive(v: View, key: string, t: int)
    ensures Answer(v, key, t) == Value(Live(v, key, t))
  {
  }

  lemma UntouchedStep(v: View, now: int, op: Op, key: string, t: int)
    requires !Writes(op, key) && !Removes(v, op, key) && now <= t
    ensures Live(Apply(v, now, op).0, key, t) == Live(v, key, t)
  {
  }

  /** Calls that neither write nor take away the key leave what is read of it, also when sweeps are among them. */
  lemma {:induction false} UntouchedRun(v: View, calls: seq<Call>, key: string, t: int)
    requires Untouched(v, calls, key) && forall c :: c in calls ==> c.now <= t
    ensures Live(Run(v, calls), key, t) == Live(v, key, t)
    decreases |calls|
  {
    hide Apply, Live, Writes, Removes;
    if calls != [] {
      UntouchedStep(v, calls[0].now, calls[0].op, key, t);
      UntouchedRun(Apply(v, calls[0].now, calls[0].op).0, calls[1..], key, t);
    }
  }

  /**
   * A value written with or without tags is read back until its time to live has passed, and for ever if
   * it has none, as long as nothing else writes the key or takes it away.
   */
  lemma WrittenIsRead(v: View, now: int, op: Op, calls: seq<Call>, key: string, value: Any, ttl: int, t: int)
    requires op == Put(key, value, ttl) || (op.TagPut? && op == TagPut(op.tags, key, value, ttl))
    requires 0 <= now <= t && forall c :: c in calls ==> c.now <= t
    requires Untouched(Apply(v, now, op).0, calls, key)
    ensures Answer(Run(Apply(v, now, op).0, calls), key, t) == if ttl <= 0 || t <= now + ttl then Some(value) else None
  {
    UntouchedRun(Apply(v, now, op).0, calls, key, t);
    AnswerIsLive(Run(Apply(v, now, op).0, calls), key, t);
  }

  /** Writing one key changes no answer about another. */
  lemma WritesOne(v: View, now: int, op: Op, key: string, other: string, t: int)
    requires Writes(op, key) && other != key
    ensures Answer(Apply(v, now, op).0, other, t) == Answer(v, other, t)
  {
  }

  // ---- counting ------------------------------------------------------------------------------------

  /** The whole number a value counts from: a number's own, a floating-point one's without its fraction. */
  ghost predicate CountsFrom(x: Any, n: int) {
    match x
    case Int64(m) => n == m
    case Int(m) => n == m
    case Int32(m) => n == m
    case Float64(r) => if r >= 0.0 then n as real <= r < (n + 1) as real else (n - 1) as real < r <= n as real
    case Text(_) => false
    case Flag(_) => false
  }

  predicate IsNumber(x: Any) {
    !x.Text? && !x.Flag?
  }

  lemma NumberCounts(x: Any)
    ensures ToInt64(x).Some? <==> IsNumber(x)
    ensures ToInt64(x).Some? ==> CountsFrom(x, ToInt64(x).value)
  {
  }

  /**
   * Counting: a key without a live value starts at the delta and never expires; a number moves on by the
   * delta, wrapping around at 64 bits, and keeps the time at which it expires; anything else is refused
   * and stays.
   */
  lemma CountedIsRead(v: View, now: int, op: Op, key: string, delta: int, t: int)
    requires op == Increment(key, delta) || (op.TagIncrement? && op == TagIncrement(op.tags, key, delta))
    requires now <= t
    ensures var (v', reply) := Apply(v, now, op);
      match Answer(v, key, now)
      case None => reply == Count(delta) && Answer(v', key, t) == Some(Int64(delta))
      case Some(x) =>
        if IsNumber(x) then
          exists n :: CountsFrom(x, n) && reply == Count(Wrap64(n + delta))
                      && Answer(v', key, t) == if Answer(v, key, t).Some? then Some(Int64(Wrap64(n + delta))) else None
        else reply == NotNumeric && Answer(v', key, t) == Answer(v, key, t)
  {
    var w := if op.TagIncrement? then v.(tags := Track(v.tags, op.tags, key)) else v;
    assert Apply(v, now, op) == Counted(w, now, key, delta);
    assert Live(w, key, now) == Live(v, key, now) && Live(w, key, t) == Live(v, key, t);
    var e := Live(v, key, now);
    if e.Some? {
      NumberCounts(e.value.value);
      assert Answer(v, key, now) == Some(e.value.value);
    }
  }
}
