/** The in-memory cache as one flat map of timed entries, with tag sets beside it. */
module TimedMap {
  import opened Machine
  import opened Sequences
  import opened TagSets

  /** A cached value of some Go type. */
  datatype Any = Int64(n: int) | Int(n: int) | Int32(n: int) | Float64(r: real) | Text(s: string) | Flag(b: bool)

  datatype Entry = Entry(value: Any, expireAt: int)

  datatype View = View(items: map<string, Entry>, tags: Tags)

  const EMPTY := View(map[], map[])

  datatype Op =
    | Get(key: string)
    | Has(key: string)
    | Put(key: string, value: Any, ttl: int)
    | Forget(key: string)
    | Pull(key: string)
    | Increment(key: string, delta: int)
    | Flush
    | TagPut(tags: seq<string>, key: string, value: Any, ttl: int)
    | TagIncrement(tags: seq<string>, key: string, delta: int)
    | TagFlush(tags: seq<string>)
    | Sweep(keys: set<string>)

  datatype Reply = Found(value: Option<Any>) | Is(b: bool) | Done | Count(n: int) | NotNumeric

  /** Past its expiry; 0 and below never expire. */
  predicate Expired(e: Entry, now: int) {
    e.expireAt > 0 && now > e.expireAt
  }

  /** The entry a key has at a time, if it is there and not expired. */
  function Live(v: View, key: string, now: int): Option<Entry> {
    if key in v.items && !Expired(v.items[key], now) then Some(v.items[key]) else None
  }

  function Value(e: Option<Entry>): Option<Any> {
    if e.Some? then Some(e.value.value) else None
  }

  /** Rounds toward zero. */
  function Truncate(r: real): int {
    if r >= 0.0 then r.Floor else -(-r).Floor
  }

  function ToInt64(v: Any): Option<int> {
    match v
    case Int64(n) => Some(n)
    case Int(n) => Some(n)
    case Int32(n) => Some(n)
    case Float64(r) => Some(Truncate(r))
    case _ => None
  }

  function Timed(value: Any, now: int, ttl: int): Entry {
    Entry(value, if ttl > 0 then now + ttl else 0)
  }

  function AllKeysUnder(tags: Tags, ts: seq<string>): set<string> {
    set t, k | t in ts && k in KeysUnder(tags, t) :: k
  }

  function Track(tags: Tags, ts: seq<string>, key: string): Tags {
    map t | t in tags.Keys + (set x | x in ts) :: KeysUnder(tags, t) + if t in ts then {key} else {}
  }

  function Untrack(tags: Tags, keys: set<string>): Tags {
    map t | t in tags :: tags[t] - keys
  }

  function ForgetAll(v: View, keys: set<string>): View {
    View(v.items - keys, Untrack(v.tags, keys))
  }

  function Counted(v: View, now: int, key: string, delta: int): (View, Reply) {
    match Live(v, key, now)
    case None => (v.(items := v.items[key := Entry(Int64(delta), 0)]), Count(delta))
    case Some(e) =>
      match ToInt64(e.value)
      case None => (v, NotNumeric)
      case Some(n) => (v.(items := v.items[key := e.(value := Int64(Wrap64(n + delta)))]), Count(Wrap64(n + delta)))
  }

  /** What a call made at a time does and answers. */
  function Apply(v: View, now: int, op: Op): (View, Reply) {
    match op
    case Get(key) => (v, Found(Value(Live(v, key, now))))
    case Has(key) => (v, Is(Live(v, key, now).Some?))
    case Put(key, value, ttl) => (v.(items := v.items[key := Timed(value, now, ttl)]), Done)
    case Forget(key) => (ForgetAll(v, {key}), Done)
    case Pull(key) => (ForgetAll(v, {key}), Found(Value(Live(v, key, now))))
    case Increment(key, delta) => Counted(v, now, key, delta)
    case Flush => (EMPTY, Done)
    case TagPut(ts, key, value, ttl) =>
      (View(v.items[key := Timed(value, now, ttl)], Track(v.tags, ts, key)), Done)
    case TagIncrement(ts, key, delta) => Counted(v.(tags := Track(v.tags, ts, key)), now, key, delta)
    case TagFlush(ts) =>
      (ForgetAll(v.(tags := v.tags - (set t | t in ts)), AllKeysUnder(v.tags, ts)), Done)
    case Sweep(keys) => (v.(items := Swept(v.items, keys, now)), Done)
  }

  /** Without the expired entries among some keys. */
  function Swept(items: map<string, Entry>, keys: set<string>, now: int): map<string, Entry> {
    map k | k in items && !(k in keys && Expired(items[k], now)) :: items[k]
  }

  // ---- runs: sweeps are never seen -----------------------------------------------------------------

  datatype Call = Call(now: int, op: Op)

  /** The clock does not go back. */
  ghost predicate Forward(calls: seq<Call>) {
    forall i, j :: 0 <= i < j < |calls| ==> calls[i].now <= calls[j].now
  }

  function Run(v: View, calls: seq<Call>): View
    decreases |calls|
  {
    if calls == [] then v else Run(Apply(v, calls[0].now, calls[0].op).0, calls[1..])
  }

  /** What a client sees: the answers to everything but the sweeps. */
  function Replies(v: View, calls: seq<Call>): seq<Reply>
    decreases |calls|
  {
    if calls == [] then []
    else
      var (v', reply) := Apply(v, calls[0].now, calls[0].op);
      (if calls[0].op.Sweep? then [] else [reply]) + Replies(v', calls[1..])
  }

  function WithoutSweeps(calls: seq<Call>): seq<Call> {
    if calls == [] then []
    else (if calls[0].op.Sweep? then [] else [calls[0]]) + WithoutSweeps(calls[1..])
  }

  /** The same to any client from a time on: the same live entries and the same tags. */
  ghost predicate Alike(v: View, w: View, now: int) {
    v.tags == w.tags && forall k: string :: Live(v, k, now) == Live(w, k, now)
  }

  lemma AlikeLater(v: View, w: View, now: int, later: int)
    requires Alike(v, w, now) && now <= later
    ensures Alike(v, w, later)
  {
    forall k: string ensures Live(v, k, later) == Live(w, k, later) {
      assert Live(v, k, now) == Live(w, k, now);
    }
  }

  lemma SweepAlike(v: View, keys: set<string>, now: int)
    ensures Alike(Apply(v, now, Sweep(keys)).0, v, now)
  {
    assert forall k: string :: Live(Apply(v, now, Sweep(keys)).0, k, now) == Live(v, k, now);
  }

  lemma CountedAlike(v: View, w: View, now: int, key: string, delta: int)
    requires Alike(v, w, now)
    ensures Counted(v, now, key, delta).1 == Counted(w, now, key, delta).1
    ensures Alike(Counted(v, now, key, delta).0, Counted(w, now, key, delta).0, now)
  {
    assert Live(v, key, now) == Live(w, key, now);
    var v', w' := Counted(v, now, key, delta).0, Counted(w, now, key, delta).0;
    forall k: string ensures Live(v', k, now) == Live(w', k, now) {
      assert Live(v, k, now) == Live(w, k, now);
    }
  }

  lemma ForgetAlike(v: View, w: View, now: int, keys: set<string>)
    requires Alike(v, w, now)
    ensures Alike(ForgetAll(v, keys), ForgetAll(w, keys), now)
  {
    forall k: string ensures Live(ForgetAll(v, keys), k, now) == Live(ForgetAll(w, keys), k, now) {
      assert Live(v, k, now) == Live(w, k, now);
    }
  }

  lemma PutAlike(v: View, w: View, now: int, key: string, e: Entry)
    requires Alike(v, w, now)
    ensures Alike(v.(items := v.items[key := e]), w.(items := w.items[key := e]), now)
  {
    var v', w' := v.(items := v.items[key := e]), w.(items := w.items[key := e]);
    forall k: string ensures Live(v', k, now) == Live(w', k, now) {
      assert Live(v, k, now) == Live(w, k, now);
    }
  }

  lemma RetagAlike(v: View, w: View, now: int, tags: Tags)
    requires Alike(v, w, now)
    ensures Alike(v.(tags := tags), w.(tags := tags), now)
  {
    forall k: string ensures Live(v.(tags := tags), k, now) == Live(w.(tags := tags), k, now) {
      assert Live(v, k, now) == Live(w, k, now);
    }
  }

  /** Calls cannot tell alike views apart, and leave alike views. */
  lemma ApplyAlike(v: View, w: View, now: int, op: Op)
    requires Alike(v, w, now) && !op.Sweep?
    ensures Apply(v, now, op).1 == Apply(w, now, op).1
    ensures Alike(Apply(v, now, op).0, Apply(w, now, op).0, now)
  {
    match op
    case Get(key) => assert Live(v, key, now) == Live(w, key, now);
    case Has(key) => assert Live(v, key, now) == Live(w, key, now);
    case Put(key, value, ttl) => PutAlike(v, w, now, key, Timed(value, now, ttl));
    case Forget(key) => ForgetAlike(v, w, now, {key});
    case Pull(key) =>
      assert Live(v, key, now) == Live(w, key, now);
      ForgetAlike(v, w, now, {key});
    case Increment(key, delta) => CountedAlike(v, w, now, key, delta);
    case Flush =>
    case TagPut(ts, key, value, ttl) =>
      RetagAlike(v, w, now, Track(v.tags, ts, key));
      PutAlike(v.(tags := Track(v.tags, ts, key)), w.(tags := Track(v.tags, ts, key)), now, key, Timed(value, now, ttl));
    case TagIncrement(ts, key, delta) =>
      RetagAlike(v, w, now, Track(v.tags, ts, key));
      CountedAlike(v.(tags := Track(v.tags, ts, key)), w.(tags := Track(v.tags, ts, key)), now, key, delta);
    case TagFlush(ts) =>
      RetagAlike(v, w, now, v.tags - (set t | t in ts));
      ForgetAlike(v.(tags := v.tags - (set t | t in ts)), w.(tags := v.tags - (set t | t in ts)), now,
                  AllKeysUnder(v.tags, ts));
  }

  lemma ForwardTail(calls: seq<Call>)
    requires Forward(calls) && calls != []
    ensures Forward(calls[1..]) && forall c :: c in calls[1..] ==> calls[0].now <= c.now
  {
  }

  /** From alike views on, a run answers the same with its sweeps as without them. */
  lemma {:induction false} SweepsUnseenFrom(v: View, w: View, now: int, calls: seq<Call>)
    requires Alike(v, w, now) && Forward(calls) && forall c :: c in calls ==> now <= c.now
    ensures Replies(v, calls) == Replies(w, WithoutSweeps(calls))
    decreases |calls|
  {
    hide Apply;
    if calls != [] {
      var c := calls[0];
      ForwardTail(calls);
      AlikeLater(v, w, now, c.now);
      var v' := Apply(v, c.now, c.op).0;
      var rest := WithoutSweeps(calls[1..]);
      if c.op.Sweep? {
        SweepAlike(v, c.op.keys, c.now);
        SweepsUnseenFrom(v', w, c.now, calls[1..]);
        assert WithoutSweeps(calls) == [] + rest == rest;
      } else {
        ApplyAlike(v, w, c.now, c.op);
        SweepsUnseenFrom(v', Apply(w, c.now, c.op).0, c.now, calls[1..]);
        assert WithoutSweeps(calls) == [c] + rest;
        assert ([c] + rest)[1..] == rest;
      }
    }
  }

  /** Sweeping any keys at any time changes no answer, as long as the clock does not go back. */
  lemma SweepsUnseen(v: View, calls: seq<Call>)
    requires Forward(calls)
    ensures Replies(v, calls) == Replies(v, WithoutSweeps(calls))
  {
    if calls != [] {
      SweepsUnseenFrom(v, v, calls[0].now, calls);
    }
  }

  /** With a clock that goes back a sweep can be seen: the entry would have been alive again. */
  lemma SweepSeenGoingBack(key: string, value: Any)
    ensures var v := View(map[key := Entry(value, 10)], map[]);
      var calls := [Call(11, Sweep({key})), Call(9, Has(key))];
      Replies(v, calls) == [Is(false)] && Replies(v, WithoutSweeps(calls)) == [Is(true)]
  {
    var v := View(map[key := Entry(value, 10)], map[]);
    var sweep, has := Call(11, Sweep({key})), Call(9, Has(key));
    assert [sweep, has][1..] == [has] && [has][1..] == [];
    assert WithoutSweeps([has]) == [has] + WithoutSweeps([]) == [has];
    assert WithoutSweeps([sweep, has]) == [] + WithoutSweeps([has]) == [has];
    var v' := Apply(v, 11, Sweep({key})).0;
    assert v'.items == map[];
    assert Replies(v', [has]) == [Is(false)] + Replies(Apply(v', 9, Has(key)).0, []);
    assert Replies(v, [has]) == [Is(true)] + Replies(Apply(v, 9, Has(key)).0, []);
    assert Replies(v, [sweep, has]) == [] + Replies(v', [has]);
  }

  // ---- tags ----------------------------------------------------------------------------------------

  /** A call puts a key under a tag. */
  predicate Tracks(op: Op, t: string, key: string) {
    match op
    case TagPut(ts, k, _, _) => t in ts && k == key
    case TagIncrement(ts, k, _) => t in ts && k == key
    case _ => false
  }

  /** A call forgets a key, or drops the tag. */
  predicate Forgets(v: View, op: Op, t: string, key: string) {
    match op
    case Forget(k) => k == key
    case Pull(k) => k == key
    case Flush => true
    case TagFlush(ts) => t in ts || key in AllKeysUnder(v.tags, ts)
    case _ => false
  }

  lemma CountedTags(v: View, now: int, key: string, delta: int)
    ensures Counted(v, now, key, delta).0.tags == v.tags
  {
  }

  lemma TagStep(v: View, now: int, op: Op, t: string, key: string)
    ensures key in KeysUnder(Apply(v, now, op).0.tags, t) <==>
            Tracks(op, t, key) || (key in KeysUnder(v.tags, t) && !Forgets(v, op, t, key))
  {
    if op.TagIncrement? {
      CountedTags(v.(tags := Track(v.tags, op.tags, op.key)), now, op.key, op.delta);
    } else if op.Increment? {
      CountedTags(v, now, op.key, op.delta);
    }
  }

  /** Some call put the key under the tag and no call since has forgotten it. */
  ghost predicate TrackedSince(v: View, calls: seq<Call>, t: string, key: string) {
    exists i :: 0 <= i < |calls| && TrackedAt(v, calls, t, key, i)
  }

  ghost predicate TrackedAt(v: View, calls: seq<Call>, t: string, key: string, i: nat)
    requires i < |calls|
  {
    Tracks(calls[i].op, t, key) && KeptFrom(v, calls, t, key, i + 1)
  }

  ghost predicate KeptFrom(v: View, calls: seq<Call>, t: string, key: string, i: nat) {
    forall j :: i <= j < |calls| ==> !Forgets(Run(v, calls[..j]), calls[j].op, t, key)
  }

  lemma {:induction false} RunSnoc(v: View, calls: seq<Call>, c: Call)
    ensures Run(v, calls + [c]) == Apply(Run(v, calls), c.now, c.op).0
    decreases |calls|
  {
    hide Apply;
    if calls == [] {
      assert [] + [c] == [c] && [c][1..] == [];
    } else {
      assert (calls + [c])[1..] == calls[1..] + [c];
      RunSnoc(Apply(v, calls[0].now, calls[0].op).0, calls[1..], c);
    }
  }

  lemma KeptSnoc(v: View, before: seq<Call>, c: Call, t: string, key: string, i: nat)
    requires i <= |before|
    ensures KeptFrom(v, before + [c], t, key, i) <==>
            KeptFrom(v, before, t, key, i) && !Forgets(Run(v, before), c.op, t, key)
  {
    hide Forgets, Run;
    var calls := before + [c];
    assert calls[..|before|] == before;
    assert forall j :: 0 <= j < |before| ==> calls[..j] == before[..j];
    assert calls[|before|] == c;
    assert forall j :: 0 <= j < |before| ==> calls[j] == before[j];
  }

  /** A key is under a tag exactly when it was tracked there and not forgotten since. */
  lemma {:induction false} TagsAreHistory(calls: seq<Call>, t: string, key: string)
    ensures key in KeysUnder(Run(EMPTY, calls).tags, t) <==> TrackedSince(EMPTY, calls, t, key)
  {
    hide Apply, Forgets, KeptFrom, Tracks;
    if calls != [] {
      var n := |calls| - 1;
      var before, c := calls[..n], calls[n];
      assert calls == before + [c];
      TagsAreHistory(before, t, key);
      RunSnoc(EMPTY, before, c);
      TagStep(Run(EMPTY, before), c.now, c.op, t, key);
      KeptNone(EMPTY, calls, t, key);
      forall i: nat | i < n
        ensures TrackedAt(EMPTY, calls, t, key, i) <==>
                TrackedAt(EMPTY, before, t, key, i) && !Forgets(Run(EMPTY, before), c.op, t, key)
      {
        KeptSnoc(EMPTY, before, c, t, key, i + 1);
      }
      if Tracks(c.op, t, key) {
        assert TrackedAt(EMPTY, calls, t, key, n);
      } else if TrackedSince(EMPTY, before, t, key) && !Forgets(Run(EMPTY, before), c.op, t, key) {
        var i :| 0 <= i < n && TrackedAt(EMPTY, before, t, key, i);
        assert TrackedAt(EMPTY, calls, t, key, i);
      } else {
        forall i: nat | i < |calls| ensures !TrackedAt(EMPTY, calls, t, key, i) {
          assert i < n || i == n;
        }
      }
    }
  }

  lemma KeptNone(v: View, calls: seq<Call>, t: string, key: string)
    ensures KeptFrom(v, calls, t, key, |calls|)
  {
  }

  /** A tagged flush deletes exactly the keys tracked under its tags and not forgotten since. */
  lemma TaggedFlushIsExact(calls: seq<Call>, now: int, ts: seq<string>, key: string)
    ensures var v := Run(EMPTY, calls);
      var v' := Apply(v, now, TagFlush(ts)).0;
      && (key in v'.items <==> key in v.items && !exists t :: t in ts && TrackedSince(EMPTY, calls, t, key))
      && (key in v'.items ==> v'.items[key] == v.items[key])
      && (forall t :: t in ts ==> t !in v'.tags)
  {
    var v := Run(EMPTY, calls);
    forall t: string ensures key in KeysUnder(v.tags, t) <==> TrackedSince(EMPTY, calls, t, key) {
      TagsAreHistory(calls, t, key);
    }
    assert key in AllKeysUnder(v.tags, ts) <==> exists t :: t in ts && key in KeysUnder(v.tags, t);
  }
}
