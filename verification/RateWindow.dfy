/** What the rate limiter does to the cache, and the window per key it amounts to. */
module RateWindow {
  import opened Machine
  import opened Sequences
  import opened TimedMap

  const NANOS: int := 1_000_000_000

  function CountKey(key: string): string {
    "ratelimit:" + key
  }

  function TimerKey(key: string): string {
    "ratelimit:" + key + ":timer"
  }

  /** One hit at a time: the store afterwards, and the count unless the counter is not a number. */
  function Hit(v: View, now: int, key: string, window: int): (View, Option<int>) {
    if Live(v, CountKey(key), now).None? then
      var counted := v.items[CountKey(key) := Timed(Int64(1), now, window)];
      (v.(items := counted[TimerKey(key) := Timed(Int64((now + window) / NANOS), now, window)]), Some(1))
    else
      var (v', reply) := Counted(v, now, CountKey(key), 1);
      (v', if reply.Count? then Some(reply.n) else None)
  }

  function Clear(v: View, key: string): View {
    ForgetAll(ForgetAll(v, {CountKey(key)}), {TimerKey(key)})
  }

  /** What GetInt64 makes of a value. */
  function AsInt64(v: Option<Any>): int {
    match v
    case Some(Int64(n)) => n
    case Some(Int(n)) => n
    case Some(Float64(r)) => Truncate(r)
    case _ => 0
  }

  function Attempts(v: View, now: int, key: string): int {
    AsInt64(Value(Live(v, CountKey(key), now)))
  }

  /** What is read as a count where somebody else has written the key: whole numbers, others cut, the rest none. */
  lemma AttemptsReads(v: View, now: int, key: string)
    ensures var n := Attempts(v, now, key);
      match Live(v, CountKey(key), now)
      case None => n == 0
      case Some(e) =>
        match e.value
        case Int64(m) => n == m
        case Int(m) => n == m
        case Float64(r) => if r >= 0.0 then n as real <= r < (n + 1) as real else (n - 1) as real < r <= n as real
        case _ => n == 0
  {
  }

  // ---- the simple form: one window per key ---------------------------------------------------------

  datatype Window = Closed | Open(since: int, count: nat)

  /** A hit joins the open window, or opens one. */
  function Join(w: Window, now: int, window: int): Window {
    if w.Open? && now <= w.since + window then Open(w.since, w.count + 1) else Open(now, 1)
  }

  /** A hit names its own window. */
  datatype Act = Hits(key: string, window: int) | Clears(key: string) | Sweeps(keys: set<string>)

  datatype Event = Event(now: int, act: Act)

  predicate HitsOn(act: Act, key: string) {
    act.Hits? && act.key == key
  }

  function Step(v: View, e: Event): View {
    match e.act
    case Hits(key, window) => Hit(v, e.now, key, window).0
    case Clears(key) => Clear(v, key)
    case Sweeps(keys) => Apply(v, e.now, Sweep(keys)).0
  }

  /** The store after a run. */
  function Play(v: View, es: seq<Event>): View {
    if es == [] then v else Step(Play(v, es[..|es| - 1]), es[|es| - 1])
  }

  /** The window of one key after a run. */
  function WindowOf(key: string, window: int, es: seq<Event>): Window {
    if es == [] then Closed
    else
      var before, last := WindowOf(key, window, es[..|es| - 1]), es[|es| - 1];
      if HitsOn(last.act, key) then Join(before, last.now, window)
      else if last.act == Clears(key) then Closed
      else before
  }

  /** The clock starts after 1970 and does not go back. */
  ghost predicate Forward(es: seq<Event>) {
    && (forall i :: 0 <= i < |es| ==> 0 <= es[i].now)
    && (forall i, j :: 0 <= i < j < |es| ==> es[i].now <= es[j].now)
  }

  /** No other key's timer is this key's counter. */
  ghost predicate Apart(key: string, es: seq<Event>) {
    forall i :: 0 <= i < |es| ==> !TimerClash(key, es[i].act)
  }

  /** Every hit on the key uses the same window; other keys may use any. */
  ghost predicate Fixed(key: string, window: int, es: seq<Event>) {
    forall i :: 0 <= i < |es| && HitsOn(es[i].act, key) ==> es[i].act.window == window
  }

  /** A run in which the key is used through the limiter only, with one window, on a store that has no counter for it. */
  ghost predicate LimiterRun(v: View, key: string, window: int, es: seq<Event>) {
    && window > 0 && Forward(es) && Apart(key, es) && Fixed(key, window, es)
    && |es| < MAX_INT64 && CountKey(key) !in v.items
  }

  predicate TimerClash(key: string, act: Act) {
    (act.Hits? || act.Clears?) && key == act.key + ":timer"
  }

  lemma KeysDiffer(key: string, other: string)
    ensures CountKey(key) == CountKey(other) <==> key == other
    ensures CountKey(key) == TimerKey(other) <==> key == other + ":timer"
    ensures CountKey(key) != TimerKey(key)
  {
    var n := |"ratelimit:"|;
    assert CountKey(key)[n..] == key && CountKey(other)[n..] == other;
    assert TimerKey(other)[n..] == other + ":timer";
    assert |TimerKey(key)| > |CountKey(key)|;
  }

  /** What the store holds for a key is its window. */
  predicate Shows(v: View, key: string, w: Window, window: int, now: int) {
    Live(v, CountKey(key), now) ==
    if w.Open? && now <= w.since + window then Some(Entry(Int64(w.count), w.since + window)) else None
  }

  predicate Sane(w: Window) {
    w.Open? ==> w.since >= 0
  }

  lemma ShowsLater(v: View, key: string, w: Window, window: int, now: int, later: int)
    requires Shows(v, key, w, window, now) && now <= later && window > 0 && Sane(w)
    ensures Shows(v, key, w, window, later)
  {
  }

  lemma CountFits(n: int)
    requires 0 <= n < MAX_INT64
    ensures Wrap64(n + 1) == n + 1
  {
  }

  lemma HitShows(v: View, key: string, w: Window, window: int, now: int)
    requires Shows(v, key, w, window, now) && window > 0 && Sane(w) && now >= 0
    requires w.Open? ==> w.count < MAX_INT64
    ensures var (v', count) := Hit(v, now, key, window);
      && Shows(v', key, Join(w, now, window), window, now)
      && count == Some(Join(w, now, window).count)
  {
    KeysDiffer(key, key);
    if w.Open? {
      CountFits(w.count);
    }
    hide CountKey, TimerKey;
  }

  lemma OthersShow(v: View, key: string, w: Window, window: int, e: Event)
    requires Shows(v, key, w, window, e.now) && !TimerClash(key, e.act)
    requires !HitsOn(e.act, key) && e.act != Clears(key)
    ensures Shows(Step(v, e), key, w, window, e.now)
  {
    if e.act.Sweeps? {
      SweepAlike(v, e.act.keys, e.now);
    } else {
      KeysDiffer(key, e.act.key);
    }
    hide CountKey, TimerKey;
  }

  lemma ClearShows(v: View, key: string, window: int, now: int)
    ensures Shows(Clear(v, key), key, Closed, window, now)
  {
  }

  function LastNow(es: seq<Event>): int {
    if es == [] then 0 else es[|es| - 1].now
  }

  lemma Shorter(v: View, key: string, window: int, es: seq<Event>)
    requires es != [] && LimiterRun(v, key, window, es)
    ensures LimiterRun(v, key, window, es[..|es| - 1]) && LastNow(es[..|es| - 1]) <= LastNow(es)
  {
  }

  /** Along every run the store holds each key's window, whatever other keys and sweeps do. */
  lemma {:induction false} StoreShowsWindow(v: View, key: string, window: int, es: seq<Event>)
    requires LimiterRun(v, key, window, es)
    ensures Shows(Play(v, es), key, WindowOf(key, window, es), window, LastNow(es))
    ensures var w := WindowOf(key, window, es); Sane(w) && (w.Open? ==> w.count <= |es|)
  {
    if es != [] {
      var before, last := es[..|es| - 1], es[|es| - 1];
      Shorter(v, key, window, es);
      StoreShowsWindow(v, key, window, before);
      var v', w := Play(v, before), WindowOf(key, window, before);
      ShowsLater(v', key, w, window, LastNow(before), last.now);
      hide Shows, Step;
      if HitsOn(last.act, key) {
        HitShows(v', key, w, window, last.now);
      } else if last.act == Clears(key) {
        ClearShows(v', key, window, last.now);
      } else {
        OthersShow(v', key, w, window, last);
      }
    }
  }

  /**
   * The limiter answers as a limiter with one window per key would: each hit returns the count of
   * the window it falls in, and Attempts returns the open window's count.
   */
  lemma CountsItsWindow(v: View, key: string, window: int, es: seq<Event>, now: int)
    requires LimiterRun(v, key, window, es)
    requires LastNow(es) <= now && 0 <= now
    ensures var w := WindowOf(key, window, es);
      && Hit(Play(v, es), now, key, window).1 == Some(Join(w, now, window).count)
      && Attempts(Play(v, es), now, key) == if w.Open? && now <= w.since + window then w.count else 0
  {
    StoreShowsWindow(v, key, window, es);
    hide Play, CountKey;
    ShowsLater(Play(v, es), key, WindowOf(key, window, es), window, LastNow(es), now);
    HitShows(Play(v, es), key, WindowOf(key, window, es), window, now);
  }

  /** A key that is another key with ":timer" behind it is locked out as soon as the other is hit. */
  lemma TimerLocksOut(key: string, window: int, now: int, limit: int)
    requires window > 0 && now > 0 && (now + window) / NANOS >= limit && (now + window) / NANOS < MAX_INT64
    ensures var v := Hit(EMPTY, now, key, window).0;
      Hit(v, now, key + ":timer", window).1 == Some((now + window) / NANOS + 1) && (now + window) / NANOS + 1 > limit
  {
    KeysDiffer(key + ":timer", key);
    KeysDiffer(key, key);
    CountFits((now + window) / NANOS);
  }

  /** A hit on other that opens a window, whose timer is the counter of key. */
  predicate Starts(v: View, now: int, other: string, key: string) {
    key == other + ":timer" && Live(v, CountKey(other), now).None?
  }

  /**
   * On any store, a hit on one key changes what a later hit on another is answered only if it opens a
   * window and the other key is the first with ":timer" behind it; then the answer counts on from the
   * timer for as long as the window is open, and starts at one afterwards.
   */
  lemma OtherKeyHit(v: View, now: int, other: string, window: int, later: int, key: string, window': int)
    requires key != other && window > 0 && 0 < now <= later && (now + window) / NANOS < MAX_INT64
    ensures Hit(Hit(v, now, other, window).0, later, key, window').1 ==
            if !Starts(v, now, other, key) then Hit(v, later, key, window').1
            else if later <= now + window then Some((now + window) / NANOS + 1)
            else Some(1)
  {
    KeysDiffer(key, other);
    KeysDiffer(other, other);
    CountFits((now + window) / NANOS);
    hide CountKey, TimerKey;
  }

  /**
   * A key that is not counted at a time is counted then because of an earlier hit on another key exactly
   * if that hit opened a window that is still open and the key is the other with ":timer" behind it.
   */
  lemma OtherKeyIff(v: View, now: int, other: string, window: int, later: int, key: string, window': int)
    requires key != other && window > 0 && 0 < now <= later && 1 <= (now + window) / NANOS < MAX_INT64
    requires Live(v, CountKey(key), later).None?
    ensures Hit(Hit(v, now, other, window).0, later, key, window').1 != Some(1) <==>
            Starts(v, now, other, key) && later <= now + window
  {
    OtherKeyHit(v, now, other, window, later, key, window');
  }

  /** Asking whether a key is over its limit foretells the next hit. */
  lemma TooManyForetells(v: View, key: string, window: int, es: seq<Event>, now: int, limit: int)
    requires LimiterRun(v, key, window, es)
    requires LastNow(es) <= now && 0 <= now
    ensures (Attempts(Play(v, es), now, key) >= limit) <==>
            var count := Hit(Play(v, es), now, key, window).1; count.Some? && count.value > limit
  {
    CountsItsWindow(v, key, window, es, now);
  }

  // ---- how many calls get through ------------------------------------------------------------------

  /** Whether the last event is a hit on the key that its window lets through. */
  predicate Joins(key: string, window: int, limit: int, es: seq<Event>)
    requires es != []
  {
    HitsOn(es[|es| - 1].act, key) && WindowOf(key, window, es).Open? && WindowOf(key, window, es).count <= limit
  }

  /** How many hits on the key from time a to time b their windows let through. */
  function WindowThrough(key: string, window: int, limit: int, a: int, b: int, es: seq<Event>): nat {
    if es == [] then 0
    else
      WindowThrough(key, window, limit, a, b, es[..|es| - 1]) +
      if a <= es[|es| - 1].now <= b && Joins(key, window, limit, es) then 1 else 0
  }

  /** The answer to the last event, a hit. */
  function Answer(v: View, es: seq<Event>): Option<int>
    requires es != [] && es[|es| - 1].act.Hits?
  {
    var last := es[|es| - 1];
    Hit(Play(v, es[..|es| - 1]), last.now, last.act.key, last.act.window).1
  }

  /** Whether the last event is a hit on the key that the store lets through. */
  predicate LetsThrough(v: View, key: string, limit: int, es: seq<Event>)
    requires es != []
  {
    HitsOn(es[|es| - 1].act, key) && Answer(v, es).Some? && Answer(v, es).value <= limit
  }

  /** How many hits on the key from time a to time b the store lets through. */
  function Through(v: View, key: string, limit: int, a: int, b: int, es: seq<Event>): nat {
    if es == [] then 0
    else
      Through(v, key, limit, a, b, es[..|es| - 1]) +
      if a <= es[|es| - 1].now <= b && LetsThrough(v, key, limit, es) then 1 else 0
  }

  lemma AnswerIsCount(v: View, key: string, window: int, es: seq<Event>)
    requires LimiterRun(v, key, window, es) && es != [] && HitsOn(es[|es| - 1].act, key)
    ensures WindowOf(key, window, es).Open? && Answer(v, es) == Some(WindowOf(key, window, es).count)
  {
    Shorter(v, key, window, es);
    CountsItsWindow(v, key, window, es[..|es| - 1], es[|es| - 1].now);
  }

  /** The store lets through what the windows do. */
  lemma {:induction false} ThroughIsWindow(v: View, key: string, window: int, limit: int, a: int, b: int, es: seq<Event>)
    requires LimiterRun(v, key, window, es)
    ensures Through(v, key, limit, a, b, es) == WindowThrough(key, window, limit, a, b, es)
  {
    hide LimiterRun, Play, WindowOf;
    if es != [] {
      Shorter(v, key, window, es);
      ThroughIsWindow(v, key, window, limit, a, b, es[..|es| - 1]);
      if HitsOn(es[|es| - 1].act, key) {
        AnswerIsCount(v, key, window, es);
      }
    }
  }

  function Min(a: int, b: int): int {
    if a <= b then a else b
  }

  ghost predicate NeverCleared(key: string, es: seq<Event>) {
    forall i :: 0 <= i < |es| ==> es[i].act != Clears(key)
  }

  /** What an interval of one window's length starting at a can have let through, window by window. */
  predicate Bounded(w: Window, window: int, limit: int, a: int, last: int, n: nat) {
    match w
    case Closed => n == 0
    case Open(s, c) =>
      && c >= 1 && s <= last
      && if last < a || s + window < a then n == 0
         else if s <= a then n <= Min(c, limit)
         else if s <= a + window then n <= limit + Min(c, limit)
         else n <= 2 * limit
  }

  lemma BoundedLater(w: Window, window: int, limit: int, a: int, last: int, later: int, n: nat)
    requires Bounded(w, window, limit, a, last, n) && last <= later && limit >= 0
    ensures Bounded(w, window, limit, a, later, n)
  {
  }

  lemma BoundedJoin(w: Window, window: int, limit: int, a: int, now: int, n: nat, m: nat)
    requires window > 0 && limit >= 0
    requires Bounded(w, window, limit, a, now, n)
    requires m == n + if a <= now <= a + window && Join(w, now, window).count <= limit then 1 else 0
    ensures Bounded(Join(w, now, window), window, limit, a, now, m)
  {
  }

  lemma {:induction false} ThroughBounded(key: string, window: int, limit: int, a: int, es: seq<Event>)
    requires window > 0 && limit >= 0 && Forward(es) && NeverCleared(key, es)
    ensures Bounded(WindowOf(key, window, es), window, limit, a, LastNow(es),
                    WindowThrough(key, window, limit, a, a + window, es))
  {
    if es != [] {
      var before, last := es[..|es| - 1], es[|es| - 1];
      assert Forward(before) && NeverCleared(key, before) && LastNow(before) <= last.now;
      ThroughBounded(key, window, limit, a, before);
      var w, n := WindowOf(key, window, before), WindowThrough(key, window, limit, a, a + window, before);
      BoundedLater(w, window, limit, a, LastNow(before), last.now, n);
      if HitsOn(last.act, key) {
        BoundedJoin(w, window, limit, a, last.now, n, WindowThrough(key, window, limit, a, a + window, es));
      }
    }
  }

  /** The last event of es opens a window. */
  predicate OpensWindow(key: string, window: int, es: seq<Event>) {
    es != [] && HitsOn(es[|es| - 1].act, key) && WindowOf(key, window, es) == Open(es[|es| - 1].now, 1)
  }

  lemma {:induction false} OpenedBounded(key: string, window: int, limit: int, k: nat, es: seq<Event>)
    requires window > 0 && limit >= 0 && Forward(es) && NeverCleared(key, es)
    requires 0 < k <= |es| && OpensWindow(key, window, es[..k])
    ensures var s, w := es[k - 1].now, WindowOf(key, window, es);
      var n := WindowThrough(key, window, limit, s, s + window, es);
      && n <= limit
      && w.Open? && w.since <= LastNow(es) && (w.since == s || w.since > s + window) &&
         (w.since == s ==> n <= Min(w.count, limit))
    decreases |es|
  {
    var before, last := es[..|es| - 1], es[|es| - 1];
    assert Forward(before) && NeverCleared(key, before);
    var s := es[k - 1].now;
    if k < |es| {
      assert before[..k] == es[..k];
      OpenedBounded(key, window, limit, k, before);
    } else {
      assert es[..k] == es;
      NoneBefore(key, window, limit, s, before, last);
    }
  }

  /** Nothing has been let through at the moment a window opens. */
  lemma NoneBefore(key: string, window: int, limit: int, s: int, before: seq<Event>, last: Event)
    requires window > 0 && limit >= 0 && Forward(before + [last]) && NeverCleared(key, before + [last])
    requires last.now == s && HitsOn(last.act, key) && WindowOf(key, window, before + [last]) == Open(s, 1)
    ensures WindowThrough(key, window, limit, s, s + window, before) == 0
  {
    var es := before + [last];
    assert es[..|es| - 1] == before;
    assert Forward(before) && NeverCleared(key, before) by {
      assert forall i :: 0 <= i < |before| ==> before[i] == es[i];
    }
    ThroughBounded(key, window, limit, s, before);
    assert Join(WindowOf(key, window, before), s, window) == Open(s, 1);
    CountsFromOne(key, window, before);
    assert LastNow(before) <= s;
  }

  lemma {:induction false} CountsFromOne(key: string, window: int, es: seq<Event>)
    ensures var w := WindowOf(key, window, es); w.Open? ==> w.count >= 1
  {
    if es != [] {
      CountsFromOne(key, window, es[..|es| - 1]);
    }
  }

  /** In any interval of one window's length the store lets at most twice the limit through. */
  lemma AtMostTwice(v: View, key: string, window: int, limit: int, a: int, es: seq<Event>)
    requires LimiterRun(v, key, window, es) && NeverCleared(key, es) && limit >= 0
    ensures Through(v, key, limit, a, a + window, es) <= 2 * limit
  {
    ThroughIsWindow(v, key, window, limit, a, a + window, es);
    ThroughBounded(key, window, limit, a, es);
  }

  /**
   * From a hit that is answered with a count of one, for as long as its window, the store lets at most
   * the limit through, however the run goes on.
   */
  lemma AtMostLimit(v: View, key: string, window: int, limit: int, k: nat, es: seq<Event>)
    requires LimiterRun(v, key, window, es) && NeverCleared(key, es) && limit >= 0
    requires 0 < k <= |es| && HitsOn(es[k - 1].act, key) && Answer(v, es[..k]) == Some(1)
    ensures Through(v, key, limit, es[k - 1].now, es[k - 1].now + window, es) <= limit
  {
    var here := es[..k];
    assert LimiterRun(v, key, window, here);
    AnswerIsCount(v, key, window, here);
    CountsFromOne(key, window, here[..k - 1]);
    assert WindowOf(key, window, here) == Join(WindowOf(key, window, here[..k - 1]), here[k - 1].now, window);
    ThroughIsWindow(v, key, window, limit, es[k - 1].now, es[k - 1].now + window, es);
    OpenedBounded(key, window, limit, k, es);
  }
}
