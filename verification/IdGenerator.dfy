/** The generator behind the IDs: a clock that never goes back and a sequence within each tick. */
module IdGenerator {
  import opened IdCodec
  import opened Machine
  import opened Sequences

  datatype State = State(lastMs: int, number: nat)

  /** What a call reads: the clock, and a random 30-bit number should it need one. */
  datatype Reading = Reading(now: int, rand: nat)

  const START := State(0, 0)

  predicate IsReading(x: Reading) {
    InInt64(x.now) && x.rand < LIMIT_SEQ
  }

  predicate IsState(s: State) {
    InInt64(s.lastMs) && s.number < LIMIT_SEQ
  }

  /** The sequence runs out: same tick or clock set back, and no number left. */
  predicate Wraps(s: State, x: Reading) {
    x.now <= s.lastMs && (s.number + 1) % LIMIT_SEQ == 0
  }

  function Next(s: State, x: Reading): State {
    if x.now > s.lastMs then State(x.now, x.rand)
    else if Wraps(s, x) then State(Wrap64(s.lastMs + 1), x.rand)
    else State(s.lastMs, (s.number + 1) % LIMIT_SEQ)
  }

  /** The low 50 bits of the clock and the sequence. */
  function IdOf(s: State): string {
    Encode(s.lastMs % LIMIT_MS, s.number)
  }

  /** The generator; calls take the lock one after the other, so a run is a sequence of calls. */
  class Generator {
    var lastMs: int
    var number: nat

    ghost predicate Valid()
      reads this
    {
      IsState(State(lastMs, number))
    }

    constructor ()
      ensures Valid() && State(lastMs, number) == START
    {
      lastMs, number := 0, 0;
    }

    method New(now: int, rand: nat) returns (id: string)
      requires Valid() && IsReading(Reading(now, rand))
      modifies this
      ensures Valid()
      ensures State(lastMs, number) == Next(old(State(lastMs, number)), Reading(now, rand))
      ensures id == IdOf(State(lastMs, number))
      ensures id[10..] == Digits(if now > old(lastMs) || old(number) == 0x3FFF_FFFF then rand else old(number) + 1, 6)
      ensures lastMs == if now > old(lastMs) then now
                        else if old(number) == 0x3FFF_FFFF then Wrap64(old(lastMs) + 1) else old(lastMs)
    {
      hide Encode, Digits;
      if now > lastMs {
        lastMs := now;
        number := rand;
      } else {
        number := (number + 1) % LIMIT_SEQ;
        if number == 0 {
          lastMs := Wrap64(lastMs + 1);
          number := rand;
        }
      }
      id := EncodeBytes(lastMs % LIMIT_MS, number);
      EndsInNumber(State(lastMs, number));
    }
  }

  // ---- runs ----------------------------------------------------------------------------------------

  /** The state after the first k calls. */
  function After(xs: seq<Reading>, k: nat): State
    requires k <= |xs|
  {
    if k == 0 then START else Next(After(xs, k - 1), xs[k - 1])
  }

  /** The ID of call k. */
  function IdAt(xs: seq<Reading>, k: nat): string
    requires k < |xs|
  {
    IdOf(After(xs, k + 1))
  }

  /** How often the sequence ran out in the first k calls. */
  function Overflows(xs: seq<Reading>, k: nat): nat
    requires k <= |xs|
  {
    if k == 0 then 0
    else Overflows(xs, k - 1) + if Wraps(After(xs, k - 1), xs[k - 1]) then 1 else 0
  }

  function Latest(xs: seq<Reading>, k: nat): int
    requires k <= |xs|
  {
    if k == 0 then 0 else if xs[k - 1].now > Latest(xs, k - 1) then xs[k - 1].now else Latest(xs, k - 1)
  }

  ghost predicate IsRun(xs: seq<Reading>) {
    forall k :: 0 <= k < |xs| ==> IsReading(xs[k])
  }

  /** The virtual clock has stayed below 2^50. */
  ghost predicate Low(xs: seq<Reading>) {
    forall k :: 0 <= k <= |xs| ==> After(xs, k).lastMs < LIMIT_MS
  }

  lemma {:induction false} StatesValid(xs: seq<Reading>, k: nat)
    requires IsRun(xs) && k <= |xs|
    ensures IsState(After(xs, k))
  {
    if k > 0 {
      StatesValid(xs, k - 1);
    }
  }

  /** Later in a run, the pair of clock and sequence is larger. */
  predicate Later(s: State, t: State) {
    s.lastMs < t.lastMs || (s.lastMs == t.lastMs && s.number < t.number)
  }

  lemma {:induction false} RunsForward(xs: seq<Reading>, j: nat, k: nat)
    requires IsRun(xs) && Low(xs) && j < k <= |xs|
    ensures Later(After(xs, j), After(xs, k)) && 0 <= After(xs, j).lastMs
    decreases k
  {
    StatesValid(xs, k - 1);
    if j < k - 1 {
      RunsForward(xs, j, k - 1);
    } else if j > 0 {
      RunsForward(xs, j - 1, j);
    }
  }

  /**
   * The clock is at least every reading so far, and above the largest of 0 and the readings by at
   * most the number of overflows.
   */
  lemma {:induction false} ClockBounds(xs: seq<Reading>, k: nat)
    requires IsRun(xs) && Low(xs) && k <= |xs|
    ensures 0 <= Latest(xs, k) <= After(xs, k).lastMs <= Latest(xs, k) + Overflows(xs, k)
    ensures forall j :: 0 <= j < k ==> xs[j].now <= Latest(xs, k)
    ensures Latest(xs, k) == 0 || exists j :: 0 <= j < k && xs[j].now == Latest(xs, k)
  {
    if k > 0 {
      ClockBounds(xs, k - 1);
      assert xs[k - 1].now == Latest(xs, k) || Latest(xs, k) == Latest(xs, k - 1);
    }
  }

  /**
   * What the order of two IDs is in general: the clock enters by its low 50 bits only. Once the clock
   * passes a multiple of 2^50 an ID can come before the ones given out earlier.
   */
  lemma OrderIff(s: State, t: State)
    requires IsState(s) && IsState(t)
    ensures Less(IdOf(s), IdOf(t)) <==>
            Later(s.(lastMs := s.lastMs % LIMIT_MS), t.(lastMs := t.lastMs % LIMIT_MS))
  {
    hide Encode, Less;
    EncodeOrder(s.lastMs % LIMIT_MS, s.number, t.lastMs % LIMIT_MS, t.number);
  }

  /** In call order IDs increase strictly as strings, whatever the clock does. */
  lemma IdsIncrease(xs: seq<Reading>, j: nat, k: nat)
    requires IsRun(xs) && Low(xs) && j < k < |xs|
    ensures Less(IdAt(xs, j), IdAt(xs, k)) && IdAt(xs, j) != IdAt(xs, k)
  {
    hide IdOf, Less, After;
    var s, t := After(xs, j + 1), After(xs, k + 1);
    RunsForward(xs, j + 1, k + 1);
    StatesValid(xs, j + 1);
    StatesValid(xs, k + 1);
    OrderIff(s, t);
    OrderIff(s, s);
  }

  /** Any decoration of an ID parses to the clock of its call, which the readings bound. */
  lemma ParseGivesClock(xs: seq<Reading>, k: nat, v: string, lower: char -> char)
    requires IsRun(xs) && Low(xs) && k < |xs| && Decorates(v, IdAt(xs, k), lower) && IsFold(lower)
    ensures Parsed(v, lower) == Ok(After(xs, k + 1).lastMs)
    ensures forall j :: 0 <= j <= k ==> xs[j].now <= Parsed(v, lower).value
    ensures Parsed(v, lower).value <= Latest(xs, k + 1) + Overflows(xs, k + 1)
  {
    hide Encode, Decorates, Parsed, After, Latest, Overflows;
    ClockBounds(xs, k + 1);
    StatesValid(xs, k + 1);
    ParseUndoesEncode(v, After(xs, k + 1).lastMs, After(xs, k + 1).number, lower);
  }

  /** Call k starts the sequence anew: its reading is past the clock, or the sequence has run out. */
  predicate Opens(xs: seq<Reading>, k: nat)
    requires k < |xs|
  {
    xs[k].now > After(xs, k).lastMs || After(xs, k).number == 0x3FFF_FFFF
  }

  /**
   * From a call that starts the sequence anew, as long as no other does, the clock stays and the IDs end in
   * the digits of that call's random number and of the numbers that follow it.
   */
  lemma {:induction false} CountsFromRandom(xs: seq<Reading>, j: nat, k: nat)
    requires IsRun(xs) && j <= k < |xs| && Opens(xs, j) && forall i :: j < i <= k ==> !Opens(xs, i)
    ensures IdAt(xs, k)[10..] == Digits(xs[j].rand + (k - j), 6) && xs[j].rand + (k - j) < LIMIT_SEQ
    ensures After(xs, k + 1).lastMs == After(xs, j + 1).lastMs
    ensures xs[j].now > After(xs, j).lastMs ==> After(xs, k + 1).lastMs == xs[j].now
  {
    hide Encode, Digits;
    CountsOn(xs, j, k);
    EndsInNumber(After(xs, k + 1));
  }

  lemma EndsInNumber(s: State)
    ensures IdOf(s)[10..] == Digits(s.number, 6) && IdOf(s)[..10] == Digits(s.lastMs % LIMIT_MS, 10)
  {
  }

  lemma {:induction false} CountsOn(xs: seq<Reading>, j: nat, k: nat)
    requires IsRun(xs) && j <= k < |xs| && Opens(xs, j) && forall i :: j < i <= k ==> !Opens(xs, i)
    ensures After(xs, k + 1).number == xs[j].rand + (k - j) < LIMIT_SEQ
    ensures After(xs, k + 1).lastMs == After(xs, j + 1).lastMs
    ensures xs[j].now > After(xs, j).lastMs ==> After(xs, k + 1).lastMs == xs[j].now
    decreases k
  {
    StatesValid(xs, k);
    if k > j {
      CountsOn(xs, j, k - 1);
      assert !Opens(xs, k);
    }
  }

  /**
   * Two generators, as in two processes: calls that start the sequence anew in the same tick give the same
   * ID exactly if they drew the same random number.
   */
  lemma FreshIdsDiffer(xs: seq<Reading>, j: nat, ys: seq<Reading>, k: nat)
    requires IsRun(xs) && IsRun(ys) && j < |xs| && k < |ys| && Opens(xs, j) && Opens(ys, k)
    requires After(xs, j + 1).lastMs == After(ys, k + 1).lastMs
    ensures IdAt(xs, j) == IdAt(ys, k) <==> xs[j].rand == ys[k].rand
  {
    CountsFromRandom(xs, j, j);
    CountsFromRandom(ys, k, k);
    hide Digits, Encode, After, Opens;
    EndsInNumber(After(xs, j + 1));
    EndsInNumber(After(ys, k + 1));
    Widths();
    DigitsOrder(xs[j].rand, ys[k].rand, 6);
    var a, b := IdAt(xs, j), IdAt(ys, k);
    assert a == a[..10] + a[10..] && b == b[..10] + b[10..];
  }

  lemma OrderLost()
    ensures var xs := [Reading(LIMIT_MS - 1, 0), Reading(LIMIT_MS, 0)];
      IsRun(xs) && Less(IdAt(xs, 1), IdAt(xs, 0))
  {
    hide Less, IdOf;
    var xs := [Reading(LIMIT_MS - 1, 0), Reading(LIMIT_MS, 0)];
    assert InInt64(LIMIT_MS - 1) && InInt64(LIMIT_MS) && IsReading(xs[0]) && IsReading(xs[1]);
    assert After(xs, 1) == State(LIMIT_MS - 1, 0) && After(xs, 2) == State(LIMIT_MS, 0);
    OrderIff(After(xs, 2), After(xs, 1));
  }
}
