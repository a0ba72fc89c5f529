/** The queries the preloader issues, and why regrouping their results is a join. */
module PreloadSpec {
  import opened Sequences
  import opened JoinKeys

  /** Composite key tuples per query. */
  const BATCH: nat := 500

  /** A row of a mapping table, projected to its two key column lists. */
  datatype JoinRow = JoinRow(fk: seq<Value>, ref: seq<Value>)

  /** SQL IN: a key with a NULL component matches nothing. */
  predicate SqlIn(key: seq<Value>, tuples: seq<seq<Value>>) {
    Null !in key && key in tuples
  }

  /** Row conditions: key listed, key equal, joined key equal, joined key among, linked to a parent. */
  function Listed(cols: seq<string>, tuples: seq<seq<Value>>, pass: Cols -> bool): Cols -> bool {
    r => SqlIn(KeyTuple(r, cols), tuples) && pass(r)
  }

  function Owned(cols: seq<string>, key: seq<Value>, pass: Cols -> bool): Cols -> bool {
    r => KeyTuple(r, cols) == key && pass(r)
  }

  function KeyedAs(cols: seq<string>, key: string): Cols -> bool {
    r => JoinKey(KeyTuple(r, cols)) == key
  }

  function KeyedIn(cols: seq<string>, keys: set<string>): Cols -> bool {
    r => JoinKey(KeyTuple(r, cols)) in keys
  }

  function LinkedTo(rows: seq<JoinRow>, cols: seq<string>, parent: seq<Value>, pass: Cols -> bool): Cols -> bool {
    r => Linked(rows, parent, KeyTuple(r, cols)) && pass(r)
  }

  function Mapped(tuples: seq<seq<Value>>): JoinRow -> bool {
    (m: JoinRow) => SqlIn(m.fk, tuples)
  }

  /** One query: the rows whose key is listed and that pass the remaining conditions, in table order. */
  function FindIn(table: seq<Cols>, cols: seq<string>, tuples: seq<seq<Value>>, pass: Cols -> bool): seq<Cols> {
    Filter(table, Listed(cols, tuples, pass))
  }

  function FirstBatch<T>(tuples: seq<T>): seq<T> {
    if |tuples| <= BATCH then tuples else tuples[..BATCH]
  }

  function LaterBatches<T>(tuples: seq<T>): (rest: seq<T>)
    ensures tuples != [] ==> |rest| < |tuples|
    ensures tuples == FirstBatch(tuples) + rest
  {
    if |tuples| <= BATCH then [] else tuples[BATCH..]
  }

  /** Composite keys: one query per batch, results appended in batch order. */
  function FindBatched(table: seq<Cols>, cols: seq<string>, tuples: seq<seq<Value>>, pass: Cols -> bool): seq<Cols>
    decreases |tuples|
  {
    if tuples == [] then []
    else FindIn(table, cols, FirstBatch(tuples), pass) + FindBatched(table, cols, LaterBatches(tuples), pass)
  }

  function Load(table: seq<Cols>, cols: seq<string>, tuples: seq<seq<Value>>, pass: Cols -> bool): seq<Cols> {
    if |cols| == 1 then FindIn(table, cols, tuples, pass) else FindBatched(table, cols, tuples, pass)
  }

  /** Queries a load issues: one per batch. */
  function Batches(tuples: nat): nat {
    if tuples == 0 then 0 else if tuples <= BATCH then 1 else 1 + Batches(tuples - BATCH)
  }

  lemma BatchesIsCeiling(tuples: nat)
    ensures Batches(tuples) == (tuples + 499) / 500
  {
  }

  function LoadCost(cols: seq<string>, tuples: nat): nat {
    if |cols| == 1 then 1 else Batches(tuples)
  }

  /** The tuples from one loop position on; the last step may overshoot the end. */
  function From<T>(tuples: seq<T>, start: nat): seq<T> {
    if start < |tuples| then tuples[start..] else []
  }

  lemma FromStep<T>(tuples: seq<T>, start: nat)
    requires start < |tuples|
    ensures var end := if start + BATCH > |tuples| then |tuples| else start + BATCH;
            && tuples[start..end] == FirstBatch(From(tuples, start))
            && From(tuples, start + BATCH) == LaterBatches(From(tuples, start))
  {
  }

  lemma BatchesStep<T>(tuples: seq<T>, start: nat)
    requires start < |tuples|
    ensures Batches(|From(tuples, start)|) == 1 + Batches(|From(tuples, start + BATCH)|)
  {
  }

  /** One loop round: what the batch finds moves from the rest to what is already loaded. */
  lemma FindBatchedStep(table: seq<Cols>, cols: seq<string>, tuples: seq<seq<Value>>, pass: Cols -> bool, start: nat,
                        loaded: seq<Cols>, found: seq<Cols>)
    requires start < |tuples|
    requires found == FindIn(table, cols, tuples[start..if start + BATCH > |tuples| then |tuples| else start + BATCH],
                              pass)
    ensures loaded + FindBatched(table, cols, From(tuples, start), pass) ==
            loaded + found + FindBatched(table, cols, From(tuples, start + BATCH), pass)
  {
    FromStep(tuples, start);
    assert FindBatched(table, cols, From(tuples, start), pass) ==
           found + FindBatched(table, cols, From(tuples, start + BATCH), pass);
  }

  /** Loaded rows regrouped under one joined key. */
  function Group(loaded: seq<Cols>, cols: seq<string>, key: string): seq<Cols> {
    Filter(loaded, KeyedAs(cols, key))
  }

  /** What one query per parent would return. */
  function Children(table: seq<Cols>, cols: seq<string>, pass: Cols -> bool, key: seq<Value>): seq<Cols> {
    Filter(table, Owned(cols, key, pass))
  }

  /** Every row's key can be compared with the given key. */
  ghost predicate KeysComparable(table: seq<Cols>, cols: seq<string>, key: seq<Value>) {
    forall r :: r in table ==> TuplesComparable(KeyTuple(r, cols), key)
  }

  /** In how many batches a tuple occurs. */
  function BatchesHolding(tuples: seq<seq<Value>>, t: seq<Value>): nat
    decreases |tuples|
  {
    if tuples == [] then 0
    else (if t in FirstBatch(tuples) then 1 else 0) + BatchesHolding(LaterBatches(tuples), t)
  }

  function Copies(cols: seq<string>, tuples: seq<seq<Value>>, t: seq<Value>): nat {
    if |cols| == 1 then (if t in tuples then 1 else 0) else BatchesHolding(tuples, t)
  }

  lemma GroupOfFind(table: seq<Cols>, cols: seq<string>, tuples: seq<seq<Value>>, pass: Cols -> bool, t: seq<Value>)
    requires Null !in t && KeysComparable(table, cols, t)
    ensures Group(FindIn(table, cols, tuples, pass), cols, JoinKey(t)) ==
            if t in tuples then Children(table, cols, pass, t) else []
  {
    var p := Listed(cols, tuples, pass);
    var q := KeyedAs(cols, JoinKey(t));
    FilterTwice(table, p, q);
    forall r | r in table
      ensures q(r) <==> KeyTuple(r, cols) == t
    {
      JoinKeyFaithful(KeyTuple(r, cols), t);
    }
    if t in tuples {
      FilterSame(table, Both(p, q), Owned(cols, t, pass));
    } else {
      FilterNone(table, Both(p, q));
    }
  }

  lemma {:induction false} GroupOfBatches(table: seq<Cols>, cols: seq<string>, tuples: seq<seq<Value>>,
                                          pass: Cols -> bool, t: seq<Value>)
    requires Null !in t && KeysComparable(table, cols, t)
    ensures Group(FindBatched(table, cols, tuples, pass), cols, JoinKey(t)) ==
            Repeat(Children(table, cols, pass, t), BatchesHolding(tuples, t))
    decreases |tuples|
  {
    if tuples != [] {
      GroupOfBatches(table, cols, LaterBatches(tuples), pass, t);
      GroupOfFind(table, cols, FirstBatch(tuples), pass, t);
      FilterConcat(FindIn(table, cols, FirstBatch(tuples), pass), FindBatched(table, cols, LaterBatches(tuples), pass),
                   KeyedAs(cols, JoinKey(t)));
    }
  }

  lemma {:induction false} HeldAtLeastOnce(tuples: seq<seq<Value>>, t: seq<Value>)
    ensures BatchesHolding(tuples, t) >= 1 <==> t in tuples
    decreases |tuples|
  {
    if tuples != [] {
      HeldAtLeastOnce(LaterBatches(tuples), t);
      assert t in tuples <==> t in FirstBatch(tuples) || t in LaterBatches(tuples);
    }
  }

  /** A tuple occurs at two positions that different batches cover. */
  ghost predicate Straddles(tuples: seq<seq<Value>>, t: seq<Value>) {
    exists i, j :: 0 <= i < j < |tuples| && tuples[i] == tuples[j] == t && i / BATCH != j / BATCH
  }

  lemma BatchShift(i: nat)
    ensures (i + BATCH) / BATCH == i / BATCH + 1
  {
  }

  lemma StraddlesRest(tuples: seq<seq<Value>>, t: seq<Value>)
    requires |tuples| > BATCH && t !in FirstBatch(tuples)
    ensures Straddles(tuples, t) <==> Straddles(LaterBatches(tuples), t)
  {
    var rest := LaterBatches(tuples);
    if Straddles(rest, t) {
      var i, j :| 0 <= i < j < |rest| && rest[i] == rest[j] == t && i / BATCH != j / BATCH;
      BatchShift(i);
      BatchShift(j);
      assert tuples[i + BATCH] == tuples[j + BATCH] == t;
    }
    if Straddles(tuples, t) {
      var i, j :| 0 <= i < j < |tuples| && tuples[i] == tuples[j] == t && i / BATCH != j / BATCH;
      assert tuples[i] == (FirstBatch(tuples) + rest)[i];
      assert i >= BATCH;
      BatchShift(i - BATCH);
      BatchShift(j - BATCH);
      assert rest[i - BATCH] == rest[j - BATCH] == t;
    }
  }

  lemma StraddlesBoth(tuples: seq<seq<Value>>, t: seq<Value>)
    requires t in FirstBatch(tuples) && t in LaterBatches(tuples)
    ensures Straddles(tuples, t)
  {
    var first, rest := FirstBatch(tuples), LaterBatches(tuples);
    var i :| 0 <= i < |first| && first[i] == t;
    var k :| 0 <= k < |rest| && rest[k] == t;
    assert tuples[i] == tuples[k + BATCH] == t && i / BATCH == 0 && (k + BATCH) / BATCH >= 1;
  }

  lemma StraddlesNeither(tuples: seq<seq<Value>>, t: seq<Value>)
    requires t !in LaterBatches(tuples)
    ensures !Straddles(tuples, t)
  {
    var first, rest := FirstBatch(tuples), LaterBatches(tuples);
    forall i | 0 <= i < |tuples| && tuples[i] == t
      ensures i / BATCH == 0
    {
      assert tuples[i] == (first + rest)[i];
      assert i < |first|;
    }
  }

  lemma {:induction false} HeldOnceIff(tuples: seq<seq<Value>>, t: seq<Value>)
    requires t in tuples
    ensures BatchesHolding(tuples, t) == 1 <==> !Straddles(tuples, t)
    decreases |tuples|
  {
    var first, rest := FirstBatch(tuples), LaterBatches(tuples);
    HeldAtLeastOnce(rest, t);
    if t !in rest {
      StraddlesNeither(tuples, t);
    } else if t in first {
      StraddlesBoth(tuples, t);
    } else {
      HeldOnceIff(rest, t);
      StraddlesRest(tuples, t);
    }
  }

  /**
   * has-many, has-one and belongs-to: what a keyed parent is given is its nested-loop children
   * repeated once per batch its tuple occurs in. It is exactly the nested loop when no composite
   * tuple straddles two batches, and its first row is right in any case.
   */
  lemma PreloadRefinesNestedLoop(table: seq<Cols>, cols: seq<string>, tuples: seq<seq<Value>>,
                                 pass: Cols -> bool, t: seq<Value>)
    requires t in tuples && Null !in t && KeysComparable(table, cols, t)
    ensures var group := Group(Load(table, cols, tuples, pass), cols, JoinKey(t));
            var want := Children(table, cols, pass, t);
            && group == Repeat(want, Copies(cols, tuples, t))
            && Copies(cols, tuples, t) >= 1
            && (group == want <==> want == [] || |cols| == 1 || !Straddles(tuples, t))
            && (group == [] <==> want == [])
            && (want != [] ==> group[0] == want[0])
  {
    var want := Children(table, cols, pass, t);
    if |cols| == 1 {
      GroupOfFind(table, cols, tuples, pass, t);
      assert Repeat(want, 1) == want + Repeat(want, 0);
    } else {
      GroupOfBatches(table, cols, tuples, pass, t);
      HeldAtLeastOnce(tuples, t);
      HeldOnceIff(tuples, t);
      RepeatIsOnce(want, BatchesHolding(tuples, t));
    }
  }

  /** Distinct tuples, or at most one batch of them, never straddle. */
  lemma NoStraddle(tuples: seq<seq<Value>>, t: seq<Value>)
    requires Distinct(tuples) || |tuples| <= BATCH
    ensures !Straddles(tuples, t)
  {
    forall i, j | 0 <= i <= j < |tuples| && tuples[i] == tuples[j] ensures i / BATCH == j / BATCH {
      assert i == j || |tuples| <= BATCH;
    }
  }

  /** 501 parents sharing the composite key (1, 2) are each given its only child twice. */
  lemma DuplicateAcrossBatches(row: Cols, cols: seq<string>, tuples: seq<seq<Value>>, pass: Cols -> bool)
    requires row == map["a" := IntV(1), "b" := IntV(2)] && cols == ["a", "b"] && pass(row)
    requires |tuples| == 501 && forall i :: 0 <= i < |tuples| ==> tuples[i] == [IntV(1), IntV(2)]
    ensures Children([row], cols, pass, tuples[0]) == [row]
    ensures Group(FindBatched([row], cols, tuples, pass), cols, JoinKey(tuples[0])) == [row, row]
  {
    var t := tuples[0];
    assert KeyTuple(row, cols) == t;
    SmallKeyComparable(t);
    OneOverBatch(tuples, t);
    GroupOfBatches([row], cols, tuples, pass, t);
    OnlyChild(row, cols, pass, t);
    assert Repeat([row], 2) == [row] + ([row] + Repeat([row], 0));
  }

  lemma SmallKeyComparable(t: seq<Value>)
    requires t == [IntV(1), IntV(2)]
    ensures TuplesComparable(t, t)
  {
    assert Render(t[0]) == "1" && Render(t[1]) == "2";
  }

  lemma OnlyChild(row: Cols, cols: seq<string>, pass: Cols -> bool, t: seq<Value>)
    requires KeyTuple(row, cols) == t && pass(row)
    ensures Children([row], cols, pass, t) == [row]
  {
    FilterSnoc([], row, Owned(cols, t, pass));
    assert [] + [row] == [row];
  }

  lemma OneOverBatch(tuples: seq<seq<Value>>, t: seq<Value>)
    requires |tuples| == BATCH + 1 && forall i :: 0 <= i < |tuples| ==> tuples[i] == t
    ensures t in tuples && BatchesHolding(tuples, t) == 2
  {
    assert FirstBatch(tuples)[0] == t && LaterBatches(tuples) == [t];
    assert FirstBatch([t]) == [t] && LaterBatches([t]) == [];
    assert BatchesHolding([t], t) == 1 + BatchesHolding([], t);
  }

  // ---- many-to-many ----------------------------------------------------------------------------

  /** First hop: the mapping rows of the given parents. */
  function FindJoin(rows: seq<JoinRow>, tuples: seq<seq<Value>>): seq<JoinRow> {
    Filter(rows, Mapped(tuples))
  }

  function FindJoinBatched(rows: seq<JoinRow>, tuples: seq<seq<Value>>): seq<JoinRow>
    decreases |tuples|
  {
    if tuples == [] then []
    else FindJoin(rows, FirstBatch(tuples)) + FindJoinBatched(rows, LaterBatches(tuples))
  }

  function LoadMappings(rows: seq<JoinRow>, cols: seq<string>, tuples: seq<seq<Value>>): seq<JoinRow> {
    if |cols| == 1 then FindJoin(rows, tuples) else FindJoinBatched(rows, tuples)
  }

  lemma FindJoinStep(rows: seq<JoinRow>, tuples: seq<seq<Value>>, start: nat, loaded: seq<JoinRow>, found: seq<JoinRow>)
    requires start < |tuples|
    requires found == FindJoin(rows, tuples[start..if start + BATCH > |tuples| then |tuples| else start + BATCH])
    ensures loaded + FindJoinBatched(rows, From(tuples, start)) ==
            loaded + found + FindJoinBatched(rows, From(tuples, start + BATCH))
  {
    FromStep(tuples, start);
    assert FindJoinBatched(rows, From(tuples, start)) == found + FindJoinBatched(rows, From(tuples, start + BATCH));
  }

  lemma {:induction false} MappingsLoaded(rows: seq<JoinRow>, tuples: seq<seq<Value>>, m: JoinRow)
    ensures m in FindJoinBatched(rows, tuples) <==> m in rows && SqlIn(m.fk, tuples)
    ensures m in FindJoin(rows, tuples) <==> m in rows && SqlIn(m.fk, tuples)
    decreases |tuples|
  {
    FilterElements(rows, Mapped(tuples));
    if tuples != [] {
      MappingsLoaded(rows, LaterBatches(tuples), m);
      FilterElements(rows, Mapped(FirstBatch(tuples)));
      assert SqlIn(m.fk, tuples) <==> SqlIn(m.fk, FirstBatch(tuples)) || SqlIn(m.fk, LaterBatches(tuples));
    }
  }

  /** The referenced keys of the mapping rows, first occurrence of each joined key only. */
  function RefTuples(mappings: seq<JoinRow>): seq<seq<Value>> {
    if mappings == [] then []
    else
      var before, m := RefTuples(mappings[..|mappings| - 1]), mappings[|mappings| - 1];
      if JoinKey(m.ref) in RefKeys(mappings[..|mappings| - 1]) then before else before + [m.ref]
  }

  function RefKeys(mappings: seq<JoinRow>): set<string> {
    set m | m in mappings :: JoinKey(m.ref)
  }

  /** The referenced keys mapped to one parent key. */
  function RefsOf(mappings: seq<JoinRow>, key: string): set<string> {
    set m | m in mappings && JoinKey(m.fk) == key :: JoinKey(m.ref)
  }

  function LinkedGroup(loaded: seq<Cols>, cols: seq<string>, refs: set<string>): seq<Cols> {
    Filter(loaded, KeyedIn(cols, refs))
  }

  /** Some mapping row links the two keys. */
  predicate Linked(rows: seq<JoinRow>, parent: seq<Value>, child: seq<Value>) {
    Null !in child && JoinRow(parent, child) in rows
  }

  /** The relational join through the mapping table, for one parent. */
  function LinkedChildren(table: seq<Cols>, rows: seq<JoinRow>, cols: seq<string>, pass: Cols -> bool,
                          parent: seq<Value>): seq<Cols> {
    Filter(table, LinkedTo(rows, cols, parent, pass))
  }

  /** All keys of both hops can be compared as strings. */
  ghost predicate JoinComparable(table: seq<Cols>, rows: seq<JoinRow>, cols: seq<string>, parent: seq<Value>) {
    && (forall m :: m in rows ==> TuplesComparable(m.fk, parent))
    && (forall m, r :: m in rows && r in table ==> TuplesComparable(m.ref, KeyTuple(r, cols)))
    && RefsComparable(rows)
  }

  ghost predicate RefsComparable(rows: seq<JoinRow>) {
    forall m, n :: m in rows && n in rows ==> TuplesComparable(m.ref, n.ref)
  }

  lemma {:induction false} RefTuplesDistinct(mappings: seq<JoinRow>)
    ensures Distinct(RefTuples(mappings))
    ensures var ts := RefTuples(mappings); forall i, j :: 0 <= i < j < |ts| ==> JoinKey(ts[i]) != JoinKey(ts[j])
    ensures forall t :: t in RefTuples(mappings) ==> JoinKey(t) in RefKeys(mappings)
  {
    hide JoinKey;
    if mappings != [] {
      var before, last := mappings[..|mappings| - 1], mappings[|mappings| - 1];
      RefTuplesDistinct(before);
      assert mappings == before + [last];
      assert RefKeys(mappings) == RefKeys(before) + {JoinKey(last.ref)};
      var earlier, ts := RefTuples(before), RefTuples(mappings);
      forall i, j | 0 <= i < j < |ts| ensures JoinKey(ts[i]) != JoinKey(ts[j]) {
        assert ts[i] == earlier[i] && earlier[i] in earlier;
      }
    }
  }

  lemma {:induction false} RefTuplesCover(mappings: seq<JoinRow>, m: JoinRow)
    requires RefsComparable(mappings) && m in mappings
    ensures m.ref in RefTuples(mappings)
  {
    var before, last := mappings[..|mappings| - 1], mappings[|mappings| - 1];
    assert mappings == before + [last];
    if m in before {
      RefTuplesCover(before, m);
    } else if JoinKey(last.ref) in RefKeys(before) {
      var n :| n in before && JoinKey(n.ref) == JoinKey(last.ref);
      JoinKeyFaithful(n.ref, last.ref);
      RefTuplesCover(before, n);
    }
  }

  lemma LinkedThroughKeys(table: seq<Cols>, rows: seq<JoinRow>, cols: seq<string>, ms: seq<JoinRow>,
                          tuples: seq<seq<Value>>, parent: seq<Value>, r: Cols)
    requires parent in tuples && Null !in parent && r in table && JoinComparable(table, rows, cols, parent)
    requires forall m :: m in ms <==> m in rows && SqlIn(m.fk, tuples)
    ensures SqlIn(KeyTuple(r, cols), RefTuples(ms)) && JoinKey(KeyTuple(r, cols)) in RefsOf(ms, JoinKey(parent)) <==>
            Linked(rows, parent, KeyTuple(r, cols))
  {
    var k := KeyTuple(r, cols);
    if Null !in k && JoinKey(k) in RefsOf(ms, JoinKey(parent)) {
      var m :| m in ms && JoinKey(m.fk) == JoinKey(parent) && JoinKey(m.ref) == JoinKey(k);
      JoinKeyFaithful(m.fk, parent);
      JoinKeyFaithful(m.ref, k);
      assert m == JoinRow(parent, k);
      RefTuplesCover(ms, m);
    }
    if Linked(rows, parent, k) {
      var m := JoinRow(parent, k);
      assert m in ms && m.ref == k;
      RefTuplesCover(ms, m);
    }
  }

  lemma LinkedOfFind(table: seq<Cols>, rows: seq<JoinRow>, cols: seq<string>, ms: seq<JoinRow>, tuples: seq<seq<Value>>,
                     pass: Cols -> bool, parent: seq<Value>)
    requires parent in tuples && Null !in parent && JoinComparable(table, rows, cols, parent)
    requires forall m :: m in ms <==> m in rows && SqlIn(m.fk, tuples)
    ensures LinkedGroup(FindIn(table, cols, RefTuples(ms), pass), cols, RefsOf(ms, JoinKey(parent))) ==
            LinkedChildren(table, rows, cols, pass, parent)
  {
    var refs := RefsOf(ms, JoinKey(parent));
    var p := Listed(cols, RefTuples(ms), pass);
    var q := KeyedIn(cols, refs);
    FilterTwice(table, p, q);
    forall r | r in table
      ensures p(r) && q(r) <==> Linked(rows, parent, KeyTuple(r, cols)) && pass(r)
    {
      LinkedThroughKeys(table, rows, cols, ms, tuples, parent, r);
    }
    FilterSame(table, Both(p, q), LinkedTo(rows, cols, parent, pass));
  }

  /** Distinct tuples: batching only reorders. */
  lemma {:induction false} BatchesPermute(table: seq<Cols>, cols: seq<string>, tuples: seq<seq<Value>>, pass: Cols -> bool)
    requires Distinct(tuples)
    ensures multiset(FindBatched(table, cols, tuples, pass)) == multiset(FindIn(table, cols, tuples, pass))
    ensures 0 < |tuples| <= BATCH ==> FindBatched(table, cols, tuples, pass) == FindIn(table, cols, tuples, pass)
    decreases |tuples|
  {
    if tuples == [] {
      FilterNone(table, Listed(cols, tuples, pass));
    } else {
      var first, rest := FirstBatch(tuples), LaterBatches(tuples);
      assert forall k :: 0 <= k < |rest| ==> tuples[k + |first|] == rest[k];
      assert forall k :: 0 <= k < |first| ==> tuples[k] == first[k];
      BatchesPermute(table, cols, rest, pass);
      var p := Listed(cols, first, pass);
      var q := Listed(cols, rest, pass);
      FilterSplit(table, p, q);
      FilterSame(table, Either(p, q), Listed(cols, tuples, pass));
    }
  }

  /**
   * many-to-many: a keyed parent is given exactly the children some mapping row links to it,
   * none twice for a repeated mapping row; in table order unless composite child keys need
   * several batches, and then still the same rows.
   */
  lemma Many2ManyIsJoin(table: seq<Cols>, rows: seq<JoinRow>, cols: seq<string>, joinCols: seq<string>,
                        tuples: seq<seq<Value>>, pass: Cols -> bool, parent: seq<Value>)
    requires parent in tuples && Null !in parent && JoinComparable(table, rows, cols, parent)
    ensures var ms := LoadMappings(rows, joinCols, tuples);
            var group := LinkedGroup(Load(table, cols, RefTuples(ms), pass), cols, RefsOf(ms, JoinKey(parent)));
            var want := LinkedChildren(table, rows, cols, pass, parent);
            && multiset(group) == multiset(want)
            && (|cols| == 1 || |RefTuples(ms)| <= BATCH ==> group == want)
  {
    var ms := LoadMappings(rows, joinCols, tuples);
    forall m
      ensures m in ms <==> m in rows && SqlIn(m.fk, tuples)
    {
      MappingsLoaded(rows, tuples, m);
    }
    RefTuplesDistinct(ms);
    LinkedOfFind(table, rows, cols, ms, tuples, pass, parent);
    if |cols| != 1 {
      BatchesPermute(table, cols, RefTuples(ms), pass);
      if RefTuples(ms) == [] {
        assert FindIn(table, cols, RefTuples(ms), pass) == [] by {
          assert multiset(FindIn(table, cols, RefTuples(ms), pass)) == multiset{};
          assert |multiset(FindIn(table, cols, RefTuples(ms), pass))| == 0;
        }
      }
      FilterMultiset(FindBatched(table, cols, RefTuples(ms), pass), FindIn(table, cols, RefTuples(ms), pass),
                     KeyedIn(cols, RefsOf(ms, JoinKey(parent))));
    }
  }
}
