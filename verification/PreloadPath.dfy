/** Preloading a dotted path: one level after another, each on the rows the level before has filled in. */
module PreloadPath {
  import opened Sequences
  import opened JoinKeys
  import opened PreloadSpec
  import opened PreloadEngine

  /**
   * A group of children is what the relational definition asks for, given the keys of the level's
   * parents: the nested-loop children, for a composite key once per batch that holds it, or the join
   * through the mapping table.
   */
  ghost predicate Faithful(db: Db, schema: Schema, rel: Relation, cond: Cols -> bool, tuples: seq<seq<Value>>,
                           key: seq<Value>, group: seq<Cols>)
  {
    var pass := Passing(schema, rel, cond);
    if rel.kind == Many2Many then
      JoinComparable(db.Table(rel.child), db.Joins(rel.joinTable), rel.fkCols, key) ==>
        var want := LinkedChildren(db.Table(rel.child), db.Joins(rel.joinTable), rel.fkCols, pass, key);
        && multiset(group) == multiset(want)
        && (|rel.fkCols| == 1 || |RefTuples(Mappings(db, rel, tuples))| <= BATCH ==> group == want)
    else
      KeysComparable(db.Table(rel.child), rel.QueryCols(), key) ==>
        group == Repeat(Children(db.Table(rel.child), rel.QueryCols(), pass, key), Copies(rel.QueryCols(), tuples, key))
  }

  /** A relation field holds a group: all of it in a slice field, its first row in a single field. */
  ghost predicate FieldHolds(rels: map<string, Field>, seg: string, isSlice: bool, group: seq<Cols>) {
    if isSlice then seg in rels && rels[seg].Many? && ColsOf(rels[seg].rows) == group
    else if group == [] then seg !in rels
    else seg in rels && rels[seg].One? && rels[seg].row.cols == group[0]
  }

  /** The field holds the row's children, for a level whose parents have the given keys. */
  ghost predicate HoldsChildren(db: Db, schema: Schema, decl: FieldDecl, seg: string, cond: Cols -> bool,
                                tuples: seq<seq<Value>>, row: Row)
    reads row
  {
    var cols := decl.rel.ParentCols();
    if !Keyed(row.cols, cols) then seg !in row.rels
    else
      exists group :: && Faithful(db, schema, decl.rel, cond, tuples, KeyTuple(row.cols, cols), group)
                      && FieldHolds(row.rels, seg, decl.isSlice, group)
  }

  /** The rows the parents' fields hold, in order. */
  ghost function NextRows(kps: seq<KeyedParent>, seg: string): seq<Row>
    reads set kp | kp in kps :: kp.row
  {
    if kps == [] then []
    else NextRows(kps[..|kps| - 1], seg) + KidsAt(kps[|kps| - 1].row.rels, seg)
  }

  /** A level that panics: parents are keyed, and a many-to-many relation has no mapping row for them. */
  predicate LevelPanics(db: Db, rel: Relation, tuples: seq<seq<Value>>) {
    rel.kind == Many2Many && tuples != [] && Mappings(db, rel, tuples) == []
  }

  /** A level that fills nothing: its field does not resolve, or it panics. */
  predicate Blocked(db: Db, schema: Schema, ty: string, seg: string, rows: seq<Row>) {
    (ty, seg) in schema.fields ==>
      var rel := schema.fields[(ty, seg)].rel;
      LevelPanics(db, rel, Vals(KeyedOf(rows, rel.ParentCols())))
  }

  /** How a path ends: at its first blocked level, or when no segment or no row is left. */
  ghost function PathOutcome(db: Db, schema: Schema, ty: string, segs: seq<string>, rows: seq<Row>): Outcome
    reads *
    decreases |segs|
  {
    if segs == [] then Done
    else if (ty, segs[0]) !in schema.fields then Unsupported
    else if Blocked(db, schema, ty, segs[0], rows) then Panicked
    else
      var rel := schema.fields[(ty, segs[0])].rel;
      var next := NextRows(KeyedOf(rows, rel.ParentCols()), segs[0]);
      if next == [] then Done else PathOutcome(db, schema, rel.child, segs[1..], next)
  }

  /**
   * Up to the level where the path ends, all rows of a level, and all rows the path leads to from
   * them, hold what the path asks for; below a blocked level nothing is filled in.
   */
  ghost predicate Loaded(db: Db, schema: Schema, ty: string, segs: seq<string>, cond: Cols -> bool, rows: seq<Row>)
    reads *
    decreases |segs|
  {
    rows != [] && segs != [] && !Blocked(db, schema, ty, segs[0], rows) ==>
      var decl, rest := schema.fields[(ty, segs[0])], segs[1..];
      var kps := KeyedOf(rows, decl.rel.ParentCols());
      var next := NextRows(kps, segs[0]);
      && (forall r :: r in rows ==> HoldsChildren(db, schema, decl, segs[0], cond, Vals(kps), r))
      && Loaded(db, schema, decl.rel.child, rest, Always(), next)
      && (rest == [] || Blocked(db, schema, decl.rel.child, rest[0], next) ==>
            forall k :: k in next ==> k.rels == map[])
  }

  /** Queries of one level: none without keyed parents, else by the batches of one or two hops. */
  function FillCost(db: Db, rel: Relation, tuples: seq<seq<Value>>): nat {
    if tuples == [] then 0
    else if rel.kind == Many2Many then Many2ManyCost(db, rel, tuples)
    else LoadCost(rel.QueryCols(), |tuples|)
  }

  /** Queries of a whole path, level by level as far as it gets. */
  ghost function LevelCost(db: Db, schema: Schema, ty: string, segs: seq<string>, rows: seq<Row>): nat
    reads *
    decreases |segs|
  {
    if rows == [] || segs == [] || (ty, segs[0]) !in schema.fields then 0
    else
      var rel := schema.fields[(ty, segs[0])].rel;
      var kps := KeyedOf(rows, rel.ParentCols());
      FillCost(db, rel, Vals(kps)) +
      if Blocked(db, schema, ty, segs[0], rows) then 0
      else LevelCost(db, schema, rel.child, segs[1..], NextRows(kps, segs[0]))
  }

  predicate Resolves(schema: Schema, ty: string, segs: seq<string>)
    decreases |segs|
  {
    segs == [] ||
    ((ty, segs[0]) in schema.fields && Resolves(schema, schema.fields[(ty, segs[0])].rel.child, segs[1..]))
  }

  predicate AllLevels(schema: Schema, ty: string, segs: seq<string>, ok: Relation -> bool)
    decreases |segs|
  {
    segs != [] && (ty, segs[0]) in schema.fields ==>
      && ok(schema.fields[(ty, segs[0])].rel)
      && AllLevels(schema, schema.fields[(ty, segs[0])].rel.child, segs[1..], ok)
  }

  function Direct(): Relation -> bool {
    (rel: Relation) => rel.kind != Many2Many
  }

  function SingleColumn(): Relation -> bool {
    (rel: Relation) => |rel.QueryCols()| == 1 && (rel.kind == Many2Many ==> |rel.joinFkCols| == 1)
  }

  /** Queries a path may take with single-column keys: one per level, two per many-to-many level. */
  function PathCost(schema: Schema, ty: string, segs: seq<string>): nat
    decreases |segs|
  {
    if segs == [] || (ty, segs[0]) !in schema.fields then 0
    else
      var rel := schema.fields[(ty, segs[0])].rel;
      (if rel.kind == Many2Many then 2 else 1) + PathCost(schema, rel.child, segs[1..])
  }

  /** With single-column keys every level costs at most one query, or two for many-to-many. */
  lemma {:induction false} LevelCostBound(db: Db, schema: Schema, ty: string, segs: seq<string>, rows: seq<Row>)
    requires AllLevels(schema, ty, segs, SingleColumn())
    ensures LevelCost(db, schema, ty, segs, rows) <= PathCost(schema, ty, segs)
    decreases |segs|
  {
    if rows != [] && segs != [] && (ty, segs[0]) in schema.fields {
      var rel := schema.fields[(ty, segs[0])].rel;
      var kps := KeyedOf(rows, rel.ParentCols());
      LevelCostBound(db, schema, rel.child, segs[1..], NextRows(kps, segs[0]));
    }
  }

  lemma DirectIsFaithful(db: Db, schema: Schema, rel: Relation, cond: Cols -> bool, tuples: seq<seq<Value>>,
                         key: seq<Value>)
    requires rel.kind != Many2Many && key in tuples && Null !in key
    ensures Faithful(db, schema, rel, cond, tuples, key, DirectGroup(db, schema, rel, cond, tuples, key))
  {
    var cols := rel.QueryCols();
    if KeysComparable(db.Table(rel.child), cols, key) {
      PreloadRefinesNestedLoop(db.Table(rel.child), cols, tuples, Passing(schema, rel, cond), key);
    }
  }

  lemma Many2ManyIsFaithful(db: Db, schema: Schema, rel: Relation, cond: Cols -> bool, tuples: seq<seq<Value>>,
                            key: seq<Value>)
    requires rel.kind == Many2Many && key in tuples && Null !in key
    ensures Faithful(db, schema, rel, cond, tuples, key, Many2ManyGroup(db, schema, rel, cond, tuples, key))
  {
    if JoinComparable(db.Table(rel.child), db.Joins(rel.joinTable), rel.fkCols, key) {
      Many2ManyIsJoin(db.Table(rel.child), db.Joins(rel.joinTable), rel.fkCols, rel.joinFkCols, tuples,
                      Passing(schema, rel, cond), key);
    }
  }

  lemma KeyedVals(rows: seq<Row>, cols: seq<string>, r: Row)
    requires r in rows && Keyed(r.cols, cols)
    ensures KeyTuple(r.cols, cols) in Vals(KeyedOf(rows, cols)) && Null !in KeyTuple(r.cols, cols)
  {
    KeyedOfElements(rows, cols);
    var kps := KeyedOf(rows, cols);
    var i :| 0 <= i < |kps| && kps[i] == KeyedParent(r, KeyTuple(r.cols, cols));
    assert Vals(kps)[i] == KeyTuple(r.cols, cols);
  }

  /** The relational definition gives the row a child. */
  ghost predicate HasChild(db: Db, schema: Schema, rel: Relation, cond: Cols -> bool, key: seq<Value>) {
    var pass := Passing(schema, rel, cond);
    if rel.kind == Many2Many then
      && JoinComparable(db.Table(rel.child), db.Joins(rel.joinTable), rel.fkCols, key)
      && LinkedChildren(db.Table(rel.child), db.Joins(rel.joinTable), rel.fkCols, pass, key) != []
    else
      && KeysComparable(db.Table(rel.child), rel.QueryCols(), key)
      && Children(db.Table(rel.child), rel.QueryCols(), pass, key) != []
  }

  /** A field that is filled already, by an earlier preload perhaps, is one that will be filled again. */
  ghost predicate Refilled(db: Db, schema: Schema, decl: FieldDecl, seg: string, cond: Cols -> bool, row: Row)
    reads row
  {
    seg in row.rels ==>
      var cols := decl.rel.ParentCols();
      Keyed(row.cols, cols) && (decl.isSlice || HasChild(db, schema, decl.rel, cond, KeyTuple(row.cols, cols)))
  }

  lemma ChildMeansGroup(db: Db, schema: Schema, rel: Relation, cond: Cols -> bool, tuples: seq<seq<Value>>,
                        key: seq<Value>, group: seq<Cols>)
    requires key in tuples && HasChild(db, schema, rel, cond, key) && Faithful(db, schema, rel, cond, tuples, key, group)
    ensures group != []
  {
    hide KeysComparable, JoinComparable, Children, LinkedChildren, Copies, Passing;
    var pass := Passing(schema, rel, cond);
    if rel.kind == Many2Many {
      var want := LinkedChildren(db.Table(rel.child), db.Joins(rel.joinTable), rel.fkCols, pass, key);
      assert |multiset(group)| == |multiset(want)|;
    } else {
      CopiesPositive(rel.QueryCols(), tuples, key);
      RepeatEmpty(Children(db.Table(rel.child), rel.QueryCols(), pass, key), Copies(rel.QueryCols(), tuples, key));
    }
  }

  lemma CopiesPositive(cols: seq<string>, tuples: seq<seq<Value>>, key: seq<Value>)
    requires key in tuples
    ensures Copies(cols, tuples, key) >= 1
  {
    HeldAtLeastOnce(tuples, key);
  }

  /**
   * A level's field is exactly the nested loop when it is single, or when the keys do not straddle
   * batches: so if they are distinct, or few.
   */
  lemma LevelIsExact(db: Db, schema: Schema, decl: FieldDecl, seg: string, cond: Cols -> bool,
                     tuples: seq<seq<Value>>, row: Row)
    requires var rel, key := decl.rel, KeyTuple(row.cols, decl.rel.ParentCols());
      && rel.kind != Many2Many && Keyed(row.cols, rel.ParentCols()) && key in tuples
      && KeysComparable(db.Table(rel.child), rel.QueryCols(), key)
      && (!decl.isSlice || |rel.QueryCols()| == 1 || Distinct(tuples) || |tuples| <= BATCH || !Straddles(tuples, key))
    requires HoldsChildren(db, schema, decl, seg, cond, tuples, row)
    ensures var rel, key := decl.rel, KeyTuple(row.cols, decl.rel.ParentCols());
      FieldHolds(row.rels, seg, decl.isSlice,
                 Children(db.Table(rel.child), rel.QueryCols(), Passing(schema, rel, cond), key))
  {
    var rel, key := decl.rel, KeyTuple(row.cols, decl.rel.ParentCols());
    var want := Children(db.Table(rel.child), rel.QueryCols(), Passing(schema, rel, cond), key);
    PreloadRefinesNestedLoop(db.Table(rel.child), rel.QueryCols(), tuples, Passing(schema, rel, cond), key);
    if Distinct(tuples) || |tuples| <= BATCH {
      NoStraddle(tuples, key);
    }
  }

  /** One level, filled by the engine, then holds what the relational definition asks for. */
  method FillLevel(db: Db, schema: Schema, rows: seq<Row>, seg: string, decl: FieldDecl, cond: Cols -> bool)
    returns (outcome: Outcome, kps: seq<KeyedParent>, ghost pool: set<Row>)
    requires forall r :: r in rows ==> Refilled(db, schema, decl, seg, cond, r)
    modifies (set r | r in rows), db`queries
    ensures kps == KeyedOf(rows, decl.rel.ParentCols())
    ensures outcome == if LevelPanics(db, decl.rel, Vals(kps)) then Panicked else Done
    ensures outcome == Done ==> forall r :: r in rows ==>
              HoldsChildren(db, schema, decl, seg, cond, Vals(kps), r) && forall k :: k in KidsAt(r.rels, seg) ==> k in pool
    ensures outcome == Done ==> forall r :: r in rows ==>
              r.rels == old(r.rels) || (seg in r.rels && r.rels == old(r.rels)[seg := r.rels[seg]])
    ensures outcome == Panicked ==> forall r :: r in rows ==> r.rels == old(r.rels)
    ensures forall r :: r in pool ==> fresh(r) && r.rels == map[]
    ensures db.queries == old(db.queries) + FillCost(db, decl.rel, Vals(kps))
  {
    outcome := Done;
    ghost var before := map r | r in rows :: r.rels;
    var cols := decl.rel.ParentCols();
    ghost var group: seq<Value> -> seq<Cols>;
    if decl.rel.kind == Many2Many {
      outcome, kps, pool := PreloadMany2Many(db, schema, rows, seg, decl, cond);
      group := key => Many2ManyGroup(db, schema, decl.rel, cond, Vals(kps), key);
    } else {
      kps, pool := PreloadDirect(db, schema, rows, seg, decl, cond);
      group := key => DirectGroup(db, schema, decl.rel, cond, Vals(kps), key);
    }
    if outcome == Done {
      forall r | r in rows && Keyed(r.cols, cols)
        ensures HoldsChildren(db, schema, decl, seg, cond, Vals(kps), r)
        ensures forall k :: k in KidsAt(r.rels, seg) ==> k in pool
        ensures r.rels == before[r] || (seg in r.rels && r.rels == before[r][seg := r.rels[seg]])
      {
        KeyedVals(rows, cols, r);
        if decl.rel.kind == Many2Many {
          Many2ManyIsFaithful(db, schema, decl.rel, cond, Vals(kps), KeyTuple(r.cols, cols));
        } else {
          DirectIsFaithful(db, schema, decl.rel, cond, Vals(kps), KeyTuple(r.cols, cols));
        }
        if seg in before[r] && !decl.isSlice {
          ChildMeansGroup(db, schema, decl.rel, cond, Vals(kps), KeyTuple(r.cols, cols), group(KeyTuple(r.cols, cols)));
        }
        FilledHolds(db, schema, r, before[r], seg, decl, cond, Vals(kps), group(KeyTuple(r.cols, cols)), pool);
      }
    }
  }

  lemma FilledHolds(db: Db, schema: Schema, row: Row, before: map<string, Field>, seg: string, decl: FieldDecl,
                    cond: Cols -> bool, tuples: seq<seq<Value>>, group: seq<Cols>, pool: set<Row>)
    requires Keyed(row.cols, decl.rel.ParentCols()) && (seg in before ==> IsSet(decl, group))
    requires Faithful(db, schema, decl.rel, cond, tuples, KeyTuple(row.cols, decl.rel.ParentCols()), group)
    requires Filled(row, before, seg, decl, group, pool)
    ensures HoldsChildren(db, schema, decl, seg, cond, tuples, row)
    ensures forall k :: k in KidsAt(row.rels, seg) ==> k in pool
    ensures row.rels == before || (seg in row.rels && row.rels == before[seg := row.rels[seg]])
  {
    assert FieldHolds(row.rels, seg, decl.isSlice, group);
  }

  /** The rows now held by the parents' fields: the very objects, whether pointers or copies. */
  method CollectNext(kps: seq<KeyedParent>, seg: string) returns (next: seq<Row>)
    ensures next == NextRows(kps, seg)
  {
    next := [];
    for i := 0 to |kps|
      invariant next == NextRows(kps[..i], seg)
    {
      assert kps[..i + 1][..i] == kps[..i];
      next := next + KidsAt(kps[i].row.rels, seg);
    }
    assert kps[..|kps|] == kps;
  }

  lemma {:induction false} NextInPool(kps: seq<KeyedParent>, seg: string, pool: set<Row>)
    requires forall kp, k :: kp in kps && k in KidsAt(kp.row.rels, seg) ==> k in pool
    ensures forall k :: k in NextRows(kps, seg) ==> k in pool
  {
    if kps != [] {
      NextInPool(kps[..|kps| - 1], seg, pool);
    }
  }

  method PreloadLevel(db: Db, schema: Schema, rows: seq<Row>, ty: string, segs: seq<string>, cond: Cols -> bool)
    returns (outcome: Outcome)
    requires segs != []
    requires (ty, segs[0]) in schema.fields ==>
               forall r :: r in rows ==> Refilled(db, schema, schema.fields[(ty, segs[0])], segs[0], cond, r)
    modifies (set r | r in rows), db`queries
    ensures outcome == PathOutcome(db, schema, ty, segs, rows)
    ensures Loaded(db, schema, ty, segs, cond, rows)
    ensures Blocked(db, schema, ty, segs[0], rows) ==> forall r :: r in rows ==> r.rels == old(r.rels)
    ensures db.queries == old(db.queries) + LevelCost(db, schema, ty, segs, rows)
    ensures forall r :: r in rows ==>
              r.rels == old(r.rels) || (segs[0] in r.rels && r.rels == old(r.rels)[segs[0] := r.rels[segs[0]]])
    ensures outcome == Unsupported ==> !Resolves(schema, ty, segs)
    ensures outcome == Panicked ==> !AllLevels(schema, ty, segs, Direct())
    ensures AllLevels(schema, ty, segs, SingleColumn()) ==>
              db.queries <= old(db.queries) + PathCost(schema, ty, segs)
    decreases |segs|, 0
  {
    if (ty, segs[0]) !in schema.fields {
      return Unsupported;
    }
    var seg, decl := segs[0], schema.fields[(ty, segs[0])];
    var kps; ghost var pool;
    outcome, kps, pool := FillLevel(db, schema, rows, seg, decl, cond);
    KeyedOfElements(rows, decl.rel.ParentCols());
    if outcome == Done {
      NextInPool(kps, seg, pool);
      if |segs| > 1 {
        outcome := PreloadNested(db, schema, rows, kps, seg, decl, segs[1..], pool);
      }
    }
    if AllLevels(schema, ty, segs, SingleColumn()) {
      LevelCostBound(db, schema, ty, segs, rows);
    }
  }

  /** The remaining segments, on the rows the filled fields hold. */
  method PreloadNested(db: Db, schema: Schema, rows: seq<Row>, kps: seq<KeyedParent>, seg: string, decl: FieldDecl,
                       rest: seq<string>, ghost pool: set<Row>)
    returns (outcome: Outcome)
    requires rest != []
    requires forall kp :: kp in kps ==> kp.row in rows
    requires forall r, k :: r in rows && k in KidsAt(r.rels, seg) ==> k in pool
    requires forall k :: k in pool ==> k !in rows && k.rels == map[]
    modifies pool, db`queries
    ensures NextRows(kps, seg) == old(NextRows(kps, seg))
    ensures NextRows(kps, seg) == [] ==> outcome == Done
    ensures NextRows(kps, seg) != [] ==>
              outcome == PathOutcome(db, schema, decl.rel.child, rest, NextRows(kps, seg))
    ensures Loaded(db, schema, decl.rel.child, rest, Always(), NextRows(kps, seg))
    ensures Blocked(db, schema, decl.rel.child, rest[0], NextRows(kps, seg)) ==>
              forall k :: k in NextRows(kps, seg) ==> k.rels == map[]
    ensures db.queries == old(db.queries) + LevelCost(db, schema, decl.rel.child, rest, NextRows(kps, seg))
    ensures outcome == Unsupported ==> !Resolves(schema, decl.rel.child, rest)
    ensures outcome == Panicked ==> !AllLevels(schema, decl.rel.child, rest, Direct())
    decreases |rest|, 1
  {
    var next := CollectNext(kps, seg);
    NextInPool(kps, seg, pool);
    if next == [] {
      return Done;
    }
    outcome := PreloadLevel(db, schema, next, decl.rel.child, rest, Always());
  }
}
