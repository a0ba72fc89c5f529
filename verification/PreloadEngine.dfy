/** The relation preloader: batched queries whose rows are written into the caller's own row objects. */
module PreloadEngine {
  import opened Sequences
  import opened JoinKeys
  import opened PreloadSpec

  /** A model instance: its column values, and the relation fields filled so far. */
  class Row {
    const cols: Cols
    var rels: map<string, Field>

    constructor (cols: Cols)
      ensures this.cols == cols && rels == map[]
    {
      this.cols := cols;
      rels := map[];
    }
  }

  /** A filled relation field; an absent one is still the zero value. */
  datatype Field = One(row: Row) | Many(rows: seq<Row>)

  function Kids(f: Field): seq<Row> {
    match f
    case One(r) => [r]
    case Many(rs) => rs
  }

  function KidsAt(rels: map<string, Field>, seg: string): seq<Row> {
    if seg in rels then Kids(rels[seg]) else []
  }

  function ColsOf(rows: seq<Row>): seq<Cols> {
    seq(|rows|, i requires 0 <= i < |rows| => rows[i].cols)
  }

  lemma ColsOfConcat(a: seq<Row>, b: seq<Row>)
    ensures ColsOf(a + b) == ColsOf(a) + ColsOf(b)
  {
  }

  /** How rows of a model are recognised as alive: no column, integer column 0, or time column NULL. */
  datatype SoftDelete = Unmanaged | ZeroAlive(column: string) | NullAlive(column: string)

  datatype Kind = HasMany | HasOne | BelongsTo | Many2Many

  datatype Relation = Relation(kind: Kind, child: string, fkCols: seq<string>, refCols: seq<string>,
                               joinTable: string, joinFkCols: seq<string>, joinRefCols: seq<string>,
                               poly: Option<(string, Value)>)
  {
    function ParentCols(): seq<string> {
      if kind == BelongsTo then fkCols else refCols
    }

    function QueryCols(): seq<string> {
      if kind == BelongsTo then refCols else fkCols
    }
  }

  /** A relation field of a model: its resolved relation, and whether it is a slice and holds pointers. */
  datatype FieldDecl = FieldDecl(rel: Relation, isSlice: bool, byPointer: bool)

  datatype Schema = Schema(fields: map<(string, string), FieldDecl>, softDelete: map<string, SoftDelete>)

  datatype Outcome = Done | Unsupported | Panicked

  predicate Alive(sd: SoftDelete, r: Cols) {
    match sd
    case Unmanaged => true
    case ZeroAlive(c) => c in r && r[c] == IntV(0)
    case NullAlive(c) => c in r && r[c] == Null
  }

  /** The conditions of a child query besides the keys: soft delete, polymorphic type column, caller's conds. */
  function Passing(schema: Schema, rel: Relation, cond: Cols -> bool): Cols -> bool {
    r =>
      && (rel.child in schema.softDelete ==> Alive(schema.softDelete[rel.child], r))
      && (rel.poly.Some? ==> rel.poly.value.0 in r && r[rel.poly.value.0] == rel.poly.value.1)
      && cond(r)
  }

  function Always(): Cols -> bool {
    r => true
  }

  class Db {
    const tables: map<string, seq<Cols>>
    const joins: map<string, seq<JoinRow>>
    var queries: nat

    constructor (tables: map<string, seq<Cols>>, joins: map<string, seq<JoinRow>>)
      ensures this.tables == tables && this.joins == joins && queries == 0
    {
      this.tables, this.joins, queries := tables, joins, 0;
    }

    function Table(name: string): seq<Cols> {
      if name in tables then tables[name] else []
    }

    function Joins(name: string): seq<JoinRow> {
      if name in joins then joins[name] else []
    }

    /** One typed query; every result row is a new object. */
    method Find(table: string, cols: seq<string>, tuples: seq<seq<Value>>, pass: Cols -> bool) returns (found: seq<Row>)
      modifies `queries
      ensures queries == old(queries) + 1
      ensures ColsOf(found) == FindIn(Table(table), cols, tuples, pass)
      ensures forall r :: r in found ==> fresh(r) && r.rels == map[]
    {
      queries := queries + 1;
      found := [];
      var t := Table(table);
      for i := 0 to |t|
        invariant ColsOf(found) == FindIn(t[..i], cols, tuples, pass)
        invariant forall r :: r in found ==> fresh(r) && r.rels == map[]
        invariant queries == old(queries) + 1
      {
        assert t[..i + 1] == t[..i] + [t[i]];
        FilterSnoc(t[..i], t[i], Listed(cols, tuples, pass));
        if SqlIn(KeyTuple(t[i], cols), tuples) && pass(t[i]) {
          var r := new Row(t[i]);
          found := found + [r];
        }
      }
      assert t[..|t|] == t;
    }

    /** One mapping-table query, appending to the rows scanned before. */
    method ScanMap(table: string, tuples: seq<seq<Value>>, into: seq<JoinRow>) returns (scanned: seq<JoinRow>)
      modifies `queries
      ensures queries == old(queries) + 1
      ensures scanned == into + FindJoin(Joins(table), tuples)
    {
      queries := queries + 1;
      scanned := into + FindJoin(Joins(table), tuples);
    }
  }

  /** A parent taking part in this level's query. */
  datatype KeyedParent = KeyedParent(row: Row, vals: seq<Value>)

  function KeyedOf(rows: seq<Row>, cols: seq<string>): seq<KeyedParent> {
    if rows == [] then []
    else
      var last := rows[|rows| - 1];
      KeyedOf(rows[..|rows| - 1], cols) +
      (if Keyed(last.cols, cols) then [KeyedParent(last, KeyTuple(last.cols, cols))] else [])
  }

  function Vals(kps: seq<KeyedParent>): seq<seq<Value>> {
    seq(|kps|, i requires 0 <= i < |kps| => kps[i].vals)
  }

  lemma {:induction false} KeyedOfElements(rows: seq<Row>, cols: seq<string>)
    ensures forall kp :: kp in KeyedOf(rows, cols) ==>
              kp.row in rows && Keyed(kp.row.cols, cols) && kp.vals == KeyTuple(kp.row.cols, cols)
    ensures forall r :: r in rows && Keyed(r.cols, cols) ==>
              KeyedParent(r, KeyTuple(r.cols, cols)) in KeyedOf(rows, cols)
  {
    if rows != [] {
      KeyedOfElements(rows[..|rows| - 1], cols);
      assert rows == rows[..|rows| - 1] + [rows[|rows| - 1]];
    }
  }

  lemma NoneKeyed(rows: seq<Row>, cols: seq<string>)
    ensures KeyedOf(rows, cols) == [] ==> forall r :: r in rows ==> !Keyed(r.cols, cols)
  {
    KeyedOfElements(rows, cols);
  }

  method CollectParentKeys(rows: seq<Row>, cols: seq<string>) returns (kps: seq<KeyedParent>)
    ensures kps == KeyedOf(rows, cols)
  {
    kps := [];
    for i := 0 to |rows|
      invariant kps == KeyedOf(rows[..i], cols)
    {
      assert rows[..i + 1][..i] == rows[..i];
      var vals, zero := [], false;
      var j := 0;
      while j < |cols| && !zero
        invariant 0 <= j <= |cols| && (!zero ==> |vals| == j)
        invariant !zero ==> forall k :: 0 <= k < j ==>
                    cols[k] in rows[i].cols && !IsZero(rows[i].cols[cols[k]]) && vals[k] == rows[i].cols[cols[k]]
        invariant zero ==> !Keyed(rows[i].cols, cols)
      {
        if cols[j] !in rows[i].cols || IsZero(rows[i].cols[cols[j]]) {
          zero := true;
        } else {
          vals := vals + [rows[i].cols[cols[j]]];
        }
        j := j + 1;
      }
      if !zero {
        assert vals == KeyTuple(rows[i].cols, cols);
        kps := kps + [KeyedParent(rows[i], vals)];
      }
    }
    assert rows[..|rows|] == rows;
  }

  /** Single-column keys in one query, composite keys in batches appended in order. */
  method LoadChildren(db: Db, table: string, cols: seq<string>, tuples: seq<seq<Value>>, pass: Cols -> bool)
    returns (children: seq<Row>)
    modifies db`queries
    ensures ColsOf(children) == Load(db.Table(table), cols, tuples, pass)
    ensures forall r :: r in children ==> fresh(r) && r.rels == map[]
    ensures db.queries == old(db.queries) + LoadCost(cols, |tuples|)
  {
    if |cols| == 1 {
      children := db.Find(table, cols, tuples, pass);
      return;
    }
    children := [];
    var start := 0;
    assert From(tuples, 0) == tuples;
    while start < |tuples|
      invariant 0 <= start
      invariant ColsOf(children) + FindBatched(db.Table(table), cols, From(tuples, start), pass) ==
                FindBatched(db.Table(table), cols, tuples, pass)
      invariant forall r :: r in children ==> fresh(r) && r.rels == map[]
      invariant db.queries + Batches(|From(tuples, start)|) == old(db.queries) + Batches(|tuples|)
    {
      var end := start + BATCH;
      if end > |tuples| {
        end := |tuples|;
      }
      BatchesStep(tuples, start);
      var found := db.Find(table, cols, tuples[start..end], pass);
      FindBatchedStep(db.Table(table), cols, tuples, pass, start, ColsOf(children), ColsOf(found));
      ColsOfConcat(children, found);
      children := children + found;
      start := start + BATCH;
    }
  }

  /** First hop of many-to-many, batched the same way. */
  method LoadJoinMappings(db: Db, table: string, cols: seq<string>, tuples: seq<seq<Value>>)
    returns (mappings: seq<JoinRow>)
    modifies db`queries
    ensures mappings == LoadMappings(db.Joins(table), cols, tuples)
    ensures db.queries == old(db.queries) + LoadCost(cols, |tuples|)
  {
    if |cols| == 1 {
      mappings := db.ScanMap(table, tuples, []);
      return;
    }
    mappings := [];
    var start := 0;
    assert From(tuples, 0) == tuples;
    while start < |tuples|
      invariant 0 <= start
      invariant mappings + FindJoinBatched(db.Joins(table), From(tuples, start)) ==
                FindJoinBatched(db.Joins(table), tuples)
      invariant db.queries + Batches(|From(tuples, start)|) == old(db.queries) + Batches(|tuples|)
    {
      var end := start + BATCH;
      if end > |tuples| {
        end := |tuples|;
      }
      BatchesStep(tuples, start);
      FindJoinStep(db.Joins(table), tuples, start, mappings, FindJoin(db.Joins(table), tuples[start..end]));
      mappings := db.ScanMap(table, tuples[start..end], mappings);
      start := start + BATCH;
    }
  }

  // ---- writing relation fields -----------------------------------------------------------------

  /** A row's fields after one has been given a group of children; no group leaves a single field alone. */
  ghost predicate Given(rels: map<string, Field>, before: map<string, Field>, seg: string, isSlice: bool,
                        group: seq<Cols>) {
    if isSlice then
      seg in rels && rels[seg].Many? && ColsOf(rels[seg].rows) == group && rels == before[seg := rels[seg]]
    else if group == [] then
      rels == before
    else
      seg in rels && rels[seg].One? && rels[seg].row.cols == group[0] && rels == before[seg := rels[seg]]
  }

  /** A struct copy, as storing a value into a []T or T field makes one. */
  method CopyRow(r: Row) returns (c: Row)
    ensures fresh(c) && c.cols == r.cols && c.rels == r.rels
  {
    c := new Row(r.cols);
    c.rels := r.rels;
  }

  method SetSlice(row: Row, seg: string, byPointer: bool, group: seq<Row>)
    requires row !in group
    modifies row
    ensures Given(row.rels, old(row.rels), seg, true, ColsOf(group))
    ensures forall k :: k in KidsAt(row.rels, seg) ==>
              (fresh(k) || k in group) && exists g :: g in group && k.rels == g.rels
    ensures byPointer ==> row.rels[seg].rows == group
    ensures !byPointer ==> forall k :: k in row.rels[seg].rows ==> fresh(k)
  {
    var slice := [];
    for i := 0 to |group|
      invariant ColsOf(slice) == ColsOf(group[..i])
      invariant row !in slice && row.rels == old(row.rels)
      invariant byPointer ==> slice == group[..i]
      invariant !byPointer ==> forall k :: k in slice ==> fresh(k)
      invariant forall k :: k in slice ==> (fresh(k) || k in group) && exists g :: g in group && k.rels == g.rels
    {
      var element := group[i];
      if !byPointer {
        element := CopyRow(group[i]);
      }
      slice := slice + [element];
      assert ColsOf(group[..i + 1]) == ColsOf(group[..i]) + [element.cols];
    }
    assert group[..|group|] == group;
    row.rels := row.rels[seg := Many(slice)];
  }

  method SetSingle(row: Row, seg: string, byPointer: bool, group: seq<Row>)
    requires row !in group
    modifies row
    ensures Given(row.rels, old(row.rels), seg, false, ColsOf(group))
    ensures group == [] ==> row.rels == old(row.rels)
    ensures group != [] ==>
              forall k :: k in KidsAt(row.rels, seg) ==> (fresh(k) || k in group) && k.rels == group[0].rels
    ensures group != [] ==> if byPointer then row.rels[seg].row == group[0] else fresh(row.rels[seg].row)
  {
    if group == [] {
      return;
    }
    var element := group[0];
    if !byPointer {
      element := CopyRow(group[0]);
    }
    row.rels := row.rels[seg := One(element)];
  }

  method SetField(row: Row, seg: string, decl: FieldDecl, group: seq<Row>)
    requires row !in group && forall g :: g in group ==> g.rels == map[]
    modifies row
    ensures Given(row.rels, old(row.rels), seg, decl.isSlice, ColsOf(group))
    ensures IsSet(decl, ColsOf(group)) ==>
              forall k :: k in KidsAt(row.rels, seg) ==> (fresh(k) || k in group) && k.rels == map[]
  {
    if decl.isSlice {
      SetSlice(row, seg, decl.byPointer, group);
    } else {
      SetSingle(row, seg, decl.byPointer, group);
    }
  }

  lemma GivenTwice(now: map<string, Field>, between: map<string, Field>, before: map<string, Field>, seg: string,
                   isSlice: bool, group: seq<Cols>)
    requires Given(now, between, seg, isSlice, group) && Given(between, before, seg, isSlice, group)
    ensures Given(now, before, seg, isSlice, group)
  {
  }

  /** Whether filling with a group sets the field: a single field is left alone when there is no row. */
  predicate IsSet(decl: FieldDecl, group: seq<Cols>) {
    decl.isSlice || group != []
  }

  /** One parent has been filled, with rows of the pool unless its field was left alone. */
  ghost predicate Filled(row: Row, before: map<string, Field>, seg: string, decl: FieldDecl, group: seq<Cols>,
                         pool: set<Row>)
    reads row
  {
    && Given(row.rels, before, seg, decl.isSlice, group)
    && (IsSet(decl, group) ==> forall k :: k in KidsAt(row.rels, seg) ==> k in pool)
  }

  /** Fills every keyed parent with the group its key selects. */
  method FillAll(kps: seq<KeyedParent>, seg: string, decl: FieldDecl, children: seq<Row>,
                 groups: map<seq<Value>, seq<Row>>, ghost before: map<Row, map<string, Field>>)
    returns (ghost pool: set<Row>)
    requires forall kp :: kp in kps ==> kp.vals in groups && kp.row !in children
    requires forall k, r :: k in groups && r in groups[k] ==> r in children
    requires forall c :: c in children ==> c.rels == map[]
    requires forall a, b :: a in kps && b in kps && a.row == b.row ==> a.vals == b.vals
    requires forall kp :: kp in kps ==> kp.row in before && before[kp.row] == kp.row.rels
    modifies set kp | kp in kps :: kp.row
    ensures forall kp :: kp in kps ==> Filled(kp.row, before[kp.row], seg, decl, ColsOf(groups[kp.vals]), pool)
    ensures forall r :: r in pool ==> (fresh(r) || r in children) && r.rels == map[]
  {
    pool := set c | c in children;
    for i := 0 to |kps|
      invariant forall kp :: kp in kps ==>
                  kp.row.rels == before[kp.row] ||
                  Filled(kp.row, before[kp.row], seg, decl, ColsOf(groups[kp.vals]), pool)
      invariant forall j :: 0 <= j < i ==>
                  Filled(kps[j].row, before[kps[j].row], seg, decl, ColsOf(groups[kps[j].vals]), pool)
      invariant forall r :: r in pool ==> (fresh(r) || r in children) && r.rels == map[]
      invariant forall c :: c in children ==> c in pool
    {
      assert kps[i] in kps && kps[i].row !in pool;
      pool := FillNext(kps[i].row, seg, decl, groups[kps[i].vals], before[kps[i].row], pool);
    }
  }

  method FillNext(row: Row, seg: string, decl: FieldDecl, group: seq<Row>, ghost before: map<string, Field>,
                  ghost pool: set<Row>)
    returns (ghost pool': set<Row>)
    requires row !in group && forall g :: g in group ==> g.rels == map[] && g in pool
    requires row.rels == before || Filled(row, before, seg, decl, ColsOf(group), pool)
    modifies row
    ensures pool <= pool' && Filled(row, before, seg, decl, ColsOf(group), pool')
    ensures forall r :: r in pool' ==> r in pool || (fresh(r) && r.rels == map[])
  {
    ghost var was := row.rels;
    SetField(row, seg, decl, group);
    pool' := if IsSet(decl, ColsOf(group)) then pool + set k | k in KidsAt(row.rels, seg) else pool;
    if was != before {
      GivenTwice(row.rels, was, before, seg, decl.isSlice, ColsOf(group));
    }
  }

  // ---- one level ---------------------------------------------------------------------------------

  /** Regroups loaded children by joined key. */
  method GroupByKey(children: seq<Row>, cols: seq<string>) returns (groups: map<string, seq<Row>>)
    ensures forall k: string {:trigger k in groups} ::
              ColsOf(if k in groups then groups[k] else []) == Group(ColsOf(children), cols, k)
    ensures forall k, r :: k in groups && r in groups[k] ==> r in children
  {
    groups := map[];
    for i := 0 to |children|
      invariant forall k: string {:trigger k in groups} ::
                  ColsOf(if k in groups then groups[k] else []) == Group(ColsOf(children[..i]), cols, k)
      invariant forall k, r :: k in groups && r in groups[k] ==> r in children
    {
      var key := JoinKey(KeyTuple(children[i].cols, cols));
      var group := if key in groups then groups[key] else [];
      ghost var was := groups;
      groups := groups[key := group + [children[i]]];
      forall k: string
        ensures ColsOf(if k in groups then groups[k] else []) == Group(ColsOf(children[..i + 1]), cols, k)
      {
        assert k in was || k !in was;
        GroupSnoc(children, i, cols, k);
        if k == key {
          ColsOfConcat(group, [children[i]]);
        }
      }
    }
    assert children[..|children|] == children;
  }

  lemma GroupSnoc(children: seq<Row>, i: nat, cols: seq<string>, key: string)
    requires i < |children|
    ensures Group(ColsOf(children[..i + 1]), cols, key) ==
            Group(ColsOf(children[..i]), cols, key) +
            if JoinKey(KeyTuple(children[i].cols, cols)) == key then [children[i].cols] else []
  {
    assert ColsOf(children[..i + 1]) == ColsOf(children[..i]) + [children[i].cols];
    FilterSnoc(ColsOf(children[..i]), children[i].cols, KeyedAs(cols, key));
  }

  /** The children a keyed parent is given by a has-many, has-one or belongs-to level. */
  function DirectGroup(db: Db, schema: Schema, rel: Relation, cond: Cols -> bool, tuples: seq<seq<Value>>,
                       key: seq<Value>): seq<Cols> {
    Group(Load(db.Table(rel.child), rel.QueryCols(), tuples, Passing(schema, rel, cond)), rel.QueryCols(), JoinKey(key))
  }

  ghost function FieldsOf(kps: seq<KeyedParent>): (m: map<Row, map<string, Field>>)
    reads set kp | kp in kps :: kp.row
    ensures forall kp :: kp in kps ==> kp.row in m && m[kp.row] == kp.row.rels
  {
    var rows := set kp | kp in kps :: kp.row;
    map r | r in rows :: r.rels
  }

  method PreloadDirect(db: Db, schema: Schema, rows: seq<Row>, seg: string, decl: FieldDecl, cond: Cols -> bool)
    returns (kps: seq<KeyedParent>, ghost pool: set<Row>)
    modifies (set r | r in rows), db`queries
    ensures kps == KeyedOf(rows, decl.rel.ParentCols())
    ensures db.queries == old(db.queries) + if kps == [] then 0 else LoadCost(decl.rel.QueryCols(), |kps|)
    ensures forall r :: r in rows && !Keyed(r.cols, decl.rel.ParentCols()) ==> r.rels == old(r.rels)
    ensures forall r :: r in rows && Keyed(r.cols, decl.rel.ParentCols()) ==>
              Filled(r, old(r.rels), seg, decl,
                     DirectGroup(db, schema, decl.rel, cond, Vals(kps), KeyTuple(r.cols, decl.rel.ParentCols())), pool)
    ensures forall r :: r in pool ==> fresh(r) && r.rels == map[]
  {
    pool := {};
    var rel := decl.rel;
    kps := CollectParentKeys(rows, rel.ParentCols());
    NoneKeyed(rows, rel.ParentCols());
    if kps == [] {
      return;
    }
    var children := LoadChildren(db, rel.child, rel.QueryCols(), Vals(kps), Passing(schema, rel, cond));
    pool := FillGrouped(rows, kps, seg, decl, children);
  }

  /** Backfill by joined key: every keyed parent gets the loaded rows whose joined key equals its own. */
  method FillGrouped(rows: seq<Row>, kps: seq<KeyedParent>, seg: string, decl: FieldDecl, children: seq<Row>)
    returns (ghost pool: set<Row>)
    requires kps == KeyedOf(rows, decl.rel.ParentCols())
    requires forall c :: c in children ==> c !in rows && c.rels == map[]
    modifies set r | r in rows
    ensures forall r :: r in rows && !Keyed(r.cols, decl.rel.ParentCols()) ==> r.rels == old(r.rels)
    ensures forall r :: r in rows && Keyed(r.cols, decl.rel.ParentCols()) ==>
              Filled(r, old(r.rels), seg, decl,
                     Group(ColsOf(children), decl.rel.QueryCols(), JoinKey(KeyTuple(r.cols, decl.rel.ParentCols()))), pool)
    ensures forall r :: r in pool ==> (fresh(r) || r in children) && r.rels == map[]
  {
    KeyedOfElements(rows, decl.rel.ParentCols());
    var byKey := GroupByKey(children, decl.rel.QueryCols());
    var groups := GroupsFor(kps, byKey);
    pool := FillAll(kps, seg, decl, children, groups, FieldsOf(kps));
    forall r | r in rows && Keyed(r.cols, decl.rel.ParentCols())
      ensures KeyedParent(r, KeyTuple(r.cols, decl.rel.ParentCols())) in kps
    {
    }
  }

  /** The group each parent's joined key selects; none when the key is absent. */
  method GroupsFor(kps: seq<KeyedParent>, byKey: map<string, seq<Row>>) returns (groups: map<seq<Value>, seq<Row>>)
    ensures forall kp :: kp in kps ==>
              kp.vals in groups &&
              groups[kp.vals] == if JoinKey(kp.vals) in byKey then byKey[JoinKey(kp.vals)] else []
    ensures forall k :: k in groups ==> groups[k] == if JoinKey(k) in byKey then byKey[JoinKey(k)] else []
  {
    groups := map[];
    for i := 0 to |kps|
      invariant forall j :: 0 <= j < i ==> kps[j].vals in groups
      invariant forall k :: k in groups ==> groups[k] == if JoinKey(k) in byKey then byKey[JoinKey(k)] else []
    {
      var key := JoinKey(kps[i].vals);
      groups := groups[kps[i].vals := if key in byKey then byKey[key] else []];
    }
  }

  /** One more mapping row. */
  lemma MappingSnoc(mappings: seq<JoinRow>, i: nat, k: string)
    requires i < |mappings|
    ensures var m, before, here := mappings[i], mappings[..i], mappings[..i + 1];
      && RefTuples(here) == (if JoinKey(m.ref) in RefKeys(before) then RefTuples(before) else RefTuples(before) + [m.ref])
      && RefKeys(here) == RefKeys(before) + {JoinKey(m.ref)}
      && RefsOf(here, k) == RefsOf(before, k) + if JoinKey(m.fk) == k then {JoinKey(m.ref)} else {}
  {
    hide JoinKey;
    assert mappings[..i + 1] == mappings[..i] + [mappings[i]];
    assert mappings[..i + 1][..i] == mappings[..i];
  }

  /** Mapping rows as a table from parent key to referenced keys, and the distinct referenced tuples. */
  method IndexMappings(mappings: seq<JoinRow>) returns (joinMap: map<string, set<string>>, refTuples: seq<seq<Value>>)
    ensures refTuples == RefTuples(mappings)
    ensures forall k: string {:trigger k in joinMap} ::
              (if k in joinMap then joinMap[k] else {}) == RefsOf(mappings, k)
  {
    joinMap, refTuples := map[], [];
    var seenRef: set<string> := {};
    assert RefTuples(mappings[..0]) == [] && RefKeys(mappings[..0]) == {};
    assert forall k :: RefsOf(mappings[..0], k) == {};
    hide JoinKey, RefTuples, RefKeys, RefsOf;
    for i := 0 to |mappings|
      invariant refTuples == RefTuples(mappings[..i])
      invariant seenRef == RefKeys(mappings[..i])
      invariant forall k: string {:trigger k in joinMap} ::
                  (if k in joinMap then joinMap[k] else {}) == RefsOf(mappings[..i], k)
    {
      var m := mappings[i];
      var fk, rf := JoinKey(m.fk), JoinKey(m.ref);
      var refs := if fk in joinMap then joinMap[fk] else {};
      ghost var was := joinMap;
      joinMap := joinMap[fk := refs + {rf}];
      forall k: string
        ensures (if k in joinMap then joinMap[k] else {}) == RefsOf(mappings[..i + 1], k)
      {
        assert k in was || k !in was;
        MappingSnoc(mappings, i, k);
      }
      MappingSnoc(mappings, i, fk);
      if rf !in seenRef {
        refTuples := refTuples + [m.ref];
      }
      seenRef := seenRef + {rf};
    }
    assert mappings[..|mappings|] == mappings;
  }

  /** The loaded rows whose key is among the given ones, in loaded order. */
  method PickLinked(kids: seq<Row>, cols: seq<string>, refs: set<string>) returns (group: seq<Row>)
    ensures ColsOf(group) == LinkedGroup(ColsOf(kids), cols, refs)
    ensures forall r :: r in group ==> r in kids
  {
    group := [];
    for i := 0 to |kids|
      invariant ColsOf(group) == LinkedGroup(ColsOf(kids[..i]), cols, refs)
      invariant forall r :: r in group ==> r in kids
    {
      LinkedSnoc(kids, i, cols, refs);
      if JoinKey(KeyTuple(kids[i].cols, cols)) in refs {
        ColsOfConcat(group, [kids[i]]);
        group := group + [kids[i]];
      }
    }
    assert kids[..|kids|] == kids;
  }

  lemma LinkedSnoc(kids: seq<Row>, i: nat, cols: seq<string>, refs: set<string>)
    requires i < |kids|
    ensures LinkedGroup(ColsOf(kids[..i + 1]), cols, refs) ==
            LinkedGroup(ColsOf(kids[..i]), cols, refs) +
            if JoinKey(KeyTuple(kids[i].cols, cols)) in refs then [kids[i].cols] else []
  {
    assert ColsOf(kids[..i + 1]) == ColsOf(kids[..i]) + [kids[i].cols];
    FilterSnoc(ColsOf(kids[..i]), kids[i].cols, KeyedIn(cols, refs));
  }

  function Mappings(db: Db, rel: Relation, tuples: seq<seq<Value>>): seq<JoinRow> {
    LoadMappings(db.Joins(rel.joinTable), rel.joinFkCols, tuples)
  }

  /** The children a keyed parent is given by a many-to-many level. */
  function Many2ManyGroup(db: Db, schema: Schema, rel: Relation, cond: Cols -> bool, tuples: seq<seq<Value>>,
                          key: seq<Value>): seq<Cols> {
    var ms := Mappings(db, rel, tuples);
    LinkedGroup(Load(db.Table(rel.child), rel.fkCols, RefTuples(ms), Passing(schema, rel, cond)), rel.fkCols,
                RefsOf(ms, JoinKey(key)))
  }

  /** Queries of both hops; the second is not reached without a mapping row. */
  function Many2ManyCost(db: Db, rel: Relation, tuples: seq<seq<Value>>): nat {
    if tuples == [] then 0
    else
      var ms := Mappings(db, rel, tuples);
      LoadCost(rel.joinFkCols, |tuples|) + if ms == [] then 0 else LoadCost(rel.fkCols, |RefTuples(ms)|)
  }

  /**
   * The second hop takes the length of a result list that exists only if some mapping row was
   * found; with keyed parents and no mapping row it panics instead of filling empty fields.
   */
  method PreloadMany2Many(db: Db, schema: Schema, rows: seq<Row>, seg: string, decl: FieldDecl, cond: Cols -> bool)
    returns (outcome: Outcome, kps: seq<KeyedParent>, ghost pool: set<Row>)
    requires decl.rel.kind == Many2Many
    modifies (set r | r in rows), db`queries
    ensures kps == KeyedOf(rows, decl.rel.refCols)
    ensures outcome == (if kps != [] && Mappings(db, decl.rel, Vals(kps)) == [] then Panicked else Done)
    ensures outcome == Panicked ==> forall r :: r in rows ==> r.rels == old(r.rels)
    ensures db.queries == old(db.queries) + Many2ManyCost(db, decl.rel, Vals(kps))
    ensures forall r :: r in rows && !Keyed(r.cols, decl.rel.refCols) ==> r.rels == old(r.rels)
    ensures outcome == Done ==> forall r :: r in rows && Keyed(r.cols, decl.rel.refCols) ==>
              Filled(r, old(r.rels), seg, decl,
                     Many2ManyGroup(db, schema, decl.rel, cond, Vals(kps), KeyTuple(r.cols, decl.rel.refCols)), pool)
    ensures forall r :: r in pool ==> fresh(r) && r.rels == map[]
  {
    pool := {};
    outcome := Done;
    var rel := decl.rel;
    kps := CollectParentKeys(rows, rel.refCols);
    NoneKeyed(rows, rel.refCols);
    if kps == [] {
      return;
    }
    var mappings := LoadJoinMappings(db, rel.joinTable, rel.joinFkCols, Vals(kps));
    var joinMap, refTuples := IndexMappings(mappings);
    RefTuplesNonempty(mappings);
    if |refTuples| == 0 {
      outcome := Panicked;
      return;
    }
    var children := LoadChildren(db, rel.child, rel.fkCols, refTuples, Passing(schema, rel, cond));
    pool := FillLinked(rows, kps, seg, decl, children, joinMap, mappings);
  }

  /** One user with an id and nothing in the mapping table: preloading its roles panics. */
  method Many2ManyPanics() returns (outcome: Outcome)
    ensures outcome == Panicked
  {
    var db := new Db(map["users" := [map["id" := IntV(1)]], "roles" := []], map["user_roles" := []]);
    var user := new Row(map["id" := IntV(1)]);
    var rel := Relation(Many2Many, "roles", ["id"], ["id"], "user_roles", ["user_id"], ["role_id"], None);
    assert KeyedOf([user], ["id"]) == KeyedOf([], ["id"]) + [KeyedParent(user, KeyTuple(user.cols, ["id"]))];
    var schema := Schema(map[], map[]);
    var kps; ghost var pool;
    outcome, kps, pool := PreloadMany2Many(db, schema, [user], "Roles", FieldDecl(rel, true, false), Always());
  }

  /** Backfill by mapping: a loaded row goes to every parent mapped to its key. */
  method FillLinked(rows: seq<Row>, kps: seq<KeyedParent>, seg: string, decl: FieldDecl, children: seq<Row>,
                    joinMap: map<string, set<string>>, ghost mappings: seq<JoinRow>)
    returns (ghost pool: set<Row>)
    requires kps == KeyedOf(rows, decl.rel.refCols)
    requires forall c :: c in children ==> c !in rows && c.rels == map[]
    requires forall k: string {:trigger k in joinMap} ::
               (if k in joinMap then joinMap[k] else {}) == RefsOf(mappings, k)
    modifies set r | r in rows
    ensures forall r :: r in rows && !Keyed(r.cols, decl.rel.refCols) ==> r.rels == old(r.rels)
    ensures forall r :: r in rows && Keyed(r.cols, decl.rel.refCols) ==>
              Filled(r, old(r.rels), seg, decl,
                     LinkedGroup(ColsOf(children), decl.rel.fkCols,
                                 RefsOf(mappings, JoinKey(KeyTuple(r.cols, decl.rel.refCols)))), pool)
    ensures forall r :: r in pool ==> (fresh(r) || r in children) && r.rels == map[]
  {
    KeyedOfElements(rows, decl.rel.refCols);
    var groups := LinkedGroupsFor(kps, children, decl.rel.fkCols, joinMap, mappings);
    pool := FillAll(kps, seg, decl, children, groups, FieldsOf(kps));
    forall r | r in rows && Keyed(r.cols, decl.rel.refCols)
      ensures KeyedParent(r, KeyTuple(r.cols, decl.rel.refCols)) in kps
    {
    }
  }

  lemma RefTuplesNonempty(mappings: seq<JoinRow>)
    ensures RefTuples(mappings) == [] <==> mappings == []
  {
    if mappings != [] {
      var before := mappings[..|mappings| - 1];
      if before != [] {
        RefTuplesNonempty(before);
      }
    }
  }

  method LinkedGroupsFor(kps: seq<KeyedParent>, children: seq<Row>, cols: seq<string>, joinMap: map<string, set<string>>,
                         ghost mappings: seq<JoinRow>)
    returns (groups: map<seq<Value>, seq<Row>>)
    requires forall k: string {:trigger k in joinMap} ::
               (if k in joinMap then joinMap[k] else {}) == RefsOf(mappings, k)
    ensures forall kp :: kp in kps ==>
              kp.vals in groups &&
              ColsOf(groups[kp.vals]) == LinkedGroup(ColsOf(children), cols, RefsOf(mappings, JoinKey(kp.vals)))
    ensures forall k, r :: k in groups && r in groups[k] ==> r in children
  {
    groups := map[];
    for i := 0 to |kps|
      invariant forall j :: 0 <= j < i ==> kps[j].vals in groups
      invariant forall k :: k in groups ==>
                  ColsOf(groups[k]) == LinkedGroup(ColsOf(children), cols, RefsOf(mappings, JoinKey(k)))
      invariant forall k, r :: k in groups && r in groups[k] ==> r in children
    {
      var key := JoinKey(kps[i].vals);
      var refs := if key in joinMap then joinMap[key] else {};
      var group := PickLinked(children, cols, refs);
      groups := groups[kps[i].vals := group];
    }
  }
}
