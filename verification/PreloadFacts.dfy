/** What preloading gives, said of the rows themselves: which table rows a field holds, and which rows are loaded next. */
module PreloadFacts {
  import opened Sequences
  import opened JoinKeys
  import opened PreloadSpec
  import opened PreloadEngine
  import opened PreloadPath

  /** The row is alive, has the relation's type value, if there is one, and meets the caller's condition. */
  ghost predicate Visible(schema: Schema, rel: Relation, cond: Cols -> bool, r: Cols) {
    && (rel.child in schema.softDelete ==>
          match schema.softDelete[rel.child]
          case NullAlive(c) => c in r && r[c] == Null
          case ZeroAlive(c) => c in r && r[c] == IntV(0)
          case Unmanaged => true)
    && (match rel.poly
        case Some((c, v)) => c in r && r[c] == v
        case None => true)
    && cond(r)
  }

  /** The row's columns hold the values of the parent's, column by column. */
  ghost predicate PointsTo(r: Cols, cols: seq<string>, parent: Cols, parentCols: seq<string>) {
    && |cols| == |parentCols|
    && forall i :: 0 <= i < |cols| ==>
         cols[i] in r && parentCols[i] in parent && r[cols[i]] == parent[parentCols[i]]
  }

  /** A row without a key: some key column is missing, nil, 0 or empty. */
  ghost predicate Keyless(row: Cols, cols: seq<string>) {
    exists c :: c in cols && (c !in row || row[c] == Null || row[c] == IntV(0) || row[c] == StrV(""))
  }

  lemma KeylessIff(row: Cols, cols: seq<string>)
    ensures Keyless(row, cols) <==> !Keyed(row, cols)
    ensures !Keyless(row, cols) ==> Null !in KeyTuple(row, cols)
  {
    if Keyed(row, cols) {
      forall i | 0 <= i < |cols| ensures KeyTuple(row, cols)[i] != Null {
        assert cols[i] in cols;
      }
    }
  }

  lemma KeyPoints(r: Cols, cols: seq<string>, parent: Cols, parentCols: seq<string>)
    requires |cols| == |parentCols| && Keyed(parent, parentCols)
    ensures KeyTuple(r, cols) == KeyTuple(parent, parentCols) <==> PointsTo(r, cols, parent, parentCols)
  {
    var k, p := KeyTuple(r, cols), KeyTuple(parent, parentCols);
    forall i | 0 <= i < |cols| ensures parentCols[i] in parent && p[i] == parent[parentCols[i]] && p[i] != Null {
      assert parentCols[i] in parentCols;
    }
    if k == p {
      forall i | 0 <= i < |cols| ensures cols[i] in r && r[cols[i]] == parent[parentCols[i]] {
        assert k[i] == p[i];
      }
    }
    if PointsTo(r, cols, parent, parentCols) {
      assert forall i :: 0 <= i < |cols| ==> k[i] == p[i];
    }
  }

  lemma {:induction false} RepeatElements<T>(s: seq<T>, n: nat)
    requires n >= 1
    ensures forall x :: x in Repeat(s, n) <==> x in s
  {
    if n > 1 {
      RepeatElements(s, n - 1);
    } else {
      assert Repeat(s, 1) == s + Repeat(s, 0) == s;
    }
  }

  /** Some row of the mapping table holds the parent's key and the child's. */
  ghost predicate MappedTo(rows: seq<JoinRow>, r: Cols, cols: seq<string>, parent: Cols, parentCols: seq<string>) {
    exists m :: m in rows && |m.fk| == |parentCols| && |m.ref| == |cols|
             && (forall i :: 0 <= i < |parentCols| ==> parentCols[i] in parent && m.fk[i] == parent[parentCols[i]])
             && (forall i :: 0 <= i < |cols| ==> cols[i] in r && r[cols[i]] != Null && m.ref[i] == r[cols[i]])
  }

  lemma LinkedIsMapped(rows: seq<JoinRow>, r: Cols, cols: seq<string>, parent: Cols, parentCols: seq<string>)
    requires Keyed(parent, parentCols)
    ensures Linked(rows, KeyTuple(parent, parentCols), KeyTuple(r, cols)) <==> MappedTo(rows, r, cols, parent, parentCols)
  {
    var p, k := KeyTuple(parent, parentCols), KeyTuple(r, cols);
    forall i | 0 <= i < |parentCols| ensures parentCols[i] in parent && p[i] == parent[parentCols[i]] {
      assert parentCols[i] in parentCols;
    }
    if Linked(rows, p, k) {
      forall i | 0 <= i < |cols| ensures cols[i] in r && r[cols[i]] != Null && k[i] == r[cols[i]] {
        assert k[i] in k;
      }
      assert JoinRow(p, k) in rows;
    }
    if MappedTo(rows, r, cols, parent, parentCols) {
      var m :| m in rows && |m.fk| == |parentCols| && |m.ref| == |cols|
        && (forall i :: 0 <= i < |parentCols| ==> parentCols[i] in parent && m.fk[i] == parent[parentCols[i]])
        && (forall i :: 0 <= i < |cols| ==> cols[i] in r && r[cols[i]] != Null && m.ref[i] == r[cols[i]]);
      assert m.fk == p && m.ref == k;
      assert m == JoinRow(p, k);
    }
  }

  lemma SameElements<T>(a: seq<T>, b: seq<T>)
    requires multiset(a) == multiset(b)
    ensures forall x :: x in a <==> x in b
  {
    forall x ensures x in a <==> x in b {
      assert x in a <==> x in multiset(a);
      assert x in b <==> x in multiset(b);
    }
  }

  /** The row of the child table is one of the parent's. */
  ghost predicate Belongs(db: Db, schema: Schema, rel: Relation, cond: Cols -> bool, parent: Cols, r: Cols) {
    && r in db.Table(rel.child) && Visible(schema, rel, cond, r)
    && if rel.kind == Many2Many then MappedTo(db.Joins(rel.joinTable), r, rel.fkCols, parent, rel.refCols)
       else PointsTo(r, rel.QueryCols(), parent, rel.ParentCols())
  }

  /** The keys of a level can be compared as strings. */
  ghost predicate LevelComparable(db: Db, rel: Relation, key: seq<Value>) {
    if rel.kind == Many2Many then JoinComparable(db.Table(rel.child), db.Joins(rel.joinTable), rel.fkCols, key)
    else |rel.QueryCols()| == |rel.ParentCols()| && KeysComparable(db.Table(rel.child), rel.QueryCols(), key)
  }

  lemma VisibleIff(schema: Schema, rel: Relation, cond: Cols -> bool, r: Cols)
    ensures Passing(schema, rel, cond)(r) <==> Visible(schema, rel, cond, r)
  {
    var alive := rel.child in schema.softDelete ==> Alive(schema.softDelete[rel.child], r);
    var typed := rel.poly.Some? ==> rel.poly.value.0 in r && r[rel.poly.value.0] == rel.poly.value.1;
    assert Passing(schema, rel, cond)(r) == (alive && typed && cond(r));
  }

  lemma ChildIff(table: seq<Cols>, cols: seq<string>, pass: Cols -> bool, key: seq<Value>, r: Cols)
    ensures r in Children(table, cols, pass, key) <==> r in table && KeyTuple(r, cols) == key && pass(r)
  {
    FilterElements(table, Owned(cols, key, pass));
  }

  lemma LinkedChildIff(table: seq<Cols>, rows: seq<JoinRow>, cols: seq<string>, pass: Cols -> bool, key: seq<Value>, r: Cols)
    ensures r in LinkedChildren(table, rows, cols, pass, key) <==>
            r in table && Linked(rows, key, KeyTuple(r, cols)) && pass(r)
  {
    FilterElements(table, LinkedTo(rows, cols, key, pass));
  }

  /**
   * A group that is what the level asks for holds exactly the rows of the child table that point to the
   * parent, or that a mapping row ties to it, and that are visible: not deleted, of the polymorphic type,
   * and meeting the condition.
   */
  lemma GroupMembers(db: Db, schema: Schema, rel: Relation, cond: Cols -> bool, tuples: seq<seq<Value>>,
                     parent: Cols, group: seq<Cols>, r: Cols)
    requires var key := KeyTuple(parent, rel.ParentCols());
      && !Keyless(parent, rel.ParentCols()) && key in tuples && LevelComparable(db, rel, key)
      && Faithful(db, schema, rel, cond, tuples, key, group)
    ensures r in group <==> Belongs(db, schema, rel, cond, parent, r)
  {
    hide JoinComparable, KeysComparable, Children, LinkedChildren, Passing, Visible, Linked, MappedTo, PointsTo, KeyTuple,
         Copies, Keyless;
    var key, pass := KeyTuple(parent, rel.ParentCols()), Passing(schema, rel, cond);
    var table, rows := db.Table(rel.child), db.Joins(rel.joinTable);
    KeylessIff(parent, rel.ParentCols());
    VisibleIff(schema, rel, cond, r);
    if rel.kind == Many2Many {
      SameElements(group, LinkedChildren(table, rows, rel.fkCols, pass, key));
      LinkedChildIff(table, rows, rel.fkCols, pass, key, r);
      LinkedIsMapped(rows, r, rel.fkCols, parent, rel.refCols);
    } else {
      CopiesPositive(rel.QueryCols(), tuples, key);
      RepeatElements(Children(table, rel.QueryCols(), pass, key), Copies(rel.QueryCols(), tuples, key));
      ChildIff(table, rel.QueryCols(), pass, key, r);
      KeyPoints(r, rel.QueryCols(), parent, rel.ParentCols());
    }
  }

  /** What the engine gives a keyed parent is exactly its rows, for either kind of level. */
  lemma GivenMembers(db: Db, schema: Schema, rel: Relation, cond: Cols -> bool, tuples: seq<seq<Value>>,
                     parent: Cols, r: Cols)
    requires var key := KeyTuple(parent, rel.ParentCols());
      !Keyless(parent, rel.ParentCols()) && key in tuples && LevelComparable(db, rel, key)
    ensures var key := KeyTuple(parent, rel.ParentCols());
      r in (if rel.kind == Many2Many then Many2ManyGroup(db, schema, rel, cond, tuples, key)
            else DirectGroup(db, schema, rel, cond, tuples, key)) <==>
      Belongs(db, schema, rel, cond, parent, r)
  {
    hide Faithful, LevelComparable, Belongs, Keyless;
    var key := KeyTuple(parent, rel.ParentCols());
    KeylessIff(parent, rel.ParentCols());
    if rel.kind == Many2Many {
      Many2ManyIsFaithful(db, schema, rel, cond, tuples, key);
      GroupMembers(db, schema, rel, cond, tuples, parent, Many2ManyGroup(db, schema, rel, cond, tuples, key), r);
    } else {
      DirectIsFaithful(db, schema, rel, cond, tuples, key);
      GroupMembers(db, schema, rel, cond, tuples, parent, DirectGroup(db, schema, rel, cond, tuples, key), r);
    }
  }

  /** The rows a field holds, as table rows. */
  ghost function Shown(rels: map<string, Field>, seg: string): seq<Cols> {
    if seg !in rels then []
    else
      match rels[seg]
      case One(k) => [k.cols]
      case Many(ks) => ColsOf(ks)
  }

  /**
   * In a level that has been loaded a row without a key has no field, and a keyed row's slice holds
   * exactly its rows of the child table; a single field holds one of them, or is absent if there is none.
   */
  lemma FieldMembers(db: Db, schema: Schema, decl: FieldDecl, seg: string, cond: Cols -> bool,
                     tuples: seq<seq<Value>>, row: Row)
    requires HoldsChildren(db, schema, decl, seg, cond, tuples, row)
    requires var key := KeyTuple(row.cols, decl.rel.ParentCols());
      !Keyless(row.cols, decl.rel.ParentCols()) ==> key in tuples && LevelComparable(db, decl.rel, key)
    ensures Keyless(row.cols, decl.rel.ParentCols()) ==> seg !in row.rels
    ensures !Keyless(row.cols, decl.rel.ParentCols()) && decl.isSlice ==>
              && seg in row.rels && row.rels[seg].Many?
              && forall r :: r in Shown(row.rels, seg) <==> Belongs(db, schema, decl.rel, cond, row.cols, r)
    ensures !Keyless(row.cols, decl.rel.ParentCols()) && !decl.isSlice ==>
              if seg in row.rels then
                && row.rels[seg].One?
                && Belongs(db, schema, decl.rel, cond, row.cols, row.rels[seg].row.cols)
              else forall r :: !Belongs(db, schema, decl.rel, cond, row.cols, r)
  {
    hide Belongs, LevelComparable, Faithful, Keyless;
    var cols := decl.rel.ParentCols();
    KeylessIff(row.cols, cols);
    if !Keyless(row.cols, cols) {
      var group :| && Faithful(db, schema, decl.rel, cond, tuples, KeyTuple(row.cols, cols), group)
                   && FieldHolds(row.rels, seg, decl.isSlice, group);
      forall r ensures r in group <==> Belongs(db, schema, decl.rel, cond, row.cols, r) {
        GroupMembers(db, schema, decl.rel, cond, tuples, row.cols, group, r);
      }
      assert group != [] ==> group[0] in group;
    }
  }

  // ---- from level to level -----------------------------------------------------------------------

  lemma KeyedOne(r: Row, cols: seq<string>)
    ensures KeyedOf([r], cols) == if Keyless(r.cols, cols) then [] else [KeyedParent(r, KeyTuple(r.cols, cols))]
  {
    KeylessIff(r.cols, cols);
    hide Keyless, Keyed, KeyTuple;
    assert [r][..0] == [];
    assert KeyedOf([r][..0], cols) == [];
  }

  /** The parents taking part are the keyed rows in order, a row listed twice twice. */
  lemma {:induction false} KeyedInOrder(a: seq<Row>, b: seq<Row>, cols: seq<string>)
    ensures KeyedOf(a + b, cols) == KeyedOf(a, cols) + KeyedOf(b, cols)
  {
    hide Keyed, KeyTuple;
    if b == [] {
      assert a + b == a;
    } else {
      var n := |b| - 1;
      KeyedInOrder(a, b[..n], cols);
      assert (a + b)[..|a + b| - 1] == a + b[..n];
    }
  }

  /** The row is held by the field. */
  predicate Holds(f: Field, k: Row) {
    f == One(k) || (f.Many? && k in f.rows)
  }

  /** The rows of the next level are those that some field of a taking-part parent holds. */
  lemma {:induction false} NextIsHeld(kps: seq<KeyedParent>, seg: string, k: Row)
    ensures k in NextRows(kps, seg) <==> exists kp :: kp in kps && seg in kp.row.rels && Holds(kp.row.rels[seg], k)
  {
    if kps != [] {
      var n := |kps| - 1;
      NextIsHeld(kps[..n], seg, k);
      assert kps == kps[..n] + [kps[n]];
      assert kps[n] in kps;
    }
  }

  /** They come parent by parent, and a slice's in its order. */
  lemma {:induction false} NextInOrder(a: seq<KeyedParent>, b: seq<KeyedParent>, seg: string)
    ensures NextRows(a + b, seg) == NextRows(a, seg) + NextRows(b, seg)
  {
    hide KidsAt;
    if b == [] {
      assert a + b == a;
    } else {
      var n := |b| - 1;
      NextInOrder(a, b[..n], seg);
      assert (a + b)[..|a + b| - 1] == a + b[..n];
    }
  }

  lemma NextOfOne(kp: KeyedParent, seg: string)
    ensures NextRows([kp], seg) ==
            if seg !in kp.row.rels then [] else if kp.row.rels[seg].One? then [kp.row.rels[seg].row]
            else kp.row.rels[seg].rows
  {
    assert [kp][..0] == [];
  }

  /**
   * On a loaded path every row that a field of the first level holds is a row of a loaded path itself,
   * along the segments that are left.
   */
  lemma LoadedBelow(db: Db, schema: Schema, ty: string, segs: seq<string>, cond: Cols -> bool, rows: seq<Row>,
                    row: Row, k: Row)
    requires segs != [] && Loaded(db, schema, ty, segs, cond, rows) && !Blocked(db, schema, ty, segs[0], rows)
    requires row in rows && segs[0] in row.rels && Holds(row.rels[segs[0]], k)
    ensures (ty, segs[0]) in schema.fields && forall r :: Always()(r)
    ensures var rel := schema.fields[(ty, segs[0])].rel;
      exists next :: k in next && Loaded(db, schema, rel.child, segs[1..], Always(), next)
                     && (|segs| > 1 && !Blocked(db, schema, rel.child, segs[1], next) ==>
                           HoldsNext(db, schema, rel.child, segs[1], next, k))
  {
    var decl := schema.fields[(ty, segs[0])];
    var kps := KeyedOf(rows, decl.rel.ParentCols());
    var next := NextRows(kps, segs[0]);
    assert HoldsChildren(db, schema, decl, segs[0], cond, Vals(kps), row);
    KeyedOfElements(rows, decl.rel.ParentCols());
    NextIsHeld(kps, segs[0], k);
    assert KeyedParent(row, KeyTuple(row.cols, decl.rel.ParentCols())) in kps;
    assert k in next;
  }

  /** A row of the next level holds its own children, given that level's keys. */
  ghost predicate HoldsNext(db: Db, schema: Schema, ty: string, seg: string, rows: seq<Row>, k: Row)
    reads k
  {
    (ty, seg) in schema.fields &&
    var decl := schema.fields[(ty, seg)];
    HoldsChildren(db, schema, decl, seg, Always(), Vals(KeyedOf(rows, decl.rel.ParentCols())), k)
  }
}
