/** Nested maps by dotted path: flattening, unflattening and lookup. */
module NestedMap {
  import opened Sequences
  import opened SeparatedText

  /** A value that is not itself a map. */
  datatype Scalar = Null | Number(n: int) | Text(s: string)

  datatype Node = Leaf(v: Scalar) | Branch(m: Nested)

  type Nested = map<string, Node>

  type Flat = map<string, Scalar>

  function NodeAt(m: Nested, p: seq<string>): Option<Node>
    decreases |p|
  {
    if p == [] || p[0] !in m then None
    else if |p| == 1 then Some(m[p[0]])
    else if m[p[0]].Branch? then NodeAt(m[p[0]].m, p[1..])
    else None
  }

  function LeafAt(m: Nested, p: seq<string>): Option<Scalar> {
    match NodeAt(m, p)
    case Some(Leaf(v)) => Some(v)
    case _ => None
  }

  /** Every submap, at any depth, holds something. */
  predicate FullNode(n: Node) {
    n.Branch? ==> n.m != map[] && forall k :: k in n.m ==> FullNode(n.m[k])
  }

  predicate Full(m: Nested) {
    forall k :: k in m ==> FullNode(m[k])
  }

  /** Every key, at any depth, is non-empty and has no dot. */
  predicate PlainNode(n: Node) {
    n.Branch? ==> forall k :: k in n.m ==> k != "" && '.' !in k && PlainNode(n.m[k])
  }

  predicate Plain(m: Nested) {
    PlainNode(Branch(m))
  }

  // ---- lookup --------------------------------------------------------------------------------------

  method MapGet(m: Nested, path: string) returns (r: Option<Node>)
    ensures r == if path == "" then None else NodeAt(m, Split(path, '.'))
  {
    if path == "" {
      return None;
    }
    var parts := Split(path, '.');
    var cur := Branch(m);
    for i := 0 to |parts|
      invariant if i < |parts| then cur.Branch? ==> NodeAt(cur.m, parts[i..]) == NodeAt(m, parts)
                else NodeAt(m, parts) == Some(cur)
      invariant i < |parts| && cur.Leaf? ==> NodeAt(m, parts) == None
    {
      if cur.Leaf? || parts[i] !in cur.m {
        return None;
      }
      assert parts[i..][1..] == parts[i + 1..];
      cur := cur.m[parts[i]];
    }
    return Some(cur);
  }

  /** What is found at a path is a map exactly over what lies below: its nodes are those of the longer paths. */
  lemma {:induction false} BelowPath(m: Nested, p: seq<string>, q: seq<string>)
    requires p != [] && q != []
    ensures match NodeAt(m, p)
            case Some(Branch(sub)) => NodeAt(m, p + q) == NodeAt(sub, q)
            case _ => NodeAt(m, p + q) == None
    decreases |p|
  {
    assert (p + q)[0] == p[0] && (p + q)[1..] == p[1..] + q;
    if |p| == 1 {
      assert (p + q)[1..] == q;
    } else if p[0] in m && m[p[0]].Branch? {
      BelowPath(m[p[0]].m, p[1..], q);
    }
  }

  /**
   * Looking up a path with a leaf somewhere below it finds a map, and the leaves of that map are exactly
   * the leaves below the path.
   */
  lemma SubmapAt(m: Nested, p: seq<string>, q: seq<string>)
    requires p != [] && q != [] && LeafAt(m, p + q).Some?
    ensures NodeAt(m, p).Some? && NodeAt(m, p).value.Branch?
    ensures forall r :: r != [] ==> LeafAt(NodeAt(m, p).value.m, r) == LeafAt(m, p + r)
    ensures forall k :: k in NodeAt(m, p).value.m <==> NodeAt(m, p + [k]).Some?
  {
    BelowPath(m, p, q);
    var sub := NodeAt(m, p).value.m;
    forall r | r != [] ensures LeafAt(sub, r) == LeafAt(m, p + r) {
      BelowPath(m, p, r);
    }
    forall k ensures k in sub <==> NodeAt(m, p + [k]).Some? {
      BelowPath(m, p, [k]);
    }
  }

  /** The first component is looked up among the map's own keys. */
  lemma TopNode(m: Nested, k: string)
    ensures NodeAt(m, [k]) == if k in m then Some(m[k]) else None
  {
  }

  // ---- flattening ----------------------------------------------------------------------------------

  function Extend(parent: string, k: string): string {
    if parent == "" then k else parent + "." + k
  }

  /** The key a path gets below a parent key. */
  function Key(parent: string, p: seq<string>): string
    decreases |p|
  {
    if p == [] then parent else Key(Extend(parent, p[0]), p[1..])
  }

  /** Some leaf below one of the keys gets this key and has this value. */
  ghost predicate Comes(m: Nested, parent: string, keys: set<string>, key: string, v: Scalar) {
    exists p :: ComesBy(m, parent, keys, key, v, p)
  }

  predicate ComesBy(m: Nested, parent: string, keys: set<string>, key: string, v: Scalar, p: seq<string>) {
    p != [] && p[0] in keys && LeafAt(m, p) == Some(v) && Key(parent, p) == key
  }

  /** out holds the leaves below some keys: only values of leaves, and a value for each leaf. */
  ghost predicate Flattened(m: Nested, parent: string, keys: set<string>, out: Flat) {
    && (forall key :: key in out ==> Comes(m, parent, keys, key, out[key]))
    && (forall p :: p != [] && p[0] in keys && LeafAt(m, p).Some? ==> Key(parent, p) in out)
  }

  lemma LeafBelow(m: Nested, k: string, q: seq<string>)
    requires k in m && m[k].Branch? && q != []
    ensures LeafAt(m, [k] + q) == LeafAt(m[k].m, q)
  {
    assert ([k] + q)[1..] == q;
  }

  lemma KeyBelow(parent: string, k: string, q: seq<string>)
    ensures Key(parent, [k] + q) == Key(Extend(parent, k), q)
  {
    assert ([k] + q)[1..] == q;
  }

  /** What flattening a submap gives belongs to its key. */
  lemma SubFlattened(m: Nested, parent: string, k: string, sub: Flat)
    requires k in m && m[k].Branch? && Flattened(m[k].m, Extend(parent, k), m[k].m.Keys, sub)
    ensures Flattened(m, parent, {k}, sub)
  {
    forall key | key in sub ensures Comes(m, parent, {k}, key, sub[key]) {
      var q :| ComesBy(m[k].m, Extend(parent, k), m[k].m.Keys, key, sub[key], q);
      LeafBelow(m, k, q);
      KeyBelow(parent, k, q);
      assert ComesBy(m, parent, {k}, key, sub[key], [k] + q);
    }
    forall p | p != [] && p[0] in {k} && LeafAt(m, p).Some? ensures Key(parent, p) in sub {
      assert p == [k] + p[1..];
      LeafBelow(m, k, p[1..]);
      KeyBelow(parent, k, p[1..]);
      assert p[1..][0] in m[k].m.Keys;
    }
  }

  lemma LeafFlattened(m: Nested, parent: string, k: string)
    requires k in m && m[k].Leaf?
    ensures Flattened(m, parent, {k}, map[Extend(parent, k) := m[k].v])
  {
    KeyBelow(parent, k, []);
    assert [k] + [] == [k];
    assert ComesBy(m, parent, {k}, Extend(parent, k), m[k].v, [k]);
    forall p | p != [] && p[0] in {k} && LeafAt(m, p).Some? ensures p == [k] {
    }
  }

  /** Later entries may overwrite earlier ones of the same key. */
  lemma FlattenedUnion(m: Nested, parent: string, a: set<string>, b: set<string>, f: Flat, g: Flat)
    requires Flattened(m, parent, a, f) && Flattened(m, parent, b, g)
    ensures Flattened(m, parent, a + b, f + g)
  {
    forall key | key in f + g ensures Comes(m, parent, a + b, key, (f + g)[key]) {
      if key in g {
        var p :| ComesBy(m, parent, b, key, g[key], p);
        assert ComesBy(m, parent, a + b, key, g[key], p);
      } else {
        var p :| ComesBy(m, parent, a, key, f[key], p);
        assert ComesBy(m, parent, a + b, key, f[key], p);
      }
    }
  }

  /** Goes through the keys in any order. */
  method FlattenMap(m: Nested, parent: string) returns (out: Flat)
    ensures Flattened(m, parent, m.Keys, out)
    decreases Branch(m)
  {
    hide Flattened;
    out := map[];
    var rest := m.Keys;
    assert Flattened(m, parent, m.Keys - rest, out) by {
      NothingFlattened(m, parent, m.Keys - rest);
    }
    while rest != {}
      invariant rest <= m.Keys && Flattened(m, parent, m.Keys - rest, out)
      decreases rest
    {
      var k :| k in rest;
      var part: Flat;
      if m[k].Branch? {
        assert m[k] == Branch(m[k].m);
        part := FlattenMap(m[k].m, Extend(parent, k));
        SubFlattened(m, parent, k, part);
      } else {
        part := map[Extend(parent, k) := m[k].v];
        LeafFlattened(m, parent, k);
      }
      FlattenedUnion(m, parent, m.Keys - rest, {k}, out, part);
      assert m.Keys - (rest - {k}) == m.Keys - rest + {k};
      out := out + part;
      rest := rest - {k};
    }
    assert m.Keys - rest == m.Keys;
  }

  lemma NothingFlattened(m: Nested, parent: string, keys: set<string>)
    requires keys == {}
    ensures Flattened(m, parent, keys, map[])
  {
  }

  // ---- unflattening --------------------------------------------------------------------------------

  /** Puts a value at a path, making submaps on the way; what stood in the way is replaced. */
  function Insert(m: Nested, p: seq<string>, v: Scalar): Nested
    requires p != []
    decreases |p|
  {
    if |p| == 1 then m[p[0] := Leaf(v)]
    else
      var next := if p[0] in m && m[p[0]].Branch? then m[p[0]].m else map[];
      m[p[0] := Branch(Insert(next, p[1..], v))]
  }

  lemma PrefixTails(p: seq<string>, q: seq<string>)
    requires p != [] && q != [] && p[0] == q[0]
    ensures p < q <==> p[1..] < q[1..]
    ensures p == q <==> p[1..] == q[1..]
  {
    assert p == [p[0]] + p[1..] && q == [q[0]] + q[1..];
  }

  /** The leaves after an insertion: p has the value, leaves above and below p are gone. */
  lemma {:induction false} InsertLeaf(m: Nested, p: seq<string>, v: Scalar, q: seq<string>)
    requires p != []
    ensures LeafAt(Insert(m, p, v), q) ==
            if q == p then Some(v) else if p < q || q < p then None else LeafAt(m, q)
    decreases |p|
  {
    if q != [] && q[0] == p[0] && |p| > 1 {
      var next := if p[0] in m && m[p[0]].Branch? then m[p[0]].m else map[];
      if |q| > 1 {
        InsertLeaf(next, p[1..], v, q[1..]);
        PrefixTails(p, q);
        PrefixTails(q, p);
      } else {
        assert q < p;
      }
    } else if q != [] && q[0] == p[0] {
      assert p == [p[0]];
      assert |q| > 1 ==> p < q;
    } else {
      assert !(p < q) && (q != [] ==> !(q < p));
    }
  }

  lemma {:induction false} InsertFull(m: Nested, p: seq<string>, v: Scalar)
    requires p != [] && Full(m)
    ensures Full(Insert(m, p, v)) && Insert(m, p, v) != map[]
    decreases |p|
  {
    assert p[0] in Insert(m, p, v);
    if |p| > 1 {
      var next := if p[0] in m && m[p[0]].Branch? then m[p[0]].m else map[];
      assert Full(next) by {
        if p[0] in m && m[p[0]].Branch? {
          assert FullNode(m[p[0]]);
        }
      }
      InsertFull(next, p[1..], v);
    }
  }

  /** No key is another with more components behind it. */
  ghost predicate PrefixFree(f: Flat) {
    forall j, k :: j in f && k in f ==> !(Split(j, '.') < Split(k, '.'))
  }

  /** What the keys put in so far have made: only their leaves; all of them if none stands in another's way. */
  ghost predicate Unflattened(f: Flat, keys: set<string>, out: Nested) {
    && Full(out)
    && (forall p :: LeafAt(out, p).Some? ==>
          && p != [] && Split(Join(p, '.'), '.') == p && Join(p, '.') in keys && Join(p, '.') in f
          && LeafAt(out, p) == Some(f[Join(p, '.')]))
    && (PrefixFree(f) ==> forall k :: k in keys && k in f ==> LeafAt(out, Split(k, '.')) == Some(f[k]))
  }

  lemma UnflattenOne(f: Flat, keys: set<string>, out: Nested, k: string)
    requires Unflattened(f, keys, out) && k in f && keys <= f.Keys
    ensures Unflattened(f, keys + {k}, Insert(out, Split(k, '.'), f[k]))
  {
    var p := Split(k, '.');
    var out' := Insert(out, p, f[k]);
    JoinSplit(k, '.');
    InsertFull(out, p, f[k]);
    forall q | LeafAt(out', q).Some?
      ensures q != [] && Split(Join(q, '.'), '.') == q && Join(q, '.') in keys + {k} && Join(q, '.') in f &&
              LeafAt(out', q) == Some(f[Join(q, '.')])
    {
      InsertLeaf(out, p, f[k], q);
    }
    if PrefixFree(f) {
      forall j | j in keys + {k} ensures LeafAt(out', Split(j, '.')) == Some(f[j]) {
        InsertLeaf(out, p, f[k], Split(j, '.'));
        if Split(j, '.') == p {
          JoinSplit(j, '.');
        }
      }
    }
  }

  /** Goes through the keys in any order. */
  method UnflattenMap(f: Flat) returns (out: Nested)
    ensures Unflattened(f, f.Keys, out)
  {
    hide Unflattened;
    out := map[];
    var rest := f.Keys;
    assert Unflattened(f, f.Keys - rest, out) by {
      NothingUnflattened(f, f.Keys - rest);
    }
    while rest != {}
      invariant rest <= f.Keys && Unflattened(f, f.Keys - rest, out)
      decreases rest
    {
      var k :| k in rest;
      UnflattenOne(f, f.Keys - rest, out, k);
      assert f.Keys - (rest - {k}) == f.Keys - rest + {k};
      out := Insert(out, Split(k, '.'), f[k]);
      rest := rest - {k};
    }
    assert f.Keys - rest == f.Keys;
  }

  lemma NothingUnflattened(f: Flat, keys: set<string>)
    requires keys == {}
    ensures Unflattened(f, keys, map[])
  {
  }

  // ---- keys and paths ------------------------------------------------------------------------------

  lemma {:induction false} KeyBehind(parent: string, p: seq<string>)
    requires parent != "" && p != []
    ensures Key(parent, p) == parent + "." + Join(p, '.')
    decreases |p|
  {
    var next := Extend(parent, p[0]);
    if |p| > 1 {
      KeyBehind(next, p[1..]);
      assert parent + "." + p[0] + "." + Join(p[1..], '.') == parent + "." + (p[0] + "." + Join(p[1..], '.'));
    }
  }

  /** At the top a path's key is its components joined, unless it starts with an empty one. */
  lemma KeyIsJoin(p: seq<string>)
    requires p != [] && (p[0] != "" || |p| == 1)
    ensures Key("", p) == Join(p, '.')
  {
    if |p| > 1 {
      KeyBehind(p[0], p[1..]);
    }
  }

  /** Leading empty components leave no trace in the key. */
  lemma {:induction false} KeyNoLeadingDot(p: seq<string>)
    requires AllFree(p, '.')
    ensures Key("", p) != "" ==> Key("", p)[0] != '.'
    decreases |p|
  {
    if p != [] {
      if p[0] == "" {
        KeyNoLeadingDot(p[1..]);
      } else if |p| > 1 {
        KeyBehind(p[0], p[1..]);
        assert Key("", p)[0] == p[0][0];
      }
    }
  }

  /** The paths to leaves of a map with plain keys have plain components. */
  lemma {:induction false} PlainPath(m: Nested, p: seq<string>)
    requires Plain(m) && NodeAt(m, p).Some?
    ensures AllFree(p, '.') && forall i :: 0 <= i < |p| ==> p[i] != ""
    decreases |p|
  {
    assert PlainNode(m[p[0]]);
    if |p| > 1 {
      PlainPath(m[p[0]].m, p[1..]);
    }
  }

  /** A flattened map with plain keys is a table of its leaves by dotted path. */
  lemma FlatIsTable(m: Nested, f: Flat, key: string)
    requires Plain(m) && Flattened(m, "", m.Keys, f)
    ensures LeafAt(m, Split(key, '.')) == if key in f then Some(f[key]) else None
  {
    var q := Split(key, '.');
    JoinSplit(key, '.');
    if LeafAt(m, q).Some? {
      PlainPath(m, q);
      KeyIsJoin(q);
    }
    if key in f {
      var p :| ComesBy(m, "", m.Keys, key, f[key], p);
      PlainPath(m, p);
      KeyIsJoin(p);
      SplitJoin(p, '.');
    }
  }

  /** Looking up a leaf by its dotted path finds what the flattened map has there. */
  lemma GetIsFlat(m: Nested, f: Flat, path: string)
    requires Plain(m) && Flattened(m, "", m.Keys, f)
    ensures var found := if path == "" then None else NodeAt(m, Split(path, '.'));
      (found.Some? && found.value.Leaf?) == (path in f) && (path in f ==> found == Some(Leaf(f[path])))
  {
    FlatIsTable(m, f, path);
    if path == "" && path in f {
      PlainPath(m, Split(path, '.'));
    }
  }

  // ---- there and back ------------------------------------------------------------------------------

  /** Nothing lies below a leaf. */
  lemma {:induction false} LeafStops(m: Nested, p: seq<string>, q: seq<string>)
    requires LeafAt(m, p).Some? && p < q
    ensures LeafAt(m, q) == None
    decreases |p|
  {
    if |p| > 1 {
      LeafStops(m[p[0]].m, p[1..], q[1..]);
    }
  }

  lemma {:induction false} SomeLeaf(m: Nested, k: string) returns (p: seq<string>)
    requires Full(m) && k in m
    ensures p != [] && p[0] == k && LeafAt(m, p).Some?
    decreases m[k]
  {
    if m[k].Leaf? {
      p := [k];
    } else {
      assert FullNode(m[k]);
      var j :| j in m[k].m;
      var q := SomeLeaf(m[k].m, j);
      LeafBelow(m, k, q);
      p := [k] + q;
    }
  }

  /** Full maps with the same leaves are the same. */
  lemma {:induction false} SameLeaves(m: Nested, n: Nested)
    requires Full(m) && Full(n) && forall p :: LeafAt(m, p) == LeafAt(n, p)
    ensures m == n
    decreases Branch(m)
  {
    forall k: string ensures (k in m <==> k in n) && (k in m && k in n ==> m[k] == n[k]) {
      if k in m {
        var p := SomeLeaf(m, k);
        assert LeafAt(n, p).Some?;
      }
      if k in n {
        var p := SomeLeaf(n, k);
        assert LeafAt(m, p).Some?;
      }
      if k in m && k in n {
        SameBelow(m, n, k);
        if m[k].Branch? && n[k].Branch? {
          assert FullNode(m[k]) && FullNode(n[k]);
          assert m[k] == Branch(m[k].m);
          SameLeaves(m[k].m, n[k].m);
        }
      }
    }
    assert m.Keys == n.Keys;
  }

  lemma SameBelow(m: Nested, n: Nested, k: string)
    requires k in m && k in n && forall p :: LeafAt(m, p) == LeafAt(n, p)
    ensures m[k].Leaf? || n[k].Leaf? ==> m[k] == n[k]
    ensures m[k].Branch? && n[k].Branch? ==> forall q :: LeafAt(m[k].m, q) == LeafAt(n[k].m, q)
  {
    assert LeafAt(m, [k]) == LeafAt(n, [k]);
    if m[k].Branch? && n[k].Branch? {
      forall q ensures LeafAt(m[k].m, q) == LeafAt(n[k].m, q) {
        if q != [] {
          LeafBelow(m, k, q);
          LeafBelow(n, k, q);
        }
      }
    }
  }

  lemma FlatPrefixFree(m: Nested, f: Flat)
    requires Plain(m) && Flattened(m, "", m.Keys, f)
    ensures PrefixFree(f)
  {
    forall j, k | j in f && k in f ensures !(Split(j, '.') < Split(k, '.')) {
      FlatIsTable(m, f, j);
      FlatIsTable(m, f, k);
      if Split(j, '.') < Split(k, '.') {
        LeafStops(m, Split(j, '.'), Split(k, '.'));
      }
    }
  }

  /**
   * Unflattening a flattened map with plain keys gives the map back, exactly when no submap is
   * empty; whatever the orders in which the two went through their keys.
   */
  lemma UnflattenUndoesFlatten(m: Nested, f: Flat, u: Nested)
    requires Plain(m) && Flattened(m, "", m.Keys, f) && Unflattened(f, f.Keys, u)
    ensures u == m <==> Full(m)
  {
    if Full(m) {
      FlatPrefixFree(m, f);
      forall p ensures LeafAt(u, p) == LeafAt(m, p) {
        if LeafAt(m, p).Some? {
          PlainPath(m, p);
          SplitJoin(p, '.');
          FlatIsTable(m, f, Join(p, '.'));
        } else if LeafAt(u, p).Some? {
          FlatIsTable(m, f, Join(p, '.'));
        }
      }
      SameLeaves(u, m);
    }
  }

  /** A map with an empty submap does not come back. */
  lemma EmptySubmapLost(f: Flat, u: Nested)
    requires var m := map["a" := Branch(map[])]; Flattened(m, "", m.Keys, f) && Unflattened(f, f.Keys, u)
    ensures f == map[] && u == map[]
  {
    var m: Nested := map["a" := Branch(map[])];
    assert m["a"] == Branch(map[]);
    forall p ensures LeafAt(m, p) == None {
      if p != [] && p[0] == "a" && |p| > 1 {
        assert NodeAt(m["a"].m, p[1..]) == None;
      }
    }
    assert forall key :: key !in f;
    forall p ensures LeafAt(u, p) == None {
    }
    forall k | k in u ensures false {
      var p := SomeLeaf(u, k);
    }
  }

  predicate NoLeadingDot(f: Flat) {
    forall k :: k in f ==> k == "" || k[0] != '.'
  }

  lemma StartsEmptyIff(k: string)
    ensures (Split(k, '.')[0] == "" && |Split(k, '.')| > 1) <==> (k != "" && k[0] == '.')
  {
  }

  /**
   * Flattening what was unflattened gives the flat map back, exactly when no key is another with
   * further components behind it and no key starts with a dot.
   */
  lemma FlattenUndoesUnflatten(f: Flat, u: Nested, g: Flat)
    requires Unflattened(f, f.Keys, u) && Flattened(u, "", u.Keys, g)
    ensures g == f <==> PrefixFree(f) && NoLeadingDot(f)
  {
    hide Unflattened, Flattened;
    if PrefixFree(f) && NoLeadingDot(f) {
      forall k | k in f ensures k in g {
        GoesThrough(f, u, g, k);
      }
      forall k | k in g ensures k in f && g[k] == f[k] {
        GoesBack(f, u, g, k);
      }
      assert g.Keys == f.Keys;
    }
    if g == f {
      LeavesDecideKeys(f, u, g);
    }
  }

  lemma GoesThrough(f: Flat, u: Nested, g: Flat, k: string)
    requires Unflattened(f, f.Keys, u) && Flattened(u, "", u.Keys, g) && PrefixFree(f) && NoLeadingDot(f) && k in f
    ensures k in g
  {
    StartsEmptyIff(k);
    KeyIsJoin(Split(k, '.'));
    JoinSplit(k, '.');
  }

  lemma GoesBack(f: Flat, u: Nested, g: Flat, k: string)
    requires Unflattened(f, f.Keys, u) && Flattened(u, "", u.Keys, g) && NoLeadingDot(f) && k in g
    ensures k in f && g[k] == f[k]
  {
    var p :| ComesBy(u, "", u.Keys, k, g[k], p);
    StartsEmptyIff(Join(p, '.'));
    KeyIsJoin(p);
  }

  /** The flat map of an unflattened one has neither prefixes of other keys nor leading dots. */
  lemma LeavesDecideKeys(f: Flat, u: Nested, g: Flat)
    requires Unflattened(f, f.Keys, u) && Flattened(u, "", u.Keys, g) && g == f
    ensures PrefixFree(f) && NoLeadingDot(f)
  {
    forall k | k in g ensures k == "" || k[0] != '.' {
      var p :| ComesBy(u, "", u.Keys, k, g[k], p);
      SplitFree(Join(p, '.'), '.');
      KeyNoLeadingDot(p);
    }
    forall j, k | j in g && k in g ensures !(Split(j, '.') < Split(k, '.')) {
      var p :| ComesBy(u, "", u.Keys, j, g[j], p);
      var q :| ComesBy(u, "", u.Keys, k, g[k], q);
      StartsEmptyIff(Join(p, '.'));
      StartsEmptyIff(Join(q, '.'));
      KeyIsJoin(p);
      KeyIsJoin(q);
      if p < q {
        LeafStops(u, p, q);
      }
    }
  }

  /** A key with a leading dot does not come back: in its place stands the key without it. */
  lemma LeadingDotLost(v: Scalar, u: Nested, g: Flat)
    requires var f := map[".a" := v]; Unflattened(f, f.Keys, u) && Flattened(u, "", u.Keys, g)
    ensures ".a" !in g && "a" in g
  {
    var f := map[".a" := v];
    SplitTail(".a");
    SplitFree("a", '.');
    var q := ["", "a"];
    assert Split(".a", '.') == q;
    assert PrefixFree(f);
    assert LeafAt(u, q) == Some(v);
    assert q[1..] == ["a"] && q[1..][1..] == [];
    assert Key("", q) == "a";
    if ".a" in g {
      var p :| ComesBy(u, "", u.Keys, ".a", g[".a"], p);
      SplitFree(Join(p, '.'), '.');
      KeyNoLeadingDot(p);
    }
  }

  lemma SplitTail(s: string)
    requires s != "" && s[0] == '.'
    ensures Split(s, '.') == [""] + Split(s[1..], '.')
  {
  }

  /** Of a key and its extension only one comes back, whatever the order. */
  lemma ExtendedKeyLost(v: Scalar, w: Scalar, u: Nested, g: Flat)
    requires var f := map["a" := v, "a.b" := w]; Unflattened(f, f.Keys, u) && Flattened(u, "", u.Keys, g)
    ensures g != map["a" := v, "a.b" := w]
  {
    hide Unflattened, Flattened;
    var f := map["a" := v, "a.b" := w];
    Extends();
    assert "a" in f && "a.b" in f;
    FlattenUndoesUnflatten(f, u, g);
  }

  lemma Extends()
    ensures Split("a", '.') < Split("a.b", '.')
  {
    SplitAround("a", "b", '.');
    SplitFree("b", '.');
    assert "a.b" == "a" + "." + "b";
  }
}
