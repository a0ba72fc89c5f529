/** Building a forest from a list of records that name their parents, and walking it. */
module Forest {
  import opened Sequences

  /** A comparable Go value used as an id; values of different types are never equal. */
  datatype Id = Nil | IntId(n: int) | Int64Id(m: int) | TextId(s: string)

  datatype Record = Record(id: Id, parent: Id, data: map<string, string>)

  type Index = map<Id, Record>

  /** Records by id; children and roots as lists of ids. */
  datatype Wood = Wood(index: Index, children: map<Id, seq<Id>>, roots: seq<Id>)

  predicate NoParent(id: Id) {
    id == Nil || id == TextId("") || id == IntId(0)
  }

  /** A record stands at the top: it names no parent, or one that is not there. */
  predicate IsRoot(index: Index, id: Id)
    requires id in index
  {
    NoParent(index[id].parent) || index[id].parent !in index
  }

  predicate IsChild(index: Index, id: Id, of: Id) {
    id in index && !IsRoot(index, id) && index[id].parent == of
  }

  ghost predicate Keyed(index: Index) {
    forall id :: id in index ==> index[id].id == id
  }

  /** Roots and child lists hold exactly the ids that belong there, each once, in any order. */
  ghost predicate Built(w: Wood) {
    && Keyed(w.index)
    && Distinct(w.roots)
    && (forall id :: id in w.roots <==> id in w.index && IsRoot(w.index, id))
    && w.children.Keys == w.index.Keys
    && (forall p :: p in w.index ==> Distinct(w.children[p]))
    && (forall p, id :: p in w.index ==> (id in w.children[p] <==> IsChild(w.index, id, p)))
  }

  // ---- trails from a root down ---------------------------------------------------------------------

  ghost predicate Trail(index: Index, q: seq<Id>) {
    && q != [] && q[0] in index && IsRoot(index, q[0])
    && forall k :: 0 < k < |q| ==> IsChild(index, q[k], q[k - 1])
  }

  function Last(q: seq<Id>): Id
    requires q != []
  {
    q[|q| - 1]
  }

  lemma {:induction false} TrailUnique(index: Index, p: seq<Id>, q: seq<Id>)
    requires Trail(index, p) && Trail(index, q) && Last(p) == Last(q)
    ensures p == q
    decreases |p|
  {
    if |p| == 1 || |q| == 1 {
      assert |p| > 1 ==> IsChild(index, Last(p), p[|p| - 2]);
      assert |q| > 1 ==> IsChild(index, Last(q), q[|q| - 2]);
    } else {
      var m, n := |p| - 1, |q| - 1;
      assert IsChild(index, p[m], p[m - 1]) && IsChild(index, q[n], q[n - 1]);
      TrailUnique(index, p[..m], q[..n]);
      assert p == p[..m] + [p[m]] && q == q[..n] + [q[n]];
    }
  }

  lemma TrailDistinct(index: Index, q: seq<Id>)
    requires Trail(index, q)
    ensures Distinct(q)
  {
    forall i, j | 0 <= i <= j < |q| && q[i] == q[j] ensures i == j {
      TrailUnique(index, q[..i + 1], q[..j + 1]);
    }
  }

  /** Where the walk is: at the top, or below the last id of a trail. */
  ghost predicate Reached(w: Wood, path: seq<Id>) {
    path == [] || Trail(w.index, path)
  }

  /** The nodes to walk are roots, or children of the last id. */
  ghost predicate Here(w: Wood, path: seq<Id>, nodes: seq<Id>) {
    && Distinct(nodes)
    && forall id :: id in nodes ==>
          if path == [] then id in w.index && IsRoot(w.index, id) else IsChild(w.index, id, Last(path))
  }

  lemma TrailOn(index: Index, path: seq<Id>, id: Id)
    requires path == [] ==> id in index && IsRoot(index, id)
    requires path != [] ==> Trail(index, path) && IsChild(index, id, Last(path))
    ensures Trail(index, path + [id])
  {
  }

  lemma StepDown(w: Wood, path: seq<Id>, nodes: seq<Id>)
    requires Built(w) && Reached(w, path) && Here(w, path, nodes) && nodes != []
    ensures Trail(w.index, path + [nodes[0]]) && nodes[0] in w.index && nodes[0] !in path
    ensures Here(w, path + [nodes[0]], w.children[nodes[0]]) && Here(w, path, nodes[1..])
  {
    var q := path + [nodes[0]];
    assert nodes[0] in nodes;
    TrailOn(w.index, path, nodes[0]);
    TrailDistinct(w.index, q);
    forall i | 0 <= i < |path| ensures path[i] != nodes[0] {
      assert q[i] == path[i] && q[|path|] == nodes[0];
    }
  }

  /** Every node before its children, each node's children in their list's order. */
  ghost function Walk(w: Wood, path: seq<Id>, nodes: seq<Id>): seq<Id>
    requires Built(w) && Reached(w, path) && Here(w, path, nodes)
    decreases w.index.Keys - (set id | id in path), |nodes|
  {
    if nodes == [] then []
    else
      StepDown(w, path, nodes);
      var below := path + [nodes[0]];
      assert (set id | id in below) == (set id | id in path) + {nodes[0]};
      [nodes[0]] + Walk(w, below, w.children[nodes[0]]) + Walk(w, path, nodes[1..])
  }

  lemma WalkFirst(w: Wood, path: seq<Id>, nodes: seq<Id>)
    requires Built(w) && Reached(w, path) && Here(w, path, nodes) && nodes != []
    ensures var n, below := nodes[0], path + [nodes[0]];
      && n in w.index && w.index[n].id == n && n in w.children && Reached(w, below)
      && Here(w, below, w.children[n]) && Here(w, path, nodes[1..])
      && w.index.Keys - (set id | id in below) < w.index.Keys - (set id | id in path)
      && Walk(w, path, nodes) == [n] + Walk(w, below, w.children[n]) + Walk(w, path, nodes[1..])
  {
    StepDown(w, path, nodes);
    assert (set id | id in path + [nodes[0]]) == (set id | id in path) + {nodes[0]};
  }

  function Times(ids: seq<Id>, id: Id): nat {
    multiset(ids)[id]
  }

  lemma TimesAppend(a: seq<Id>, b: seq<Id>, c: seq<Id>, id: Id)
    ensures Times(a + b + c, id) == Times(a, id) + Times(b, id) + Times(c, id)
    ensures forall x :: Times([x], id) == if x == id then 1 else 0
  {
  }

  /** Whether a trail leads from path on through one of the nodes. */
  function Through(path: seq<Id>, nodes: seq<Id>, q: seq<Id>): nat {
    if path < q && q[|path|] in nodes then 1 else 0
  }

  lemma PrefixBySnoc(path: seq<Id>, n: Id, q: seq<Id>)
    ensures path + [n] <= q <==> path < q && q[|path|] == n
  {
    if path < q && q[|path|] == n {
      assert q[..|path| + 1] == path + [n];
    }
  }

  lemma ThroughFirst(w: Wood, path: seq<Id>, nodes: seq<Id>, q: seq<Id>)
    requires Built(w) && Reached(w, path) && Here(w, path, nodes) && nodes != [] && Trail(w.index, q)
    requires nodes[0] in w.index
    ensures Through(path, nodes, q) ==
            (if nodes[0] == Last(q) then 1 else 0) +
            Through(path + [nodes[0]], w.children[nodes[0]], q) + Through(path, nodes[1..], q)
  {
    var n, below := nodes[0], path + [nodes[0]];
    StepDown(w, path, nodes);
    PrefixBySnoc(path, n, q);
    if n == Last(q) {
      TrailUnique(w.index, below, q);
    } else if below <= q {
      assert below != q;
      assert q[|below| - 1] == below[|below| - 1] == n;
      assert IsChild(w.index, q[|below|], n);
    }
  }

  lemma NoTimes(id: Id)
    ensures Times([], id) == 0
  {
  }

  /** The walk meets the end of a trail once if the trail leads through where the walk is, else not. */
  lemma {:induction false} WalkMeets(w: Wood, path: seq<Id>, nodes: seq<Id>, q: seq<Id>)
    requires Built(w) && Reached(w, path) && Here(w, path, nodes) && Trail(w.index, q)
    ensures Times(Walk(w, path, nodes), Last(q)) == Through(path, nodes, q)
    decreases w.index.Keys - (set id | id in path), |nodes|
  {
    NoTimes(Last(q));
    hide Times, Built, Here, Trail;
    if nodes != [] {
      StepDown(w, path, nodes);
      var n, below := nodes[0], path + [nodes[0]];
      assert (set id | id in below) == (set id | id in path) + {n};
      WalkMeets(w, below, w.children[n], q);
      WalkMeets(w, path, nodes[1..], q);
      ThroughFirst(w, path, nodes, q);
      TimesAppend([n], Walk(w, below, w.children[n]), Walk(w, path, nodes[1..]), Last(q));
    }
  }

  ghost predicate OnTrail(index: Index, id: Id) {
    exists q :: Trail(index, q) && Last(q) == id
  }

  /** Whatever the walk meets is at the end of a trail. */
  lemma {:induction false} WalkStaysOnTrails(w: Wood, path: seq<Id>, nodes: seq<Id>, id: Id)
    requires Built(w) && Reached(w, path) && Here(w, path, nodes) && id in Walk(w, path, nodes)
    ensures OnTrail(w.index, id)
    decreases w.index.Keys - (set id | id in path), |nodes|
  {
    hide Trail;
    StepDown(w, path, nodes);
    var n, below := nodes[0], path + [nodes[0]];
    assert (set id | id in below) == (set id | id in path) + {n};
    if id == n {
      assert Last(below) == id;
    } else if id in Walk(w, below, w.children[n]) {
      WalkStaysOnTrails(w, below, w.children[n], id);
    } else {
      WalkStaysOnTrails(w, path, nodes[1..], id);
    }
  }

  // ---- climbing from a record to its root ----------------------------------------------------------

  /** The n-th ancestor, if the climb gets that far. */
  function Climb(index: Index, id: Id, n: nat): Option<Id>
    decreases n
  {
    if id !in index then None
    else if n == 0 then Some(id)
    else if IsRoot(index, id) then None
    else Climb(index, index[id].parent, n - 1)
  }

  /** The chain of parents ends. */
  ghost predicate Ends(index: Index, id: Id) {
    exists n :: Climb(index, id, n) == None
  }

  /** The chain of parents meets some record twice: the record is on or below a cycle. */
  ghost predicate Loops(index: Index, id: Id) {
    exists i, j :: MeetsTwice(index, id, i, j)
  }

  predicate MeetsTwice(index: Index, id: Id, i: nat, j: nat) {
    i < j && Climb(index, id, i).Some? && Climb(index, id, i) == Climb(index, id, j)
  }

  lemma {:induction false} ClimbOn(index: Index, id: Id, i: nat, j: nat)
    requires Climb(index, id, i).Some?
    ensures Climb(index, id, i + j) == Climb(index, Climb(index, id, i).value, j)
    decreases i
  {
    if i > 0 {
      ClimbOn(index, index[id].parent, i - 1, j);
    }
  }

  lemma {:induction false} ClimbEnded(index: Index, id: Id, n: nat, m: nat)
    requires Climb(index, id, n).None? && n <= m
    ensures Climb(index, id, m).None?
    decreases n
  {
    if id in index && n > 0 && !IsRoot(index, id) {
      ClimbEnded(index, index[id].parent, n - 1, m - 1);
    }
  }

  /** A climb that meets a record twice can go on for any number of steps. */
  lemma {:induction false} LoopGoesOn(index: Index, id: Id, i: nat, j: nat, n: nat)
    requires MeetsTwice(index, id, i, j)
    ensures Climb(index, id, n).Some?
    decreases n
  {
    if Climb(index, id, n).None? {
      if n <= j {
        ClimbEnded(index, id, n, j);
      } else {
        LoopGoesOn(index, id, i, j, n - (j - i));
        ClimbOn(index, id, j, n - j);
        ClimbOn(index, id, i, n - j);
      }
    }
  }

  lemma {:induction false} ManyDistinct<T>(ids: seq<T>, all: set<T>)
    requires Distinct(ids) && forall id :: id in ids ==> id in all
    ensures |ids| <= |all|
  {
    if ids != [] {
      ManyDistinct(ids[1..], all - {ids[0]});
    }
  }

  /** In a finite index a climb either ends or meets a record twice, and not both. */
  lemma EndsOrLoops(index: Index, id: Id)
    ensures Ends(index, id) <==> !Loops(index, id)
  {
    if Loops(index, id) {
      var i, j :| MeetsTwice(index, id, i, j);
      forall n: nat ensures Climb(index, id, n).Some? {
        LoopGoesOn(index, id, i, j, n);
      }
    } else if !Ends(index, id) {
      var steps := |index.Keys| + 1;
      assert forall n: nat :: Climb(index, id, n).Some?;
      var climbed := seq(steps, n requires n >= 0 => Climb(index, id, n).value);
      forall i, j | 0 <= i < j < steps ensures climbed[i] != climbed[j] {
        assert !MeetsTwice(index, id, i, j);
      }
      forall a | a in climbed ensures a in index.Keys {
        var n :| 0 <= n < steps && climbed[n] == a;
        ClimbStaysIn(index, id, n);
      }
      ManyDistinct(climbed, index.Keys);
      assert false;
    }
  }

  lemma {:induction false} ClimbStaysIn(index: Index, id: Id, n: nat)
    requires Climb(index, id, n).Some?
    ensures Climb(index, id, n).value in index
    decreases n
  {
    if n > 0 {
      ClimbStaysIn(index, index[id].parent, n - 1);
    }
  }

  lemma {:induction false} TrailUp(index: Index, id: Id, n: nat) returns (q: seq<Id>)
    requires id in index && Climb(index, id, n).None?
    ensures Trail(index, q) && Last(q) == id
    decreases n
  {
    if IsRoot(index, id) {
      q := [id];
    } else {
      q := TrailUp(index, index[id].parent, n - 1);
      q := q + [id];
    }
  }

  lemma {:induction false} TrailDown(index: Index, q: seq<Id>)
    requires Trail(index, q)
    ensures Last(q) in index && Climb(index, Last(q), |q|).None?
  {
    if |q| > 1 {
      var n := |q| - 1;
      assert IsChild(index, q[n], q[n - 1]);
      TrailDown(index, q[..n]);
    }
  }

  lemma OnTrailIff(index: Index, id: Id)
    ensures OnTrail(index, id) <==> id in index && Ends(index, id)
  {
    if OnTrail(index, id) {
      var q :| Trail(index, q) && Last(q) == id;
      TrailDown(index, q);
    }
    if id in index && Ends(index, id) {
      var n :| Climb(index, id, n) == None;
      var q := TrailUp(index, id, n);
    }
  }

  /**
   * The walk from the roots meets each record once if its chain of parents ends, and never if the
   * record is on or below a cycle, in whatever order roots and children are listed.
   */
  lemma WalkIsExact(w: Wood, id: Id)
    requires Built(w)
    ensures Here(w, [], w.roots)
    ensures Times(Walk(w, [], w.roots), id) == if id in w.index && Ends(w.index, id) then 1 else 0
    ensures id in w.index ==> (Ends(w.index, id) <==> !Loops(w.index, id))
  {
    OnTrailIff(w.index, id);
    EndsOrLoops(w.index, id);
    if OnTrail(w.index, id) {
      var q :| Trail(w.index, q) && Last(q) == id;
      WalkMeets(w, [], w.roots, q);
      assert q[0] in w.roots;
    } else if id in Walk(w, [], w.roots) {
      WalkStaysOnTrails(w, [], w.roots, id);
    }
  }

  // ---- read off the records ------------------------------------------------------------------------

  /** The record names no parent, or one that is not in the list. */
  predicate Topmost(index: Index, r: Record) {
    r.parent == Nil || r.parent == TextId("") || r.parent == IntId(0) || r.parent !in index
  }

  /** The tops are the topmost records, and a record is listed below exactly the record it names. */
  lemma TopsAndChildren(w: Wood, id: Id, p: Id)
    requires Built(w)
    ensures id in w.roots <==> id in w.index && Topmost(w.index, w.index[id])
    ensures p in w.index ==>
              (id in w.children[p] <==>
                 id in w.index && !Topmost(w.index, w.index[id]) && w.index[id].parent == p)
  {
  }

  /** A topmost record's chain of parents ends; any other's does exactly if its parent's does. */
  lemma EndsByParent(index: Index, id: Id)
    requires id in index
    ensures Topmost(index, index[id]) ==> Ends(index, id)
    ensures !Topmost(index, index[id]) ==> (Ends(index, id) <==> Ends(index, index[id].parent))
  {
    var p := index[id].parent;
    if Topmost(index, index[id]) {
      assert Climb(index, id, 1) == None;
    } else {
      if n: nat :| Climb(index, id, n) == None {
        assert n > 0 && Climb(index, p, n - 1) == None;
      }
      if n: nat :| Climb(index, p, n) == None {
        assert Climb(index, id, n + 1) == None;
      }
    }
  }

  /** The id at i is one of those the walk starts from, or its parent comes before it. */
  ghost predicate AfterParent(index: Index, walk: seq<Id>, nodes: seq<Id>, i: nat) {
    i < |walk| ==> walk[i] in nodes || exists j :: 0 <= j < i && IsChild(index, walk[i], walk[j])
  }

  lemma AfterJoin(index: Index, n: Id, a: seq<Id>, kids: seq<Id>, b: seq<Id>, nodes: seq<Id>, i: nat)
    requires nodes != [] && nodes[0] == n && forall k :: k in kids ==> IsChild(index, k, n)
    requires forall k: nat :: AfterParent(index, a, kids, k) && AfterParent(index, b, nodes[1..], k)
    ensures AfterParent(index, [n] + a + b, nodes, i)
  {
    var walk := [n] + a + b;
    if 0 < i <= |a| {
      assert walk[i] == a[i - 1] && walk[0] == n;
      assert AfterParent(index, a, kids, i - 1);
      if a[i - 1] !in kids {
        var j :| 0 <= j < i - 1 && IsChild(index, a[i - 1], a[j]);
        assert walk[j + 1] == a[j];
      }
    } else if |a| < i < |walk| {
      var k := i - 1 - |a|;
      assert walk[i] == b[k];
      assert AfterParent(index, b, nodes[1..], k);
      if b[k] !in nodes[1..] {
        var j :| 0 <= j < k && IsChild(index, b[k], b[j]);
        assert walk[j + 1 + |a|] == b[j];
      }
    }
  }

  lemma {:induction false} ParentFirst(w: Wood, path: seq<Id>, nodes: seq<Id>, i: nat)
    requires Built(w) && Reached(w, path) && Here(w, path, nodes)
    ensures AfterParent(w.index, Walk(w, path, nodes), nodes, i)
    decreases w.index.Keys - (set id | id in path), |nodes|
  {
    if nodes != [] {
      WalkFirst(w, path, nodes);
      var n, below := nodes[0], path + [nodes[0]];
      var kids := w.children[n];
      var a, b := Walk(w, below, kids), Walk(w, path, nodes[1..]);
      forall k: nat ensures AfterParent(w.index, a, kids, k) && AfterParent(w.index, b, nodes[1..], k) {
        ParentFirst(w, below, kids, k);
        ParentFirst(w, path, nodes[1..], k);
      }
      forall k | k in kids ensures IsChild(w.index, k, n) {
        assert n in w.index;
      }
      hide Built, Here, Walk, AfterParent, IsChild;
      AfterJoin(w.index, n, a, kids, b, nodes, i);
    }
  }

  /** From the tops down every record that is not topmost comes behind the one it names. */
  lemma WalkGoesDown(w: Wood, i: nat)
    requires Built(w) && Here(w, [], w.roots) && i < |Walk(w, [], w.roots)|
    ensures var walk := Walk(w, [], w.roots);
      && walk[i] in w.index
      && (Topmost(w.index, w.index[walk[i]]) || exists j :: 0 <= j < i && w.index[walk[i]].parent == walk[j])
  {
    ParentFirst(w, [], w.roots, i);
    WalkIsExact(w, Walk(w, [], w.roots)[i]);
  }
}
