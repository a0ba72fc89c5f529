/** The tree tool: from a flat list to a forest and back to a flat list. */
module Tree {
  import opened Sequences
  import opened Forest

  /** The records by id; of records with one id the last stays. */
  function IndexOf(list: seq<Record>): Index {
    if list == [] then map[]
    else IndexOf(list[..|list| - 1])[list[|list| - 1].id := list[|list| - 1]]
  }

  lemma {:induction false} IndexKeyed(list: seq<Record>)
    ensures Keyed(IndexOf(list))
    ensures forall id :: id in IndexOf(list) ==> IndexOf(list)[id] in list
    ensures forall r :: r in list ==> r.id in IndexOf(list)
  {
    if list != [] {
      IndexKeyed(list[..|list| - 1]);
      assert list == list[..|list| - 1] + [list[|list| - 1]];
    }
  }

  /** Of several records with one id the last is kept. */
  lemma {:induction false} LastStays(list: seq<Record>, id: Id)
    ensures id in IndexOf(list) <==> exists i :: 0 <= i < |list| && list[i].id == id
    ensures forall i :: 0 <= i < |list| && list[i].id == id && (forall j :: i < j < |list| ==> list[j].id != id) ==>
              id in IndexOf(list) && IndexOf(list)[id] == list[i]
  {
    if list != [] {
      var n := |list| - 1;
      LastStays(list[..n], id);
      assert forall i :: 0 <= i < n ==> list[..n][i] == list[i];
      if list[n].id == id {
        assert exists i :: 0 <= i < |list| && list[i].id == id;
      }
    }
  }

  ghost predicate DistinctIds(list: seq<Record>) {
    forall i, j :: 0 <= i < j < |list| ==> list[i].id != list[j].id
  }

  /** With distinct ids every record is in the index. */
  lemma IndexHolds(list: seq<Record>, r: Record)
    requires DistinctIds(list)
    ensures r in list <==> r.id in IndexOf(list) && IndexOf(list)[r.id] == r
  {
    IndexKeyed(list);
    if r in list {
      var s := IndexOf(list)[r.id];
      var i, j :| 0 <= i < |list| && 0 <= j < |list| && list[i] == r && list[j] == s;
      assert i == j;
    }
  }

  function Ids(rs: seq<Record>): seq<Id> {
    seq(|rs|, i requires 0 <= i < |rs| => rs[i].id)
  }

  lemma IdsAppend(a: seq<Record>, b: seq<Record>)
    ensures Ids(a + b) == Ids(a) + Ids(b)
  {
  }

  /** Records as they are in the index. */
  ghost predicate From(index: Index, rs: seq<Record>) {
    forall r :: r in rs ==> r.id in index && index[r.id] == r
  }

  lemma {:induction false} TimesOfRecord(index: Index, rs: seq<Record>, r: Record)
    requires From(index, rs)
    ensures multiset(rs)[r] == if r.id in index && index[r.id] == r then Times(Ids(rs), r.id) else 0
  {
    if rs != [] {
      var n := |rs| - 1;
      assert rs == rs[..n] + [rs[n]];
      assert Ids(rs) == Ids(rs[..n]) + [rs[n].id];
      TimesOfRecord(index, rs[..n], r);
      assert rs[n] in rs;
    }
  }

  function Childless(children: map<Id, seq<Id>>): Id -> bool {
    id => id in children && children[id] == []
  }

  class Tree {
    const list: seq<Record>
    var index: Index
    var children: map<Id, seq<Id>>
    var roots: seq<Id>

    constructor (list: seq<Record>)
      ensures this.list == list && roots == [] && Ready()
    {
      this.list := list;
      index, children, roots := map[], map[], [];
    }

    ghost function Grown(): Wood
      reads this
    {
      Wood(index, children, roots)
    }

    /** Not grown yet, or grown from the list. */
    ghost predicate Ready()
      reads this
    {
      roots != [] ==> index == IndexOf(list) && Built(Grown())
    }

    /** Some records still to be hung; the others are where they belong. */
    ghost predicate Hung(rest: set<Id>)
      reads this
    {
      && Distinct(roots) && (forall id :: id in roots <==> id in index && id !in rest && IsRoot(index, id))
      && children.Keys == index.Keys
      && (forall p :: p in index ==> Distinct(children[p]))
      && (forall p, id :: p in index ==> (id in children[p] <==> id !in rest && IsChild(index, id, p)))
    }

    /** Copies the records into the index, each with an empty list of children. */
    method Fill()
      modifies this
      ensures index == IndexOf(list) && roots == [] && Hung(index.Keys)
    {
      index, children, roots := map[], map[], [];
      for i := 0 to |list|
        invariant index == IndexOf(list[..i]) && roots == []
        invariant children.Keys == index.Keys && forall p :: p in children ==> children[p] == []
      {
        assert list[..i + 1][..i] == list[..i];
        index := index[list[i].id := list[i]];
        children := children[list[i].id := []];
      }
      assert list[..|list|] == list;
    }

    /** Hangs one record under its parent, or at the top. */
    method Hang(id: Id, ghost rest: set<Id>)
      requires id in rest && rest <= index.Keys && Hung(rest)
      modifies `children, `roots
      ensures Hung(rest - {id})
    {
      var pid := index[id].parent;
      if NoParent(pid) || pid !in index {
        DistinctSnoc(roots, id);
        roots := roots + [id];
      } else {
        DistinctSnoc(children[pid], id);
        children := children[pid := children[pid] + [id]];
      }
    }

    /** Indexes the records, then hangs each under its parent or at the top, in any order. */
    method ToTree()
      modifies this
      ensures index == IndexOf(list) && Built(Grown())
    {
      Fill();
      IndexKeyed(list);
      var rest := index.Keys;
      while rest != {}
        invariant rest <= index.Keys && index == IndexOf(list) && Hung(rest)
        decreases rest
      {
        var id :| id in rest;
        Hang(id, rest);
        rest := rest - {id};
      }
    }

    /** Copies the records of some nodes and of all below them. */
    method Copy(ghost path: seq<Id>, nodes: seq<Id>) returns (out: seq<Record>)
      requires Built(Grown()) && Reached(Grown(), path) && Here(Grown(), path, nodes)
      ensures From(index, out) && Ids(out) == Walk(Grown(), path, nodes)
      decreases index.Keys - (set id | id in path)
    {
      hide Built, Here, Reached, Walk;
      ghost var w := Grown();
      out := [];
      for i := 0 to |nodes|
        invariant From(index, out) && Here(w, path, nodes[i..])
        invariant Ids(out) + Walk(w, path, nodes[i..]) == Walk(w, path, nodes)
      {
        WalkFirst(w, path, nodes[i..]);
        var inner := Copy(path + [nodes[i]], children[nodes[i]]);
        Onward(out, index[nodes[i]], inner, Walk(w, path, nodes[i..][1..]));
        out := out + [index[nodes[i]]] + inner;
        assert nodes[i..][1..] == nodes[i + 1..];
      }
      WalkNothing(w, path, nodes[|nodes|..]);
    }

    /** The nodes below which there is nothing. */
    method CopyLeafs(ghost path: seq<Id>, nodes: seq<Id>) returns (out: seq<Record>)
      requires Built(Grown()) && Reached(Grown(), path) && Here(Grown(), path, nodes)
      ensures From(index, out) && Ids(out) == Filter(Walk(Grown(), path, nodes), Childless(children))
      decreases index.Keys - (set id | id in path)
    {
      hide Built, Here, Reached, Walk, Filter;
      ghost var w := Grown();
      ghost var leaf := Childless(children);
      out := [];
      for i := 0 to |nodes|
        invariant From(index, out) && Here(w, path, nodes[i..])
        invariant Ids(out) + Filter(Walk(w, path, nodes[i..]), leaf) == Filter(Walk(w, path, nodes), leaf)
      {
        WalkFirst(w, path, nodes[i..]);
        var n := nodes[i];
        ghost var below, later := Walk(w, path + [n], children[n]), Walk(w, path, nodes[i..][1..]);
        if |children[n]| == 0 {
          WalkNothing(w, path + [n], children[n]);
          LeafFirst(n, below, later, leaf);
          IdsAppend(out, [index[n]]);
          out := out + [index[n]];
        } else {
          var inner := CopyLeafs(path + [n], children[n]);
          BranchFirst(n, below, later, leaf);
          IdsAppend(out, inner);
          out := out + inner;
        }
        assert nodes[i..][1..] == nodes[i + 1..];
      }
      WalkNothing(w, path, nodes[|nodes|..]);
      FilterNone<Id>([], leaf);
    }

    /** The children of the first node met with an id; None when the walk does not meet it. */
    method Find(ghost path: seq<Id>, nodes: seq<Id>, id: Id) returns (found: Option<seq<Id>>)
      requires Built(Grown()) && Reached(Grown(), path) && Here(Grown(), path, nodes)
      ensures found == if id in Walk(Grown(), path, nodes) && id in children then Some(children[id]) else None
      decreases index.Keys - (set x | x in path)
    {
      hide Built, Here, Reached, Walk;
      ghost var w := Grown();
      for i := 0 to |nodes|
        invariant Here(w, path, nodes[i..])
        invariant id in Walk(w, path, nodes) <==> id in Walk(w, path, nodes[i..])
      {
        WalkFirst(w, path, nodes[i..]);
        if nodes[i] == id {
          return Some(children[id]);
        }
        var res := Find(path + [nodes[i]], children[nodes[i]], id);
        if res.Some? {
          return res;
        }
        assert nodes[i..][1..] == nodes[i + 1..];
        if id !in children {
          return None;
        }
      }
      WalkNothing(w, path, nodes[|nodes|..]);
      return None;
    }

    /**
     * The flat list again: every record whose chain of parents ends exactly once, and no record that
     * is on or below a cycle.
     */
    method Flatten() returns (out: seq<Record>)
      requires Ready()
      modifies this
      ensures Ready()
      ensures Built(Grown()) && From(index, out) && Ids(out) == Walk(Grown(), [], roots)
      ensures DistinctIds(list) ==>
                forall r: Record :: multiset(out)[r] == if r in list && Ends(IndexOf(list), r.id) then 1 else 0
    {
      if |roots| == 0 {
        ToTree();
      }
      WalkIsExact(Grown(), Nil);
      out := Copy([], roots);
      if DistinctIds(list) {
        forall r: Record ensures multiset(out)[r] == if r in list && Ends(IndexOf(list), r.id) then 1 else 0 {
          FlatOnce(list, Grown(), out, r);
        }
      }
    }

    /** The records without children, of those that Flatten returns, in the same order. */
    method Leafs() returns (out: seq<Record>)
      requires Ready()
      modifies this
      ensures Ready()
      ensures Built(Grown()) && From(index, out) && Here(Grown(), [], roots)
      ensures Ids(out) == Filter(Walk(Grown(), [], roots), Childless(children))
      ensures forall r: Record :: r in out <==> IsLeaf(index, r)
    {
      if |roots| == 0 {
        ToTree();
      }
      WalkIsExact(Grown(), Nil);
      out := CopyLeafs([], roots);
      forall r: Record ensures r in out <==> IsLeaf(index, r) {
        LeafIff(Grown(), out, r);
      }
    }

    /** The children of a record the walk reaches. */
    method ChildrenOf(id: Id) returns (found: Option<seq<Id>>)
      requires Ready()
      modifies this
      ensures Ready() && Built(Grown())
      ensures found.Some? <==> id in index && Ends(index, id)
      ensures found.Some? ==> Distinct(found.value) && forall c :: c in found.value <==> IsChild(index, c, id)
    {
      if |roots| == 0 {
        ToTree();
      }
      WalkIsExact(Grown(), id);
      found := Find([], roots, id);
    }
  }

  lemma WalkNothing(w: Wood, path: seq<Id>, nodes: seq<Id>)
    requires Built(w) && Reached(w, path) && nodes == []
    ensures Here(w, path, nodes) && Walk(w, path, nodes) == []
  {
  }

  /** The ids of records put behind others, in front of what is still to come. */
  lemma Onward(out: seq<Record>, r: Record, inner: seq<Record>, later: seq<Id>)
    ensures Ids(out) + ([r.id] + Ids(inner) + later) == Ids(out + [r] + inner) + later
  {
    IdsAppend(out, [r]);
    IdsAppend(out + [r], inner);
  }

  lemma LeafFirst(n: Id, below: seq<Id>, later: seq<Id>, leaf: Id -> bool)
    requires leaf(n) && below == []
    ensures Filter([n] + below + later, leaf) == [n] + Filter(later, leaf)
  {
    assert [n] + below + later == [n] + later;
    FilterConcat([n], later, leaf);
    FilterSnoc([], n, leaf);
    assert [] + [n] == [n];
  }

  lemma BranchFirst(n: Id, below: seq<Id>, later: seq<Id>, leaf: Id -> bool)
    requires !leaf(n)
    ensures Filter([n] + below + later, leaf) == Filter(below, leaf) + Filter(later, leaf)
  {
    FilterConcat([n] + below, later, leaf);
    FilterConcat([n], below, leaf);
    FilterNone([n], leaf);
    assert [] + Filter(below, leaf) == Filter(below, leaf);
  }

  lemma InById(index: Index, out: seq<Record>, r: Record)
    requires From(index, out)
    ensures r in out <==> r.id in index && index[r.id] == r && r.id in Ids(out)
  {
    if r in out {
      var i :| 0 <= i < |out| && out[i] == r;
      assert Ids(out)[i] == r.id;
    }
    if r.id in index && index[r.id] == r && r.id in Ids(out) {
      var i :| 0 <= i < |out| && Ids(out)[i] == r.id;
      assert out[i] in out;
    }
  }

  lemma NoChildren(w: Wood, id: Id)
    requires Built(w) && id in w.index
    ensures Childless(w.children)(id) <==> !exists c :: IsChild(w.index, c, id)
  {
    if w.children[id] != [] {
      assert w.children[id][0] in w.children[id];
    }
  }

  /** A record whose chain of parents ends and that is nobody's parent. */
  ghost predicate IsLeaf(index: Index, r: Record) {
    r.id in index && index[r.id] == r && Ends(index, r.id) && !exists id :: IsChild(index, id, r.id)
  }

  lemma LeafIff(w: Wood, out: seq<Record>, r: Record)
    requires Built(w) && From(w.index, out) && Here(w, [], w.roots)
    requires Ids(out) == Filter(Walk(w, [], w.roots), Childless(w.children))
    ensures r in out <==> IsLeaf(w.index, r)
  {
    WalkIsExact(w, r.id);
    FilterElements(Walk(w, [], w.roots), Childless(w.children));
    InById(w.index, out, r);
    hide Walk, Built, From, Filter, Ids, Ends, Here;
    if r.id in w.index {
      NoChildren(w, r.id);
    }
  }

  lemma FlatOnce(list: seq<Record>, w: Wood, out: seq<Record>, r: Record)
    requires DistinctIds(list) && w.index == IndexOf(list) && Built(w) && From(w.index, out)
    requires Here(w, [], w.roots) && Ids(out) == Walk(w, [], w.roots)
    ensures multiset(out)[r] == if r in list && Ends(IndexOf(list), r.id) then 1 else 0
  {
    TimesOfRecord(w.index, out, r);
    WalkIsExact(w, r.id);
    IndexHolds(list, r);
  }
}
