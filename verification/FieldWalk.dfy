/** Walking the fields of a struct type and of the types embedded in it: collectFields. */
module FieldWalk {
  import opened Sequences
  import opened TagTokenizer
  import opened FieldTag

  type TypeId = nat

  /**
   * A struct field; target is the struct type it holds, behind any number of pointers, if it holds one,
   * and fault the first error in the field's rel, gorm, ext and sd tags, if there is one.
   */
  datatype FieldDecl = FieldDecl(name: string, exported: bool, anonymous: bool, tag: string, target: Option<TypeId>,
                                 fault: Option<string>)

  type Graph = map<TypeId, seq<FieldDecl>>

  datatype Entry = Entry(name: string, path: seq<nat>, meta: FieldMeta)

  datatype WalkError =
    | BadTag(name: string, why: TagError)
    | BadOther(name: string, what: string)
    | Cycle(name: string, of: TypeId)

  /** Embedded types are themselves in the graph. */
  ghost predicate Closed(g: Graph) {
    forall t, i :: t in g && 0 <= i < |g[t]| && g[t][i].target.Some? ==> g[t][i].target.value in g
  }

  /** A field's parsed tag; a blank tag is no tag. */
  function TagOf(f: FieldDecl): Option<Result<FieldMeta, TagError>> {
    if TrimSpace(f.tag) == "" then None else Some(ParseTag(TrimSpace(f.tag)))
  }

  predicate Parses(f: FieldDecl) {
    TagOf(f).None? || TagOf(f).value.Ok?
  }

  function MetaOf(f: FieldDecl): Option<FieldMeta>
    requires Parses(f)
  {
    if TagOf(f).None? then None else Some(TagOf(f).value.value)
  }

  /** Whether the walk goes into the field's type. */
  predicate Expands(f: FieldDecl)
    requires Parses(f)
  {
    var m := MetaOf(f);
    var embedTag := m.Some? && Embedded in m.value.flags && Ignored !in m.value.flags;
    f.target.Some? && if f.anonymous then m.None? || embedTag else embedTag
  }

  /** The prefix for the columns of the fields of an embedded type. */
  function Inner(f: FieldDecl, prefix: string): string
    requires Parses(f)
  {
    prefix + if MetaOf(f).Some? then MetaOf(f).value.extendsPrefix else ""
  }

  function Prefixed(m: FieldMeta, prefix: string): FieldMeta {
    if prefix != "" && m.columnName != "" then m.(columnName := prefix + m.columnName) else m
  }

  /** What a field itself adds to the list. */
  function Own(f: FieldDecl, path: seq<nat>, prefix: string): seq<Entry>
    requires Parses(f)
  {
    match MetaOf(f)
    case None => []
    case Some(m) => [Entry(f.name, path, if Expands(f) then m else Prefixed(m, prefix))]
  }

  /** No tag of the field ends the walk; the other tags are looked at only where it does not go on inside. */
  predicate GoodTag(f: FieldDecl) {
    Parses(f) && (Expands(f) || f.fault.None?)
  }

  function Fault(f: FieldDecl): WalkError
    requires !GoodTag(f)
  {
    if Parses(f) then BadOther(f.name, f.fault.value) else BadTag(f.name, TagOf(f).value.error)
  }

  /** The entries of the fields from index i on, in order, or the first error. */
  function Collect(g: Graph, t: TypeId, i: nat, path: seq<nat>, prefix: string, visiting: set<TypeId>)
    : Result<seq<Entry>, WalkError>
    requires Closed(g) && t in g && i <= |g[t]|
    decreases g.Keys - visiting, |g[t]| - i
  {
    if i == |g[t]| then Ok([])
    else
      var f := g[t][i];
      if !f.exported then Collect(g, t, i + 1, path, prefix, visiting)
      else if !GoodTag(f) then Err(Fault(f))
      else if Expands(f) then
        var u := f.target.value;
        if u in visiting then Err(Cycle(f.name, u))
        else
          var inner := Collect(g, u, 0, path + [i], Inner(f, prefix), visiting + {u});
          if inner.Err? then inner
          else Behind(Own(f, path + [i], prefix) + inner.value, Collect(g, t, i + 1, path, prefix, visiting))
      else Behind(Own(f, path + [i], prefix), Collect(g, t, i + 1, path, prefix, visiting))
  }

  function Behind(before: seq<Entry>, rest: Result<seq<Entry>, WalkError>): Result<seq<Entry>, WalkError> {
    if rest.Err? then rest else Ok(before + rest.value)
  }

  function CollectAll(g: Graph, root: TypeId): Result<seq<Entry>, WalkError>
    requires Closed(g) && root in g
  {
    Collect(g, root, 0, [], "", {root})
  }

  lemma BehindTwice(a: seq<Entry>, b: seq<Entry>, r: Result<seq<Entry>, WalkError>)
    ensures Behind(a, Behind(b, r)) == Behind(a + b, r) && Behind([], r) == r
  {
    if r.Ok? {
      assert a + (b + r.value) == a + b + r.value && [] + r.value == r.value;
    }
  }

  /** The list being filled and the set of types on the way down. */
  class Walk {
    var fields: seq<Entry>
    var visiting: set<TypeId>

    constructor (root: TypeId)
      ensures fields == [] && visiting == {root}
    {
      fields, visiting := [], {root};
    }

    method CollectFields(g: Graph, t: TypeId, path: seq<nat>, prefix: string) returns (err: Option<WalkError>)
      requires Closed(g) && t in g
      modifies this
      ensures visiting == old(visiting)
      ensures var r := Collect(g, t, 0, path, prefix, old(visiting));
        if r.Ok? then err == None && fields == old(fields) + r.value else err == Some(r.error)
      decreases g.Keys - visiting
    {
      hide TagOf, Own;
      ghost var all := Collect(g, t, 0, path, prefix, visiting);
      ghost var done := [];
      BehindTwice([], [], all);
      var i := 0;
      while i < |g[t]|
        invariant i <= |g[t]| && visiting == old(visiting)
        invariant fields == old(fields) + done
        invariant Behind(done, Collect(g, t, i, path, prefix, visiting)) == all
      {
        var f := g[t][i];
        ghost var rest := Collect(g, t, i + 1, path, prefix, visiting);
        if f.exported {
          if !Parses(f) {
            return Some(BadTag(f.name, TagOf(f).value.error));
          }
          if Expands(f) {
            var u := f.target.value;
            if u in visiting {
              return Some(Cycle(f.name, u));
            }
            fields := fields + Own(f, path + [i], prefix);
            visiting := visiting + {u};
            ghost var inner := Collect(g, u, 0, path + [i], Inner(f, prefix), visiting);
            err := CollectFields(g, u, path + [i], Inner(f, prefix));
            visiting := visiting - {u};
            if err.Some? {
              return;
            }
            BehindTwice(done, Own(f, path + [i], prefix) + inner.value, rest);
            done := done + (Own(f, path + [i], prefix) + inner.value);
          } else {
            fields := fields + Own(f, path + [i], prefix);
            if f.fault.Some? {
              return Some(BadOther(f.name, f.fault.value));
            }
            BehindTwice(done, Own(f, path + [i], prefix), rest);
            done := done + Own(f, path + [i], prefix);
          }
        }
        i := i + 1;
      }
      err := None;
    }
  }

  // ---- what is in the list -----------------------------------------------------------------------

  /** The entry of the field that a path of indices leads to from type t, if there is one. */
  function Described(g: Graph, t: TypeId, q: seq<nat>, prefix: string): Option<(string, FieldMeta)>
    decreases |q|
  {
    if q == [] || t !in g || q[0] >= |g[t]| then None
    else
      var f := g[t][q[0]];
      if !f.exported || !GoodTag(f) then None
      else if |q| == 1 then
        match MetaOf(f)
        case None => None
        case Some(m) => Some((f.name, if Expands(f) then m else Prefixed(m, prefix)))
      else if Expands(f) then Described(g, f.target.value, q[1..], Inner(f, prefix))
      else None
  }

  /** p and q agree up to n, where p ends or turns off to the left of q. */
  predicate Turns(p: seq<nat>, q: seq<nat>, n: nat) {
    n <= |p| && n < |q| && p[..n] == q[..n] && (n == |p| || p[n] < q[n])
  }

  /** p comes before q in a depth-first walk. */
  ghost predicate Before(p: seq<nat>, q: seq<nat>) {
    exists n :: Turns(p, q, n)
  }

  /** p leads through path to a field with an index from lo up to hi, and further down. */
  predicate Below(path: seq<nat>, lo: nat, hi: nat, p: seq<nat>) {
    |path| < |p| && p[..|path|] == path && lo <= p[|path|] < hi
  }

  /** An entry says what its path, below the given one, leads to. */
  predicate Says(g: Graph, t: TypeId, path: seq<nat>, prefix: string, e: Entry) {
    |path| <= |e.path| && Described(g, t, e.path[|path|..], prefix) == Some((e.name, e.meta))
  }

  predicate Held(p: seq<nat>, es: seq<Entry>) {
    exists k :: 0 <= k < |es| && es[k].path == p
  }

  /** es are the entries of fields lo up to hi of type t and of what they embed: no others, all of them, in order. */
  ghost predicate Exact(g: Graph, t: TypeId, lo: nat, hi: nat, path: seq<nat>, prefix: string, es: seq<Entry>) {
    && (forall k :: 0 <= k < |es| ==> Below(path, lo, hi, es[k].path) && Says(g, t, path, prefix, es[k]))
    && (forall q: seq<nat> :: q != [] && lo <= q[0] < hi && Described(g, t, q, prefix).Some? ==> Held(path + q, es))
    && (forall j, k :: 0 <= j < k < |es| ==> Before(es[j].path, es[k].path))
  }

  lemma HeldInParts(p: seq<nat>, a: seq<Entry>, b: seq<Entry>)
    requires Held(p, a) || Held(p, b)
    ensures Held(p, a + b)
  {
    if Held(p, a) {
      var k :| 0 <= k < |a| && a[k].path == p;
      assert (a + b)[k].path == p;
    } else {
      var k :| 0 <= k < |b| && b[k].path == p;
      assert (a + b)[|a| + k].path == p;
    }
  }

  lemma BeforeFromLeft(path: seq<nat>, p: seq<nat>, q: seq<nat>, lo: nat, mid: nat, hi: nat)
    requires Below(path, lo, mid, p) && Below(path, mid, hi, q)
    ensures Before(p, q)
  {
    assert Turns(p, q, |path|);
  }

  lemma Join(g: Graph, t: TypeId, lo: nat, mid: nat, hi: nat,
             path: seq<nat>, prefix: string, a: seq<Entry>, b: seq<Entry>)
    requires lo <= mid <= hi && Exact(g, t, lo, mid, path, prefix, a) && Exact(g, t, mid, hi, path, prefix, b)
    ensures Exact(g, t, lo, hi, path, prefix, a + b)
  {
    hide Described;
    forall q: seq<nat> | q != [] && lo <= q[0] < hi && Described(g, t, q, prefix).Some?
      ensures Held(path + q, a + b)
    {
      HeldInParts(path + q, a, b);
    }
    forall j, k | 0 <= j < k < |a + b| ensures Before((a + b)[j].path, (a + b)[k].path) {
      if j < |a| <= k {
        BeforeFromLeft(path, a[j].path, b[k - |a|].path, lo, mid, hi);
      }
    }
  }

  lemma Nothing(g: Graph, t: TypeId, i: nat, path: seq<nat>, prefix: string)
    requires t in g && i < |g[t]| && (!g[t][i].exported || !GoodTag(g[t][i]))
    ensures Exact(g, t, i, i + 1, path, prefix, [])
  {
  }

  lemma Leaf(g: Graph, t: TypeId, i: nat, path: seq<nat>, prefix: string)
    requires t in g && i < |g[t]| && g[t][i].exported && GoodTag(g[t][i]) && !Expands(g[t][i])
    ensures Exact(g, t, i, i + 1, path, prefix, Own(g[t][i], path + [i], prefix))
  {
    hide TagOf;
    var f, own := g[t][i], Own(g[t][i], path + [i], prefix);
    forall q: seq<nat> | q != [] && i <= q[0] < i + 1 && Described(g, t, q, prefix).Some? ensures Held(path + q, own) {
      assert q == [i];
      assert own[0].path == path + [i];
    }
    if own != [] {
      assert own[0].path[|path|..] == [i];
    }
  }

  /** The entries below an embedded type, seen from the type that embeds it. */
  lemma Up(g: Graph, t: TypeId, i: nat, path: seq<nat>, prefix: string, e: Entry)
    requires Closed(g) && t in g && i < |g[t]| && g[t][i].exported && GoodTag(g[t][i]) && Expands(g[t][i])
    requires var u := g[t][i].target.value;
      Below(path + [i], 0, |g[u]|, e.path) && Says(g, u, path + [i], Inner(g[t][i], prefix), e)
    ensures Below(path, i, i + 1, e.path) && Says(g, t, path, prefix, e)
  {
    hide TagOf;
    var n := |path|;
    assert e.path[..n] == e.path[..n + 1][..n];
    assert e.path[n] == e.path[..n + 1][n];
    assert e.path[n..][1..] == e.path[n + 1..];
  }

  /** A field whose type is walked into, and the entries that walk gives. */
  ghost predicate Expanded(g: Graph, t: TypeId, i: nat, path: seq<nat>, prefix: string, inner: seq<Entry>) {
    && Closed(g) && t in g && i < |g[t]| && g[t][i].exported && GoodTag(g[t][i]) && Expands(g[t][i])
    && var u := g[t][i].target.value;
       Exact(g, u, 0, |g[u]|, path + [i], Inner(g[t][i], prefix), inner)
  }

  lemma OwnSays(g: Graph, t: TypeId, i: nat, path: seq<nat>, prefix: string, e: Entry)
    requires t in g && i < |g[t]| && g[t][i].exported && GoodTag(g[t][i]) && e in Own(g[t][i], path + [i], prefix)
    ensures e.path == path + [i] && Below(path, i, i + 1, e.path) && Says(g, t, path, prefix, e)
  {
    hide TagOf;
    assert e.path[|path|..] == [i];
  }

  lemma ExpandedHolds(g: Graph, t: TypeId, i: nat, path: seq<nat>, prefix: string, inner: seq<Entry>, q: seq<nat>)
    requires Expanded(g, t, i, path, prefix, inner)
    requires q != [] && q[0] == i && Described(g, t, q, prefix).Some?
    ensures Held(path + q, Own(g[t][i], path + [i], prefix) + inner)
  {
    hide TagOf;
    var f := g[t][i];
    var own, u := Own(f, path + [i], prefix), f.target.value;
    if |q| == 1 {
      assert q == [i];
      assert own[0].path == path + q;
    } else {
      assert path + q == path + [i] + q[1..];
      assert Described(g, u, q[1..], Inner(f, prefix)).Some?;
      assert Held(path + [i] + q[1..], inner);
    }
    HeldInParts(path + q, own, inner);
  }

  lemma ExpandedSays(g: Graph, t: TypeId, i: nat, path: seq<nat>, prefix: string, inner: seq<Entry>, e: Entry)
    requires Expanded(g, t, i, path, prefix, inner) && e in Own(g[t][i], path + [i], prefix) + inner
    ensures Below(path, i, i + 1, e.path) && Says(g, t, path, prefix, e)
  {
    hide TagOf, Own, Described, Inner, Says, Below;
    if e in inner {
      var k :| 0 <= k < |inner| && inner[k] == e;
      Up(g, t, i, path, prefix, inner[k]);
    } else {
      OwnSays(g, t, i, path, prefix, e);
    }
  }

  lemma ExpandedOrder(path: seq<nat>, i: nat, n: nat, own: seq<Entry>, inner: seq<Entry>)
    requires |own| <= 1 && (own != [] ==> own[0].path == path + [i])
    requires forall k :: 0 <= k < |inner| ==> Below(path + [i], 0, n, inner[k].path)
    requires forall j, k :: 0 <= j < k < |inner| ==> Before(inner[j].path, inner[k].path)
    ensures var es := own + inner; forall j, k :: 0 <= j < k < |es| ==> Before(es[j].path, es[k].path)
  {
    forall k | own != [] && 0 <= k < |inner| ensures Before(own[0].path, inner[k].path) {
      assert Turns(path + [i], inner[k].path, |path| + 1);
    }
  }

  lemma Expansion(g: Graph, t: TypeId, i: nat, path: seq<nat>, prefix: string, inner: seq<Entry>)
    requires Expanded(g, t, i, path, prefix, inner)
    ensures Exact(g, t, i, i + 1, path, prefix, Own(g[t][i], path + [i], prefix) + inner)
  {
    var own := Own(g[t][i], path + [i], prefix);
    ExpandedOrder(path, i, |g[g[t][i].target.value]|, own, inner);
    hide TagOf, Own, Described, Inner, Says, Below, Before;
    var es := own + inner;
    forall k | 0 <= k < |es| ensures Below(path, i, i + 1, es[k].path) && Says(g, t, path, prefix, es[k]) {
      ExpandedSays(g, t, i, path, prefix, inner, es[k]);
    }
    forall q: seq<nat> | q != [] && i <= q[0] < i + 1 && Described(g, t, q, prefix).Some? ensures Held(path + q, es) {
      ExpandedHolds(g, t, i, path, prefix, inner, q);
    }
  }

  /** The list holds exactly what the paths lead to, in the order of the walk. */
  lemma {:induction false} CollectExact(g: Graph, t: TypeId, i: nat,
    path: seq<nat>, prefix: string, visiting: set<TypeId>)
    requires Closed(g) && t in g && i <= |g[t]| && Collect(g, t, i, path, prefix, visiting).Ok?
    ensures Exact(g, t, i, |g[t]|, path, prefix, Collect(g, t, i, path, prefix, visiting).value)
    decreases g.Keys - visiting, |g[t]| - i
  {
    hide TagOf, Own, Described;
    if i < |g[t]| {
      var f, n := g[t][i], |g[t]|;
      CollectExact(g, t, i + 1, path, prefix, visiting);
      var rest := Collect(g, t, i + 1, path, prefix, visiting).value;
      if !f.exported {
        Nothing(g, t, i, path, prefix);
        Join(g, t, i, i + 1, n, path, prefix, [], rest);
        assert [] + rest == rest;
      } else if Expands(f) {
        var u := f.target.value;
        CollectExact(g, u, 0, path + [i], Inner(f, prefix), visiting + {u});
        var inner := Collect(g, u, 0, path + [i], Inner(f, prefix), visiting + {u}).value;
        Expansion(g, t, i, path, prefix, inner);
        Join(g, t, i, i + 1, n, path, prefix, Own(f, path + [i], prefix) + inner, rest);
      } else {
        Leaf(g, t, i, path, prefix);
        Join(g, t, i, i + 1, n, path, prefix, Own(f, path + [i], prefix), rest);
      }
    }
  }

  /** The field a path leads to, and the prefixes of the fields on the way. */
  function FieldAt(g: Graph, t: TypeId, q: seq<nat>): Option<(FieldDecl, string)>
    decreases |q|
  {
    if q == [] || t !in g || q[0] >= |g[t]| then None
    else
      var f := g[t][q[0]];
      if !f.exported || !GoodTag(f) then None
      else if |q| == 1 then Some((f, ""))
      else if !Expands(f) then None
      else
        match FieldAt(g, f.target.value, q[1..])
        case None => None
        case Some((leaf, between)) => Some((leaf, Inner(f, "") + between))
  }

  /** An entry is its field's own meta; a leaf's column name has all enclosing prefixes before it. */
  lemma {:induction false} DescribedIsField(g: Graph, t: TypeId, q: seq<nat>, prefix: string)
    ensures var at := FieldAt(g, t, q);
      if at.None? || !GoodTag(at.value.0) || MetaOf(at.value.0).None? then Described(g, t, q, prefix).None?
      else
        var (f, between) := at.value;
        var m := MetaOf(f).value;
        Described(g, t, q, prefix) ==
        Some((f.name, if Expands(f) || m.columnName == "" then m
              else m.(columnName := prefix + between + m.columnName)))
    decreases |q|
  {
    hide TagOf;
    if q != [] && t in g && q[0] < |g[t]| && g[t][q[0]].exported && GoodTag(g[t][q[0]]) {
      var f := g[t][q[0]];
      if |q| == 1 {
        assert prefix + "" == prefix && forall s: string :: "" + s == s;
      } else if Expands(f) {
        DescribedIsField(g, f.target.value, q[1..], Inner(f, prefix));
        var at := FieldAt(g, f.target.value, q[1..]);
        if at.Some? {
          assert Inner(f, prefix) + at.value.1 == prefix + (Inner(f, "") + at.value.1);
        }
      }
    }
  }

  /**
   * A list that is returned has an entry for every path to an exported field with a tag, and no other
   * entry; no two have the same path.
   */
  lemma ListIsExact(g: Graph, root: TypeId)
    requires Closed(g) && root in g && CollectAll(g, root).Ok?
    ensures var es := CollectAll(g, root).value;
      && (forall k :: 0 <= k < |es| ==> Described(g, root, es[k].path, "") == Some((es[k].name, es[k].meta)))
      && (forall q: seq<nat> :: Described(g, root, q, "").Some? ==> Held(q, es))
      && (forall j, k :: 0 <= j < k < |es| ==> Before(es[j].path, es[k].path) && es[j].path != es[k].path)
  {
    var es := CollectAll(g, root).value;
    CollectExact(g, root, 0, [], "", {root});
    hide TagOf;
    forall k | 0 <= k < |es| ensures Described(g, root, es[k].path, "") == Some((es[k].name, es[k].meta)) {
      assert Says(g, root, [], "", es[k]);
      assert es[k].path[0..] == es[k].path;
    }
    forall q: seq<nat> | Described(g, root, q, "").Some? ensures Held(q, es) {
      assert [] + q == q;
    }
  }

  // ---- when there is no list -----------------------------------------------------------------------

  predicate EmbedsAt(g: Graph, a: TypeId, i: nat, b: TypeId)
    requires a in g && i < |g[a]|
  {
    var f := g[a][i];
    f.exported && GoodTag(f) && Expands(f) && f.target == Some(b)
  }

  predicate Embeds(g: Graph, a: TypeId, b: TypeId) {
    a in g && exists i :: 0 <= i < |g[a]| && EmbedsAt(g, a, i, b)
  }

  predicate HasBadTag(g: Graph, t: TypeId) {
    t in g && exists i :: 0 <= i < |g[t]| && g[t][i].exported && !GoodTag(g[t][i])
  }

  /** Types that embed one another in turn, from root on. */
  predicate Chain(g: Graph, root: TypeId, w: seq<TypeId>) {
    w != [] && w[0] == root && forall k :: 0 <= k < |w| - 1 ==> Embeds(g, w[k], w[k + 1])
  }

  predicate Repeats(w: seq<TypeId>) {
    exists j, k :: 0 <= j < k < |w| && w[j] == w[k]
  }

  function Last(w: seq<TypeId>): TypeId
    requires w != []
  {
    w[|w| - 1]
  }

  function OnStack(w: seq<TypeId>): set<TypeId> {
    set t | t in w
  }

  lemma ChainGrows(g: Graph, root: TypeId, w: seq<TypeId>, i: nat, u: TypeId)
    requires Chain(g, root, w) && Last(w) in g && i < |g[Last(w)]| && EmbedsAt(g, Last(w), i, u)
    ensures Chain(g, root, w + [u]) && OnStack(w + [u]) == OnStack(w) + {u}
    ensures u in OnStack(w) ==> Repeats(w + [u])
  {
    hide TagOf, Expands;
    var v := w + [u];
    assert Embeds(g, Last(w), u);
    if u in w {
      var j :| 0 <= j < |w| && w[j] == u;
      assert v[j] == v[|w|];
    }
  }

  /** Where an error of the walk comes from: the field at hand, the type it embeds, or a later field. */
  lemma ErrorAt(g: Graph, t: TypeId, i: nat, path: seq<nat>, prefix: string, visiting: set<TypeId>)
    requires Closed(g) && t in g && i <= |g[t]| && Collect(g, t, i, path, prefix, visiting).Err?
    ensures i < |g[t]|
    ensures var f, e := g[t][i], Collect(g, t, i, path, prefix, visiting).error;
      if f.exported && !GoodTag(f) then !e.Cycle?
      else if f.exported && Expands(f) && f.target.value in visiting then e == Cycle(f.name, f.target.value)
      else if f.exported && Expands(f) && Collect(g, f.target.value, 0, path + [i], Inner(f, prefix),
                                                  visiting + {f.target.value}).Err? then
        e == Collect(g, f.target.value, 0, path + [i], Inner(f, prefix), visiting + {f.target.value}).error
      else Collect(g, t, i + 1, path, prefix, visiting) == Err(e)
  {
    hide TagOf, Own, Inner;
  }

  /** An error names a chain of types that comes back to itself, or one that ends at a bad tag. */
  lemma {:induction false} ErrorHasCause(g: Graph, root: TypeId, w: seq<TypeId>, i: nat, path: seq<nat>, prefix: string)
    returns (v: seq<TypeId>)
    requires Closed(g) && Chain(g, root, w) && Last(w) in g && i <= |g[Last(w)]|
    requires Collect(g, Last(w), i, path, prefix, OnStack(w)).Err?
    ensures var e := Collect(g, Last(w), i, path, prefix, OnStack(w)).error;
      Chain(g, root, v) && if e.Cycle? then Repeats(v) && Last(v) == e.of else HasBadTag(g, Last(v))
    decreases g.Keys - OnStack(w), |g[Last(w)]| - i
  {
    var t := Last(w);
    hide TagOf, Own, Inner, OnStack, Collect, Chain, Repeats;
    ErrorAt(g, t, i, path, prefix, OnStack(w));
    var f := g[t][i];
    if f.exported && !GoodTag(f) {
      v := w;
    } else if f.exported && Expands(f) {
      var u := f.target.value;
      assert EmbedsAt(g, t, i, u);
      ChainGrows(g, root, w, i, u);
      if u in OnStack(w) {
        v := w + [u];
      } else if Collect(g, u, 0, path + [i], Inner(f, prefix), OnStack(w) + {u}).Err? {
        v := ErrorHasCause(g, root, w + [u], 0, path + [i], Inner(f, prefix));
      } else {
        v := ErrorHasCause(g, root, w, i + 1, path, prefix);
      }
    } else {
      v := ErrorHasCause(g, root, w, i + 1, path, prefix);
    }
  }

  /** A list that is returned has gone through every field. */
  lemma {:induction false} ListPassed(g: Graph, t: TypeId, i: nat, j: nat,
    path: seq<nat>, prefix: string, visiting: set<TypeId>)
    requires Closed(g) && t in g && i <= j < |g[t]| && g[t][j].exported && Collect(g, t, i, path, prefix, visiting).Ok?
    ensures GoodTag(g[t][j])
    ensures Expands(g[t][j]) ==>
      var u := g[t][j].target.value;
      u !in visiting && Collect(g, u, 0, path + [j], Inner(g[t][j], prefix), visiting + {u}).Ok?
    decreases j - i
  {
    hide TagOf, Own, Inner;
    if i < j {
      ListPassed(g, t, i + 1, j, path, prefix, visiting);
    }
  }

  lemma {:induction false} ListMeansClean(
    g: Graph, t: TypeId, path: seq<nat>, prefix: string, visiting: set<TypeId>, w: seq<TypeId>)
    requires Closed(g) && t in g && t in visiting && Collect(g, t, 0, path, prefix, visiting).Ok? && Chain(g, t, w)
    ensures !Repeats(w) && !HasBadTag(g, Last(w)) && forall k :: 1 <= k < |w| ==> w[k] !in visiting
    decreases |w|
  {
    hide TagOf, Own, Inner;
    if |w| == 1 {
      forall i | 0 <= i < |g[t]| && g[t][i].exported ensures GoodTag(g[t][i]) {
        ListPassed(g, t, 0, i, path, prefix, visiting);
      }
    } else {
      assert Embeds(g, w[0], w[1]);
      var i :| 0 <= i < |g[t]| && EmbedsAt(g, t, i, w[1]);
      ListPassed(g, t, 0, i, path, prefix, visiting);
      ListMeansClean(g, w[1], path + [i], Inner(g[t][i], prefix), visiting + {w[1]}, w[1..]);
      assert Last(w[1..]) == Last(w);
      assert forall k :: 2 <= k < |w| ==> w[k] == w[1..][k - 1];
    }
  }

  /**
   * Collecting ends with a list exactly when no chain of embedded types from the root comes back to
   * itself or meets a bad tag; with good tags every error is a cycle.
   */
  lemma CycleIff(g: Graph, root: TypeId)
    requires Closed(g) && root in g
    ensures CollectAll(g, root).Ok? <==>
            forall w :: Chain(g, root, w) ==> !Repeats(w) && !HasBadTag(g, Last(w))
    ensures (forall t :: !HasBadTag(g, t)) ==>
            ((CollectAll(g, root).Err? && CollectAll(g, root).error.Cycle?) <==>
             exists w :: Chain(g, root, w) && Repeats(w))
  {
    hide TagOf, Own, Inner, Collect;
    if CollectAll(g, root).Ok? {
      forall w | Chain(g, root, w) ensures !Repeats(w) && !HasBadTag(g, Last(w)) {
        ListMeansClean(g, root, [], "", {root}, w);
      }
    } else {
      assert OnStack([root]) == {root};
      var v := ErrorHasCause(g, root, [root], 0, [], "");
    }
  }
}
