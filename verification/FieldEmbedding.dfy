/** What an embedded field contributes to the list of fields, read off the field itself. */
module FieldEmbedding {
  import opened Sequences
  import opened TagTokenizer
  import opened FieldTag
  import opened FieldWalk

  /** The field's orm tag is blank. */
  predicate Untagged(f: FieldDecl) {
    TrimSpace(f.tag) == ""
  }

  /** A struct that is embedded without a tag, or a struct whose tag says extends and is not ignored. */
  predicate WalkedInto(f: FieldDecl) {
    f.target.Some? &&
    if Untagged(f) then f.anonymous
    else
      var m := ParseTag(TrimSpace(f.tag));
      m.Ok? && Embedded in m.value.flags && Ignored !in m.value.flags
  }

  /** The text an embedded field puts before the columns of its fields. */
  function PrefixOf(f: FieldDecl): string {
    if Untagged(f) || ParseTag(TrimSpace(f.tag)).Err? then "" else ParseTag(TrimSpace(f.tag)).value.extendsPrefix
  }

  lemma WalkedIff(f: FieldDecl)
    requires GoodTag(f)
    ensures Expands(f) <==> WalkedInto(f)
    ensures Inner(f, "") == PrefixOf(f)
  {
    hide ParseTag;
    assert "" + "" == "";
    if !Untagged(f) {
      assert "" + PrefixOf(f) == PrefixOf(f);
    }
  }

  /** The entry a list has for a path. */
  ghost function EntryAt(es: seq<Entry>, q: seq<nat>): Option<(string, FieldMeta)> {
    if Held(q, es) then
      var k :| 0 <= k < |es| && es[k].path == q;
      Some((es[k].name, es[k].meta))
    else None
  }

  lemma ListDescribes(g: Graph, root: TypeId, q: seq<nat>)
    requires Closed(g) && root in g && CollectAll(g, root).Ok?
    ensures EntryAt(CollectAll(g, root).value, q) == Described(g, root, q, "")
  {
    ListIsExact(g, root);
    hide TagOf, CollectAll, Described;
    var es := CollectAll(g, root).value;
    if Held(q, es) {
      var k :| 0 <= k < |es| && es[k].path == q;
      assert Described(g, root, es[k].path, "") == Some((es[k].name, es[k].meta));
    }
  }

  /** The field a path of indices leads to, whatever the tags on the way. */
  function FieldOn(g: Graph, t: TypeId, q: seq<nat>): Option<FieldDecl>
    decreases |q|
  {
    if q == [] || t !in g || q[0] >= |g[t]| then None
    else if |q| == 1 then Some(g[t][q[0]])
    else if g[t][q[0]].target.None? then None
    else FieldOn(g, g[t][q[0]].target.value, q[1..])
  }

  lemma {:induction false} SameField(g: Graph, t: TypeId, q: seq<nat>)
    ensures FieldAt(g, t, q).Some? ==> FieldOn(g, t, q) == Some(FieldAt(g, t, q).value.0)
    decreases |q|
  {
    hide TagOf;
    if |q| > 1 && t in g && q[0] < |g[t]| && g[t][q[0]].target.Some? {
      SameField(g, g[t][q[0]].target.value, q[1..]);
    }
  }

  /** An entry seen from outside: the explicit column of a field that is not walked into gets the prefix. */
  function Moved(f: Option<FieldDecl>, prefix: string, m: FieldMeta): FieldMeta {
    if m.columnName == "" || f.None? || WalkedInto(f.value) then m else m.(columnName := prefix + m.columnName)
  }

  function MovedEntry(f: Option<FieldDecl>, prefix: string, e: Option<(string, FieldMeta)>)
    : Option<(string, FieldMeta)>
  {
    match e
    case None => None
    case Some((name, m)) => Some((name, Moved(f, prefix, m)))
  }

  lemma PrefixMoves(g: Graph, t: TypeId, q: seq<nat>, prefix: string)
    ensures Described(g, t, q, prefix) == MovedEntry(FieldOn(g, t, q), prefix, Described(g, t, q, ""))
  {
    DescribedIsField(g, t, q, prefix);
    DescribedIsField(g, t, q, "");
    SameField(g, t, q);
    hide Described, TagOf, ParseTag;
    var at := FieldAt(g, t, q);
    if at.Some? && GoodTag(at.value.0) && MetaOf(at.value.0).Some? {
      WalkedIff(at.value.0);
      var between, column := at.value.1, MetaOf(at.value.0).value.columnName;
      assert prefix + between + column == prefix + ("" + between + column);
    }
  }

  lemma ChainLonger(g: Graph, t: TypeId, u: TypeId, w: seq<TypeId>)
    requires Embeds(g, t, u) && Chain(g, u, w)
    ensures Chain(g, t, [t] + w) && Last([t] + w) == Last(w) && (Repeats(w) ==> Repeats([t] + w))
  {
    hide Embeds;
    var v := [t] + w;
    forall k | 0 <= k < |v| - 1 ensures Embeds(g, v[k], v[k + 1]) {
      if k > 0 {
        assert Embeds(g, w[k - 1], w[k - 1 + 1]);
      }
    }
    if Repeats(w) {
      var j, k :| 0 <= j < k < |w| && w[j] == w[k];
      assert v[j + 1] == v[k + 1];
    }
  }

  /** Where a type has a list, the types it embeds have one. */
  lemma EmbeddedHasList(g: Graph, t: TypeId, u: TypeId)
    requires Closed(g) && t in g && u in g && Embeds(g, t, u) && CollectAll(g, t).Ok?
    ensures CollectAll(g, u).Ok?
  {
    CycleIff(g, t);
    CycleIff(g, u);
    hide CollectAll, Chain, Repeats, HasBadTag, Last, Embeds;
    forall w | Chain(g, u, w) ensures !Repeats(w) && !HasBadTag(g, Last(w)) {
      ChainLonger(g, t, u, w);
    }
  }

  lemma ListIsClean(g: Graph, t: TypeId, i: nat)
    requires Closed(g) && t in g && i < |g[t]| && g[t][i].exported && CollectAll(g, t).Ok?
    ensures GoodTag(g[t][i])
  {
    CycleIff(g, t);
    hide CollectAll, GoodTag;
    assert Chain(g, t, [t]) && Last([t]) == t;
  }

  lemma PathBehind(i: nat, q: seq<nat>)
    requires q != []
    ensures |[i] + q| > 1 && ([i] + q)[0] == i && ([i] + q)[1..] == q
  {
  }

  /**
   * A field that is walked into contributes every entry of its type, with its own index before the path
   * and its prefix before the leaf's column; any other field contributes nothing from inside.
   */
  lemma EmbeddedEntries(g: Graph, t: TypeId, i: nat, q: seq<nat>)
    requires Closed(g) && t in g && i < |g[t]| && q != [] && CollectAll(g, t).Ok?
    ensures var f, es := g[t][i], CollectAll(g, t).value;
      if f.exported && WalkedInto(f) then
        var u := f.target.value;
        && u in g && CollectAll(g, u).Ok?
        && EntryAt(es, [i] + q) == MovedEntry(FieldOn(g, u, q), PrefixOf(f), EntryAt(CollectAll(g, u).value, q))
      else EntryAt(es, [i] + q) == None
  {
    var f := g[t][i];
    ListDescribes(g, t, [i] + q);
    PathBehind(i, q);
    if f.exported {
      ListIsClean(g, t, i);
      WalkedIff(f);
      if Expands(f) {
        var u := f.target.value;
        assert EmbedsAt(g, t, i, u);
        EmbeddedHasList(g, t, u);
        ListDescribes(g, u, q);
        hide CollectAll, TagOf, WalkedInto, EntryAt, MovedEntry, ParseTag;
        PrefixMoves(g, u, q, PrefixOf(f));
      }
    }
  }

  /** A field has an entry of its own exactly if it is exported and tagged: its name, and what its tag says. */
  lemma OwnEntry(g: Graph, t: TypeId, i: nat)
    requires Closed(g) && t in g && i < |g[t]| && CollectAll(g, t).Ok?
    ensures var f := g[t][i];
      if f.exported && !Untagged(f) then
        && ParseTag(TrimSpace(f.tag)).Ok?
        && EntryAt(CollectAll(g, t).value, [i]) == Some((f.name, ParseTag(TrimSpace(f.tag)).value))
      else EntryAt(CollectAll(g, t).value, [i]) == None
  {
    ListDescribes(g, t, [i]);
    if g[t][i].exported {
      ListIsClean(g, t, i);
    }
    hide CollectAll, EntryAt, ParseTag;
  }
}
