/**
 * Tag groups of the file cache: one index file per tag on the shared disk, and in every process a
 * partial, possibly stale copy in memory. Each cache call is atomic here.
 */
module TagIndex {
  import opened TagSets

  /** The directory, and the memory of the process at work. */
  datatype View = View(files: map<string, int>, index: Tags, mem: Tags)

  function TagSet(tags: seq<string>): set<string> {
    set t | t in tags
  }

  /** Reading an index file drops the empty key. */
  function ReadIndex(index: Tags, tag: string): set<string> {
    KeysUnder(index, tag) - {""}
  }

  /** Writing an index file with no keys removes it. */
  function WriteIndex(index: Tags, tag: string, keys: set<string>): Tags {
    if keys == {} then index - {tag} else index[tag := keys]
  }

  /** Merges the disk index of a tag into memory and writes the union back. */
  function Persist(v: View, tag: string): View {
    var merged := KeysUnder(v.mem, tag) + ReadIndex(v.index, tag);
    v.(mem := WriteIndex(v.mem, tag, merged), index := WriteIndex(v.index, tag, merged))
  }

  function PersistAll(v: View, tags: seq<string>): View {
    if tags == [] then v else Persist(PersistAll(v, tags[..|tags| - 1]), tags[|tags| - 1])
  }

  function Remember(mem: Tags, tags: seq<string>, key: string): Tags {
    map t | t in mem.Keys + TagSet(tags) :: if t in tags then KeysUnder(mem, t) + {key} else mem[t]
  }

  function Track(v: View, tags: seq<string>, key: string): View {
    PersistAll(v.(mem := Remember(v.mem, tags, key)), tags)
  }

  predicate Affected(mem: Tags, tag: string, keys: set<string>) {
    KeysUnder(mem, tag) * keys != {}
  }

  /** Removes keys from the groups this process knows them in, in memory and on disk. */
  function Untrack(v: View, keys: set<string>): View {
    v.(mem := map t | t in v.mem && (Affected(v.mem, t, keys) ==> v.mem[t] - keys != {}) :: v.mem[t] - keys,
       index := map t | t in v.index && (Affected(v.mem, t, keys) ==> UntrackedKeys(v, t, keys) != {}) ::
                  UntrackedKeys(v, t, keys))
  }

  function UntrackedKeys(v: View, tag: string, keys: set<string>): set<string> {
    if Affected(v.mem, tag, keys) then ReadIndex(v.index, tag) - (v.mem[tag] * keys) else KeysUnder(v.index, tag)
  }

  function Forget(v: View, keys: set<string>): View {
    Untrack(v.(files := v.files - keys), keys)
  }

  /** The keys a tagged flush deletes: those under its tags on disk or in this process's memory. */
  function FlushKeys(v: View, tags: seq<string>): set<string> {
    set t, k | t in tags && k in KeysUnder(v.mem, t) + ReadIndex(v.index, t) :: k
  }

  function DropTags(v: View, tags: seq<string>): View {
    v.(mem := v.mem - TagSet(tags), index := v.index - TagSet(tags))
  }

  function TaggedFlush(v: View, tags: seq<string>): View {
    Forget(DropTags(v, tags), FlushKeys(v, tags))
  }

  function Flush(v: View): View {
    View(map[], map[], map[])
  }

  /** Keys of an index file that still have a cache file. */
  function LiveKeys(v: View, tag: string): set<string> {
    ReadIndex(v.index, tag) * v.files.Keys
  }

  /** Start of a process: loads every index, dropping keys without a file; the empty tag is skipped. */
  function Load(v: View): View {
    v.(mem := map t | t in v.index && t != "" && LiveKeys(v, t) != {} :: LiveKeys(v, t),
       index := map t | t in v.index && (t != "" ==> LiveKeys(v, t) != {}) ::
                 if t == "" then v.index[t] else LiveKeys(v, t))
  }

  // ---- many processes --------------------------------------------------------------------------

  datatype System = System(
    files: map<string, int>,
    index: Tags,
    mem: map<nat, Tags>,               // one per process
    last: map<string, set<string>>,    // history: the tags of each key's latest write
    ever: Tags                         // history: every key written under each tag
  )
  {
    function At(p: nat): View {
      View(files, index, if p in mem then mem[p] else map[])
    }

    function With(p: nat, v: View): System {
      System(v.files, v.index, mem[p := v.mem], last, ever)
    }
  }

  datatype Op =
    | Put(key: string, value: int)
    | TaggedPut(tags: seq<string>, key: string, value: int)
    | ForgetKey(key: string)
    | FlushTags(tags: seq<string>)
    | FlushAll
    | Boot
    | Die
    | Expire(key: string)

  function Init(): System {
    System(map[], map[], map[], map[], map[])
  }

  function Do(s: System, p: nat, op: Op): System {
    match op
    case Put(k, x) => s.(files := s.files[k := x], last := s.last[k := {}])
    case TaggedPut(tags, k, x) =>
      s.(last := s.last[k := TagSet(tags)], ever := Remember(s.ever, tags, k))
       .With(p, Track(s.At(p).(files := s.files[k := x]), tags, k))
    case ForgetKey(k) => s.With(p, Forget(s.At(p), {k}))
    case FlushTags(tags) => s.With(p, TaggedFlush(s.At(p), tags))
    case FlushAll => s.With(p, Flush(s.At(p)))
    case Boot => s.With(p, Load(s.At(p).(mem := map[])))
    case Die => s.(mem := s.mem - {p})
    case Expire(k) => s.(files := s.files - {k})
  }

  function Run(ops: seq<(nat, Op)>): System {
    if ops == [] then Init() else Do(Run(ops[..|ops| - 1]), ops[|ops| - 1].0, ops[|ops| - 1].1)
  }

  /** A live key is in the disk index of every tag of its latest write. */
  ghost predicate Indexed(s: System, k: string, t: string) {
    k in s.files && k != "" && k in s.last && t in s.last[k] ==> k in KeysUnder(s.index, t)
  }

  /** Nothing is indexed or remembered that was not once written under the tag. */
  ghost predicate OnlyWritten(s: System, p: nat, t: string) {
    KeysUnder(s.index, t) <= KeysUnder(s.ever, t) && KeysUnder(s.At(p).mem, t) <= KeysUnder(s.ever, t)
  }

  ghost predicate Inv(s: System) {
    && (forall k: string :: k in s.files ==> k in s.last)
    && (forall k: string, t: string :: Indexed(s, k, t))
    && (forall p: nat, t: string :: OnlyWritten(s, p, t))
  }

  lemma {:induction false} PersistAllFacts(v: View, tags: seq<string>)
    ensures var v' := PersistAll(v, tags);
            && v'.files == v.files
            && (forall t: string :: KeysUnder(v.mem, t) <= KeysUnder(v'.mem, t))
            && (forall t: string :: ReadIndex(v.index, t) <= KeysUnder(v'.index, t))
            && (forall t: string :: t in tags ==>
                  KeysUnder(v.mem, t) <= KeysUnder(v'.index, t) || KeysUnder(v.mem, t) == {})
            && (forall t: string :: KeysUnder(v'.mem, t) <= KeysUnder(v.mem, t) + KeysUnder(v.index, t))
            && (forall t: string :: KeysUnder(v'.index, t) <= KeysUnder(v.mem, t) + KeysUnder(v.index, t))
  {
    if tags != [] {
      PersistAllFacts(v, tags[..|tags| - 1]);
      assert tags == tags[..|tags| - 1] + [tags[|tags| - 1]];
    }
  }

  lemma TrackFacts(v: View, tags: seq<string>, key: string)
    ensures var v' := Track(v, tags, key);
            && v'.files == v.files
            && (forall t: string :: ReadIndex(v.index, t) <= KeysUnder(v'.index, t))
            && (forall t: string :: t in tags ==> key in KeysUnder(v'.index, t))
            && (forall t: string :: KeysUnder(v'.mem, t) <=
                  KeysUnder(v.mem, t) + KeysUnder(v.index, t) + if t in tags then {key} else {})
            && (forall t: string :: KeysUnder(v'.index, t) <=
                  KeysUnder(v.mem, t) + KeysUnder(v.index, t) + if t in tags then {key} else {})
  {
    var w := v.(mem := Remember(v.mem, tags, key));
    assert forall t: string :: KeysUnder(w.mem, t) == KeysUnder(v.mem, t) + if t in tags then {key} else {};
    PersistAllFacts(w, tags);
  }

  lemma ForgetFacts(v: View, keys: set<string>)
    ensures var v' := Forget(v, keys);
            && v'.files == v.files - keys
            && (forall t: string :: ReadIndex(v.index, t) - keys <= KeysUnder(v'.index, t) <= KeysUnder(v.index, t))
            && (forall t: string :: KeysUnder(v'.mem, t) <= KeysUnder(v.mem, t))
  {
  }

  lemma InFlushKeys(v: View, tags: seq<string>, k: string)
    ensures k in FlushKeys(v, tags) <==> exists t :: t in tags && k in KeysUnder(v.mem, t) + ReadIndex(v.index, t)
  {
  }

  lemma FlushFacts(v: View, tags: seq<string>)
    ensures var v', gone := TaggedFlush(v, tags), FlushKeys(v, tags);
            && v'.files == v.files - gone
            && (forall t: string :: KeysUnder(v'.index, t) <= KeysUnder(v.index, t))
            && (forall t: string :: t !in tags ==> ReadIndex(v.index, t) - gone <= KeysUnder(v'.index, t))
            && (forall t: string :: t in tags ==> ReadIndex(v.index, t) <= gone)
            && (forall t: string :: KeysUnder(v'.mem, t) <= KeysUnder(v.mem, t))
  {
    ForgetFacts(DropTags(v, tags), FlushKeys(v, tags));
    var w := DropTags(v, tags);
    assert forall t: string :: t !in tags ==> KeysUnder(w.index, t) == KeysUnder(v.index, t);
    forall t: string, k | t in tags && k in ReadIndex(v.index, t)
      ensures k in FlushKeys(v, tags)
    {
      InFlushKeys(v, tags, k);
    }
  }

  lemma LoadFacts(v: View)
    ensures var v' := Load(v);
            && v'.files == v.files
            && (forall t: string :: ReadIndex(v.index, t) * v.files.Keys <= KeysUnder(v'.index, t) <= KeysUnder(v.index, t))
            && (forall t: string :: KeysUnder(v'.mem, t) <= KeysUnder(v.index, t))
  {
  }

  lemma IndexedStep(s: System, p: nat, op: Op, k: string, t: string)
    requires Inv(s)
    ensures Indexed(Do(s, p, op), k, t)
  {
    assert Indexed(s, k, t);
    match op
    case TaggedPut(tags, key, x) => TrackFacts(s.At(p).(files := s.files[key := x]), tags, key);
    case ForgetKey(key) => ForgetFacts(s.At(p), {key});
    case FlushTags(tags) => FlushFacts(s.At(p), tags);
    case Boot => LoadFacts(s.At(p).(mem := map[]));
    case _ =>
  }

  lemma WrittenByPut(s: System, p: nat, tags: seq<string>, key: string, x: int, q: nat, t: string)
    requires Inv(s)
    ensures OnlyWritten(Do(s, p, TaggedPut(tags, key, x)), q, t)
  {
    assert OnlyWritten(s, p, t) && OnlyWritten(s, q, t);
    var v := Track(s.At(p).(files := s.files[key := x]), tags, key);
    TrackFacts(s.At(p).(files := s.files[key := x]), tags, key);
    EverGrows(s, tags, key, t);
    var s1 := s.(last := s.last[key := TagSet(tags)], ever := Remember(s.ever, tags, key));
    assert s1.At(q).mem == s.At(q).mem;
    assert s1.With(p, v).At(q).mem == if p == q then v.mem else s.At(q).mem;
  }

  lemma EverGrows(s: System, tags: seq<string>, key: string, t: string)
    ensures KeysUnder(Remember(s.ever, tags, key), t) == KeysUnder(s.ever, t) + if t in tags then {key} else {}
  {
  }

  lemma WrittenKept(s: System, p: nat, v: View, q: nat, t: string)
    requires OnlyWritten(s, p, t) && OnlyWritten(s, q, t)
    requires KeysUnder(v.index, t) <= KeysUnder(s.index, t)
    requires KeysUnder(v.mem, t) <= KeysUnder(s.At(p).mem, t) || KeysUnder(v.mem, t) <= KeysUnder(s.index, t)
    ensures OnlyWritten(s.With(p, v), q, t)
  {
  }

  lemma WrittenStep(s: System, p: nat, op: Op, q: nat, t: string)
    requires Inv(s)
    ensures OnlyWritten(Do(s, p, op), q, t)
  {
    assert OnlyWritten(s, p, t) && OnlyWritten(s, q, t);
    match op
    case TaggedPut(tags, key, x) =>
      WrittenByPut(s, p, tags, key, x, q, t);
    case ForgetKey(key) =>
      ForgetFacts(s.At(p), {key});
      WrittenKept(s, p, Forget(s.At(p), {key}), q, t);
    case FlushTags(tags) =>
      FlushFacts(s.At(p), tags);
      WrittenKept(s, p, TaggedFlush(s.At(p), tags), q, t);
    case FlushAll =>
      WrittenKept(s, p, Flush(s.At(p)), q, t);
    case Boot =>
      LoadFacts(s.At(p).(mem := map[]));
      WrittenKept(s, p, Load(s.At(p).(mem := map[])), q, t);
    case _ =>
  }

  lemma FilesStep(s: System, p: nat, op: Op, k: string)
    requires Inv(s) && k in Do(s, p, op).files
    ensures k in Do(s, p, op).last
  {
    match op
    case TaggedPut(tags, key, x) => TrackFacts(s.At(p).(files := s.files[key := x]), tags, key);
    case _ =>
  }

  lemma InvStep(s: System, p: nat, op: Op)
    requires Inv(s)
    ensures Inv(Do(s, p, op))
  {
    var s' := Do(s, p, op);
    forall k: string | k in s'.files
      ensures k in s'.last
    {
      FilesStep(s, p, op, k);
    }
    forall k: string, t: string
      ensures Indexed(s', k, t)
    {
      IndexedStep(s, p, op, k, t);
    }
    forall q: nat, t: string
      ensures OnlyWritten(s', q, t)
    {
      WrittenStep(s, p, op, q, t);
    }
  }

  lemma {:induction false} Reachable(ops: seq<(nat, Op)>)
    ensures Inv(Run(ops))
  {
    if ops != [] {
      Reachable(ops[..|ops| - 1]);
      InvStep(Run(ops[..|ops| - 1]), ops[|ops| - 1].0, ops[|ops| - 1].1);
    }
  }

  /** A key whose latest write by any process went through one of the tags. */
  predicate WrittenThrough(s: System, k: string, tags: seq<string>) {
    k in s.last && s.last[k] * TagSet(tags) != {}
  }

  /**
   * After any run, a tagged flush by any process removes every live key, the empty one aside, whose
   * latest write by any process went through one of its tags; it removes the empty key exactly when
   * its own memory holds it; and it removes nothing never written under its tags.
   */
  lemma TaggedFlushRemoves(ops: seq<(nat, Op)>, p: nat, tags: seq<string>)
    ensures var s, s' := Run(ops), Do(Run(ops), p, FlushTags(tags));
            && (forall k: string :: k in s.files && k != "" && WrittenThrough(s, k, tags) ==> k !in s'.files)
            && ("" in s.files ==>
                  ("" !in s'.files <==> exists t :: t in tags && "" in KeysUnder(s.At(p).mem, t)))
            && (forall k: string :: k in s.files && (forall t :: t in tags ==> k !in KeysUnder(s.ever, t)) ==>
                  k in s'.files)
            && (forall k: string :: k in s'.files ==> k in s.files && s'.files[k] == s.files[k])
  {
    var s := Run(ops);
    var v := s.At(p);
    Reachable(ops);
    FlushFacts(v, tags);
    InFlushKeys(v, tags, "");
    forall k: string | k in s.files && k != "" && WrittenThrough(s, k, tags)
      ensures k in FlushKeys(v, tags)
    {
      var t :| t in s.last[k] * TagSet(tags);
      assert Indexed(s, k, t);
    }
    forall k: string | k in FlushKeys(v, tags)
      ensures exists t :: t in tags && k in KeysUnder(s.ever, t)
    {
      var t :| t in tags && k in KeysUnder(v.mem, t) + ReadIndex(v.index, t);
      assert OnlyWritten(s, p, t);
    }
  }

  /** The empty key written through a tag by one process survives a flush of that tag by another. */
  lemma EmptyKeySurvives()
    ensures var ops := [(0, TaggedPut(["t"], "", 1))];
            var s := Run(ops);
            "" in s.files && WrittenThrough(s, "", ["t"]) && "" in Do(s, 1, FlushTags(["t"])).files
  {
    var ops := [(0, TaggedPut(["t"], "", 1))];
    assert ops[..0] == [];
    var s := Run(ops);
    assert s == Do(Init(), 0, TaggedPut(["t"], "", 1));
    TrackFacts(Init().At(0).(files := map["" := 1]), ["t"], "");
    assert "t" in s.last[""] * TagSet(["t"]);
    assert s.At(1).mem == map[];
    FlushFacts(s.At(1), ["t"]);
    assert "" !in FlushKeys(s.At(1), ["t"]);
  }
}
