/** The file cache's tag bookkeeping as each process carries it out on the shared directory. */
module FileStore {
  import opened TagIndex
  import opened TagSets

  /** The cache directory all processes share: cache files by key, tag index files by tag. */
  class Directory {
    var files: map<string, int>
    var index: Tags

    constructor ()
      ensures files == map[] && index == map[]
    {
      files, index := map[], map[];
    }
  }

  class Store {
    const dir: Directory
    var tags: Tags

    /** Opens the directory and loads the tag indexes found there. */
    constructor (dir: Directory)
      modifies dir
      ensures this.dir == dir
      ensures Now() == Load(View(old(dir.files), old(dir.index), map[]))
    {
      this.dir := dir;
      tags := map[];
      new;
      LoadTagIndexes();
    }

    function Now(): View
      reads this, dir
    {
      View(dir.files, dir.index, tags)
    }

    /** Loads one index file, dropping keys without a cache file; the empty tag is skipped. */
    method LoadTag(tag: string)
      requires tag in dir.index
      modifies this, dir
      ensures dir.files == old(dir.files)
      ensures var live := LiveKeys(old(Now()), tag);
              && tags == (if tag == "" || live == {} then old(tags) else old(tags)[tag := live])
              && dir.index == (if tag == "" then old(dir.index) else WriteIndex(old(dir.index), tag, live))
    {
      if tag == "" {
        return;
      }
      var stored := dir.index[tag];
      var keys := set k | k in stored && k != "" && k in dir.files;
      assert keys == LiveKeys(Now(), tag);
      if keys == {} {
        dir.index := dir.index - {tag};
      } else {
        tags := tags[tag := keys];
        if |keys| != |stored| {
          dir.index := WriteIndex(dir.index, tag, keys);
        } else {
          SameSize(keys, stored);
          assert dir.index[tag := keys] == dir.index;
        }
      }
    }

    method LoadTagIndexes()
      requires tags == map[]
      modifies this, dir
      ensures Now() == Load(old(Now()))
    {
      ghost var v := Now();
      var rest := dir.index.Keys;
      while rest != {}
        invariant dir.files == v.files && rest <= dir.index.Keys
        invariant forall t: string :: t in tags <==> t in v.index && t !in rest && t != "" && LiveKeys(v, t) != {}
        invariant forall t :: t in tags ==> tags[t] == LiveKeys(v, t)
        invariant forall t: string :: t in dir.index <==> t in v.index && (t in rest || t == "" || LiveKeys(v, t) != {})
        invariant forall t :: t in dir.index ==>
                    dir.index[t] == if t in rest || t == "" then v.index[t] else LiveKeys(v, t)
        decreases rest
      {
        var tag :| tag in rest;
        assert LiveKeys(Now(), tag) == LiveKeys(v, tag);
        LoadTag(tag);
        rest := rest - {tag};
      }
      LoadIs(v, Now());
    }

    method PersistTagIndex(tag: string)
      modifies this, dir
      ensures Now() == Persist(old(Now()), tag)
    {
      var diskKeys := ReadIndex(dir.index, tag);
      var mem := KeysUnder(tags, tag);
      mem := mem + diskKeys;
      tags := WriteIndex(tags, tag, mem);
      dir.index := WriteIndex(dir.index, tag, mem);
    }

    method RemoveKeyFromTagIndex(tag: string, key: string)
      modifies this, dir
      ensures dir.files == old(dir.files)
      ensures dir.index == WriteIndex(old(dir.index), tag, ReadIndex(old(dir.index), tag) - {key})
      ensures tags == if tag in old(tags) then WriteIndex(old(tags), tag, old(tags)[tag] - {key}) else old(tags)
    {
      var diskKeys := ReadIndex(dir.index, tag) - {key};
      if tag in tags {
        tags := WriteIndex(tags, tag, tags[tag] - {key});
      }
      dir.index := WriteIndex(dir.index, tag, diskKeys);
    }

    /** Records the key under the tags in memory, then persists each tag in turn. */
    method Track(key: string, tagList: seq<string>)
      modifies this, dir
      ensures Now() == TagIndex.Track(old(Now()), tagList, key)
    {
      ghost var v := Now();
      assert Remember(v.mem, [], key) == v.mem;
      for i := 0 to |tagList|
        invariant dir.files == v.files && dir.index == v.index
        invariant tags == Remember(v.mem, tagList[..i], key)
      {
        RememberSnoc(v.mem, tagList, i, key);
        tags := tags[tagList[i] := KeysUnder(tags, tagList[i]) + {key}];
      }
      assert tagList[..|tagList|] == tagList;
      ghost var w := v.(mem := tags);
      for i := 0 to |tagList|
        invariant Now() == PersistAll(w, tagList[..i])
      {
        assert tagList[..i + 1][..i] == tagList[..i];
        PersistTagIndex(tagList[i]);
      }
    }

    /** Removes the key from every group in memory, then from the disk index of each group it was in. */
    method Untrack(key: string)
      modifies this, dir
      ensures Now() == TagIndex.Untrack(old(Now()), {key})
    {
      ghost var v := Now();
      var affected := set t | t in tags && key in tags[t];
      tags := map t | t in tags :: tags[t] - {key};
      UntrackDisk(affected, key);
      UntrackOne(v, Now(), key);
    }

    method UntrackDisk(affected: set<string>, key: string)
      requires forall t :: t in affected ==> t in tags && key !in tags[t]
      modifies this, dir
      ensures dir.files == old(dir.files)
      ensures forall t: string :: t in tags <==> t in old(tags) && (t in affected ==> old(tags)[t] != {})
      ensures forall t :: t in tags ==> tags[t] == old(tags)[t]
      ensures forall t: string :: t in dir.index <==>
                t in old(dir.index) && (t in affected ==> ReadIndex(old(dir.index), t) - {key} != {})
      ensures forall t :: t in dir.index ==>
                dir.index[t] == if t in affected then ReadIndex(old(dir.index), t) - {key} else old(dir.index)[t]
    {
      ghost var mem, index := tags, dir.index;
      var rest := affected;
      ghost var done := {};
      while rest != {}
        invariant rest + done == affected && rest !! done && dir.files == old(dir.files)
        invariant forall t: string :: t in tags <==> t in mem && (t in done ==> mem[t] != {})
        invariant forall t :: t in tags ==> tags[t] == mem[t]
        invariant forall t: string :: t in dir.index <==> t in index && (t in done ==> ReadIndex(index, t) - {key} != {})
        invariant forall t :: t in dir.index ==>
                    dir.index[t] == if t in done then ReadIndex(index, t) - {key} else index[t]
        decreases rest
      {
        var tag :| tag in rest;
        assert mem[tag] - {key} == mem[tag];
        RemoveKeyFromTagIndex(tag, key);
        rest, done := rest - {tag}, done + {tag};
      }
      assert done == affected;
    }

    method Forget(key: string)
      modifies this, dir
      ensures Now() == TagIndex.Forget(old(Now()), {key})
    {
      dir.files := dir.files - {key};
      Untrack(key);
    }

    method Put(key: string, value: int)
      modifies dir
      ensures Now() == old(Now()).(files := old(dir.files)[key := value])
    {
      dir.files := dir.files[key := value];
    }

    method TaggedPut(tagList: seq<string>, key: string, value: int)
      modifies this, dir
      ensures Now() == TagIndex.Track(old(Now()).(files := old(dir.files)[key := value]), tagList, key)
    {
      Put(key, value);
      Track(key, tagList);
    }

    method Flush()
      modifies this, dir
      ensures Now() == TagIndex.Flush(old(Now()))
      ensures dir.files == map[] && dir.index == map[] && tags == map[]
    {
      dir.index := map[];
      dir.files := map[];
      tags := map[];
    }

    /** Collects the tags' keys from memory and disk and drops the groups. */
    method DropGroups(tagList: seq<string>) returns (keysToDelete: set<string>)
      modifies this, dir
      ensures Now() == DropTags(old(Now()), tagList)
      ensures keysToDelete == FlushKeys(old(Now()), tagList)
    {
      ghost var v := Now();
      keysToDelete := {};
      assert TagSet([]) == {};
      assert v.mem - {} == v.mem && v.index - {} == v.index;
      for i := 0 to |tagList|
        invariant Now() == DropTags(v, tagList[..i])
        invariant keysToDelete == FlushKeys(v, tagList[..i])
      {
        var tag := tagList[i];
        FlushKeysSnoc(v, tagList, i);
        DropTagsSnoc(v, tagList, i);
        keysToDelete := keysToDelete + KeysUnder(tags, tag) + ReadIndex(dir.index, tag);
        tags := tags - {tag};
        dir.index := dir.index - {tag};
      }
      assert tagList[..|tagList|] == tagList;
    }

    /** Forgets key by key, in any order. */
    method ForgetAll(keys: set<string>)
      modifies this, dir
      ensures Now() == TagIndex.Forget(old(Now()), keys)
    {
      ghost var w := Now();
      var rest := keys;
      ghost var done := {};
      ForgetNone(w);
      while rest != {}
        invariant rest + done == keys
        invariant Now() == TagIndex.Forget(w, done)
        decreases rest
      {
        var key :| key in rest;
        ForgetMore(w, done, key);
        Forget(key);
        rest, done := rest - {key}, done + {key};
      }
    }

    method TaggedFlush(tagList: seq<string>)
      modifies this, dir
      ensures Now() == TagIndex.TaggedFlush(old(Now()), tagList)
    {
      var keysToDelete := DropGroups(tagList);
      ForgetAll(keysToDelete);
    }
  }

  lemma DropTagsSnoc(v: View, tagList: seq<string>, i: nat)
    requires i < |tagList|
    ensures var w, w' := DropTags(v, tagList[..i]), DropTags(v, tagList[..i + 1]);
            w'.mem == w.mem - {tagList[i]} && w'.index == w.index - {tagList[i]}
  {
    assert tagList[..i + 1] == tagList[..i] + [tagList[i]];
    assert TagSet(tagList[..i + 1]) == TagSet(tagList[..i]) + {tagList[i]};
  }

  lemma LoadIs(v: View, v': View)
    requires v'.files == v.files
    requires forall t: string :: t in v'.mem <==> t in v.index && t != "" && LiveKeys(v, t) != {}
    requires forall t :: t in v'.mem ==> v'.mem[t] == LiveKeys(v, t)
    requires forall t: string :: t in v'.index <==> t in v.index && (t == "" || LiveKeys(v, t) != {})
    requires forall t :: t in v'.index ==> v'.index[t] == if t == "" then v.index[t] else LiveKeys(v, t)
    ensures v' == Load(v)
  {
    var w := Load(v);
    assert v'.mem == w.mem;
    assert v'.index == w.index;
  }

  lemma RememberSnoc(mem: Tags, tagList: seq<string>, i: nat, key: string)
    requires i < |tagList|
    ensures var before := Remember(mem, tagList[..i], key);
            Remember(mem, tagList[..i + 1], key) == before[tagList[i] := KeysUnder(before, tagList[i]) + {key}]
  {
    assert tagList[..i + 1] == tagList[..i] + [tagList[i]];
  }

  lemma SameSize(a: set<string>, b: set<string>)
    requires a <= b && |a| == |b|
    ensures a == b
  {
    assert |b - a| == |b| - |a|;
  }

  /** What untracking keys leaves of one tag's groups. */
  lemma UntrackAt(v: View, keys: set<string>, t: string)
    ensures var v', hit := Untrack(v, keys), KeysUnder(v.mem, t) * keys;
            && (t in v'.mem <==> t in v.mem && (hit != {} ==> v.mem[t] - keys != {}))
            && (t in v'.mem ==> v'.mem[t] == v.mem[t] - keys)
            && (t in v'.index <==> t in v.index && (hit != {} ==> ReadIndex(v.index, t) - hit != {}))
            && (t in v'.index ==> v'.index[t] == if hit != {} then ReadIndex(v.index, t) - hit else v.index[t])
  {
  }

  lemma UntrackOne(v: View, v': View, key: string)
    requires v'.files == v.files
    requires forall t: string :: t in v'.mem <==> t in v.mem && (key in v.mem[t] ==> v.mem[t] - {key} != {})
    requires forall t :: t in v'.mem ==> v'.mem[t] == v.mem[t] - {key}
    requires forall t: string :: t in v'.index <==>
               t in v.index && (key in KeysUnder(v.mem, t) ==> ReadIndex(v.index, t) - {key} != {})
    requires forall t :: t in v'.index ==>
               v'.index[t] == if key in KeysUnder(v.mem, t) then ReadIndex(v.index, t) - {key} else v.index[t]
    ensures v' == Untrack(v, {key})
  {
    var w := Untrack(v, {key});
    forall t: string
      ensures t in v'.mem <==> t in w.mem
      ensures t in w.mem ==> v'.mem[t] == w.mem[t]
      ensures t in v'.index <==> t in w.index
      ensures t in w.index ==> v'.index[t] == w.index[t]
    {
      UntrackAt(v, {key}, t);
      HitByOne(KeysUnder(v.mem, t), key);
    }
    assert v'.mem == w.mem;
    assert v'.index == w.index;
  }

  lemma HitByOne(mem: set<string>, key: string)
    ensures mem * {key} == if key in mem then {key} else {}
  {
  }

  lemma FlushKeysSnoc(v: View, tagList: seq<string>, i: nat)
    requires i < |tagList|
    ensures var w := DropTags(v, tagList[..i]);
            FlushKeys(v, tagList[..i + 1]) ==
            FlushKeys(v, tagList[..i]) + KeysUnder(w.mem, tagList[i]) + ReadIndex(w.index, tagList[i])
  {
    var w, tag := DropTags(v, tagList[..i]), tagList[i];
    assert tagList[..i + 1] == tagList[..i] + [tag];
    forall k: string
      ensures k in FlushKeys(v, tagList[..i + 1]) <==>
              k in FlushKeys(v, tagList[..i]) + KeysUnder(w.mem, tag) + ReadIndex(w.index, tag)
    {
      InFlushKeys(v, tagList[..i + 1], k);
      InFlushKeys(v, tagList[..i], k);
      assert tag in tagList[..i + 1];
    }
  }

  lemma ForgetNone(v: View)
    ensures Forget(v, {}) == v
  {
    var w := Forget(v, {});
    forall t: string
      ensures t in w.mem <==> t in v.mem
      ensures t in w.mem ==> w.mem[t] == v.mem[t]
      ensures t in w.index <==> t in v.index
      ensures t in w.index ==> w.index[t] == v.index[t]
    {
      UntrackAt(v, {}, t);
      assert KeysUnder(v.mem, t) * {} == {};
    }
    assert w.files == v.files;
    assert w.mem == v.mem;
    assert w.index == v.index;
  }

  /** Forgetting one key after others is forgetting them all: the order does not matter. */
  lemma ForgetMore(v: View, keys: set<string>, key: string)
    ensures Forget(Forget(v, keys), {key}) == Forget(v, keys + {key})
  {
    var a, b := Forget(Forget(v, keys), {key}), Forget(v, keys + {key});
    assert a.files == b.files;
    forall t: string
      ensures t in a.mem <==> t in b.mem
      ensures t in a.mem ==> a.mem[t] == b.mem[t]
      ensures t in a.index <==> t in b.index
      ensures t in a.index ==> a.index[t] == b.index[t]
    {
      ForgetMoreAt(v, keys, key, t);
    }
    assert a.mem == b.mem;
    assert a.index == b.index;
  }

  lemma ForgetMoreAt(v: View, keys: set<string>, key: string, t: string)
    ensures var a, b := Forget(Forget(v, keys), {key}), Forget(v, keys + {key});
            && (t in a.mem <==> t in b.mem) && (t in a.mem ==> a.mem[t] == b.mem[t])
            && (t in a.index <==> t in b.index) && (t in a.index ==> a.index[t] == b.index[t])
  {
    hide Untrack, FlushKeys;
    var mem := KeysUnder(v.mem, t);
    UntrackAt(v.(files := v.files - keys), keys, t);
    UntrackAt(v.(files := v.files - (keys + {key})), keys + {key}, t);
    var between := Forget(v, keys);
    UntrackAt(between.(files := between.files - {key}), {key}, t);
    HitByOne(mem, key);
    HitByOne(mem - keys, key);
    assert mem * (keys + {key}) == mem * keys + mem * {key};
    assert mem - keys - {key} == mem - (keys + {key});
  }
}
