/** What the shared directory holds after any run of any processes, and what forgetting and loading do to the groups. */
module FileHistory {
  import opened TagSets
  import opened TagIndex

  type Event = (nat, Op)

  /** A call by some process leaves this value in the key's cache file. */
  predicate Leaves(op: Op, k: string, x: int) {
    op == Put(k, x) || (op.TaggedPut? && op == TaggedPut(op.tags, k, x))
  }

  predicate WritesKey(op: Op, k: string) {
    (op.Put? && op.key == k) || (op.TaggedPut? && op.key == k)
  }

  /** A call by process p removes the key's cache file. */
  ghost predicate Removes(s: System, p: nat, op: Op, k: string) {
    match op
    case FlushAll => true
    case ForgetKey(j) => j == k
    case Expire(j) => j == k
    case FlushTags(tags) =>
      exists t :: t in tags &&
        ((p in s.mem && t in s.mem[p] && k in s.mem[p][t]) || (k != "" && t in s.index && k in s.index[t]))
    case _ => false
  }

  /** Call i left the value, and no call since has written or removed the file. */
  ghost predicate LastLeft(ops: seq<Event>, i: nat, k: string, x: int)
    requires i < |ops|
  {
    && Leaves(ops[i].1, k, x)
    && forall j :: i < j < |ops| ==> !WritesKey(ops[j].1, k) && !Removes(Run(ops[..j]), ops[j].0, ops[j].1, k)
  }

  ghost predicate Holds(s: System, k: string, x: int) {
    k in s.files && s.files[k] == x
  }

  lemma FileStep(s: System, p: nat, op: Op, k: string, x: int)
    ensures Holds(Do(s, p, op), k, x) <==>
            Leaves(op, k, x) || (Holds(s, k, x) && !WritesKey(op, k) && !Removes(s, p, op, k))
  {
    match op
    case TaggedPut(tags, key, y) => TrackFacts(s.At(p).(files := s.files[key := y]), tags, key);
    case ForgetKey(key) => ForgetFacts(s.At(p), {key});
    case FlushTags(tags) =>
      FlushFacts(s.At(p), tags);
      InFlushKeys(s.At(p), tags, k);
      forall t | t in tags
        ensures k in KeysUnder(s.At(p).mem, t) + ReadIndex(s.index, t) <==>
                (p in s.mem && t in s.mem[p] && k in s.mem[p][t]) || (k != "" && t in s.index && k in s.index[t])
      {
      }
    case _ =>
  }

  lemma LastLeftSnoc(ops: seq<Event>, e: Event, i: nat, k: string, x: int)
    requires i < |ops|
    ensures LastLeft(ops + [e], i, k, x) <==>
            LastLeft(ops, i, k, x) && !WritesKey(e.1, k) && !Removes(Run(ops), e.0, e.1, k)
  {
    hide Run, Removes, Leaves, WritesKey;
    var all := ops + [e];
    assert all[..|ops|] == ops && all[|ops|] == e;
    assert forall j :: 0 <= j < |ops| ==> all[..j] == ops[..j] && all[j] == ops[j];
  }

  /**
   * After any run of any processes a key has a cache file with a value exactly if some process has left
   * that value there and no process has written or removed the file since.
   */
  lemma {:induction false} FilesAreHistory(ops: seq<Event>, k: string, x: int)
    ensures Holds(Run(ops), k, x) <==> exists i :: 0 <= i < |ops| && LastLeft(ops, i, k, x)
  {
    if ops != [] {
      var n := |ops| - 1;
      var before, e := ops[..n], ops[n];
      assert ops == before + [e];
      FilesAreHistory(before, k, x);
      FileStep(Run(before), e.0, e.1, k, x);
      hide Run, Removes, Leaves, WritesKey, Holds, Do;
      assert LastLeft(ops, n, k, x) <==> Leaves(e.1, k, x);
      forall i: nat | i < n
        ensures LastLeft(ops, i, k, x) <==>
                LastLeft(before, i, k, x) && !WritesKey(e.1, k) && !Removes(Run(before), e.0, e.1, k)
      {
        LastLeftSnoc(before, e, i, k, x);
      }
      assert Run(ops) == Do(Run(before), e.0, e.1) by {
        RunLast(ops);
      }
    }
  }

  lemma RunLast(ops: seq<Event>)
    requires ops != []
    ensures Run(ops) == Do(Run(ops[..|ops| - 1]), ops[|ops| - 1].0, ops[|ops| - 1].1)
  {
  }

  /** Nothing is left of any key after a flush by any process, on disk or in that process's memory. */
  lemma FlushedIsEmpty(s: System, p: nat)
    ensures var s' := Do(s, p, FlushAll);
      s'.files == map[] && s'.index == map[] && p in s'.mem && s'.mem[p] == map[]
      && forall q :: q in s.mem && q != p ==> q in s'.mem && s'.mem[q] == s.mem[q]
  {
  }

  /**
   * Forgetting a key takes its file, takes it from every group in the process's memory and from the disk
   * index of each of those groups; on disk it stays in groups this process did not know it in. Every other
   * key but the empty one stays where it was.
   */
  lemma ForgottenKey(v: View, key: string, other: string, t: string)
    requires other != key && other != ""
    ensures var v' := Forget(v, {key});
      && v'.files == v.files - {key}
      && key !in KeysUnder(v'.mem, t)
      && (key in KeysUnder(v'.index, t) <==> key in KeysUnder(v.index, t) && key !in KeysUnder(v.mem, t))
      && (other in KeysUnder(v'.mem, t) <==> other in KeysUnder(v.mem, t))
      && (other in KeysUnder(v'.index, t) <==> other in KeysUnder(v.index, t))
  {
    assert KeysUnder(v.mem, t) * {key} == if key in KeysUnder(v.mem, t) then {key} else {};
  }

  /** Merging a tag makes its group, in memory and on disk, what was in either, the empty key on disk aside. */
  lemma PersistedGroup(v: View, tag: string, t: string, k: string)
    ensures var v' := Persist(v, tag);
      && v'.files == v.files
      && (k in KeysUnder(v'.mem, t) <==>
            k in KeysUnder(v.mem, t) || (t == tag && k != "" && k in KeysUnder(v.index, t)))
      && (k in KeysUnder(v'.index, t) <==>
            if t == tag then k in KeysUnder(v.mem, t) || (k != "" && k in KeysUnder(v.index, t))
            else k in KeysUnder(v.index, t))
  {
  }

  /** A process that starts has in memory, and leaves on disk, the keys of each index that have a file. */
  lemma LoadedGroups(v: View, t: string, k: string)
    ensures var v' := Load(v);
      && v'.files == v.files
      && (k in KeysUnder(v'.mem, t) <==> t != "" && k != "" && k in KeysUnder(v.index, t) && k in v.files)
      && (k in KeysUnder(v'.index, t) <==>
            k in KeysUnder(v.index, t) && (t == "" || (k != "" && k in v.files)))
      && (t in v'.index && t != "" ==> v'.index[t] != {})
  {
  }

  /**
   * A tagged flush drops its groups in memory and on disk; from the other groups the process knows it takes
   * the deleted keys, and every key that was not deleted stays in every other group.
   */
  lemma FlushedGroups(v: View, tags: seq<string>, t: string, k: string)
    requires k != ""
    ensures var v', gone := TaggedFlush(v, tags), FlushKeys(v, tags);
      && (t in tags ==> t !in v'.mem && t !in v'.index)
      && (t !in tags ==>
            && (k in KeysUnder(v'.mem, t) <==> k in KeysUnder(v.mem, t) && k !in gone)
            && (k in KeysUnder(v'.index, t) <==> k in KeysUnder(v.index, t) && !(k in gone && k in KeysUnder(v.mem, t))))
  {
    var w, gone := DropTags(v, tags), FlushKeys(v, tags);
    assert forall x :: x in gone && x in KeysUnder(w.mem, t) <==> x in KeysUnder(w.mem, t) * gone;
  }

  /** A process that starts remembers the indexed keys that have a file, one that ends nothing; other processes stay. */
  lemma ProcessLifetime(s: System, p: nat, q: nat, t: string, k: string)
    ensures var s' := Do(s, p, Boot);
      && s'.files == s.files && p in s'.mem
      && (k in KeysUnder(s'.mem[p], t) <==> t != "" && k != "" && k in KeysUnder(s.index, t) && k in s.files)
      && (q != p ==> (q in s'.mem <==> q in s.mem) && (q in s.mem ==> s'.mem[q] == s.mem[q]))
    ensures var s' := Do(s, p, Die);
      && s'.files == s.files && s'.index == s.index && p !in s'.mem
      && (q != p ==> (q in s'.mem <==> q in s.mem) && (q in s.mem ==> s'.mem[q] == s.mem[q]))
  {
    LoadedGroups(s.At(p).(mem := map[]), t, k);
  }
}
