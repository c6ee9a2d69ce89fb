/** Language files: what merging a newly generated JSON document into the stored one means. */
module MergeJson {
  import opened Results

  /** A JSON value: an object, or anything else taken as a whole. */
  datatype Json = Leaf(text: string) | Object(entries: map<string, Json>)

  /** The stored value with what it lacks filled in from the new one. */
  function Merge(source: Json, target: Json): (r: Json)
    ensures r.Object? <==> target.Object?
    decreases source
  {
    if source.Object? && target.Object? then
      Object(map k | k in source.entries.Keys + target.entries.Keys :: MergedAt(source, target, k))
    else target
  }

  /** What stands under one key of the merged object. */
  function MergedAt(source: Json, target: Json, k: string): Json
    requires source.Object? && target.Object? && k in source.entries.Keys + target.entries.Keys
    decreases source, 0
  {
    if k !in target.entries then source.entries[k]
    else if k !in source.entries then target.entries[k]
    else Merge(source.entries[k], target.entries[k])
  }

  /** The target has every key of the source, at every depth at which both have objects. */
  predicate Covers(source: Json, target: Json)
    decreases source
  {
    source.Object? && target.Object? ==>
      forall k <- source.entries :: k in target.entries && Covers(source.entries[k], target.entries[k])
  }

  // ---------- Merging along paths ----------

  /** The value at the end of a path of keys. */
  function Find(j: Json, path: seq<string>): Option<Json>
    decreases |path|
  {
    if path == [] then Some(j)
    else if j.Object? && path[0] in j.entries then Find(j.entries[path[0]], path[1..])
    else None
  }

  /** The path runs into a leaf before its end. */
  predicate Blocked(j: Json, path: seq<string>)
    decreases |path|
  {
    path != [] && (j.Leaf? || (path[0] in j.entries && Blocked(j.entries[path[0]], path[1..])))
  }

  /** A path of one key leads to the entry of that key; a longer one goes on from where its beginning leads. */
  lemma {:induction false} FindSteps(j: Json, k: string, path: seq<string>, more: seq<string>)
    ensures Find(j, [k]) == if j.Object? && k in j.entries then Some(j.entries[k]) else None
    ensures Find(j, path + more) == if Find(j, path).None? then None else Find(Find(j, path).value, more)
    decreases |path|
  {
    if path == [] {
      assert path + more == more;
    } else {
      assert (path + more)[1..] == path[1..] + more;
      if j.Object? && path[0] in j.entries {
        FindSteps(j.entries[path[0]], k, path[1..], more);
      }
    }
  }

  /** A leaf is in the way of a path iff the path leads to one before its end. */
  lemma {:induction false} BlockedIff(j: Json, path: seq<string>)
    ensures Blocked(j, path)
       <==> exists n :: 0 <= n < |path| && Find(j, path[..n]).Some? && Find(j, path[..n]).value.Leaf?
    decreases |path|
  {
    if path != [] {
      assert path[..0] == [];
      forall n | 0 < n < |path| ensures path[..n][0] == path[0] && path[..n][1..] == path[1..][..n - 1] {
      }
      if j.Object? && path[0] in j.entries {
        var next, rest := j.entries[path[0]], path[1..];
        BlockedIff(next, rest);
        if n :| 0 <= n < |rest| && Find(next, rest[..n]).Some? && Find(next, rest[..n]).value.Leaf? {
          assert rest[..n] == path[..n + 1][1..];
          assert Find(j, path[..n + 1]) == Find(next, rest[..n]);
        }
      }
    }
  }

  /** A path leads to what the target has there, merged with what the source has there; where the
      target has nothing, to what the source has, unless a leaf of the target is in the way. */
  lemma {:induction false} FoundInMerge(source: Json, target: Json, path: seq<string>)
    ensures Find(Merge(source, target), path)
         == if Find(target, path).Some? then
              Some(if Find(source, path).Some? then Merge(Find(source, path).value, Find(target, path).value)
                   else Find(target, path).value)
            else if Blocked(target, path) then None
            else Find(source, path)
    decreases |path|
  {
    if path != [] && target.Object? && source.Object? {
      var k := path[0];
      if k in source.entries.Keys * target.entries.Keys {
        FoundInMerge(source.entries[k], target.entries[k], path[1..]);
      }
    }
  }

  /** Every leaf of the target is still there; every path of the source ends somewhere in the merged
      value unless a leaf of the target is in the way; and no other path is new. */
  lemma KeepsAndAdds(source: Json, target: Json, path: seq<string>)
    ensures Find(target, path).Some? && Find(target, path).value.Leaf?
        ==> Find(Merge(source, target), path) == Find(target, path)
    ensures Find(Merge(source, target), path).Some?
       <==> Find(target, path).Some? || (Find(source, path).Some? && !Blocked(target, path))
  {
    FoundInMerge(source, target, path);
    if Find(target, path).Some? {
      FoundIsNotBlocked(target, path);
    }
  }

  lemma {:induction false} FoundIsNotBlocked(j: Json, path: seq<string>)
    requires Find(j, path).Some?
    ensures !Blocked(j, path)
    decreases |path|
  {
    if path != [] {
      FoundIsNotBlocked(j.entries[path[0]], path[1..]);
    }
  }

  // ---------- When nothing changes ----------

  /** Merging changes nothing iff the target already covers the source. */
  lemma {:induction false} UnchangedIff(source: Json, target: Json)
    ensures Merge(source, target) == target <==> Covers(source, target)
    decreases source
  {
    if source.Object? && target.Object? {
      var r := Merge(source, target);
      forall k | k in source.entries && k in target.entries
        ensures r.entries[k] == target.entries[k] <==> Covers(source.entries[k], target.entries[k])
      {
        UnchangedIff(source.entries[k], target.entries[k]);
        assert r.entries[k] == MergedAt(source, target, k) == Merge(source.entries[k], target.entries[k]);
      }
      if Covers(source, target) {
        assert r.entries.Keys == target.entries.Keys;
        forall k | k in target.entries ensures r.entries[k] == target.entries[k] {
          assert r.entries[k] == MergedAt(source, target, k);
        }
        assert r.entries == target.entries;
      } else {
        var k :| k in source.entries
              && !(k in target.entries && Covers(source.entries[k], target.entries[k]));
        assert k in r.entries;
      }
    }
  }

  /** The merged value covers the source. */
  lemma {:induction false} MergeCovers(source: Json, target: Json)
    ensures Covers(source, Merge(source, target))
    decreases source
  {
    if source.Object? && target.Object? {
      forall k | k in source.entries ensures Covers(source.entries[k], Merge(source, target).entries[k]) {
        if k in target.entries {
          MergeCovers(source.entries[k], target.entries[k]);
        } else {
          CoversItself(source.entries[k]);
        }
      }
    }
  }

  lemma {:induction false} CoversItself(j: Json)
    ensures Covers(j, j)
    decreases j
  {
    if j.Object? {
      forall k | k in j.entries ensures Covers(j.entries[k], j.entries[k]) {
        CoversItself(j.entries[k]);
      }
    }
  }

  /** Merging twice is merging once. */
  lemma Idempotent(source: Json, target: Json)
    ensures Merge(source, Merge(source, target)) == Merge(source, target)
  {
    MergeCovers(source, target);
    UnchangedIff(source, Merge(source, target));
  }
}
