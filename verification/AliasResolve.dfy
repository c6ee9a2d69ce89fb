/** Alias driver: the candidate list that `Get` builds for a path, and what a policy applied
    to it means for the whole list of backends. */
module AliasResolve {
  import opened Results
  import opened AliasPolicy

  // ---------- The candidate list ----------

  /** The first backend that has the path. */
  function FirstFound(paths: seq<string>, lookup: Lookup): (r: Option<nat>)
    ensures r.Some? ==> r.value < |paths| && paths[r.value] in lookup
    ensures r.Some? ==> forall i | 0 <= i < r.value :: paths[i] !in lookup
    ensures r.None? ==> forall i | 0 <= i < |paths| :: paths[i] !in lookup
  {
    if paths == [] then None
    else if paths[0] in lookup then Some(0)
    else
      match FirstFound(paths[1..], lookup)
      case None => None
      case Some(i) => Some(i + 1)
  }

  /** The candidate list for one path: the first backend that has it, one nil marker for all
      the backends skipped, and the remaining backends not looked up yet. */
  function Candidates(paths: seq<string>, idx: nat, lookup: Lookup): (objs: seq<Obj>)
    requires idx < |paths| && paths[idx] in lookup
    ensures |objs| == Skipped(idx) + |paths| - idx
    ensures objs[0] == Plain(0, paths[idx], lookup[paths[idx]])
    ensures forall j | Skipped(idx) < j < |objs| :: objs[j] == Temp(j, paths[j - Skipped(idx) + idx])
    ensures idx > 0 ==> objs[1] == Nil
  {
    [Plain(0, paths[idx], lookup[paths[idx]])] +
    (if idx > 0 then [Nil] else []) +
    seq(|paths| - idx - 1, j requires 0 <= j < |paths| - idx - 1 =>
      Temp(j + 1 + Skipped(idx), paths[idx + 1 + j]))
  }

  /** How many markers stand for the backends skipped. */
  function Skipped(idx: nat): nat { if idx > 0 then 1 else 0 }

  /** Asks the backends in order until one has the path.  The list is built from there. */
  method Get(paths: seq<string>, lookup: Lookup) returns (r: Result<array<Obj>, Error>)
    ensures match FirstFound(paths, lookup)
            case None => r == Err(ObjectNotFound)
            case Some(idx) => r.Ok? && fresh(r.value) && r.value[..] == Candidates(paths, idx, lookup)
  {
    for idx := 0 to |paths|
      invariant forall i | 0 <= i < idx :: paths[i] !in lookup
    {
      if paths[idx] !in lookup {
        continue;
      }
      var rest := paths[idx + 1..];
      var objs := [Plain(0, paths[idx], lookup[paths[idx]])];
      if idx > 0 {
        objs := objs + [Nil];
      }
      for k := 0 to |rest|
        invariant |objs| == 1 + Skipped(idx) + k
        invariant objs == Candidates(paths, idx, lookup)[..|objs|]
      {
        objs := objs + [Temp(|objs|, rest[k])];
      }
      var list := new Obj[|objs|](i requires 0 <= i < |objs| => objs[i]);
      return Ok(list);
    }
    return Err(ObjectNotFound);
  }

  // ---------- Refinement: the policy over the whole backend list ----------

  /** A backend holds the same thing as the first one: same kind and, for files under the
      consistency check, same size and hashes. */
  predicate Agrees(head: Meta, check: bool, found: Meta) {
    head.isDir == found.isDir && (check && !head.isDir ==> IsConsistent(head, found))
  }

  /** Which backends validly hold the path, judged against the first that has it. */
  function BackendFlags(paths: seq<string>, idx: nat, lookup: Lookup, check: bool): seq<bool>
    requires idx < |paths| && paths[idx] in lookup
  {
    seq(|paths|, i requires 0 <= i < |paths| =>
      paths[i] in lookup && Agrees(lookup[paths[idx]], check, lookup[paths[i]]))
  }

  /** The paths of the kept objects. */
  function PathsOf(objs: seq<Obj>): seq<string>
    requires Nil !in objs
  {
    seq(|objs|, k requires 0 <= k < |objs| => objs[k].path)
  }

  function Select(paths: seq<string>, positions: seq<nat>): seq<string>
    requires forall k | 0 <= k < |positions| :: positions[k] < |paths|
  {
    seq(|positions|, k requires 0 <= k < |positions| => paths[positions[k]])
  }

  function Shift(v: seq<nat>, offset: nat): (w: seq<nat>)
    ensures |w| == |v|
  {
    seq(|v|, k requires 0 <= k < |v| => v[k] + offset)
  }

  lemma {:induction false} PositionsConcat(a: seq<bool>, b: seq<bool>)
    ensures ValidPositions(a + b) == ValidPositions(a) + Shift(ValidPositions(b), |a|)
  {
    if b == [] {
      assert a + b == a;
    } else {
      var n := |b| - 1;
      PositionsConcat(a, b[..n]);
      assert (a + b)[..|a| + n] == a + b[..n];
      assert (a + b)[|a| + n] == b[n];
    }
  }

  /** The backend view of the flags: a miss for every backend skipped, then the hit. */
  lemma BackendView(paths: seq<string>, idx: nat, lookup: Lookup, check: bool)
    requires FirstFound(paths, lookup) == Some(idx)
    ensures var flags := BackendFlags(paths, idx, lookup, check);
            flags == seq(idx, _ => false) + [true] + flags[idx + 1..]
  {
  }

  /** The candidate view: the hit, one miss standing for all the backends skipped, the rest. */
  lemma CandidateView(paths: seq<string>, idx: nat, lookup: Lookup, check: bool)
    requires FirstFound(paths, lookup) == Some(idx)
    ensures Flags(Candidates(paths, idx, lookup), check, lookup)
         == [true] + (if idx > 0 then [false] else []) + BackendFlags(paths, idx, lookup, check)[idx + 1..]
  {
    var objs := Candidates(paths, idx, lookup);
    var flags := Flags(objs, check, lookup);
    var rest := BackendFlags(paths, idx, lookup, check)[idx + 1..];
    forall k | 0 <= k < |rest| ensures flags[k + 1 + Skipped(idx)] == rest[k] {
      assert objs[k + 1 + Skipped(idx)] == Temp(k + 1 + Skipped(idx), paths[idx + 1 + k]);
    }
  }

  /** The order and number of valid positions do not depend on the number of leading misses. */
  lemma LeadingMisses(n: nat, rest: seq<bool>)
    ensures ValidPositions(seq(n, _ => false) + [true] + rest) == [n] + Shift(ValidPositions(rest), n + 1)
    ensures false in seq(n, _ => false) + [true] + rest <==> n > 0 || false in rest
  {
    var misses := seq(n, _ => false);
    NoPositions(misses);
    PositionsConcat(misses + [true], rest);
    assert (misses + [true])[..n] == misses;
    var flags := misses + [true] + rest;
    if n > 0 {
      assert flags[0] == false;
    }
    if false in rest {
      var j :| 0 <= j < |rest| && rest[j] == false;
      assert flags[n + 1 + j] == false;
    }
  }

  /** `Get` followed by `GetAllObjs` applies the policy to the whole backend list in root
      order: same refusals, and the same backends acted on.  Standing one nil marker in for
      all the backends that missed never changes the outcome. */
  lemma PolicyRefinesBackendList(policy: Policy, paths: seq<string>, idx: nat, lookup: Lookup, check: bool)
    requires FirstFound(paths, lookup) == Some(idx)
    ensures var objs := Candidates(paths, idx, lookup);
            var flags := Flags(objs, check, lookup);
            var spec := Decide(policy, BackendFlags(paths, idx, lookup, check));
            match spec
            case Err(e) => Decide(policy, flags) == Err(e)
            case Ok(v) =>
              && Decide(policy, flags).Ok?
              && var kept := Kept(objs, Decide(policy, flags).value);
                 Nil !in kept && PathsOf(kept) == Select(paths, v)
  {
    var rest := BackendFlags(paths, idx, lookup, check)[idx + 1..];
    hide Flags, Candidates, ValidPositions, BackendFlags, Decide;
    BackendView(paths, idx, lookup, check);
    CandidateView(paths, idx, lookup, check);
    LeadingMisses(idx, rest);
    CollapsedPositions(idx, rest);
    var n := SameVerdict(policy, BackendFlags(paths, idx, lookup, check),
                         Flags(Candidates(paths, idx, lookup), check, lookup));
    SameBackends(paths, idx, lookup, ValidPositions(rest), n);
  }

  /** The verdict depends only on how many candidates are valid and whether any is not; what
      is acted on is then the same leading part of the valid ones. */
  lemma SameVerdict(policy: Policy, f: seq<bool>, g: seq<bool>) returns (n: nat)
    requires |ValidPositions(f)| == |ValidPositions(g)| && (false in f <==> false in g)
    ensures n <= |ValidPositions(f)|
    ensures match Decide(policy, f)
            case Err(e) => Decide(policy, g) == Err(e)
            case Ok(v) => v == ValidPositions(f)[..n] && Decide(policy, g) == Ok(ValidPositions(g)[..n])
  {
    hide ValidPositions;
    var v, w := ValidPositions(f), ValidPositions(g);
    assert v[..|v|] == v && w[..|w|] == w;
    if v != [] {
      assert v[..1] == [v[0]] && w[..1] == [w[0]];
    }
    n := if policy == First && v != [] then 1 else |v|;
  }

  /** The positions of the two views name the same backends. */
  lemma SameBackends(paths: seq<string>, idx: nat, lookup: Lookup, v: seq<nat>, m: nat)
    requires idx < |paths| && paths[idx] in lookup && m <= |v| + 1
    requires forall k | 0 <= k < |v| :: v[k] < |paths| - idx - 1
    ensures var kept := Kept(Candidates(paths, idx, lookup), ([0] + Shift(v, Skipped(idx) + 1))[..m]);
            Nil !in kept && PathsOf(kept) == Select(paths, ([idx] + Shift(v, idx + 1))[..m])
  {
    var n := Skipped(idx);
    var objs := Candidates(paths, idx, lookup);
    var kept := Kept(objs, ([0] + Shift(v, n + 1))[..m]);
    forall k | 0 <= k < m
      ensures kept[k] != Nil && kept[k].path == paths[([idx] + Shift(v, idx + 1))[k]]
    {
      if k > 0 {
        assert objs[v[k - 1] + n + 1] == Temp(v[k - 1] + n + 1, paths[v[k - 1] + 1 + idx]);
      }
    }
  }

  lemma CollapsedPositions(idx: nat, rest: seq<bool>)
    ensures var flags := [true] + (if idx > 0 then [false] else []) + rest;
            && ValidPositions(flags) == [0] + Shift(ValidPositions(rest), Skipped(idx) + 1)
            && (false in flags <==> idx > 0 || false in rest)
  {
    var head := [true] + (if idx > 0 then [false] else []);
    PositionsConcat(head, rest);
    assert ValidPositions([true]) == [0];
    if idx > 0 {
      assert head[..1] == [true];
      assert (head + rest)[1] == false;
    }
    assert ValidPositions(head) == [0];
    if false in rest {
      var j :| 0 <= j < |rest| && rest[j] == false;
      assert (head + rest)[|head| + j] == false;
    }
  }

  /** The slots of a candidate list are different pointers, and stay so when filtered. */
  lemma KeptAreDistinct(objs: seq<Obj>, flags: seq<bool>)
    requires DistinctIds(objs) && |flags| <= |objs|
    requires forall k | 0 <= k < |flags| && flags[k] :: objs[k] != Nil
    ensures var kept := Kept(objs, ValidPositions(flags));
            Nil !in kept && DistinctIds(kept)
  {
    hide ValidPositions;
    var v := ValidPositions(flags);
    ValidPositionsExact(flags);
    forall k | 0 <= k < |v| ensures v[k] < |objs| && flags[v[k]] && objs[v[k]] != Nil {
      assert v[k] in v;
    }
  }

  /** No two slots hold the same pointer. */
  ghost predicate DistinctIds(objs: seq<Obj>) {
    forall i, j | 0 <= i < j < |objs| && objs[i] != Nil && objs[j] != Nil :: objs[i].id != objs[j].id
  }
}
