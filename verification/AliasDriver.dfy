/** Alias driver: the Move and Copy operations, from the two candidate lists to the calls made
    on the backends. */
module AliasDriver {
  import opened Results
  import opened AliasPolicy
  import opened AliasResolve
  import opened AliasAllocation
  import opened AliasMatching

  /** What filtering a candidate list gives, as values. */
  function Resolved(policy: Policy, objs: seq<Obj>, check: bool, lookup: Lookup): Result<seq<Obj>, Error> {
    match Decide(policy, Flags(objs, check, lookup))
    case Err(e) => Err(e)
    case Ok(v) => Ok(Kept(objs, v))
  }

  /** A candidate list as `Get` and the root of the driver build it. */
  ghost predicate CandidateList(objs: seq<Obj>) {
    objs != [] && objs[0].Plain? && DistinctIds(objs)
  }

  /** The list that `Get` builds for a path is one. */
  lemma CandidatesFit(paths: seq<string>, idx: nat, lookup: Lookup)
    requires idx < |paths| && paths[idx] in lookup
    ensures CandidateList(Candidates(paths, idx, lookup))
  {
  }

  lemma ResolvedAreDistinct(policy: Policy, objs: seq<Obj>, check: bool, lookup: Lookup)
    requires DistinctIds(objs) && Resolved(policy, objs, check, lookup).Ok?
    ensures var kept := Resolved(policy, objs, check, lookup).value;
            kept != [] && Nil !in kept && Distinct(kept)
  {
    var flags := Flags(objs, check, lookup);
    var kept := Kept(objs, Decide(policy, flags).value);
    var all := Kept(objs, ValidPositions(flags));
    KeptAreDistinct(objs, flags);
    forall i | 0 <= i < |kept| ensures kept[i] == all[i] {
    }
    forall i, j | 0 <= i < j < |kept| ensures kept[i] != kept[j] {
      assert all[i] != Nil && all[j] != Nil;
    }
  }

  // ---------- Which sources go where ----------

  /** Filters both lists, then pairs them.  Each refusal happens under its own condition and no other; on
      success the sources and destinations form a same-mount-first allocation. */
  method GetMoveObjs(src: array<Obj>, dst: array<Obj>, put: Policy, check: bool, lookup: Lookup, mounts: Mounts)
      returns (r: Result<(seq<Obj>, seq<Obj>), AllocError>, ghost k: nat)
    requires src != dst && CandidateList(src[..]) && CandidateList(dst[..])
    modifies src, dst
    ensures var to := Resolved(put, old(dst[..]), check, lookup);
            var from := Resolved(All, old(src[..]), check, lookup);
            && (r == Err(PermissionDenied) <==> put == Disabled)
            && (forall e :: r == Err(AllocError.Policy(e)) <==>
                  put != Disabled && (to == Err(e) || (to.Ok? && from == Err(e))))
            && (r == Err(NotEnoughSources) <==>
                  put != Disabled && to.Ok? && from.Ok? && |from.value| < |to.value|)
            && (r == Err(VirtualPath) <==>
                  put != Disabled && to.Ok? && from.Ok? && |to.value| <= |from.value|
                  && exists o <- to.value :: !Located(mounts, o))
            && (r.Ok? ==>
                  to.Ok? && from.Ok? && MoveAllocation(mounts, from.value, to.value, r.value.0, r.value.1, k))
  {
    hide MoveAllocation, Kept, Flags, Decide;
    k := 0;
    if put == Disabled {
      return Err(PermissionDenied), k;
    }
    ghost var to := Resolved(put, dst[..], check, lookup);
    ghost var from := Resolved(All, src[..], check, lookup);
    if to.Ok? {
      ResolvedAreDistinct(put, dst[..], check, lookup);
    }
    var n := GetAllObjs(dst, check, lookup, put);
    if n.Err? {
      return Err(AllocError.Policy(n.error)), k;
    }
    ghost var dsts := dst[..];
    var m := GetAllObjs(src, check, lookup, All);
    assert dst[..] == dsts;
    if m.Err? {
      return Err(AllocError.Policy(m.error)), k;
    }
    assert dst[..n.value] == dsts[..n.value] == to.value;
    if m.value < n.value {
      return Err(NotEnoughSources), k;
    }
    var srcs;
    srcs, k := AllocateMove(dst, n.value, src[..m.value], mounts);
    if srcs.None? {
      return Err(VirtualPath), k;
    }
    r := Ok((srcs.value, dst[..n.value]));
  }

  /** As for Move, except that one source may serve several destinations. */
  method GetCopyObjs(src: array<Obj>, dst: array<Obj>, put: Policy, random: bool, check: bool,
                     lookup: Lookup, mounts: Mounts)
      returns (r: Result<(seq<Obj>, seq<Obj>), AllocError>)
    requires src != dst && CandidateList(src[..]) && CandidateList(dst[..])
    modifies src, dst
    ensures var to := Resolved(put, old(dst[..]), check, lookup);
            var from := Resolved(All, old(src[..]), check, lookup);
            if put == Disabled then r == Err(PermissionDenied)
            else if to.Err? then r == Err(AllocError.Policy(to.error))
            else if exists o <- to.value :: !Located(mounts, o) then r == Err(VirtualPath)
            else if from.Err? then r == Err(AllocError.Policy(from.error))
            else r.Ok? && CopyAllocation(mounts, from.value, to.value, r.value.0, r.value.1, random)
  {
    if put == Disabled {
      return Err(PermissionDenied);
    }
    ghost var to := Resolved(put, dst[..], check, lookup);
    ghost var from := Resolved(All, src[..], check, lookup);
    if to.Ok? {
      ResolvedAreDistinct(put, dst[..], check, lookup);
    }
    var n := GetAllObjs(dst, check, lookup, put);
    if n.Err? {
      return Err(AllocError.Policy(n.error));
    }
    var located := forall o <- dst[..n.value] :: Located(mounts, o);
    if !located {
      return Err(VirtualPath);
    }
    ghost var dsts := dst[..];
    var m := GetAllObjs(src, check, lookup, All);
    assert dst[..] == dsts;
    if m.Err? {
      return Err(AllocError.Policy(m.error));
    }
    assert dst[..n.value] == dsts[..n.value] == to.value;
    if from.Ok? {
      ResolvedAreDistinct(All, old(src[..]), check, lookup);
    }
    var srcs := AllocateCopy(dst, n.value, src[..m.value], mounts, random);
    r := Ok((srcs.value, dst[..n.value]));
  }

  // ---------- The calls made on the backends ----------

  datatype Call = MoveCall(src: Obj, dst: Obj) | RemoveCall(src: Obj)

  /** How a Move ends: after all its calls, or with an index out of range after some. */
  datatype Outcome = Finished(calls: seq<Call>) | Crashed(calls: seq<Call>)

  /** One move per destination, then a removal for every source left over. */
  function MoveCalls(srcs: seq<Obj>, dsts: seq<Obj>): seq<Call>
    requires |dsts| <= |srcs|
  {
    seq(|srcs|, i requires 0 <= i < |srcs| =>
      if i < |dsts| then MoveCall(srcs[i], dsts[i]) else RemoveCall(srcs[i]))
  }

  method MakeMoves(srcs: seq<Obj>, dsts: seq<Obj>) returns (r: Outcome)
    ensures r.Finished? <==> |dsts| <= |srcs|
    ensures r.Finished? ==> r.calls == MoveCalls(srcs, dsts)
    ensures r.Crashed? ==> r.calls == MoveCalls(srcs, dsts[..|srcs|])
  {
    var calls := [];
    for i := 0 to |dsts|
      invariant |calls| == i <= |srcs|
      invariant forall j | 0 <= j < i :: calls[j] == MoveCall(srcs[j], dsts[j])
    {
      if i >= |srcs| {
        return Crashed(calls);
      }
      calls := calls + [MoveCall(srcs[i], dsts[i])];
    }
    var rest := srcs[|dsts|..];
    for i := 0 to |rest|
      invariant |calls| == |dsts| + i
      invariant forall j | 0 <= j < |dsts| :: calls[j] == MoveCall(srcs[j], dsts[j])
      invariant forall j | |dsts| <= j < |dsts| + i :: calls[j] == RemoveCall(srcs[j])
    {
      calls := calls + [RemoveCall(rest[i])];
    }
    r := Finished(calls);
  }

  /** The sources the calls take away, in order. */
  function SourcesOf(calls: seq<Call>): seq<Obj> {
    seq(|calls|, i requires 0 <= i < |calls| => calls[i].src)
  }

  /** The destinations the calls write to, in order. */
  function TargetsOf(calls: seq<Call>): seq<Obj> {
    if calls == [] then []
    else
      var last := calls[|calls| - 1];
      TargetsOf(calls[..|calls| - 1]) + if last.MoveCall? then [last.dst] else []
  }

  /** How many calls move within one mount. */
  function LocalMoves(mounts: Mounts, calls: seq<Call>): nat {
    if calls == [] then 0
    else
      var last := calls[|calls| - 1];
      LocalMoves(mounts, calls[..|calls| - 1]) +
      if last.MoveCall? && SameMount(mounts, last.src, last.dst) then 1 else 0
  }

  lemma {:induction false} CallsInOrder(mounts: Mounts, srcs: seq<Obj>, dsts: seq<Obj>, n: nat)
    requires |dsts| <= |srcs| && n <= |srcs|
    ensures var m := if n <= |dsts| then n else |dsts|;
            var calls := MoveCalls(srcs, dsts)[..n];
            && TargetsOf(calls) == dsts[..m]
            && LocalMoves(mounts, calls) == SameMountPairs(mounts, srcs, dsts, m)
  {
    if n > 0 {
      CallsInOrder(mounts, srcs, dsts, n - 1);
      assert MoveCalls(srcs, dsts)[..n][..n - 1] == MoveCalls(srcs, dsts)[..n - 1];
    }
  }

  lemma CallSources(srcs: seq<Obj>, dsts: seq<Obj>)
    requires |dsts| <= |srcs|
    ensures SourcesOf(MoveCalls(srcs, dsts)) == srcs && |MoveCalls(srcs, dsts)| == |srcs|
  {
  }

  lemma {:induction false} LocatedCount(mounts: Mounts, s: seq<Obj>)
    ensures |AllLocated(mounts, s)| <= |s|
    ensures |AllLocated(mounts, s)| == |s| <==> forall o <- s :: Located(mounts, o)
    ensures (forall o <- s :: Located(mounts, o)) ==> AllLocated(mounts, s) == s
  {
    if s != [] {
      LocatedCount(mounts, s[..|s| - 1]);
      assert s == s[..|s| - 1] + [s[|s| - 1]];
    }
  }

  /** What a Move amounts to, for any allocation: it completes iff at least as many sources as
      destinations have a storage; then every such source is moved or removed exactly once,
      every destination receives exactly one source, and as many moves as the mounts allow
      stay on one mount.  No source at all is forgotten iff every source has a storage. */
  lemma MoveAccounting(mounts: Mounts, from: seq<Obj>, to: seq<Obj>, srcs: seq<Obj>, dsts: seq<Obj>, k: nat)
    requires MoveAllocation(mounts, from, to, srcs, dsts, k)
    ensures |dsts| <= |srcs| <==> |to| <= |AllLocated(mounts, from)|
    ensures |dsts| <= |srcs| ==>
              var calls := MoveCalls(srcs, dsts);
              && multiset(SourcesOf(calls)) == multiset(AllLocated(mounts, from))
              && multiset(TargetsOf(calls)) == multiset(to)
              && LocalMoves(mounts, calls) == Capacity(mounts, from, to)
              && (multiset(SourcesOf(calls)) == multiset(from) <==> forall o <- from :: Located(mounts, o))
  {
    hide MoveCalls, LocalMoves, TargetsOf, Capacity, SameMountPairs, AllLocated;
    assert |multiset(srcs)| == |multiset(AllLocated(mounts, from))|;
    assert |multiset(dsts)| == |multiset(to)|;
    LocatedCount(mounts, from);
    if |dsts| <= |srcs| {
      var calls := MoveCalls(srcs, dsts);
      CallSources(srcs, dsts);
      assert calls[..|srcs|] == calls && dsts[..|dsts|] == dsts;
      CallsInOrder(mounts, srcs, dsts, |srcs|);
      MoveReachesCapacity(mounts, from, to, srcs, dsts, k);
      if multiset(srcs) == multiset(from) {
        assert |multiset(from)| == |from|;
      }
    }
  }

  /** A Move that runs out of sources: each source that has a storage went to a destination of its own. */
  lemma MoveRunsOut(mounts: Mounts, from: seq<Obj>, to: seq<Obj>, srcs: seq<Obj>, dsts: seq<Obj>, k: nat)
    requires MoveAllocation(mounts, from, to, srcs, dsts, k) && |srcs| < |dsts|
    ensures var calls := MoveCalls(srcs, dsts[..|srcs|]);
            && multiset(SourcesOf(calls)) == multiset(AllLocated(mounts, from))
            && multiset(TargetsOf(calls)) <= multiset(to) && |TargetsOf(calls)| == |calls|
  {
    hide MoveCalls, LocalMoves, TargetsOf, SameMountPairs, AllLocated;
    var reached := dsts[..|srcs|];
    CallSources(srcs, reached);
    assert MoveCalls(srcs, reached)[..|srcs|] == MoveCalls(srcs, reached) && reached[..|srcs|] == reached;
    CallsInOrder(mounts, srcs, reached, |srcs|);
    assert dsts == reached + dsts[|srcs|..];
  }

  /** What a Move that is not refused does, given the sources and destinations. */
  ghost predicate Transfers(mounts: Mounts, from: seq<Obj>, to: seq<Obj>, outcome: Outcome) {
    && multiset(SourcesOf(outcome.calls)) == multiset(AllLocated(mounts, from))
    && match outcome
       case Finished(calls) =>
         && |to| <= |AllLocated(mounts, from)|
         && multiset(TargetsOf(calls)) == multiset(to) && LocalMoves(mounts, calls) == Capacity(mounts, from, to)
       case Crashed(calls) =>
         && |AllLocated(mounts, from)| < |to|
         && multiset(TargetsOf(calls)) <= multiset(to) && |TargetsOf(calls)| == |calls|
  }

  /** The whole Move operation.  When the storage of every source is found, it is refused or completes. */
  method Move(src: array<Obj>, dst: array<Obj>, put: Policy, check: bool, lookup: Lookup, mounts: Mounts)
      returns (r: Result<Outcome, AllocError>)
    requires src != dst && CandidateList(src[..]) && CandidateList(dst[..])
    modifies src, dst
    ensures var to := Resolved(put, old(dst[..]), check, lookup);
            var from := Resolved(All, old(src[..]), check, lookup);
            && (r == Err(PermissionDenied) <==> put == Disabled)
            && (forall e :: r == Err(AllocError.Policy(e)) <==>
                  put != Disabled && (to == Err(e) || (to.Ok? && from == Err(e))))
            && (r == Err(NotEnoughSources) <==>
                  put != Disabled && to.Ok? && from.Ok? && |from.value| < |to.value|)
            && (r == Err(VirtualPath) <==>
                  put != Disabled && to.Ok? && from.Ok? && |to.value| <= |from.value|
                  && exists o <- to.value :: !Located(mounts, o))
            && (r.Ok? ==> to.Ok? && from.Ok? && Transfers(mounts, from.value, to.value, r.value))
            && (r.Ok? && (forall o <- from.value :: Located(mounts, o)) ==> r.value.Finished?)
  {
    hide MoveAllocation, Resolved, MoveCalls, SourcesOf, TargetsOf, LocalMoves, Capacity, AllLocated;
    ghost var from := Resolved(All, src[..], check, lookup);
    ghost var to := Resolved(put, dst[..], check, lookup);
    var pairs, k := GetMoveObjs(src, dst, put, check, lookup, mounts);
    if pairs.Err? {
      return Err(pairs.error);
    }
    var (srcs, dsts) := pairs.value;
    MoveAccounting(mounts, from.value, to.value, srcs, dsts, k);
    if |srcs| < |dsts| {
      MoveRunsOut(mounts, from.value, to.value, srcs, dsts, k);
    }
    LocatedCount(mounts, from.value);
    var outcome := MakeMoves(srcs, dsts);
    r := Ok(outcome);
  }

  /** What resolving a path gives: its candidates, filtered by the policy. */
  function ByPath(policy: Policy, paths: seq<string>, check: bool, lookup: Lookup): Result<seq<Obj>, Error>
    requires FirstFound(paths, lookup).Some?
  {
    Resolved(policy, Candidates(paths, FirstFound(paths, lookup).value, lookup), check, lookup)
  }

  /** A Move as it is asked for, by two paths: each is looked up on its backends, and the two lists of
      candidates are what the operation works on. */
  method MoveByPath(srcPaths: seq<string>, dstPaths: seq<string>, put: Policy, check: bool,
                    lookup: Lookup, mounts: Mounts) returns (found: bool, r: Result<Outcome, AllocError>)
    ensures found <==> FirstFound(srcPaths, lookup).Some? && FirstFound(dstPaths, lookup).Some?
    ensures !found ==> r == Err(AllocError.Policy(ObjectNotFound))
    ensures found ==>
            var to := ByPath(put, dstPaths, check, lookup);
            var from := ByPath(All, srcPaths, check, lookup);
            && (r == Err(PermissionDenied) <==> put == Disabled)
            && (forall e :: r == Err(AllocError.Policy(e)) <==>
                  put != Disabled && (to == Err(e) || (to.Ok? && from == Err(e))))
            && (r == Err(NotEnoughSources) <==>
                  put != Disabled && to.Ok? && from.Ok? && |from.value| < |to.value|)
            && (r == Err(VirtualPath) <==>
                  put != Disabled && to.Ok? && from.Ok? && |to.value| <= |from.value|
                  && exists o <- to.value :: !Located(mounts, o))
            && (r.Ok? ==> to.Ok? && from.Ok? && Transfers(mounts, from.value, to.value, r.value))
            && (r.Ok? && (forall o <- from.value :: Located(mounts, o)) ==> r.value.Finished?)
  {
    hide Resolved, Candidates, CandidateList, Transfers, Located;
    var src := Get(srcPaths, lookup);
    if src.Err? {
      return false, Err(AllocError.Policy(src.error));
    }
    var dst := Get(dstPaths, lookup);
    if dst.Err? {
      return false, Err(AllocError.Policy(dst.error));
    }
    CandidatesFit(srcPaths, FirstFound(srcPaths, lookup).value, lookup);
    CandidatesFit(dstPaths, FirstFound(dstPaths, lookup).value, lookup);
    found := true;
    r := Move(src.value, dst.value, put, check, lookup, mounts);
  }

  const FROM := [Plain(0, "s", EMPTY_META), Plain(1, "t", EMPTY_META)]
  const TO := [Plain(2, "x", EMPTY_META), Plain(3, "y", EMPTY_META)]
  const MOUNTS: Mounts := map["s" := "m", "x" := "m", "y" := "n"]

  /** Two sources for two destinations pass the length check, yet when the storage of one
      source cannot be found every allocation is a source short and the Move crashes. */
  lemma DroppedSourceCrashes(srcs: seq<Obj>, dsts: seq<Obj>, k: nat)
    requires MoveAllocation(MOUNTS, FROM, TO, srcs, dsts, k)
    ensures |FROM| == |TO| && |srcs| < |dsts|
  {
    assert "t"[0] !in ['s', 'x', 'y'];
    assert !Located(MOUNTS, FROM[1]);
    LocatedCount(MOUNTS, FROM);
    MoveAccounting(MOUNTS, FROM, TO, srcs, dsts, k);
  }
}
