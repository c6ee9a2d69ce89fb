/** Alias driver: how `Get` lists the backends that may hold a path, and how a
    conflict policy turns that list into the backends an operation acts on. */
module AliasPolicy {
  import opened Results

  // ---------- Entities ----------

  /** What a backend reports about an object.  Two metas agree when the kinds match and,
      under a consistency check, the sizes and all hashes present on both sides match. */
  datatype Meta = Meta(isDir: bool, size: int, hashes: map<string, string>)

  const EMPTY_META := Meta(false, 0, map[])

  /** A slot of the candidate list: the nil marker, a path not looked up yet, or an object.
      `id` stands for the identity of the pointer kept in the slot. */
  datatype Obj =
    | Nil
    | Temp(id: nat, path: string)
    | Plain(id: nat, path: string, meta: Meta)

  datatype Policy =
    | Disabled | First | Deterministic | DeterministicOrAll | All | AllStrict
    | RandomBalanced | BalancedByQuota | BalancedByQuotaStrict

  datatype Error = ObjectNotFound | NotFile | NotFolder | PathConflict | SamePathLeak

  /** A snapshot of what the backends answer for a path. */
  type Lookup = map<string, Meta>

  // ---------- One candidate ----------

  /** The consistency check on two files: equal sizes, and every hash of `a` that `b`
      also has is the same.  An empty hash counts as absent. */
  predicate IsConsistent(a: Meta, b: Meta) {
    && a.size == b.size
    && forall h <- a.hashes :: h !in b.hashes || b.hashes[h] == "" || b.hashes[h] == a.hashes[h]
  }

  /** Without hashes only the sizes count; one more hash of `b` counts iff it is not empty and `a` has one
      of the same kind, and then both must be the same. */
  lemma HashByHash(a: Meta, b: Meta, h: string, v: string)
    requires h !in b.hashes
    ensures b.hashes == map[] ==> (IsConsistent(a, b) <==> a.size == b.size)
    ensures IsConsistent(a, b.(hashes := b.hashes[h := v]))
       <==> IsConsistent(a, b) && (h in a.hashes && v != "" ==> a.hashes[h] == v)
  {
    var more := b.(hashes := b.hashes[h := v]);
    assert forall k | k != h ::
             (k in more.hashes <==> k in b.hashes) && (k in b.hashes ==> more.hashes[k] == b.hashes[k]);
  }

  /** Unless some hash is empty it does not matter which file is compared with which. */
  lemma ConsistentSymmetric(a: Meta, b: Meta)
    requires "" !in a.hashes.Values && "" !in b.hashes.Values
    ensures IsConsistent(a, b) <==> IsConsistent(b, a)
  {
    forall h <- a.hashes ensures a.hashes[h] in a.hashes.Values {
    }
    forall h <- b.hashes ensures b.hashes[h] in b.hashes.Values {
    }
  }

  /** The object whose kind, size and hashes the others are compared with. */
  function HeadMeta(objs: seq<Obj>): Meta {
    if objs != [] && objs[0].Plain? then objs[0].meta else EMPTY_META
  }

  /** The error with which a candidate is rejected, if any, given the object at the head
      of the list. */
  function Rejection(head: Meta, check: bool, lookup: Lookup, o: Obj): Option<Error> {
    match o
    case Nil => Some(ObjectNotFound)
    case Plain(_, _, _) => None
    case Temp(_, path) =>
      if path !in lookup then Some(ObjectNotFound)
      else if !head.isDir then
        if lookup[path].isDir then Some(NotFile)
        else if check && !IsConsistent(head, lookup[path]) then Some(ObjectNotFound)
        else None
      else if !lookup[path].isDir then Some(NotFolder)
      else None
  }

  /** Which candidates are valid, slot by slot. */
  function Flags(objs: seq<Obj>, check: bool, lookup: Lookup): (flags: seq<bool>)
    ensures |flags| == |objs|
  {
    seq(|objs|, i requires 0 <= i < |objs| => Rejection(HeadMeta(objs), check, lookup, objs[i]).None?)
  }

  /** An accepted slot as it is stored back: a looked-up path becomes an object that keeps
      nothing but the path. */
  function Promote(o: Obj): Obj {
    if o.Temp? then Plain(o.id, o.path, EMPTY_META) else o
  }

  // ---------- What a policy means, on the flags alone ----------

  /** The positions of the valid candidates, in order. */
  function ValidPositions(flags: seq<bool>): (v: seq<nat>)
    ensures |v| <= |flags|
    ensures forall k | 0 <= k < |v| :: v[k] < |flags|
  {
    if flags == [] then []
    else
      var n := |flags| - 1;
      ValidPositions(flags[..n]) + if flags[n] then [n] else []
  }

  /** `ValidPositions` lists the valid positions, all of them, once each, in list order. */
  lemma {:induction false} ValidPositionsExact(flags: seq<bool>)
    ensures forall p: nat :: p in ValidPositions(flags) <==> p < |flags| && flags[p]
    ensures forall i, j | 0 <= i < j < |ValidPositions(flags)| :: ValidPositions(flags)[i] < ValidPositions(flags)[j]
  {
    if flags != [] {
      ValidPositionsExact(flags[..|flags| - 1]);
    }
  }

  /** The policy, stated over the whole list at once: which positions the operation acts on,
      or why it is refused. */
  function Decide(policy: Policy, flags: seq<bool>): (r: Result<seq<nat>, Error>)
    ensures r.Ok? ==> r.value != [] && r.value <= ValidPositions(flags)
  {
    var v := ValidPositions(flags);
    var all := false !in flags;
    match policy
    case First => if v == [] then Err(ObjectNotFound) else Ok([v[0]])
    case AllStrict => if !all then Err(SamePathLeak) else if v == [] then Err(ObjectNotFound) else Ok(v)
    case Deterministic =>
      if |v| > 1 then Err(PathConflict) else if v == [] then Err(ObjectNotFound) else Ok(v)
    case DeterministicOrAll =>
      if |v| > 1 && !all then Err(SamePathLeak) else if v == [] then Err(ObjectNotFound) else Ok(v)
    case _ => if v == [] then Err(ObjectNotFound) else Ok(v)
  }

  /** What comes later never takes a valid position back. */
  lemma {:induction false} PositionsGrow(flags: seq<bool>, more: seq<bool>)
    ensures ValidPositions(flags) <= ValidPositions(flags + more)
  {
    if more == [] {
      assert flags + more == flags;
    } else {
      var n := |more| - 1;
      PositionsGrow(flags, more[..n]);
      assert (flags + more)[..|flags| + n] == flags + more[..n];
    }
  }

  // ---------- The filter closure ----------

  /** No verdict has ended the loop yet: the flags so far still leave both outcomes open
      or accept everything seen. */
  ghost predicate Undecided(policy: Policy, seen: seq<bool>) {
    && (policy == First ==> true !in seen)
    && (policy == AllStrict ==> false !in seen)
    && (policy == Deterministic ==> |ValidPositions(seen)| <= 1)
    && (policy == DeterministicOrAll ==> |ValidPositions(seen)| <= 1 || false !in seen)
  }

  /** The stateful closure that a policy hands to the candidate loop.  `seen` records the
      verdicts so far; `all` and `l` are the two variables the closure captures. */
  class PolicyFilter {
    const policy: Policy
    var all: bool
    var l: nat
    ghost var seen: seq<bool>

    /** The captured variables summarise the history, and no earlier call ended the loop. */
    ghost predicate Valid()
      reads this
    {
      && (policy != All ==> all == (false !in seen) && l == |ValidPositions(seen)|)
      && Undecided(policy, seen)
    }

    constructor (policy: Policy)
      ensures Valid() && seen == [] && this.policy == policy
    {
      this.policy := policy;
      all, l, seen := true, 0, [];
    }

    /** One verdict: whether to go on, and the error with which this candidate is left out.
        A refusal (`!cont` with an error) happens only when every way the list can go on
        is refused with that same error; only `First` stops the loop on a success. */
    method IfContinue(err: Option<Error>) returns (cont: bool, err': Option<Error>)
      requires Valid()
      modifies this
      ensures seen == old(seen) + [err.None?]
      ensures cont ==> Valid() && err' == err
      ensures !cont && err'.None? ==> policy == First && err.None? && true !in old(seen)
      ensures !cont && err'.Some? ==>
                forall more {:trigger Decide(policy, seen + more)} :: Decide(policy, seen + more) == Err(err'.value)
    {
      seen := seen + [err.None?];
      assert seen[..|seen| - 1] == old(seen);
      if policy == All {
        return true, err;
      }
      if err.Some? {
        if policy == AllStrict {
          RefusedForAMiss(policy, seen);
          return false, Some(SamePathLeak);
        } else if policy == DeterministicOrAll && l >= 2 {
          RefusedForAMiss(policy, seen);
          return false, Some(SamePathLeak);
        }
        all := false;
      } else {
        if policy == First {
          return false, None;
        } else if policy == Deterministic && l > 0 {
          forall more ensures Decide(policy, seen + more) == Err(PathConflict) {
            PositionsGrow(seen, more);
          }
          return false, Some(PathConflict);
        } else if policy == DeterministicOrAll && l > 0 && !all {
          RefusedForAMiss(policy, seen);
          return false, Some(SamePathLeak);
        }
        l := l + 1;
      }
      return true, err;
    }
  }

  /** A miss rules out "all valid" for good. */
  lemma RefusedForAMiss(policy: Policy, seen: seq<bool>)
    requires false in seen
    requires policy == AllStrict || (policy == DeterministicOrAll && |ValidPositions(seen)| > 1)
    ensures forall more {:trigger Decide(policy, seen + more)} :: Decide(policy, seen + more) == Err(SamePathLeak)
  {
    forall more ensures Decide(policy, seen + more) == Err(SamePathLeak) {
      PositionsGrow(seen, more);
      var j :| 0 <= j < |seen| && seen[j] == false;
      assert (seen + more)[j] == false;
    }
  }

  // ---------- The candidate loop ----------

  /** The objects the operation acts on: the accepted slots, in list order. */
  function Kept(objs: seq<Obj>, positions: seq<nat>): (kept: seq<Obj>)
    requires forall k | 0 <= k < |positions| :: positions[k] < |objs|
    ensures |kept| == |positions|
  {
    seq(|positions|, k requires 0 <= k < |positions| => Promote(objs[positions[k]]))
  }

  /** Every slot that is kept holds an object, the same pointer with the same path.  What was known of an
      object looked up earlier is kept, and nothing but the path of one looked up now. */
  lemma KeptCarry(objs: seq<Obj>, positions: seq<nat>, k: nat)
    requires forall j | 0 <= j < |positions| :: positions[j] < |objs|
    requires k < |positions| && objs[positions[k]] != Nil
    ensures var kept, slot := Kept(objs, positions)[k], objs[positions[k]];
            && kept.Plain? && kept.id == slot.id && kept.path == slot.path
            && (slot.Plain? ==> kept.meta == slot.meta)
            && (slot.Temp? ==> !kept.meta.isDir && kept.meta.size == 0 && kept.meta.hashes.Keys == {})
  {
  }

  lemma NoPositions(flags: seq<bool>)
    requires true !in flags
    ensures ValidPositions(flags) == []
  {
  }

  /** A list read to its end without a verdict keeps everything valid, or nothing was valid. */
  lemma DecideAtEnd(policy: Policy, flags: seq<bool>)
    requires Undecided(policy, flags)
    ensures Decide(policy, flags)
         == if ValidPositions(flags) == [] then Err(ObjectNotFound) else Ok(ValidPositions(flags))
  {
    if policy == First {
      NoPositions(flags);
    }
  }

  /** `First` is decided by the first valid slot, whatever follows it. */
  lemma DecideAtFirst(flags: seq<bool>, i: nat)
    requires i < |flags| && flags[i] && true !in flags[..i]
    ensures ValidPositions(flags[..i + 1]) == [i]
    ensures Decide(First, flags) == Ok([i])
  {
    NoPositions(flags[..i]);
    assert flags[..i + 1][..i] == flags[..i];
    assert flags[..i + 1] + flags[i + 1..] == flags;
    PositionsGrow(flags[..i + 1], flags[i + 1..]);
  }

  /** The list half way: the kept part is what the slots read so far amount to, and no slot
      was overwritten before it was read. */
  ghost predicate Scanned(now: seq<Obj>, was: seq<Obj>, flags: seq<bool>, i: nat, length: nat) {
    && length <= i <= |flags| == |was| == |now|
    && now[..length] == Kept(was, ValidPositions(flags[..i]))
    && now[i..] == was[i..]
    && (i > 0 ==> length > 0 && now[0] == was[0])
  }

  /** Reading one more slot, and storing it when it is valid, keeps the list so. */
  lemma ScanNext(now: seq<Obj>, was: seq<Obj>, flags: seq<bool>, i: nat, length: nat)
    requires Scanned(now, was, flags, i, length) && i < |flags|
    requires i == 0 ==> flags[i] && was[i].Plain?
    ensures now[i] == was[i] && now[0] == was[0]
    ensures flags[..i] + [flags[i]] == flags[..i + 1]
    ensures if flags[i] then Scanned(now[length := Promote(was[i])], was, flags, i + 1, length + 1)
            else Scanned(now, was, flags, i + 1, length)
  {
    assert now[i..][0] == was[i..][0];
    assert flags[..i + 1][..i] == flags[..i];
    if flags[i] {
      var now' := now[length := Promote(was[i])];
      assert now'[..length + 1] == now[..length] + [Promote(was[i])];
      assert now'[i + 1..] == now[i..][1..];
    } else {
      assert now[i + 1..] == now[i..][1..];
    }
  }

  lemma ScanStart(was: seq<Obj>, flags: seq<bool>)
    requires |flags| == |was|
    ensures Scanned(was, was, flags, 0, 0)
  {
  }

  /** The slot to store into next is not past the one being read. */
  lemma ScanRoom(now: seq<Obj>, was: seq<Obj>, flags: seq<bool>, i: nat, length: nat)
    requires Scanned(now, was, flags, i, length)
    ensures length <= i <= |flags| == |was| == |now|
  {
  }

  lemma FlagAt(objs: seq<Obj>, check: bool, lookup: Lookup, i: nat)
    requires i < |objs| && objs[0].Plain?
    ensures Flags(objs, check, lookup)[i] == Rejection(objs[0].meta, check, lookup, objs[i]).None?
    ensures i == 0 ==> Flags(objs, check, lookup)[i]
  {
  }

  lemma SplitAt(flags: seq<bool>, n: nat)
    requires n <= |flags|
    ensures flags == flags[..n] + flags[n..]
  {
  }

  /** How the candidate loop ends: at the end of the list, at the first success under
      `First`, or with a refusal. */
  datatype Ending = Exhausted | Stopped | Refused(error: Error)

  /** The candidate loop: reads every slot once and stores the accepted ones from the front.
      A refusal is the one `Decide` gives for the whole list, however much of it was read. */
  method Scan(objs: array<Obj>, check: bool, lookup: Lookup, filter: PolicyFilter)
      returns (length: nat, ending: Ending, ghost i: nat)
    requires objs.Length > 0 ==> objs[0].Plain?
    requires filter.Valid() && filter.seen == []
    modifies objs, filter
    ensures var was := old(objs[..]); var flags := Flags(was, check, lookup);
            match ending
            case Exhausted => Scanned(objs[..], was, flags, |flags|, length) && Undecided(filter.policy, flags)
            case Stopped =>
              && filter.policy == First && i < |flags| && flags[i] && true !in flags[..i]
              && Scanned(objs[..], was, flags, i + 1, length)
            case Refused(e) => Decide(filter.policy, flags) == Err(e)
  {
    hide Flags, Scanned, ValidPositions, Decide, Rejection, Undecided;
    ghost var was := objs[..];
    ghost var flags := Flags(was, check, lookup);
    length, i := 0, 0;
    ScanStart(was, flags);
    for n := 0 to objs.Length
      invariant i == n
      invariant filter.Valid() && filter.seen == flags[..n]
      invariant Scanned(objs[..], was, flags, n, length)
    {
      ScanRoom(objs[..], was, flags, n, length);
      FlagAt(was, check, lookup, n);
      ScanNext(objs[..], was, flags, n, length);
      var o := objs[n];
      var err := Rejection(objs[0].meta, check, lookup, o);
      var cont, err' := filter.IfContinue(err);
      if err'.Some? {
        if !cont {
          SplitAt(flags, n + 1);
          return length, Refused(err'.value), i;
        }
      } else {
        ghost var now := objs[..];
        objs[length] := Promote(o);
        assert objs[..] == now[length := Promote(o)];
        length := length + 1;
        if !cont {
          return length, Stopped, i;
        }
      }
      i := i + 1;
    }
    assert flags[..|flags|] == flags;
    ending := Exhausted;
  }

  /** Filters the candidate list by the policy and compacts it in place.  The outcome is the
      one `Decide` gives for the original list; on success the first slots hold exactly the
      accepted objects in order. */
  method GetAllObjs(objs: array<Obj>, check: bool, lookup: Lookup, policy: Policy)
      returns (r: Result<nat, Error>)
    requires objs.Length > 0 ==> objs[0].Plain?
    modifies objs
    ensures match Decide(policy, Flags(old(objs[..]), check, lookup))
            case Err(e) => r == Err(e)
            case Ok(v) => r == Ok(|v|) && objs[..|v|] == Kept(old(objs[..]), v)
  {
    ghost var flags := Flags(objs[..], check, lookup);
    var filter := new PolicyFilter(policy);
    var length, ending, i := Scan(objs, check, lookup, filter);
    match ending {
      case Refused(e) =>
        return Err(e);
      case Stopped =>
        DecideAtFirst(flags, i);
      case Exhausted =>
        assert flags[..|flags|] == flags;
        DecideAtEnd(policy, flags);
    }
    return if length == 0 then Err(ObjectNotFound) else Ok(length);
  }

  /** Exactly one flag is set. */
  ghost predicate OnlyOne(flags: seq<bool>) {
    exists p: nat :: p < |flags| && flags[p] && forall q: nat :: q < |flags| && flags[q] ==> q == p
  }

  lemma SomePosition(flags: seq<bool>)
    ensures ValidPositions(flags) != [] <==> true in flags
    ensures var v := ValidPositions(flags); v != [] ==> flags[v[0]] && true !in flags[..v[0]]
  {
    var v := ValidPositions(flags);
    ValidPositionsExact(flags);
    if true in flags {
      var p: nat :| p < |flags| && flags[p];
      assert p in v;
    }
    if v != [] {
      assert v[0] in v;
      forall q: nat | q < v[0] ensures !flags[q] {
        assert flags[q] ==> q in v;
      }
    }
  }

  lemma OnePosition(flags: seq<bool>)
    ensures |ValidPositions(flags)| == 1 <==> OnlyOne(flags)
  {
    var v := ValidPositions(flags);
    ValidPositionsExact(flags);
    if |v| == 1 {
      assert v[0] in v;
      forall q: nat | q < |flags| && flags[q] ensures q == v[0] {
        assert q in v;
      }
    }
    if |v| > 1 {
      assert v[0] in v && v[1] in v && v[0] < v[1];
    }
  }

  /** What each policy promises: `first` acts on the first valid backend, `deterministic`
      succeeds iff exactly one is valid, `all_strict` iff all are, `deterministic_or_all` iff
      one or all are; every other policy succeeds iff some backend is valid. */
  lemma PolicyMeaning(policy: Policy, flags: seq<bool>)
    ensures Decide(policy, flags).Ok? <==>
              match policy
              case AllStrict => true in flags && false !in flags
              case Deterministic => OnlyOne(flags)
              case DeterministicOrAll => OnlyOne(flags) || (true in flags && false !in flags)
              case _ => true in flags
    ensures Decide(First, flags).Ok? ==>
              exists p: nat :: p < |flags| && flags[p] && true !in flags[..p] && Decide(First, flags) == Ok([p])
    ensures policy != First && Decide(policy, flags).Ok? ==>
              forall p: nat :: p in Decide(policy, flags).value <==> p < |flags| && flags[p]
  {
    SomePosition(flags);
    OnePosition(flags);
    ValidPositionsExact(flags);
  }

  /** At least two flags are set. */
  ghost predicate Several(flags: seq<bool>) {
    exists p: nat, q: nat :: p < q < |flags| && flags[p] && flags[q]
  }

  lemma SeveralPositions(flags: seq<bool>)
    ensures |ValidPositions(flags)| > 1 <==> Several(flags)
  {
    var v := ValidPositions(flags);
    ValidPositionsExact(flags);
    if |v| > 1 {
      assert v[0] in v && v[1] in v && v[0] < v[1];
    }
    if p: nat, q: nat :| p < q < |flags| && flags[p] && flags[q] {
      assert p in v && q in v;
      var i :| 0 <= i < |v| && v[i] == p;
      var j :| 0 <= j < |v| && v[j] == q;
    }
  }

  /** Why an operation is refused: two valid backends under `deterministic`; a miss under `all_strict`, or
      next to two valid backends under `deterministic_or_all`; and otherwise only because none is valid. */
  lemma RefusalMeaning(policy: Policy, flags: seq<bool>)
    ensures Decide(policy, flags) == Err(PathConflict) <==> policy == Deterministic && Several(flags)
    ensures Decide(policy, flags) == Err(SamePathLeak)
       <==> false in flags && (policy == AllStrict || (policy == DeterministicOrAll && Several(flags)))
    ensures Decide(policy, flags) == Err(ObjectNotFound)
       <==> true !in flags && (policy == AllStrict ==> flags == [])
    ensures Decide(policy, flags).Err? ==> Decide(policy, flags).error in {PathConflict, SamePathLeak, ObjectNotFound}
  {
    SomePosition(flags);
    SeveralPositions(flags);
    if flags != [] {
      assert flags[0] in flags;
    }
  }
}
