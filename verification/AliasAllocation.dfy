/** Alias driver: pairing the copies of a source with the copies of a destination directory,
    preferring pairs that live on the same mount. */
module AliasAllocation {
  import opened Results
  import opened AliasPolicy

  /** A snapshot of `fs.GetStorage`: the mount path of the storage that serves a path; a path
      outside the map is one whose storage lookup fails. */
  type Mounts = map<string, string>

  datatype AllocError = PermissionDenied | Policy(error: Error) | VirtualPath | NotEnoughSources

  predicate Located(mounts: Mounts, o: Obj) {
    o != Nil && o.path in mounts
  }

  predicate SameMount(mounts: Mounts, a: Obj, b: Obj) {
    Located(mounts, a) && Located(mounts, b) && mounts[a.path] == mounts[b.path]
  }

  /** The objects whose storage lookup succeeds, in order. */
  function AllLocated(mounts: Mounts, objs: seq<Obj>): (r: seq<Obj>)
    ensures forall o <- r :: Located(mounts, o)
  {
    if objs == [] then []
    else
      var last := objs[|objs| - 1];
      AllLocated(mounts, objs[..|objs| - 1]) + if Located(mounts, last) then [last] else []
  }

  /** The mounts of the objects, with multiplicity. */
  function MountBag(mounts: Mounts, objs: seq<Obj>): multiset<string> {
    if objs == [] then multiset{}
    else
      var last := objs[|objs| - 1];
      MountBag(mounts, objs[..|objs| - 1]) + MountOf(mounts, last)
  }

  function MountOf(mounts: Mounts, o: Obj): multiset<string> {
    if Located(mounts, o) then multiset{mounts[o.path]} else multiset{}
  }

  // ---------- What an allocation for Move is ----------

  /** The first `k` sources sit on the mounts of their destinations; past `k` no source left
      over could have served a destination left over from its own mount. */
  ghost predicate MoveAllocation(mounts: Mounts, from: seq<Obj>, to: seq<Obj>,
                                 srcs: seq<Obj>, dsts: seq<Obj>, k: nat)
  {
    && multiset(srcs) == multiset(AllLocated(mounts, from))
    && multiset(dsts) == multiset(to)
    && k <= |srcs| && k <= |dsts|
    && (forall i | 0 <= i < k :: SameMount(mounts, srcs[i], dsts[i]))
    && (forall i, j | k <= i < |srcs| && k <= j < |dsts| :: !SameMount(mounts, srcs[i], dsts[j]))
  }

  // ---------- Destinations by mount ----------

  /** The destinations not given away yet, as the two maps of the source hold them: by mount,
      and as a set. */
  ghost predicate Indexed(mounts: Mounts, byMount: map<string, seq<Obj>>, free: set<Obj>) {
    && (forall m <- byMount :: byMount[m] != [] && Distinct(byMount[m]))
    && (forall m <- byMount, o <- byMount[m] :: o in free && Located(mounts, o) && mounts[o.path] == m)
    && (forall o <- free :: Located(mounts, o) && mounts[o.path] in byMount && o in byMount[mounts[o.path]])
  }

  ghost predicate Distinct<T>(s: seq<T>) {
    forall i, j | 0 <= i < j < |s| :: s[i] != s[j]
  }

  /** One more destination on its mount. */
  function Insert(byMount: map<string, seq<Obj>>, m: string, o: Obj): map<string, seq<Obj>> {
    byMount[m := (if m in byMount then byMount[m] else []) + [o]]
  }

  lemma IndexedInsert(mounts: Mounts, byMount: map<string, seq<Obj>>, free: set<Obj>, o: Obj)
    requires Indexed(mounts, byMount, free) && Located(mounts, o) && o !in free
    ensures Indexed(mounts, Insert(byMount, mounts[o.path], o), free + {o})
  {
  }

  /** The first destination of a mount is given away. */
  function Pop(byMount: map<string, seq<Obj>>, m: string): map<string, seq<Obj>>
    requires m in byMount && byMount[m] != []
  {
    if |byMount[m]| == 1 then byMount - {m} else byMount[m := byMount[m][1..]]
  }

  lemma IndexedPop(mounts: Mounts, byMount: map<string, seq<Obj>>, free: set<Obj>, m: string)
    requires Indexed(mounts, byMount, free) && m in byMount
    ensures Indexed(mounts, Pop(byMount, m), free - {byMount[m][0]})
    ensures byMount[m][0] in free && Located(mounts, byMount[m][0]) && mounts[byMount[m][0].path] == m
    ensures Pop(byMount, m).Keys <= byMount.Keys
  {
    var first := byMount[m][0];
    assert first in byMount[m];
    var left := Pop(byMount, m);
    forall n <- left, o <- left[n] ensures o in free - {first} && Located(mounts, o) && mounts[o.path] == n {
      PopOnlyShrinks(mounts, byMount, free, m, n, o);
    }
    forall o <- free - {first} ensures mounts[o.path] in left && o in left[mounts[o.path]] {
      PopKeeps(mounts, byMount, free, m, o);
    }
  }

  lemma PopOnlyShrinks(mounts: Mounts, byMount: map<string, seq<Obj>>, free: set<Obj>, m: string, n: string, o: Obj)
    requires Indexed(mounts, byMount, free) && m in byMount && byMount[m] != []
    requires n in Pop(byMount, m) && o in Pop(byMount, m)[n]
    ensures o in byMount[n] && o != byMount[m][0]
  {
    var first := byMount[m][0];
    assert first in byMount[m];
    if n == m {
      var i :| 0 <= i < |byMount[m][1..]| && byMount[m][1..][i] == o;
      assert byMount[m][i + 1] == o;
    } else {
      assert Pop(byMount, m)[n] == byMount[n] && o in byMount[n];
      assert Located(mounts, o) && mounts[o.path] == n;
      assert Located(mounts, first) && mounts[first.path] == m;
    }
  }

  lemma PopKeeps(mounts: Mounts, byMount: map<string, seq<Obj>>, free: set<Obj>, m: string, o: Obj)
    requires Indexed(mounts, byMount, free) && m in byMount && byMount[m] != []
    requires o in free && o != byMount[m][0]
    ensures mounts[o.path] in Pop(byMount, m) && o in Pop(byMount, m)[mounts[o.path]]
  {
    var n := mounts[o.path];
    var i :| 0 <= i < |byMount[n]| && byMount[n][i] == o;
    if n == m {
      assert i > 0 && byMount[m][1..][i - 1] == o;
    }
  }

  /** Sorts the destinations by mount.  Fails when a destination has no storage. */
  method IndexByMount(dsts: seq<Obj>, mounts: Mounts)
      returns (r: Option<map<string, seq<Obj>>>, free: set<Obj>)
    requires Nil !in dsts && Distinct(dsts)
    ensures r.None? <==> exists o <- dsts :: !Located(mounts, o)
    ensures r.Some? ==> Indexed(mounts, r.value, free) && multiset(free) == multiset(dsts)
  {
    var byMount: map<string, seq<Obj>> := map[];
    free := {};
    for i := 0 to |dsts|
      invariant forall o <- dsts[..i] :: Located(mounts, o)
      invariant Indexed(mounts, byMount, free)
      invariant multiset(free) == multiset(dsts[..i])
    {
      var o := dsts[i];
      assert dsts[..i + 1] == dsts[..i] + [o];
      if o.path !in mounts {
        assert o in dsts && !Located(mounts, o);
        return None, {};
      }
      assert o !in multiset(dsts[..i]);
      IndexedInsert(mounts, byMount, free, o);
      byMount := Insert(byMount, mounts[o.path], o);
      free := free + {o};
    }
    assert dsts[..|dsts|] == dsts;
    r := Some(byMount);
  }

  /** Writes the next destination into the list, in place. */
  method Place(list: array<Obj>, i: nat, o: Obj)
    requires i < list.Length
    modifies list
    ensures list[..i] == old(list[..i]) && list[i] == o
    ensures multiset(list[..i + 1]) == multiset(list[..i]) + multiset{o}
  {
    list[i] := o;
    assert list[..i + 1] == list[..i] + [o];
  }

  /** Writes the destinations still free, in any order, after the first `k` of the list. */
  method FillRest(list: array<Obj>, k: nat, n: nat, free: set<Obj>)
    requires k + |free| == n <= list.Length
    modifies list
    ensures list[..k] == old(list[..k])
    ensures multiset(list[..n]) == old(multiset(list[..k])) + multiset(free)
    ensures forall j | k <= j < n :: list[j] in free
  {
    ghost var paired := list[..k];
    var left := free;
    for i := k to n
      invariant i + |left| == n && left <= free
      invariant list[..k] == paired
      invariant multiset(list[..i]) + multiset(left) == multiset(paired) + multiset(free)
      invariant forall j | k <= j < i :: list[j] in free
    {
      var dst :| dst in left;
      ghost var done := list[..i];
      Place(list, i, dst);
      assert forall j | 0 <= j < i :: list[j] == done[j];
      assert multiset(left) == multiset(left - {dst}) + multiset{dst};
      left := left - {dst};
    }
  }

  // ---------- Move ----------

  ghost predicate Paired(mounts: Mounts, srcs: seq<Obj>, dsts: seq<Obj>) {
    && |srcs| == |dsts|
    && forall i | 0 <= i < |srcs| :: SameMount(mounts, srcs[i], dsts[i])
  }

  /** The pairing half way: what was given to the sources `seen` so far, and what is left. */
  ghost predicate Pairing(mounts: Mounts, seen: seq<Obj>, all: set<Obj>, byMount: map<string, seq<Obj>>,
                          free: set<Obj>, srcs: seq<Obj>, dsts: seq<Obj>, rest: seq<Obj>)
  {
    && Indexed(mounts, byMount, free)
    && free <= all && multiset(dsts) + multiset(free) == multiset(all)
    && Paired(mounts, srcs, dsts)
    && multiset(srcs) + multiset(rest) == multiset(AllLocated(mounts, seen))
    && forall o <- rest :: Located(mounts, o) && mounts[o.path] !in byMount
  }

  lemma NotEmpty(mounts: Mounts, byMount: map<string, seq<Obj>>, free: set<Obj>, m: string)
    requires Indexed(mounts, byMount, free) && m in byMount
    ensures byMount[m] != []
  {
  }

  lemma PairMatched(mounts: Mounts, seen: seq<Obj>, all: set<Obj>, byMount: map<string, seq<Obj>>,
                    free: set<Obj>, srcs: seq<Obj>, dsts: seq<Obj>, rest: seq<Obj>, src: Obj)
    requires Pairing(mounts, seen, all, byMount, free, srcs, dsts, rest)
    requires Located(mounts, src) && mounts[src.path] in byMount
    ensures byMount[mounts[src.path]] != []
    ensures var m := mounts[src.path];
            var dst := byMount[m][0];
            && dst in free
            && Pairing(mounts, seen + [src], all, Pop(byMount, m), free - {dst}, srcs + [src], dsts + [dst], rest)
  {
    hide Pop, Indexed, AllLocated;
    var m := mounts[src.path];
    NotEmpty(mounts, byMount, free, m);
    var dst := byMount[m][0];
    IndexedPop(mounts, byMount, free, m);
    LocatedSnoc(mounts, seen, src);
    GiveAway(all, free, dsts, dst);
    MoveOver(srcs, rest, src, AllLocated(mounts, seen));
  }

  lemma LocatedSnoc(mounts: Mounts, seen: seq<Obj>, src: Obj)
    ensures AllLocated(mounts, seen + [src])
         == AllLocated(mounts, seen) + if Located(mounts, src) then [src] else []
  {
    assert (seen + [src])[..|seen|] == seen;
  }

  lemma GiveAway(all: set<Obj>, free: set<Obj>, dsts: seq<Obj>, dst: Obj)
    requires multiset(dsts) + multiset(free) == multiset(all) && dst in free
    ensures multiset(dsts + [dst]) + multiset(free - {dst}) == multiset(all)
  {
    assert multiset(free) == multiset(free - {dst}) + multiset{dst};
  }

  lemma MoveOver(srcs: seq<Obj>, rest: seq<Obj>, src: Obj, located: seq<Obj>)
    requires multiset(srcs) + multiset(rest) == multiset(located)
    ensures multiset(srcs + [src]) + multiset(rest) == multiset(located + [src])
  {
  }

  lemma PairUnmatched(mounts: Mounts, seen: seq<Obj>, all: set<Obj>, byMount: map<string, seq<Obj>>,
                      free: set<Obj>, srcs: seq<Obj>, dsts: seq<Obj>, rest: seq<Obj>, src: Obj)
    requires Pairing(mounts, seen, all, byMount, free, srcs, dsts, rest)
    requires Located(mounts, src) ==> mounts[src.path] !in byMount
    ensures Pairing(mounts, seen + [src], all, byMount, free, srcs, dsts,
                    if Located(mounts, src) then rest + [src] else rest)
  {
    assert (seen + [src])[..|seen|] == seen;
  }

  lemma PairingStart(mounts: Mounts, byMount: map<string, seq<Obj>>, all: set<Obj>)
    requires Indexed(mounts, byMount, all)
    ensures Pairing(mounts, [], all, byMount, all, [], [], [])
  {
  }

  lemma PairingEnd(mounts: Mounts, seen: seq<Obj>, all: set<Obj>, byMount: map<string, seq<Obj>>,
                   free: set<Obj>, srcs: seq<Obj>, dsts: seq<Obj>, rest: seq<Obj>)
    requires Pairing(mounts, seen, all, byMount, free, srcs, dsts, rest)
    ensures |srcs| + |free| == |all| && free <= all
    ensures multiset(dsts) + multiset(free) == multiset(all)
    ensures multiset(srcs) + multiset(rest) == multiset(AllLocated(mounts, seen))
    ensures Paired(mounts, srcs, dsts)
    ensures forall o <- rest, d <- free :: !SameMount(mounts, o, d)
  {
    PairingCount(mounts, seen, all, byMount, free, srcs, dsts, rest);
  }

  lemma PairingCount(mounts: Mounts, seen: seq<Obj>, all: set<Obj>, byMount: map<string, seq<Obj>>,
                     free: set<Obj>, srcs: seq<Obj>, dsts: seq<Obj>, rest: seq<Obj>)
    requires Pairing(mounts, seen, all, byMount, free, srcs, dsts, rest)
    ensures |srcs| == |dsts| && |dsts| + |free| == |all|
  {
    assert |multiset(dsts) + multiset(free)| == |multiset(all)|;
  }

  /** Gives each source the first destination left on its own mount, if there is one, and
      writes the destinations given away to the front of the list. */
  method PairUp(list: array<Obj>, n: nat, from: seq<Obj>, mounts: Mounts,
                indexed: map<string, seq<Obj>>, unpaired: set<Obj>)
      returns (srcs: seq<Obj>, rest: seq<Obj>, free: set<Obj>)
    requires |unpaired| == n <= list.Length && Indexed(mounts, indexed, unpaired)
    modifies list
    ensures |srcs| + |free| == n && free <= unpaired
    ensures multiset(list[..|srcs|]) + multiset(free) == multiset(unpaired)
    ensures multiset(srcs) + multiset(rest) == multiset(AllLocated(mounts, from))
    ensures Paired(mounts, srcs, list[..|srcs|])
    ensures forall o <- rest, d <- free :: !SameMount(mounts, o, d)
  {
    hide Pairing, Indexed;
    var byMount := indexed;
    PairingStart(mounts, byMount, unpaired);
    srcs, rest, free := [], [], unpaired;
    for j := 0 to |from|
      invariant |srcs| <= n
      invariant Pairing(mounts, from[..j], unpaired, byMount, free, srcs, list[..|srcs|], rest)
    {
      var src := from[j];
      ghost var dsts := list[..|srcs|];
      assert from[..j + 1] == from[..j] + [src];
      if !Located(mounts, src) {
        PairUnmatched(mounts, from[..j], unpaired, byMount, free, srcs, dsts, rest, src);
        continue;
      }
      var m := mounts[src.path];
      if m in byMount {
        PairMatched(mounts, from[..j], unpaired, byMount, free, srcs, dsts, rest, src);
        var dst := byMount[m][0];
        PairingCount(mounts, from[..j], unpaired, byMount, free, srcs, dsts, rest);
        byMount := Pop(byMount, m);
        list[|srcs|] := dst;
        srcs := srcs + [src];
        free := free - {dst};
        assert list[..|srcs|] == dsts + [dst];
      } else {
        PairUnmatched(mounts, from[..j], unpaired, byMount, free, srcs, dsts, rest, src);
        rest := rest + [src];
      }
    }
    assert from[..|from|] == from;
    PairingEnd(mounts, from, unpaired, byMount, free, srcs, list[..|srcs|], rest);
  }

  /** Pairs sources with the destinations `list[..n]`, permuting the destinations in place. */
  method AllocateMove(list: array<Obj>, n: nat, from: seq<Obj>, mounts: Mounts)
      returns (r: Option<seq<Obj>>, ghost k: nat)
    requires n <= list.Length && Nil !in list[..n] && Distinct(list[..n])
    modifies list
    ensures r.None? <==> exists o <- old(list[..n]) :: !Located(mounts, o)
    ensures r.Some? ==> MoveAllocation(mounts, from, old(list[..n]), r.value, list[..n], k)
  {
    ghost var to := list[..n];
    var indexed, unpaired := IndexByMount(list[..n], mounts);
    if indexed.None? {
      return None, 0;
    }
    assert |multiset(unpaired)| == |multiset(to)| == n;
    var srcs, rest, free := PairUp(list, n, from, mounts, indexed.value, unpaired);
    ghost var paired := list[..|srcs|];
    FillRest(list, |srcs|, n, free);
    assert forall i | 0 <= i < |srcs| :: list[i] == paired[i];
    r, k := Some(srcs + rest), |srcs|;
  }

  // ---------- Copy ----------

  /** `src` is the first of the sources that lives on the mount of `dst`. */
  ghost predicate IsFirstOn(mounts: Mounts, from: seq<Obj>, src: Obj, dst: Obj) {
    exists j :: 0 <= j < |from| && from[j] == src && SameMount(mounts, src, dst)
                && forall i | 0 <= i < j :: !SameMount(mounts, from[i], dst)
  }

  /** Every destination once; each is served by the first source on its own mount, or, if
      there is none there, by a fallback source. */
  ghost predicate CopyAllocation(mounts: Mounts, from: seq<Obj>, to: seq<Obj>, srcs: seq<Obj>,
                                 dsts: seq<Obj>, anySource: bool)
  {
    && |srcs| == |dsts| && multiset(dsts) == multiset(to)
    && forall i | 0 <= i < |dsts| :: Served(mounts, from, srcs[i], dsts[i], anySource)
  }

  ghost predicate Served(mounts: Mounts, from: seq<Obj>, src: Obj, dst: Obj, anySource: bool) {
    if exists o <- from :: SameMount(mounts, o, dst) then IsFirstOn(mounts, from, src, dst)
    else src in from && (anySource || src == from[0])
  }

  /** The copying half way: every destination given away is served by the first source on its
      mount, and no mount still indexed has a source among those seen. */
  ghost predicate Copying(mounts: Mounts, seen: seq<Obj>, all: set<Obj>, byMount: map<string, seq<Obj>>,
                          free: set<Obj>, srcs: seq<Obj>, dsts: seq<Obj>)
  {
    && Indexed(mounts, byMount, free)
    && free <= all && multiset(dsts) + multiset(free) == multiset(all)
    && |srcs| == |dsts|
    && (forall i | 0 <= i < |srcs| :: IsFirstOn(mounts, seen, srcs[i], dsts[i]))
    && forall o <- seen :: Located(mounts, o) ==> mounts[o.path] !in byMount
  }

  lemma CopyingStart(mounts: Mounts, byMount: map<string, seq<Obj>>, all: set<Obj>)
    requires Indexed(mounts, byMount, all)
    ensures Copying(mounts, [], all, byMount, all, [], [])
  {
  }

  lemma FirstStaysFirst(mounts: Mounts, from: seq<Obj>, more: seq<Obj>, src: Obj, dst: Obj)
    requires IsFirstOn(mounts, from, src, dst)
    ensures IsFirstOn(mounts, from + more, src, dst)
  {
    var j :| 0 <= j < |from| && from[j] == src && SameMount(mounts, src, dst)
             && forall i | 0 <= i < j :: !SameMount(mounts, from[i], dst);
    assert (from + more)[j] == src;
  }

  lemma CopyUnmatched(mounts: Mounts, seen: seq<Obj>, all: set<Obj>, byMount: map<string, seq<Obj>>,
                      free: set<Obj>, srcs: seq<Obj>, dsts: seq<Obj>, src: Obj)
    requires Copying(mounts, seen, all, byMount, free, srcs, dsts)
    requires Located(mounts, src) ==> mounts[src.path] !in byMount
    ensures Copying(mounts, seen + [src], all, byMount, free, srcs, dsts)
  {
    forall i | 0 <= i < |srcs| ensures IsFirstOn(mounts, seen + [src], srcs[i], dsts[i]) {
      FirstStaysFirst(mounts, seen, [src], srcs[i], dsts[i]);
    }
  }

  function Elements(s: seq<Obj>): set<Obj> { set o <- s }

  lemma {:induction false} DistinctBag(s: seq<Obj>)
    requires Distinct(s)
    ensures multiset(Elements(s)) == multiset(s)
  {
    if s != [] {
      var n := |s| - 1;
      DistinctBag(s[..n]);
      assert s == s[..n] + [s[n]];
      assert Elements(s) == Elements(s[..n]) + {s[n]};
      assert s[n] !in s[..n];
    }
  }

  lemma IndexedDrop(mounts: Mounts, byMount: map<string, seq<Obj>>, free: set<Obj>, m: string)
    requires Indexed(mounts, byMount, free) && m in byMount
    ensures Indexed(mounts, byMount - {m}, free - Elements(byMount[m]))
    ensures Elements(byMount[m]) <= free
  {
  }

  lemma CopyMatched(mounts: Mounts, seen: seq<Obj>, all: set<Obj>, byMount: map<string, seq<Obj>>,
                    free: set<Obj>, srcs: seq<Obj>, dsts: seq<Obj>, src: Obj)
    requires Copying(mounts, seen, all, byMount, free, srcs, dsts)
    requires Located(mounts, src) && mounts[src.path] in byMount
    ensures var m := mounts[src.path];
            var group := byMount[m];
            && |dsts| + |group| <= |all|
            && Copying(mounts, seen + [src], all, byMount - {m}, free - Elements(group),
                       srcs + seq(|group|, _ => src), dsts + group)
  {
    var m := mounts[src.path];
    var group := byMount[m];
    IndexedDrop(mounts, byMount, free, m);
    TakeGroup(all, free, dsts, group);
    forall i | 0 <= i < |srcs| ensures IsFirstOn(mounts, seen + [src], srcs[i], dsts[i]) {
      FirstStaysFirst(mounts, seen, [src], srcs[i], dsts[i]);
    }
    forall dst <- group ensures IsFirstOn(mounts, seen + [src], src, dst) {
      assert (seen + [src])[|seen|] == src;
    }
  }

  lemma TakeGroup(all: set<Obj>, free: set<Obj>, dsts: seq<Obj>, group: seq<Obj>)
    requires multiset(dsts) + multiset(free) == multiset(all)
    requires Distinct(group) && Elements(group) <= free
    ensures var left := free - Elements(group);
            multiset(dsts + group) + multiset(left) == multiset(all) && |dsts| + |group| + |left| == |all|
  {
    DistinctBag(group);
    var left := free - Elements(group);
    assert multiset(free) == multiset(left) + multiset(Elements(group));
    assert |multiset(dsts + group) + multiset(left)| == |multiset(all)|;
  }

  lemma CopyingEnd(mounts: Mounts, from: seq<Obj>, all: set<Obj>, byMount: map<string, seq<Obj>>,
                   free: set<Obj>, srcs: seq<Obj>, dsts: seq<Obj>)
    requires Copying(mounts, from, all, byMount, free, srcs, dsts)
    ensures |srcs| == |dsts| && |dsts| + |free| == |all|
    ensures multiset(dsts) + multiset(free) == multiset(all)
    ensures forall i | 0 <= i < |srcs| :: Served(mounts, from, srcs[i], dsts[i], false)
    ensures forall o <- from, d <- free :: !SameMount(mounts, o, d)
  {
    assert |multiset(dsts) + multiset(free)| == |multiset(all)|;
  }

  /** Writes a group of destinations into the list, in place. */
  method PlaceAll(list: array<Obj>, k: nat, group: seq<Obj>)
    requires k + |group| <= list.Length
    modifies list
    ensures list[..k + |group|] == old(list[..k]) + group
  {
    ghost var before := list[..k];
    for i := 0 to |group|
      invariant list[..k + i] == before + group[..i]
    {
      list[k + i] := group[i];
      assert list[..k + i + 1] == list[..k + i] + [group[i]];
    }
  }

  /** Serves the destinations of the sources' own mounts, writing them to the front of the list. */
  method ServeOwnMounts(list: array<Obj>, n: nat, from: seq<Obj>, mounts: Mounts,
                        indexed: map<string, seq<Obj>>, unpaired: set<Obj>)
      returns (srcs: seq<Obj>, free: set<Obj>)
    requires |unpaired| == n <= list.Length && Indexed(mounts, indexed, unpaired)
    modifies list
    ensures |srcs| + |free| == n
    ensures multiset(list[..|srcs|]) + multiset(free) == multiset(unpaired)
    ensures forall i | 0 <= i < |srcs| :: Served(mounts, from, srcs[i], list[i], false)
    ensures forall o <- from, d <- free :: !SameMount(mounts, o, d)
  {
    hide Copying, Indexed, Served;
    var byMount := indexed;
    CopyingStart(mounts, byMount, unpaired);
    srcs, free := [], unpaired;
    for j := 0 to |from|
      invariant |srcs| <= n
      invariant Copying(mounts, from[..j], unpaired, byMount, free, srcs, list[..|srcs|])
    {
      var src := from[j];
      assert from[..j + 1] == from[..j] + [src];
      if Located(mounts, src) && mounts[src.path] in byMount {
        var m := mounts[src.path];
        var group := byMount[m];
        CopyMatched(mounts, from[..j], unpaired, byMount, free, srcs, list[..|srcs|], src);
        PlaceAll(list, |srcs|, group);
        srcs := srcs + seq(|group|, _ => src);
        free := free - Elements(group);
        byMount := byMount - {m};
      } else {
        CopyUnmatched(mounts, from[..j], unpaired, byMount, free, srcs, list[..|srcs|], src);
      }
    }
    assert from[..|from|] == from;
    ghost var dsts := list[..|srcs|];
    CopyingEnd(mounts, from, unpaired, byMount, free, srcs, dsts);
    assert forall i | 0 <= i < |srcs| :: list[i] == dsts[i];
  }

  /** Gives every destination of `list[..n]` a source, permuting the destinations in place.
      `random` says that the read policy picks fallback sources at random. */
  method AllocateCopy(list: array<Obj>, n: nat, from: seq<Obj>, mounts: Mounts, random: bool)
      returns (r: Option<seq<Obj>>)
    requires n <= list.Length && Nil !in list[..n] && Distinct(list[..n]) && from != []
    modifies list
    ensures r.None? <==> exists o <- old(list[..n]) :: !Located(mounts, o)
    ensures r.Some? ==> CopyAllocation(mounts, from, old(list[..n]), r.value, list[..n], random)
  {
    ghost var to := list[..n];
    var indexed, unpaired := IndexByMount(list[..n], mounts);
    if indexed.None? {
      return None;
    }
    assert |multiset(unpaired)| == |multiset(to)| == n;
    var srcs, free := ServeOwnMounts(list, n, from, mounts, indexed.value, unpaired);
    ghost var served := list[..|srcs|];
    FillRest(list, |srcs|, n, free);
    assert forall i | 0 <= i < |srcs| :: list[i] == served[i];
    var picks := Fallbacks(n - |srcs|, from, random);
    forall i | |srcs| <= i < n ensures Served(mounts, from, (srcs + picks)[i], list[i], random) {
      assert picks[i - |srcs|] in from;
    }
    r := Some(srcs + picks);
  }

  /** Sources for the destinations on other mounts: the first source, or any of them. */
  method Fallbacks(count: nat, from: seq<Obj>, random: bool) returns (picks: seq<Obj>)
    requires from != []
    ensures |picks| == count
    ensures forall o <- picks :: o in from && (random || o == from[0])
  {
    picks := [];
    for i := 0 to count
      invariant |picks| == i
      invariant forall o <- picks :: o in from && (random || o == from[0])
    {
      var pick := 0;
      if random {
        pick :| 0 <= pick < |from|;
      }
      picks := picks + [from[pick]];
    }
  }
}
