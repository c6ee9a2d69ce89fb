/** Alias driver: the allocations for Move and Copy keep as many transfers as possible on one
    mount, and what Move then does to every source and destination. */
module AliasMatching {
  import opened AliasPolicy
  import opened AliasAllocation

  // ---------- Bags of mounts ----------

  lemma BagEmpty(mounts: Mounts)
    ensures MountBag(mounts, []) == multiset{}
  {
  }

  lemma BagSnoc(mounts: Mounts, s: seq<Obj>, o: Obj)
    ensures MountBag(mounts, s + [o]) == MountBag(mounts, s) + MountOf(mounts, o)
  {
    assert (s + [o])[..|s|] == s;
  }

  lemma {:induction false} BagConcat(mounts: Mounts, a: seq<Obj>, b: seq<Obj>)
    ensures MountBag(mounts, a + b) == MountBag(mounts, a) + MountBag(mounts, b)
  {
    hide MountBag;
    if b == [] {
      assert a + b == a;
      BagEmpty(mounts);
    } else {
      var b', last := b[..|b| - 1], b[|b| - 1];
      BagConcat(mounts, a, b');
      assert b == b' + [last] && a + b == (a + b') + [last];
      BagSnoc(mounts, a + b', last);
      BagSnoc(mounts, b', last);
    }
  }

  /** Taking one object out of a list takes its mount out of the bag. */
  lemma BagRemove(mounts: Mounts, s: seq<Obj>, i: nat)
    requires i < |s|
    ensures MountBag(mounts, s) == MountBag(mounts, s[..i] + s[i + 1..]) + MountOf(mounts, s[i])
    ensures multiset(s) == multiset(s[..i] + s[i + 1..]) + multiset{s[i]}
  {
    hide MountBag;
    assert s == s[..i] + [s[i]] + s[i + 1..];
    BagConcat(mounts, s[..i], s[i + 1..]);
    BagConcat(mounts, s[..i] + [s[i]], s[i + 1..]);
    BagSnoc(mounts, s[..i], s[i]);
  }

  /** The bag depends on the objects, not on their order, and grows with them. */
  lemma {:induction false} BagMonotone(mounts: Mounts, a: seq<Obj>, b: seq<Obj>)
    requires multiset(a) <= multiset(b)
    ensures MountBag(mounts, a) <= MountBag(mounts, b)
    decreases |a|
  {
    hide MountBag;
    BagEmpty(mounts);
    if a != [] {
      var a', last := a[..|a| - 1], a[|a| - 1];
      assert a == a' + [last];
      assert multiset(a) == multiset(a') + multiset{last};
      assert last in multiset(b);
      var i :| 0 <= i < |b| && b[i] == last;
      BagRemove(mounts, b, i);
      var b' := b[..i] + b[i + 1..];
      CancelOne(multiset(a'), multiset(b'), last);
      BagMonotone(mounts, a', b');
      BagSnoc(mounts, a', last);
    }
  }

  lemma CancelOne(a: multiset<Obj>, b: multiset<Obj>, o: Obj)
    requires a + multiset{o} <= b + multiset{o}
    ensures a <= b
  {
    forall x ensures a[x] <= b[x] {
      assert (a + multiset{o})[x] <= (b + multiset{o})[x];
    }
  }

  lemma BagOfPermutation(mounts: Mounts, a: seq<Obj>, b: seq<Obj>)
    requires multiset(a) == multiset(b)
    ensures MountBag(mounts, a) == MountBag(mounts, b)
  {
    BagMonotone(mounts, a, b);
    BagMonotone(mounts, b, a);
  }

  lemma {:induction false} BagOfLocated(mounts: Mounts, s: seq<Obj>)
    ensures MountBag(mounts, AllLocated(mounts, s)) == MountBag(mounts, s)
  {
    if s != [] {
      hide MountBag;
      var s', last := s[..|s| - 1], s[|s| - 1];
      assert s == s' + [last];
      BagOfLocated(mounts, s');
      BagSnoc(mounts, AllLocated(mounts, s'), last);
      BagSnoc(mounts, s', last);
      assert AllLocated(mounts, s') + [] == AllLocated(mounts, s');
    }
  }

  // ---------- Counting same-mount pairs ----------

  /** How many of the first `n` pairs stay on one mount. */
  function SameMountPairs(mounts: Mounts, srcs: seq<Obj>, dsts: seq<Obj>, n: nat): (c: nat)
    requires n <= |srcs| && n <= |dsts|
    ensures c <= n
  {
    if n == 0 then 0
    else SameMountPairs(mounts, srcs, dsts, n - 1) + if SameMount(mounts, srcs[n - 1], dsts[n - 1]) then 1 else 0
  }

  /** The sum over all mounts of min(sources there, destinations there). */
  function Capacity(mounts: Mounts, from: seq<Obj>, to: seq<Obj>): nat {
    |MountBag(mounts, from) * MountBag(mounts, to)|
  }

  /** No pairing whatever keeps more pairs on one mount than the mounts allow. */
  lemma {:induction false} PairsAtMostCapacity(mounts: Mounts, srcs: seq<Obj>, dsts: seq<Obj>, n: nat)
    requires n <= |srcs| && n <= |dsts|
    ensures SameMountPairs(mounts, srcs, dsts, n) <= Capacity(mounts, srcs[..n], dsts[..n])
  {
    hide MountBag;
    if n > 0 {
      PairsAtMostCapacity(mounts, srcs, dsts, n - 1);
      var src, dst := srcs[n - 1], dsts[n - 1];
      assert srcs[..n] == srcs[..n - 1] + [src] && dsts[..n] == dsts[..n - 1] + [dst];
      BagSnoc(mounts, srcs[..n - 1], src);
      BagSnoc(mounts, dsts[..n - 1], dst);
      hide SameMount, MountOf;
      CapacityStep(MountBag(mounts, srcs[..n - 1]), MountBag(mounts, dsts[..n - 1]),
                   MountOf(mounts, src), MountOf(mounts, dst));
      if SameMount(mounts, src, dst) {
        OnOneMount(mounts, src, dst);
      }
    }
  }

  lemma OnOneMount(mounts: Mounts, src: Obj, dst: Obj)
    requires SameMount(mounts, src, dst)
    ensures MountOf(mounts, src) == MountOf(mounts, dst) && |MountOf(mounts, src)| == 1
  {
  }

  /** Adding one mount on each side adds one to the common part when they are the same. */
  lemma CapacityStep(s: multiset<string>, d: multiset<string>, a: multiset<string>, b: multiset<string>)
    ensures |s * d| <= |(s + a) * (d + b)|
    ensures a == b ==> |(s + a) * (d + b)| == |s * d| + |a|
  {
    BagCardinality(s * d, (s + a) * (d + b));
    if a == b {
      assert (s + a) * (d + b) == s * d + a;
    }
  }

  lemma BagCardinality(a: multiset<string>, b: multiset<string>)
    requires a <= b
    ensures |a| <= |b|
  {
    assert b == a + (b - a);
  }

  /** A fully matched prefix has equal bags on both sides. */
  lemma {:induction false} MatchedPrefix(mounts: Mounts, srcs: seq<Obj>, dsts: seq<Obj>, k: nat)
    requires k <= |srcs| && k <= |dsts|
    requires forall i | 0 <= i < k :: SameMount(mounts, srcs[i], dsts[i])
    ensures MountBag(mounts, srcs[..k]) == MountBag(mounts, dsts[..k])
    ensures |MountBag(mounts, srcs[..k])| == k
    ensures SameMountPairs(mounts, srcs, dsts, k) == k
  {
    hide MountBag;
    BagEmpty(mounts);
    if k > 0 {
      MatchedPrefix(mounts, srcs, dsts, k - 1);
      assert srcs[..k] == srcs[..k - 1] + [srcs[k - 1]] && dsts[..k] == dsts[..k - 1] + [dsts[k - 1]];
      BagSnoc(mounts, srcs[..k - 1], srcs[k - 1]);
      BagSnoc(mounts, dsts[..k - 1], dsts[k - 1]);
      assert SameMount(mounts, srcs[k - 1], dsts[k - 1]);
      OnOneMount(mounts, srcs[k - 1], dsts[k - 1]);
    }
  }

  /** Past the matched prefix no pair stays on one mount. */
  lemma {:induction false} UnmatchedRest(mounts: Mounts, srcs: seq<Obj>, dsts: seq<Obj>, k: nat, n: nat)
    requires k <= n <= |srcs| && n <= |dsts|
    requires forall i | k <= i < n :: !SameMount(mounts, srcs[i], dsts[i])
    ensures SameMountPairs(mounts, srcs, dsts, n) == SameMountPairs(mounts, srcs, dsts, k)
  {
    if n > k {
      UnmatchedRest(mounts, srcs, dsts, k, n - 1);
    }
  }

  lemma {:induction false} BagMembers(mounts: Mounts, s: seq<Obj>, m: string)
    ensures m in MountBag(mounts, s) <==> exists o <- s :: Located(mounts, o) && mounts[o.path] == m
  {
    if s != [] {
      var last := s[|s| - 1];
      assert s == s[..|s| - 1] + [last];
      BagMembers(mounts, s[..|s| - 1], m);
    }
  }

  // ---------- Move: a maximum same-mount matching ----------

  /** The pairs Move makes on one mount are exactly as many as the mounts allow: the sum over
      the mounts of min(#sources, #destinations). */
  lemma MoveReachesCapacity(mounts: Mounts, from: seq<Obj>, to: seq<Obj>, srcs: seq<Obj>, dsts: seq<Obj>, k: nat)
    requires MoveAllocation(mounts, from, to, srcs, dsts, k)
    ensures k == Capacity(mounts, from, to)
    ensures forall n: nat | k <= n <= |srcs| && n <= |dsts| :: SameMountPairs(mounts, srcs, dsts, n) == k
  {
    hide MountBag;
    var s, d := srcs[k..], dsts[k..];
    assert srcs == srcs[..k] + s && dsts == dsts[..k] + d;
    MatchedPrefix(mounts, srcs, dsts, k);
    BagConcat(mounts, srcs[..k], s);
    BagConcat(mounts, dsts[..k], d);
    DisjointRest(mounts, srcs, dsts, k);
    CommonPart(MountBag(mounts, srcs[..k]), MountBag(mounts, s), MountBag(mounts, d));
    BagOfPermutation(mounts, srcs, AllLocated(mounts, from));
    BagOfLocated(mounts, from);
    BagOfPermutation(mounts, dsts, to);
    forall n: nat | k <= n <= |srcs| && n <= |dsts| ensures SameMountPairs(mounts, srcs, dsts, n) == k {
      UnmatchedRest(mounts, srcs, dsts, k, n);
    }
  }

  lemma CommonPart(t: multiset<string>, s: multiset<string>, d: multiset<string>)
    requires forall m :: m !in s || m !in d
    ensures (t + s) * (t + d) == t
  {
  }

  lemma DisjointRest(mounts: Mounts, srcs: seq<Obj>, dsts: seq<Obj>, k: nat)
    requires k <= |srcs| && k <= |dsts|
    requires forall i, j | k <= i < |srcs| && k <= j < |dsts| :: !SameMount(mounts, srcs[i], dsts[j])
    ensures forall m :: m !in MountBag(mounts, srcs[k..]) || m !in MountBag(mounts, dsts[k..])
  {
    var s, d := srcs[k..], dsts[k..];
    forall m ensures m !in MountBag(mounts, s) || m !in MountBag(mounts, d) {
      BagMembers(mounts, s, m);
      BagMembers(mounts, d, m);
      forall i, j | 0 <= i < |s| && 0 <= j < |d| ensures !SameMount(mounts, s[i], d[j]) {
        assert s[i] == srcs[k + i] && d[j] == dsts[k + j];
      }
    }
  }

  /** Maximality: no other pairing of any of the sources with any of the destinations, however
      ordered, has more pairs on one mount. */
  lemma MoveIsMaximum(mounts: Mounts, from: seq<Obj>, to: seq<Obj>, srcs: seq<Obj>, dsts: seq<Obj>, k: nat,
                      srcs': seq<Obj>, dsts': seq<Obj>, n: nat)
    requires MoveAllocation(mounts, from, to, srcs, dsts, k)
    requires multiset(srcs') <= multiset(from) && multiset(dsts') <= multiset(to)
    requires n <= |srcs'| && n <= |dsts'|
    ensures SameMountPairs(mounts, srcs', dsts', n) <= k
  {
    MoveReachesCapacity(mounts, from, to, srcs, dsts, k);
    PairsAtMostCapacity(mounts, srcs', dsts', n);
    PrefixBag(srcs', n);
    PrefixBag(dsts', n);
    BagMonotone(mounts, srcs'[..n], from);
    BagMonotone(mounts, dsts'[..n], to);
    BagCardinality(MountBag(mounts, srcs'[..n]) * MountBag(mounts, dsts'[..n]),
                   MountBag(mounts, from) * MountBag(mounts, to));
  }

  lemma PrefixBag(s: seq<Obj>, n: nat)
    requires n <= |s|
    ensures multiset(s[..n]) <= multiset(s)
  {
    assert s == s[..n] + s[n..];
  }

  // ---------- Copy: as many same-mount pairs as any choice of sources could give ----------

  /** Every destination whose mount has a source is served from that mount, so no other choice
      of a source for each destination keeps more pairs on one mount. */
  lemma {:induction false} CopyIsMaximum(mounts: Mounts, from: seq<Obj>, to: seq<Obj>, srcs: seq<Obj>, dsts: seq<Obj>,
                                         anySource: bool, srcs': seq<Obj>, n: nat)
    requires CopyAllocation(mounts, from, to, srcs, dsts, anySource) && |srcs'| == |dsts| && n <= |dsts|
    requires forall o <- srcs' :: o in from
    ensures SameMountPairs(mounts, srcs', dsts, n) <= SameMountPairs(mounts, srcs, dsts, n)
  {
    if n > 0 {
      CopyIsMaximum(mounts, from, to, srcs, dsts, anySource, srcs', n - 1);
      assert srcs'[n - 1] in from;
      assert Served(mounts, from, srcs[n - 1], dsts[n - 1], anySource);
    }
  }

  /** Which source serves a destination: of the sources on its mount the first in the list; if there is none
      there, the first of all sources, or any of them under a random read policy.  Every destination is
      served exactly once. */
  lemma CopyServes(mounts: Mounts, from: seq<Obj>, to: seq<Obj>, srcs: seq<Obj>, dsts: seq<Obj>, anySource: bool,
                   i: nat, j: nat)
    requires CopyAllocation(mounts, from, to, srcs, dsts, anySource) && i < |dsts| && j < |from|
    ensures |srcs| == |dsts| == |to| && multiset(dsts) == multiset(to) && srcs[i] in from
    ensures SameMount(mounts, from[j], dsts[i]) && (forall k | 0 <= k < j :: !SameMount(mounts, from[k], dsts[i])) ==>
              srcs[i] == from[j]
    ensures (forall k | 0 <= k < |from| :: !SameMount(mounts, from[k], dsts[i])) && !anySource ==> srcs[i] == from[0]
  {
    assert |multiset(dsts)| == |multiset(to)|;
    assert Served(mounts, from, srcs[i], dsts[i], anySource);
    if exists o <- from :: SameMount(mounts, o, dsts[i]) {
      var k :| 0 <= k < |from| && from[k] == srcs[i] && SameMount(mounts, srcs[i], dsts[i])
               && forall h | 0 <= h < k :: !SameMount(mounts, from[h], dsts[i]);
    }
  }
}
