/** Drawing one of several weighted items: the alias driver's choice by free space, and the FTP
    server's choice of a passive port. Both subtract weights from the draw until it fits. */
module Selection {
  import opened Results

  const WORD := 0x1_0000_0000_0000_0000

  /** The total weight of the first `n` items, with no wrap-around. */
  function Below(weights: seq<nat>, n: nat): nat
    requires n <= |weights|
  {
    if n == 0 then 0 else Below(weights, n - 1) + weights[n - 1]
  }

  /** Item `i` owns the places from the weight before it up to the weight that includes it. */
  predicate Owns(weights: seq<nat>, i: nat, place: int) {
    i < |weights| && Below(weights, i) <= place < Below(weights, i + 1)
  }

  lemma {:induction false} BelowGrows(weights: seq<nat>, i: nat, j: nat)
    requires i <= j <= |weights|
    ensures Below(weights, i) <= Below(weights, j)
    decreases j
  {
    if i < j {
      BelowGrows(weights, i, j - 1);
    }
  }

  /** No place has two owners. */
  lemma OneOwner(weights: seq<nat>, i: nat, j: nat, place: int)
    requires Owns(weights, i, place) && Owns(weights, j, place)
    ensures i == j
  {
    if i < j {
      BelowGrows(weights, i + 1, j);
    } else if j < i {
      BelowGrows(weights, j + 1, i);
    }
  }

  // ---------- selectRandom ----------

  predicate Words(weights: seq<nat>) {
    forall w <- weights :: w < WORD
  }

  /** The total as the 64-bit counter has it. */
  function Total(weights: seq<nat>): (t: nat)
    ensures t < WORD && t <= Below(weights, |weights|)
  {
    Below(weights, |weights|) % WORD
  }

  lemma WrapOnce(a: nat, b: nat)
    ensures (a % WORD + b) % WORD == (a + b) % WORD
  {
  }

  /** `draw` is the random 64-bit number. The final return is reached for no draw, even when the
      total has wrapped round. */
  method SelectRandom(weights: seq<nat>, draw: nat) returns (r: Option<nat>)
    requires Words(weights)
    ensures r.None? <==> Total(weights) == 0
    ensures r.Some? ==> Owns(weights, r.value, draw % Total(weights))
  {
    var total := 0;
    for i := 0 to |weights|
      invariant total == Below(weights, i) % WORD
    {
      WrapOnce(Below(weights, i), weights[i]);
      total := (total + weights[i]) % WORD;
    }
    if total == 0 {
      return None;
    }
    var place := draw % total;
    var left := place;
    for i := 0 to |weights|
      invariant left >= 0 && left + Below(weights, i) == place
    {
      var w := weights[i];
      if left < w {
        return Some(i);
      }
      left := left - w;
    }
    assert false;
    return None;
  }

  /** The residues that select item `i`. */
  function Share(weights: seq<nat>, i: nat): set<int>
  {
    set place: int | 0 <= place < Total(weights) && Owns(weights, i, place)
  }

  /** The number of whole numbers in a range. */
  lemma {:induction false} RangeSize(s: set<int>, lo: int, hi: int)
    requires lo <= hi && forall x :: x in s <==> lo <= x < hi
    ensures |s| == hi - lo
    decreases hi - lo
  {
    if lo < hi {
      var less := s - {hi - 1};
      RangeSize(less, lo, hi - 1);
    } else {
      assert forall x :: x !in s;
      assert s == {};
    }
  }

  function Min(a: int, b: int): int { if a < b then a else b }

  /** How many residues select item `i`: what lies of its places below the counted total. */
  lemma ShareSize(weights: seq<nat>, i: nat)
    requires i < |weights|
    ensures |Share(weights, i)|
         == Min(Below(weights, i + 1), Total(weights)) - Min(Below(weights, i), Total(weights))
  {
    var lo, hi := Min(Below(weights, i), Total(weights)), Min(Below(weights, i + 1), Total(weights));
    RangeSize(Share(weights, i), lo, hi);
  }

  /** Selection is exactly proportional iff the true total fits in 64 bits. */
  lemma ProportionalIff(weights: seq<nat>)
    ensures (forall i: nat | i < |weights| :: |Share(weights, i)| == weights[i])
       <==> Below(weights, |weights|) < WORD
  {
    if Below(weights, |weights|) < WORD {
      forall i: nat | i < |weights| ensures |Share(weights, i)| == weights[i] {
        ShareSize(weights, i);
        BelowGrows(weights, i + 1, |weights|);
      }
    } else {
      var i := Crossing(weights, |weights|);
      ShareSize(weights, i);
      assert |Share(weights, i)| < weights[i];
    }
  }

  /** The item whose places straddle the counted total. */
  lemma {:induction false} Crossing(weights: seq<nat>, n: nat) returns (i: nat)
    requires n <= |weights| && Below(weights, n) > Total(weights)
    ensures i < n && Below(weights, i) <= Total(weights) < Below(weights, i + 1)
  {
    if Below(weights, n - 1) <= Total(weights) {
      i := n - 1;
    } else {
      i := Crossing(weights, n - 1);
    }
  }

  /** An item of weight 0 has no share, whatever the total. */
  lemma NoWeightNoShare(weights: seq<nat>, i: nat)
    requires i < |weights| && weights[i] == 0
    ensures Share(weights, i) == {}
  {
  }

  // ---------- getRandomObjByQuotaBalanced ----------

  /** The weight of a backend for an object of `size` bytes: its free space as an unsigned word, or
      0 when it reports none or too little. */
  function RoomOf(detail: Option<int>, size: int): (w: nat)
    ensures w < WORD
  {
    if detail.None? || detail.value < size then 0 else detail.value % WORD
  }

  function Rooms(details: seq<Option<int>>, size: int): (w: seq<nat>)
    ensures |w| == |details| && Words(w)
  {
    seq(|details|, i requires 0 <= i < |details| => RoomOf(details[i], size))
  }

  predicate HasRoom(details: seq<Option<int>>, size: int, i: nat) {
    i < |details| && details[i].Some? && details[i].value >= size && RoomOf(details[i], size) > 0
  }

  /** The backends that report nothing, in order. */
  function Unreported(details: seq<Option<int>>): (r: seq<nat>)
    ensures forall i: nat :: i in r <==> i < |details| && details[i].None?
  {
    if details == [] then []
    else Unreported(details[..|details| - 1]) + if details[|details| - 1].None? then [|details| - 1] else []
  }

  /** `details[i]` is the free space that backend `i` reports. `draw` and `pick` are the two random
      numbers. */
  method PickByQuota(details: seq<Option<int>>, strict: bool, size: int, draw: nat, pick: nat)
      returns (r: Option<nat>)
    ensures Total(Rooms(details, size)) != 0 ==> r.Some? && HasRoom(details, size, r.value)
    ensures Total(Rooms(details, size)) != 0
        ==> Owns(Rooms(details, size), r.value, draw % Total(Rooms(details, size)))
    ensures Total(Rooms(details, size)) == 0 ==>
              var n := Unreported(details);
              r == if strict || n == [] then None else Some(n[pick % |n|])
  {
    var selected := SelectRandom(Rooms(details, size), draw);
    if selected.Some? {
      return selected;
    }
    if strict {
      return None;
    }
    var noDetails: seq<nat> := [];
    for i := 0 to |details|
      invariant noDetails == Unreported(details[..i])
    {
      assert details[..i + 1][..i] == details[..i];
      if details[i].None? {
        noDetails := noDetails + [i];
      }
    }
    assert details[..|details|] == details;
    if noDetails == [] {
      return None;
    }
    r := Some(noDetails[pick % |noDetails|]);
  }

  lemma {:induction false} SomeWeight(weights: seq<nat>, n: nat)
    requires n <= |weights|
    ensures Below(weights, n) > 0 <==> exists i: nat | i < n :: weights[i] > 0
  {
    if n > 0 {
      SomeWeight(weights, n - 1);
    }
  }

  /** A backend is drawn by weight exactly when one has room, iff the free spaces that count sum to
      0 or to no multiple of 2^64. */
  lemma RoomIsFoundIff(details: seq<Option<int>>, size: int)
    ensures (Total(Rooms(details, size)) != 0 <==> exists i: nat :: HasRoom(details, size, i))
       <==> Below(Rooms(details, size), |details|) == 0 || Below(Rooms(details, size), |details|) % WORD != 0
  {
    hide RoomOf;
    var w := Rooms(details, size);
    SomeWeight(w, |details|);
    forall i: nat | i < |details| ensures w[i] > 0 <==> HasRoom(details, size, i) {
      RoomIff(details, size, i);
    }
  }

  lemma RoomIff(details: seq<Option<int>>, size: int, i: nat)
    requires i < |details|
    ensures Rooms(details, size)[i] > 0 <==> HasRoom(details, size, i)
  {
  }

  /** While the free spaces that count fit in 64 bits, a backend is drawn by exactly as many residues as it
      reports bytes free, if these suffice for the object, and by none otherwise. */
  lemma QuotaShares(details: seq<Option<int>>, size: int, i: nat)
    requires i < |details| && (details[i].Some? ==> -WORD <= details[i].value < WORD)
    requires Below(Rooms(details, size), |details|) < WORD
    ensures |Share(Rooms(details, size), i)|
         == match details[i]
            case None => 0
            case Some(free) => if free < size then 0 else if free >= 0 then free else free + WORD
  {
    ProportionalIff(Rooms(details, size));
    assert Rooms(details, size)[i] == RoomOf(details[i], size);
  }

  /** A case where the code misses: four backends of 2^62 free bytes sum to exactly 2^64 and count as
      no space at all. */
  lemma RoomIsMissed()
    ensures var details := seq(4, _ => Some(0x4000_0000_0000_0000));
            HasRoom(details, 1, 0) && Total(Rooms(details, 1)) == 0
  {
    var w := Rooms(seq(4, _ => Some(0x4000_0000_0000_0000)), 1);
    assert Below(w, 1) == 0x4000_0000_0000_0000;
    assert Below(w, 2) == 0x8000_0000_0000_0000;
    assert Below(w, 3) == 0xC000_0000_0000_0000;
    assert Below(w, 4) == WORD;
  }
}
