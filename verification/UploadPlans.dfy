/** Upload drivers: how large the parts of a file are, and which parts are sent in which batch. */
module UploadPlans {
  import opened ResumeSharing
  import opened SplitFile

  const MB := 1024 * KB
  const TB := 1024 * GB

  /** How many parts of size `d` a file needs. */
  function Needed(n: nat, d: nat): nat
    requires d > 0
  {
    (n + d - 1) / d
  }

  /** A bound on the number of parts is a bound on the size of the file. */
  lemma NeededAtMost(n: nat, d: nat, k: nat)
    requires d > 0
    ensures Needed(n, d) <= k <==> n <= d * k
  {
    QuotientBelow(n + d - 1, d, k + 1);
    assert d * (k + 1) == d * k + d;
  }

  // ---------- Baidu Netdisk: getSliceSize ----------

  const DEFAULT_SLICE := 4 * MB
  const MAX_SLICES := 2048

  /** The largest slice a user may send. */
  function Largest(vipType: int): nat {
    if vipType == 1 then 16 * MB else if vipType == 2 then 32 * MB else DEFAULT_SLICE
  }

  /** Without a custom size, low bandwidth mode gives the least whole number of megabytes from 4 up
      to the user's limit with which at most 2048 slices are needed, or the limit if none does. */
  method GetSliceSize(vipType: int, custom: int, lowBandwidth: bool, filesize: nat) returns (size: nat)
    ensures vipType == 0 ==> size == DEFAULT_SLICE
    ensures vipType != 0 && custom == 0 && !lowBandwidth ==> size == Largest(vipType)
    ensures vipType != 0 && custom == 0 && lowBandwidth ==>
              && DEFAULT_SLICE <= size <= Largest(vipType) && size % MB == 0
              && (size < Largest(vipType) ==> Needed(filesize, size) <= MAX_SLICES)
              && forall s: nat | DEFAULT_SLICE <= s < size && s % MB == 0 :: Needed(filesize, s) > MAX_SLICES
    ensures vipType != 0 && custom != 0 ==>
              if custom < DEFAULT_SLICE then size == DEFAULT_SLICE
              else if (vipType == 1 || vipType == 2) && custom > Largest(vipType) then size == Largest(vipType)
              else size == custom
    ensures custom == 0 ==>
              (Needed(filesize, size) <= 2048 <==>
                filesize <= if vipType == 1 then 32 * GB else if vipType == 2 then 64 * GB else 8 * GB)
  {
    hide Needed;
    NeededAtMost(filesize, Largest(vipType), MAX_SLICES);
    if vipType == 0 {
      return DEFAULT_SLICE;
    }
    if custom != 0 {
      if custom < DEFAULT_SLICE {
        return DEFAULT_SLICE;
      }
      if vipType == 1 && custom > 16 * MB {
        return 16 * MB;
      }
      if vipType == 2 && custom > 32 * MB {
        return 32 * MB;
      }
      return custom;
    }
    var maxSliceSize := DEFAULT_SLICE;
    match vipType {
      case 1 => maxSliceSize := 16 * MB;
      case 2 => maxSliceSize := 32 * MB;
      case _ =>
    }
    if lowBandwidth {
      size := DEFAULT_SLICE;
      ghost var steps := 4;
      while size <= maxSliceSize
        invariant size == steps * MB && DEFAULT_SLICE <= size <= maxSliceSize + MB
        invariant forall s: nat | DEFAULT_SLICE <= s < size && s % MB == 0 :: Needed(filesize, s) > MAX_SLICES
        decreases maxSliceSize - size
      {
        NeededAtMost(filesize, size, MAX_SLICES);
        if filesize <= MAX_SLICES * size {
          return;
        }
        size, steps := size + MB, steps + 1;
      }
    }
    return maxSliceSize;
  }

  // ---------- 189pc: partSize ----------

  const TEN := 10 * MB

  function Max(a: nat, b: nat): nat { if a < b then b else a }

  function PartSize(size: nat): nat {
    if size > 2 * TEN * 999 then Max(Needed(size, 1999 * TEN), 5) * TEN
    else if size > TEN * 999 then 2 * TEN
    else TEN
  }

  /** Above 20 MiB * 999, the least multiple of 10 MiB from 50 MiB up with which at most 1999 parts
      are needed; below, the least multiple with which at most 999 are. */
  lemma PartSizeFits(size: nat)
    ensures PartSize(size) >= TEN && PartSize(size) % TEN == 0 && Needed(size, PartSize(size)) <= 1999
    ensures size <= 2 * TEN * 999 ==>
              && Needed(size, PartSize(size)) <= 999
              && forall k: nat :: 1 <= k && k * TEN < PartSize(size) ==> Needed(size, k * TEN) > 999
    ensures size > 2 * TEN * 999 ==>
              && PartSize(size) >= 5 * TEN
              && forall k: nat :: 5 <= k && k * TEN < PartSize(size) ==> Needed(size, k * TEN) > 1999
  {
    hide Needed;
    var d := PartSize(size);
    NeededAtMost(size, d, 1999);
    NeededAtMost(size, d, 999);
    NeededAtMost(size, TEN, 999);
    if size > 2 * TEN * 999 {
      NeededAtMost(size, 1999 * TEN, Needed(size, 1999 * TEN));
      forall k: nat | 5 <= k && k * TEN < d ensures Needed(size, k * TEN) > 1999 {
        NeededAtMost(size, k * TEN, 1999);
        NeededAtMost(size, 1999 * TEN, k);
      }
    }
  }

  // ---------- Aliyundrive Open: calPartSize ----------

  function CalPartSize(fileSize: nat): (d: nat)
    ensures d > 0
  {
    if fileSize <= 20 * MB then 20 * MB
    else if fileSize > TB then 5 * GB
    else if fileSize > 768 * GB then 109951163
    else if fileSize > 512 * GB then 82463373
    else if fileSize > 384 * GB then 54975582
    else if fileSize > 256 * GB then 41231687
    else if fileSize > 128 * GB then 27487791
    else 20 * MB
  }

  /** The range of sizes that shares a part size, by its upper end: from 128 GB on in steps of 128 GB and
      then of 256 GB, up to 1 TB. */
  function RangeEnd(fileSize: nat): nat {
    if fileSize <= 128 * GB then 128 * GB
    else if fileSize <= 512 * GB then (fileSize + 128 * GB - 1) / (128 * GB) * (128 * GB)
    else (fileSize + 256 * GB - 1) / (256 * GB) * (256 * GB)
  }

  /** Up to 128 GB the parts have 20 MB, and over 1 TB they have 5 GB; in between, all files of one range
      get the least part size with which 10000 parts are enough for the largest of them. */
  lemma CalPartSizeLeast(fileSize: nat, d: nat)
    requires d > 0
    ensures fileSize <= 128 * GB ==> CalPartSize(fileSize) == 20 * MB
    ensures fileSize > 1024 * GB ==> CalPartSize(fileSize) == 5 * 1024 * MB
    ensures 128 * GB < fileSize <= 1024 * GB ==>
              && fileSize <= RangeEnd(fileSize) < fileSize + 256 * GB
              && (Needed(RangeEnd(fileSize), d) <= 10000 <==> CalPartSize(fileSize) <= d)
  {
    hide Needed;
    NeededAtMost(RangeEnd(fileSize), d, 10000);
  }

  /** At most 10000 parts, exactly up to 50000 GB. */
  lemma CalPartSizeFits(fileSize: nat)
    ensures Needed(fileSize, CalPartSize(fileSize)) <= 10000 <==> fileSize <= 50000 * GB
  {
    hide Needed;
    NeededAtMost(fileSize, CalPartSize(fileSize), 10000);
  }

  // ---------- Batches ----------

  /** The parts of a plan in order, numbered from 1. */
  function PartsOf(plan: Plan, d: nat, n: nat): seq<Chunk>
  {
    if n == 0 then []
    else
      var s := SectionOf(plan, d, n - 1);
      PartsOf(plan, d, n - 1) + [Chunk(n, s.offset, s.size)]
  }

  /** The parts of a plan tile the file; of an empty file the one part is as large as any other. */
  lemma PlanTiles(size: nat, d: nat)
    requires d > 0
    ensures var plan := PlanParts(size, d);
            if size > 0 then Tiles(PartsOf(plan, d, plan.count), size)
            else PartsOf(plan, d, plan.count) == [Chunk(1, 0, d)]
  {
    hide PlanParts, InOrder, End, PartsOf;
    if size > 0 {
      var plan := PlanParts(size, d);
      CountOfParts(size, d);
      PositiveCount(plan.count, d);
      PlanInOrder(plan, d, plan.count);
      PlusOne(plan.count - 1, d);
    } else {
      PlanOfNothing(d);
    }
  }

  lemma PositiveCount(count: nat, d: nat)
    requires count * d > 0
    ensures count > 0
  {
  }

  lemma PlanOfNothing(d: nat)
    requires d > 0
    ensures var plan := PlanParts(0, d); PartsOf(plan, d, plan.count) == [Chunk(1, 0, d)]
  {
    assert PartsOf(PlanParts(0, d), d, 0) == [];
  }

  lemma {:induction false} PlanInOrder(plan: Plan, d: nat, n: nat)
    requires n <= plan.count && d > 0 && plan.last > 0
    ensures var parts := PartsOf(plan, d, n);
            && |parts| == n && InOrder(parts)
            && End(parts) == if n == 0 then 0 else (n - 1) * d + if n == plan.count then plan.last else d
  {
    hide InOrder, End;
    NoneYet();
    if n > 0 {
      PlanInOrder(plan, d, n - 1);
      PlusOne(n - 1, d);
      if n > 1 {
        PlusOne(n - 2, d);
      }
      var s := SectionOf(plan, d, n - 1);
      OneMore(PartsOf(plan, d, n - 1), Chunk(n, s.offset, s.size));
    }
  }

  const CHUNK := 16 * MB

  /** Consecutive ranges of part numbers from 1 up to `next`, each of 10 numbers but for the last, which may
      be shorter. */
  predicate InRow(batches: seq<(int, int)>, next: int) {
    if batches == [] then next == 1
    else
      var (front, last) := (batches[..|batches| - 1], batches[|batches| - 1]);
      InRow(front, last.0) && last.1 == next && 0 < next - last.0 <= 10 && (front != [] ==> EndsFull(front))
  }

  predicate EndsFull(batches: seq<(int, int)>)
    requires batches != []
  {
    batches[|batches| - 1].1 - batches[|batches| - 1].0 == 10
  }

  lemma OneMoreBatch(batches: seq<(int, int)>, next: int, end: int)
    requires InRow(batches, next) && 0 < end - next <= 10 && (batches != [] ==> EndsFull(batches))
    ensures InRow(batches + [(next, end)], end)
  {
    assert (batches + [(next, end)])[..|batches|] == batches;
  }

  lemma NoBatchYet()
    ensures InRow([], 1)
  {
  }

  /** 123: URLs are asked for in batches of 10, the last one possibly shorter, or one URL for a single part.
      Every part of the plan is sent once, in order, while the URLs of its batch are at hand. */
  method NewUpload(size: nat) returns (sent: seq<Chunk>, batches: seq<(int, int)>)
    ensures var plan := PlanParts(size, CHUNK); sent == PartsOf(plan, CHUNK, plan.count)
    ensures InRow(batches, |sent| + 1) && batches != []
  {
    hide PlanParts, InRow;
    ghost var plan := PlanParts(size, CHUNK);
    var chunkCount, lastChunkSize := CountAndLast(size, CHUNK);
    var batchSize := if chunkCount > 1 then 10 else 1;
    sent, batches := [], [];
    var i: int := 1;
    NoBatchYet();
    while i <= chunkCount
      invariant i >= 1 && |sent| == (if i <= chunkCount then i - 1 else chunkCount)
      invariant sent == PartsOf(plan, CHUNK, |sent|) && InRow(batches, |sent| + 1)
      invariant if i == 1 then batches == [] else batches != []
      invariant 1 < i <= chunkCount ==> EndsFull(batches)
      decreases chunkCount as int + 10 - i
    {
      var start := i;
      var end := if i + batchSize < chunkCount + 1 then i + batchSize else chunkCount + 1;
      for cur := start to end
        invariant |sent| == cur - 1 && sent == PartsOf(plan, CHUNK, cur - 1)
      {
        sent := sent + [Chunk(cur, (cur - 1) * CHUNK, if cur == chunkCount then lastChunkSize else CHUNK)];
      }
      OneMoreBatch(batches, start, end);
      batches := batches + [(start, end)];
      i := i + batchSize;
    }
  }

  method CountAndLast(size: nat, d: nat) returns (count: nat, last: nat)
    requires d > 0
    ensures count == PlanParts(size, d).count && last == PlanParts(size, d).last && count >= 1
  {
    count := 1;
    if size > d {
      DividesOnce(size, d);
      count := (size + d - 1) / d;
    }
    last := size % d;
    if last == 0 {
      last := d;
    }
  }

  lemma DividesOnce(size: nat, d: nat)
    requires 0 < d < size
    ensures (size + d - 1) / d >= 1
  {
    QuotientBelow(size + d - 1, d, 1);
  }

  // ---------- 139: 100 parts at a time ----------

  function Join(batches: seq<seq<Chunk>>): seq<Chunk> {
    if batches == [] then [] else Join(batches[..|batches| - 1]) + batches[|batches| - 1]
  }

  lemma JoinSnoc(batches: seq<seq<Chunk>>, b: seq<Chunk>)
    ensures Join(batches + [b]) == Join(batches) + b
  {
    assert (batches + [b])[..|batches|] == batches;
  }

  /** Plans all parts, then asks for URLs of the first 100 and of every further 100.  The batches are
      the planned parts, each once and in order; the parts of a file that is not empty tile it. */
  method PlanInBatches(size: nat, partSize: nat) returns (parts: seq<Chunk>, batches: seq<seq<Chunk>>)
    requires partSize > 0
    ensures if size > 0 then Tiles(parts, size) && |parts| == PlanParts(size, partSize).count
            else parts == [Chunk(1, 0, 0)]
    ensures Join(batches) == parts && forall b <- batches :: 0 < |b| <= 100
    ensures forall k | 0 <= k < |batches| - 1 :: |batches[k]| == 100
  {
    hide PlanParts, Tiles, InOrder, End, Join;
    var part, _ := CountAndLast(size, partSize);
    ghost var plan := PlanParts(size, partSize);
    parts := [];
    for i := 0 to part
      invariant |parts| == i
      invariant size > 0 ==> parts == PartsOf(plan, partSize, i)
      invariant size == 0 ==> i <= 1 && (i == 1 ==> parts == [Chunk(1, 0, 0)])
    {
      var start := i * partSize;
      var byteSize := if size - start < partSize then size - start else partSize;
      if size > 0 {
        Shorter(size, partSize, i);
      } else {
        OnePart(partSize);
      }
      parts := parts + [Chunk(i + 1, start, byteSize)];
    }
    PlanTiles(size, partSize);
    batches := InBatches(parts);
  }

  /** The first 100 parts, and then every further 100. */
  method InBatches(parts: seq<Chunk>) returns (batches: seq<seq<Chunk>>)
    requires parts != []
    ensures Join(batches) == parts && forall b <- batches :: 0 < |b| <= 100
    ensures forall k | 0 <= k < |batches| - 1 :: |batches[k]| == 100
  {
    hide Join;
    batches := [if |parts| > 100 then parts[..100] else parts];
    JoinSnoc([], batches[0]);
    NothingJoined();
    assert [] + [batches[0]] == batches;
    var i := 100;
    while i < |parts|
      invariant i >= 100
      invariant Join(batches) == parts[..if i < |parts| then i else |parts|]
      invariant forall b <- batches :: 0 < |b| <= 100
      invariant forall k | 0 <= k < |batches| && (i < |parts| || k < |batches| - 1) :: |batches[k]| == 100
    {
      var end := if i + 100 < |parts| then i + 100 else |parts|;
      JoinSnoc(batches, parts[i..end]);
      batches := batches + [parts[i..end]];
      i := i + 100;
    }
  }

  lemma NothingJoined()
    ensures Join([]) == []
  {
  }

  /** The shorter of what is left and a full part is what the plan says. */
  lemma Shorter(size: nat, d: nat, i: nat)
    requires d > 0 && size > 0 && i < PlanParts(size, d).count
    ensures i * d < size
    ensures var left := size - i * d; SectionOf(PlanParts(size, d), d, i).size == if left < d then left else d
  {
    var plan := PlanParts(size, d);
    CountOfParts(size, d);
    hide PlanParts;
    PartEnds(plan.count, i, d);
  }

  lemma OnePart(d: nat)
    requires d > 0
    ensures PlanParts(0, d).count == 1
  {
  }
}
