/** 115 driver: cutting a file into numbered parts for a multipart upload. */
module SplitFile {
  const KB := 1024
  const GB := 1024 * 1024 * 1024
  const LEAST := 100 * KB

  datatype Chunk = Chunk(number: int, offset: int, size: int)

  /** `Crash` stands for an index out of range. */
  datatype Outcome = Parts(chunks: seq<Chunk>) | Failed(message: string) | Crash

  // ---------- What a proper split is ----------

  /** Where the parts end. */
  function End(chunks: seq<Chunk>): int {
    if chunks == [] then 0 else chunks[|chunks| - 1].offset + chunks[|chunks| - 1].size
  }

  /** Numbered from 1, none empty, each beginning where the one before ends, the first at 0. */
  predicate InOrder(chunks: seq<Chunk>) {
    forall i | 0 <= i < |chunks| ::
      chunks[i].number == i + 1 && chunks[i].size > 0 && chunks[i].offset == End(chunks[..i])
  }

  predicate Tiles(chunks: seq<Chunk>, size: int) {
    InOrder(chunks) && End(chunks) == size
  }

  lemma OneMore(chunks: seq<Chunk>, c: Chunk)
    requires InOrder(chunks) && c.number == |chunks| + 1 && c.size > 0 && c.offset == End(chunks)
    ensures InOrder(chunks + [c]) && End(chunks + [c]) == c.offset + c.size
  {
    var all := chunks + [c];
    forall i | 0 <= i < |all| ensures all[i].offset == End(all[..i]) {
      assert all[..i] == chunks[..i];
      assert i == |chunks| ==> chunks[..i] == chunks;
    }
  }

  lemma NoneYet()
    ensures InOrder([]) && End([]) == 0
  {
  }

  lemma Further(i: int, chunkSize: int)
    ensures i * chunkSize + chunkSize == (i + 1) * chunkSize
  {
  }

  // ---------- The two ways to cut ----------

  /** `n` parts of equal size, the last with the remainder. */
  predicate Even(chunks: seq<Chunk>, fileSize: int, n: int) {
    && 0 < n == |chunks| && Tiles(chunks, fileSize)
    && (forall i | 0 <= i < n - 1 :: chunks[i].size == fileSize / n)
    && fileSize / n <= chunks[n - 1].size < fileSize / n + n
  }

  method SplitByPartNum(fileSize: int, chunkNum: int) returns (r: Outcome)
    ensures r.Failed? <==> chunkNum <= 0 || chunkNum > 10000 || chunkNum > fileSize
    ensures !r.Crash?
    ensures r.Parts? ==> Even(r.chunks, fileSize, chunkNum)
  {
    hide InOrder, End;
    if chunkNum <= 0 || chunkNum > 10000 {
      return Failed("chunkNum invalid");
    }
    if chunkNum > fileSize {
      return Failed("oss: chunkNum invalid");
    }
    var each, rest := fileSize / chunkNum, fileSize % chunkNum;
    Divides(fileSize, chunkNum);
    NoneYet();
    var chunks: seq<Chunk> := [];
    for i := 0 to chunkNum
      invariant |chunks| == i && InOrder(chunks)
      invariant forall j | 0 <= j < i && j < chunkNum - 1 :: chunks[j].size == each
      invariant i < chunkNum ==> End(chunks) == i * each
      invariant i == chunkNum ==> End(chunks) == (chunkNum - 1) * each + (each + rest)
      invariant i == chunkNum ==> chunks[i - 1].size == each + rest
    {
      var c := Chunk(i + 1, i * each, if i == chunkNum - 1 then each + rest else each);
      OneMore(chunks, c);
      Further(i, each);
      chunks := chunks + [c];
    }
    r := Parts(chunks);
  }

  lemma Divides(fileSize: int, chunkNum: int)
    requires 0 < chunkNum <= fileSize
    ensures fileSize / chunkNum >= 1
    ensures (chunkNum - 1) * (fileSize / chunkNum) + (fileSize / chunkNum + fileSize % chunkNum) == fileSize
  {
    assert fileSize == fileSize / chunkNum * chunkNum + fileSize % chunkNum;
    assert (chunkNum - 1) * (fileSize / chunkNum) == chunkNum * (fileSize / chunkNum) - fileSize / chunkNum;
  }

  /** Integer division as Go has it: towards zero. */
  function Quotient(a: int, b: int): int
    requires b > 0
  {
    if a >= 0 then a / b else -(-a / b)
  }

  method SplitByPartSize(fileSize: int, chunkSize: int) returns (r: Outcome)
    ensures r.Failed? <==> chunkSize <= 0 || Quotient(fileSize, chunkSize) >= 10000
    ensures !r.Crash?
    ensures r.Parts? && fileSize >= 0 ==> Tiles(r.chunks, fileSize)
    ensures r.Parts? && fileSize >= 0
        ==> |r.chunks| == fileSize / chunkSize + (if fileSize % chunkSize > 0 then 1 else 0)
    ensures r.Parts? ==> |r.chunks| <= 10000
    ensures r.Parts? ==> forall i | 0 <= i < |r.chunks| - 1 :: r.chunks[i].size == chunkSize
  {
    hide InOrder, End;
    if chunkSize <= 0 {
      return Failed("chunkSize invalid");
    }
    var chunkN := Quotient(fileSize, chunkSize);
    if chunkN >= 10000 {
      return Failed("Too many parts, please increase part size");
    }
    var chunks: seq<Chunk> := [];
    NoneYet();
    var i := 0;
    while i < chunkN
      invariant i >= 0 && (i <= chunkN || i == 0)
      invariant |chunks| == i && InOrder(chunks) && End(chunks) == i * chunkSize
      invariant forall j | 0 <= j < i :: chunks[j].size == chunkSize
      decreases chunkN - i
    {
      var c := Chunk(i + 1, i * chunkSize, chunkSize);
      OneMore(chunks, c);
      Further(i, chunkSize);
      chunks := chunks + [c];
      i := i + 1;
    }
    if fileSize >= 0 {
      Divided(fileSize, chunkSize);
    } else {
      NothingRemains(fileSize, chunkSize);
    }
    var rest := fileSize - chunkN * chunkSize;
    if rest > 0 {
      var c := Chunk(|chunks| + 1, |chunks| * chunkSize, rest);
      OneMore(chunks, c);
      chunks := chunks + [c];
    }
    r := Parts(chunks);
  }

  lemma Divided(fileSize: int, chunkSize: int)
    requires fileSize >= 0 && chunkSize > 0
    ensures Quotient(fileSize, chunkSize) >= 0
    ensures fileSize - Quotient(fileSize, chunkSize) * chunkSize == fileSize % chunkSize
  {
  }

  /** A size below 0 leaves no remainder above 0. */
  lemma NothingRemains(fileSize: int, chunkSize: int)
    requires chunkSize > 0 && fileSize < 0
    ensures fileSize - Quotient(fileSize, chunkSize) * chunkSize <= 0
  {
    var q := -fileSize / chunkSize;
    assert -fileSize == q * chunkSize + -fileSize % chunkSize;
    assert Quotient(fileSize, chunkSize) * chunkSize == -(q * chunkSize);
  }

  // ---------- SplitFile ----------

  /** A proper plan for the upload: at most 10000 parts, all but the last of at least 100 KB. */
  predicate Plan(chunks: seq<Chunk>, fileSize: int) {
    && Tiles(chunks, fileSize) && 1 <= |chunks| <= 10000
    && forall i | 0 <= i < |chunks| - 1 :: chunks[i].size >= LEAST
  }

  /** `n` is the number of parts that the size of the file calls for: 1000 for every GB begun up to
      9, and 10000 above. */
  predicate PartsFor(fileSize: int, n: int) {
    || (n == 10000 && fileSize > 9 * GB)
    || exists i {:trigger i * GB} ::
         1 <= i <= 9 && n == 1000 * i && fileSize < i * GB && ((i - 1) * GB <= fileSize || i == 1)
  }

  lemma {:induction false} Scaled(n: int, a: int, b: int)
    requires n > 0 && a <= b
    ensures n * a <= n * b
    decreases b - a
  {
    if a < b {
      Scaled(n, a, b - 1);
      assert n * b == n * (b - 1) + n;
    }
  }

  lemma QuotientBelow(a: int, n: int, b: int)
    requires n > 0
    ensures a / n < b <==> a < n * b
  {
    assert a == n * (a / n) + a % n;
    if a / n < b {
      Scaled(n, a / n + 1, b);
      assert n * (a / n + 1) == n * (a / n) + n;
    } else {
      Scaled(n, b, a / n);
    }
  }

  /** Only parts of a file below 100,000 KB can come out too small. */
  lemma TooSmall(chunks: seq<Chunk>, fileSize: int, n: int)
    requires Even(chunks, fileSize, n) && PartsFor(fileSize, n) && fileSize >= 1000
    ensures |chunks| <= 10000
    ensures chunks[0].size < LEAST <==> fileSize < 1000 * LEAST
  {
    hide InOrder, End;
    QuotientBelow(fileSize, n, LEAST);
    assert chunks[0].size == fileSize / n;
  }

  /** A plan comes out iff the file has at least 1000 bytes and is not exactly 9 GB; of 9 GB no rule
      takes care and the first part is looked up in an empty list. */
  method SplitFile(fileSize: int) returns (r: Outcome)
    ensures r.Failed? <==> fileSize < 1000
    ensures r.Crash? <==> fileSize == 9 * GB
    ensures r.Parts? ==> Plan(r.chunks, fileSize)
    ensures r.Parts? && fileSize >= 1000 * LEAST
        ==> Even(r.chunks, fileSize, |r.chunks|) && PartsFor(fileSize, |r.chunks|)
    ensures r.Parts? && fileSize < 1000 * LEAST
        ==> |r.chunks| == fileSize / LEAST + (if fileSize % LEAST > 0 then 1 else 0)
  {
    hide InOrder, End;
    var chunks: seq<Chunk> := [];
    var i := 1;
    while i < 10
      invariant 1 <= i <= 10
      invariant fileSize >= (i - 1) * GB || i == 1
      invariant chunks == []
    {
      if fileSize < i * GB {
        var s := SplitByPartNum(fileSize, i * 1000);
        if s.Failed? {
          return s;
        }
        chunks := s.chunks;
        break;
      }
      i := i + 1;
    }
    if fileSize > 9 * GB {
      var s := SplitByPartNum(fileSize, 10000);
      if s.Failed? {
        return s;
      }
      chunks := s.chunks;
    }
    if chunks == [] {
      return Crash;
    }
    TooSmall(chunks, fileSize, |chunks|);
    if chunks[0].size < LEAST {
      r := SplitByPartSize(fileSize, LEAST);
      return;
    }
    r := Parts(chunks);
  }
}
