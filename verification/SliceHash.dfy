/** 189 drivers: hashing an upload slice by slice while it streams through.

    A hash function is any function of the bytes absorbed since the last reset; a hash object
    is modelled by those bytes. */
module SliceHash {

  type Bytes = seq<int>
  type Digest = string

  /** The hash function. */
  type Hash = Bytes -> Digest

  // ---------- The reference: cut the data, hash every slice ----------

  /** The data cut into slices of `size` bytes, the last one possibly shorter; empty data is
      one empty slice. */
  function Cut(data: Bytes, size: nat): (slices: seq<Bytes>)
    requires size > 0
    ensures slices != []
  {
    if |data| <= size then [data] else [data[..size]] + Cut(data[size..], size)
  }

  function HashAll(hash: Hash, slices: seq<Bytes>): (r: seq<Digest>)
    ensures |r| == |slices|
  {
    seq(|slices|, i requires 0 <= i < |slices| => hash(slices[i]))
  }

  function Join(slices: seq<Bytes>): Bytes {
    if slices == [] then [] else slices[0] + Join(slices[1..])
  }

  /** The slices are the data, in order; every slice but the last is full, and the last is
      neither empty nor too long, except that empty data has one empty slice. */
  lemma {:induction false} CutExact(data: Bytes, size: nat)
    requires size > 0
    ensures Join(Cut(data, size)) == data
    ensures var s := Cut(data, size);
            && (forall i | 0 <= i < |s| - 1 :: |s[i]| == size)
            && |s[|s| - 1]| <= size && (s[|s| - 1] == [] ==> data == [])
    decreases |data|
  {
    if |data| > size {
      CutExact(data[size..], size);
      assert data == data[..size] + data[size..];
    } else {
      assert Join([data][1..]) == [];
    }
  }

  // ---------- The streaming writer ----------

  /** All full slices of the data, in order, and what is left over. */
  function Full(data: Bytes, size: nat): seq<Bytes>
    requires size > 0
  {
    if |data| < size then [] else [data[..size]] + Full(data[size..], size)
  }

  function Rest(data: Bytes, size: nat): Bytes
    requires size > 0
  {
    if |data| < size then data else Rest(data[size..], size)
  }

  /** The open slice, the recorded hashes and the count are what the bytes written so far amount to. */
  ghost predicate Holds(hash: Hash, size: nat, written: Bytes, absorbed: Bytes, md5s: seq<Digest>, finish: nat)
    requires size > 0
  {
    finish == |written| && absorbed == Rest(written, size) && md5s == HashAll(hash, Full(written, size))
  }

  /** The writer: the bytes the slice hash has absorbed, the hashes recorded, and the number of
      bytes written so far. */
  class SliceHashWriter {
    const hash: Hash
    const sliceSize: nat
    var absorbed: Bytes
    var md5s: seq<Digest>
    var finish: nat
    ghost var written: Bytes

    /** The fields are exactly what the bytes written so far amount to, however they came. */
    ghost predicate Valid()
      reads this
    {
      sliceSize > 0 && Holds(hash, sliceSize, written, absorbed, md5s, finish)
    }

    constructor (hash: Hash, sliceSize: nat)
      requires sliceSize > 0
      ensures Valid() && written == [] && this.hash == hash && this.sliceSize == sliceSize
    {
      this.hash, this.sliceSize := hash, sliceSize;
      absorbed, md5s, finish, written := [], [], 0, [];
    }

    /** Absorbs a block of any length, recording a hash whenever a slice is full.  A cancelled
        write takes nothing. */
    method Write(p: Bytes, cancelled: bool) returns (n: nat)
      requires Valid()
      modifies this
      ensures Valid()
      ensures if cancelled then n == 0 && written == old(written) else n == |p| && written == old(written) + p
    {
      if cancelled {
        return 0;
      }
      hide Holds, Place;
      n := 0;
      while n < |p|
        invariant n <= |p| && Valid() && written == old(written) + p[..n]
      {
        var sliceRemain := sliceSize - Place(finish, sliceSize);
        var toWrite := |p| - n;
        if toWrite > sliceRemain {
          toWrite := sliceRemain;
        }
        var chunk := p[n..n + toWrite];
        WriteChunk(hash, sliceSize, written, absorbed, md5s, finish, chunk);
        absorbed := absorbed + chunk;
        finish := finish + toWrite;
        written := written + chunk;
        assert p[..n + toWrite] == p[..n] + chunk;
        n := n + toWrite;
        if Place(finish, sliceSize) == 0 {
          md5s := md5s + [hash(absorbed)];
          absorbed := [];
        }
      }
      assert p[..|p|] == p;
    }

    /** The hashes of the whole stream: the last slice is added unless the recorded ones
        already end with it. */
    method Finish() returns (r: seq<Digest>)
      requires Valid()
      ensures r == HashAll(hash, Cut(written, sliceSize))
    {
      LastSlice(written, sliceSize);
      r := md5s;
      if finish % sliceSize != 0 || finish == 0 {
        HashSnoc(hash, Full(written, sliceSize), absorbed);
        r := r + [hash(absorbed)];
      }
    }
  }

  lemma {:induction false} RestLength(data: Bytes, size: nat)
    requires size > 0
    ensures |Rest(data, size)| == |data| % size
    decreases |data|
  {
    if |data| >= size {
      RestLength(data[size..], size);
      ModStep(|data|, size);
    }
  }

  lemma ModStep(n: nat, d: nat)
    requires 0 < d <= n
    ensures (n - d) % d == n % d
  {
    var q := n / d;
    assert n == q * d + n % d;
    assert n - d == (q - 1) * d + n % d;
    ModUnique(n - d, d, q - 1, n % d);
  }

  lemma ModUnique(n: int, d: nat, q: int, r: nat)
    requires d > 0 && n >= 0 && n == q * d + r && r < d
    ensures n % d == r
  {
    var k := n / d - q;
    assert n == (n / d) * d + n % d;
    assert k * d == r - n % d;
    assert k > 0 ==> k * d >= d;
    assert k < 0 ==> k * d + d <= 0;
  }

  /** A chunk that does not cross the end of the current slice. */
  lemma {:induction false} Absorb(data: Bytes, chunk: Bytes, size: nat)
    requires size > 0 && |Rest(data, size)| + |chunk| <= size && |chunk| > 0
    ensures if |Rest(data, size)| + |chunk| < size
            then Full(data + chunk, size) == Full(data, size) && Rest(data + chunk, size) == Rest(data, size) + chunk
            else
              && Full(data + chunk, size) == Full(data, size) + [Rest(data, size) + chunk]
              && Rest(data + chunk, size) == []
    decreases |data|
  {
    if |data| >= size {
      Absorb(data[size..], chunk, size);
      assert (data + chunk)[size..] == data[size..] + chunk;
      assert (data + chunk)[..size] == data[..size];
    } else if |data| + |chunk| == size {
      assert (data + chunk)[..size] == data + chunk;
      assert Full([], size) == [];
    }
  }

  /** The place in its slice of byte `n`. */
  function Place(n: nat, size: nat): (p: nat)
    requires size > 0
    ensures p < size
  {
    n % size
  }

  /** A chunk no longer than what the slice has room for: it completes the slice iff the number of
      bytes written is then a multiple of the slice size. */
  lemma AbsorbChunk(data: Bytes, chunk: Bytes, size: nat)
    requires size > 0 && 0 < |chunk| <= size - Place(|data|, size)
    ensures if Place(|data| + |chunk|, size) == 0
            then
              && Full(data + chunk, size) == Full(data, size) + [Rest(data, size) + chunk]
              && Rest(data + chunk, size) == []
            else Full(data + chunk, size) == Full(data, size) && Rest(data + chunk, size) == Rest(data, size) + chunk
  {
    hide Full, Rest;
    RestLength(data, size);
    RestLength(data + chunk, size);
    Absorb(data, chunk, size);
  }

  lemma WriteChunk(hash: Hash, size: nat, written: Bytes, absorbed: Bytes, md5s: seq<Digest>, finish: nat,
                   chunk: Bytes)
    requires size > 0 && Holds(hash, size, written, absorbed, md5s, finish)
    requires 0 < |chunk| <= size - Place(finish, size)
    ensures var n := finish + |chunk|;
            if Place(n, size) == 0
            then Holds(hash, size, written + chunk, [], md5s + [hash(absorbed + chunk)], n)
            else Holds(hash, size, written + chunk, absorbed + chunk, md5s, n)
  {
    hide Full, Rest, HashAll, Place;
    AbsorbChunk(written, chunk, size);
    HashSnoc(hash, Full(written, size), absorbed + chunk);
  }

  lemma HashSnoc(hash: Hash, slices: seq<Bytes>, last: Bytes)
    ensures HashAll(hash, slices + [last]) == HashAll(hash, slices) + [hash(last)]
  {
  }

  /** The last-slice rule gives the reference cutting. */
  lemma {:induction false} LastSlice(data: Bytes, size: nat)
    requires size > 0
    ensures Cut(data, size)
         == if |data| % size != 0 || |data| == 0 then Full(data, size) + [Rest(data, size)] else Full(data, size)
    decreases |data|
  {
    if |data| > size {
      LastSlice(data[size..], size);
      ModStep(|data|, size);
    } else if |data| == size {
      assert data[..size] == data && Full([], size) == [];
    }
  }

  /** However the data is split into writes, the hashes are those of the data cut into slices. */
  method HashStream(hash: Hash, size: nat, writes: seq<Bytes>) returns (r: seq<Digest>)
    requires size > 0
    ensures r == HashAll(hash, Cut(Join(writes), size))
  {
    var w := new SliceHashWriter(hash, size);
    assert writes[0..] == writes;
    for i := 0 to |writes|
      invariant w.Valid() && w.hash == hash && w.sliceSize == size && fresh(w)
      invariant w.written + Join(writes[i..]) == Join(writes)
    {
      assert writes[i..][0] == writes[i] && writes[i..][1..] == writes[i + 1..];
      var n := w.Write(writes[i], false);
    }
    assert writes[|writes|..] == [];
    assert w.written + [] == w.written;
    r := w.Finish();
  }

  // ---------- The loop with a fixed count ----------

  function PartCount(n: nat, size: nat): nat
    requires size > 0
  {
    if n > size then (n + size - 1) / size else 1
  }

  lemma PartCountStep(n: nat, size: nat)
    requires size > 0 && n > size
    ensures PartCount(n, size) == 1 + PartCount(n - size, size)
  {
    DivStep(n + size - 1, size);
    if n - size <= size {
      DivUnique(n - 1, size, 1, n - size - 1);
    }
  }

  lemma DivStep(n: nat, d: nat)
    requires 0 < d <= n
    ensures n / d == (n - d) / d + 1
  {
    DivUnique(n - d, d, n / d - 1, n % d);
  }

  lemma DivUnique(n: int, d: nat, q: int, r: int)
    requires d > 0 && n >= 0 && n == q * d + r && 0 <= r < d
    ensures n / d == q
  {
    var k := n / d - q;
    assert n == (n / d) * d + n % d;
    assert k * d == r - n % d;
    assert k > 0 ==> k * d >= d;
    assert k < 0 ==> k * d + d <= 0;
  }

  /** `fastUpload`: a fixed number of slices, the last one shorter; empty data still makes one
      slice.  The stream holds as many bytes as the file claims. */
  method FastUploadHashes(hash: Hash, data: Bytes, size: nat) returns (r: seq<Digest>)
    requires size > 0
    ensures r == HashAll(hash, Cut(data, size))
  {
    hide Cut, HashAll, PartCount, LastSize, SlicesLeft;
    var count, last := CountSlices(|data|, size);
    var byteSize := size;
    var stream := data;
    r := [];
    for i := 0 to count
      invariant i < count ==> byteSize == size
      invariant i < count ==> SlicesLeft(|stream|, |data|, size, count - i)
      invariant HashAll(hash, Cut(data, size)) == r + if i < count then HashAll(hash, Cut(stream, size)) else []
    {
      if i + 1 == count {
        byteSize := last;
      }
      SliceTaken(|stream|, |data|, size, count - i);
      var n := if |stream| < byteSize then |stream| else byteSize;
      HashFirst(hash, stream, size);
      assert i + 1 == count ==> stream[..n] == stream;
      r := r + [hash(stream[..n])];
      stream := stream[n..];
    }
  }

  function LastSize(n: nat, size: nat): nat
    requires size > 0
  {
    if n % size == 0 then size else n % size
  }

  /** The number of slices and the size of the last one. */
  method CountSlices(n: nat, size: nat) returns (count: nat, last: nat)
    requires size > 0
    ensures last == LastSize(n, size) && count >= 1 && SlicesLeft(n, n, size, count)
  {
    PartCountIs(n, size);
    count := if n > size then (n + size - 1) / size else 1;
    last := if n % size == 0 then size else n % size;
  }

  /** Of `total` bytes `left` are still to come, in `k` slices. */
  predicate SlicesLeft(left: nat, total: nat, size: nat, k: int)
    requires size > 0
  {
    left % size == total % size && PartCount(left, size) == k
  }

  /** The last slice takes all that is left; any other takes a full slice. */
  lemma SliceTaken(left: nat, total: nat, size: nat, k: int)
    requires size > 0 && SlicesLeft(left, total, size, k)
    ensures k == 1 ==> left <= LastSize(total, size) <= size
    ensures k > 1 ==> left > size && SlicesLeft(left - size, total, size, k - 1)
  {
    hide PartCount;
    if k == 1 {
      OneSliceLeft(left, total, size);
    } else if k > 1 {
      PartCountIs(left, size);
      PartCountStep(left, size);
      ModStep(left, size);
    }
  }

  lemma PartCountIs(n: nat, size: nat)
    requires size > 0
    ensures PartCount(n, size) == if n > size then (n + size - 1) / size else 1
    ensures PartCount(n, size) >= 1
    ensures PartCount(n, size) > 1 ==> n > size
  {
    if n > size {
      DivStep(n + size - 1, size);
    }
  }

  /** The count is the number of slices that the data is cut into. */
  lemma {:induction false} SlicesCounted(data: Bytes, size: nat)
    requires size > 0
    ensures |Cut(data, size)| == PartCount(|data|, size)
    decreases |data|
  {
    if |data| > size {
      SlicesCounted(data[size..], size);
      PartCountStep(|data|, size);
    }
  }

  lemma HashFirst(hash: Hash, data: Bytes, size: nat)
    requires size > 0
    ensures HashAll(hash, Cut(data, size))
         == if |data| <= size then [hash(data)] else [hash(data[..size])] + HashAll(hash, Cut(data[size..], size))
  {
  }

  /** One slice left means no more bytes than the last slice takes. */
  lemma OneSliceLeft(left: nat, total: nat, size: nat)
    requires size > 0 && left % size == total % size && PartCount(left, size) == 1
    ensures left <= if total % size == 0 then size else total % size
  {
    var n := left + size - 1;
    assert n == n / size * size + n % size;
  }

  // ---------- Reading until the end ----------

  /** What reading full buffers until one comes back short delivers: no buffer at all for no data. */
  function ReadSlices(data: Bytes, size: nat): seq<Bytes>
    requires size > 0
  {
    if data == [] then []
    else if |data| < size then [data]
    else [data[..size]] + ReadSlices(data[size..], size)
  }

  /** `ComputeSliceMD5sFromReader`: reads full buffers until one comes back short. */
  method ComputeSliceHashes(hash: Hash, data: Bytes, sliceSize: int, defaultSize: nat) returns (r: seq<Digest>)
    requires defaultSize > 0
    ensures r == HashAll(hash, ReadSlices(data, if sliceSize <= 0 then defaultSize else sliceSize))
  {
    hide HashAll, ReadSlices;
    var size := if sliceSize <= 0 then defaultSize else sliceSize;
    var stream := data;
    r := [];
    while true
      invariant r + HashAll(hash, ReadSlices(stream, size)) == HashAll(hash, ReadSlices(data, size))
      decreases |stream|
    {
      var n := if |stream| < size then |stream| else size;
      if n > 0 {
        ReadFirst(hash, stream, size);
        r := r + [hash(stream[..n])];
      }
      stream := stream[n..];
      if n < size {
        break;
      }
    }
    ReadNothing(hash, size);
    assert stream == [] && r + [] == r;
  }

  lemma ReadNothing(hash: Hash, size: nat)
    requires size > 0
    ensures HashAll(hash, ReadSlices([], size)) == []
  {
  }

  lemma ReadFirst(hash: Hash, data: Bytes, size: nat)
    requires size > 0 && data != []
    ensures var n := if |data| < size then |data| else size;
            HashAll(hash, ReadSlices(data, size)) == [hash(data[..n])] + HashAll(hash, ReadSlices(data[n..], size))
  {
    if |data| < size {
      assert data[..|data|] == data && data[|data|..] == [];
    }
  }

  lemma {:induction false} ReadIsCut(data: Bytes, size: nat)
    requires size > 0 && data != []
    ensures ReadSlices(data, size) == Cut(data, size)
    decreases |data|
  {
    if |data| > size {
      ReadIsCut(data[size..], size);
    } else if |data| == size {
      assert data[..size] == data && data[size..] == [];
    }
  }

  /** Reading until the end gives the hashes that the writer and the fixed count give iff there is any
      data: for empty data it makes no slice, where they make one. */
  lemma ReaderAgreesIff(hash: Hash, data: Bytes, size: nat)
    requires size > 0
    ensures HashAll(hash, ReadSlices(data, size)) == HashAll(hash, Cut(data, size)) <==> data != []
  {
    if data != [] {
      ReadIsCut(data, size);
    }
  }
}
