/** Receiving bytes: the clamped download counter, and the ranges cut out of a listing. */
module Transfer {
  import opened Outcomes

  type Bytes = seq<bv8>

  function Concat(pieces: seq<Bytes>): Bytes {
    if pieces == [] then [] else Concat(pieces[..|pieces| - 1]) + pieces[|pieces| - 1]
  }

  lemma {:induction false} ConcatInOrder(a: seq<Bytes>, b: seq<Bytes>)
    ensures Concat(a + b) == Concat(a) + Concat(b)
    ensures forall piece :: Concat([piece]) == piece
  {
    forall piece: Bytes
      ensures Concat([piece]) == piece
    {
      assert [piece][..0] == [];
    }
    if b == [] {
      assert a + b == a;
    } else {
      var n := |b| - 1;
      assert (a + b)[..|a + b| - 1] == a + b[..n];
      ConcatInOrder(a, b[..n]);
    }
  }

  // ---------- Download ----------

  const U64_SIZE := 0x1_0000_0000_0000_0000

  type U64 = n: nat | n < U64_SIZE

  /** Unsigned addition as release builds do it. */
  function Add(a: U64, b: U64): U64 {
    (a + b) % U64_SIZE
  }

  function Min(a: nat, b: nat): nat {
    if a < b then a else b
  }

  function Sum(sizes: seq<U64>): nat {
    if sizes == [] then 0 else Sum(sizes[..|sizes| - 1]) + sizes[|sizes| - 1]
  }

  /** The counter after these chunks: clamped to the announced size at every step. */
  function Counter(sizes: seq<U64>, total: U64): U64 {
    if sizes == [] then 0
    else Min(Add(Counter(sizes[..|sizes| - 1], total), sizes[|sizes| - 1]), total)
  }

  function Sizes(chunks: seq<Bytes>): (sizes: seq<U64>)
    requires forall i | 0 <= i < |chunks| :: |chunks[i]| < U64_SIZE
  {
    seq(|chunks|, i requires 0 <= i < |chunks| => |chunks[i]|)
  }

  /** The chunks before the first error of the stream. */
  function Received(stream: seq<Option<Bytes>>): seq<Bytes> {
    if stream == [] || stream[0].None? then [] else [stream[0].value] + Received(stream[1..])
  }

  lemma {:induction false} ReceivedPrefix(stream: seq<Option<Bytes>>, k: nat)
    requires k <= |stream| && forall i | 0 <= i < k :: stream[i].Some?
    ensures k == |stream| || stream[k].None? ==> |Received(stream)| == k
    ensures |Received(stream)| >= k && forall i | 0 <= i < k :: Received(stream)[i] == stream[i].value
  {
    if k > 0 {
      ReceivedPrefix(stream[1..], k - 1);
    }
  }

  lemma NoChunks(total: U64)
    ensures Concat([]) == [] && Counter(Sizes([]), total) == 0
  {
  }

  lemma OneMoreChunk(chunks: seq<Bytes>, bytes: Bytes, total: U64)
    requires |bytes| < U64_SIZE && forall i | 0 <= i < |chunks| :: |chunks[i]| < U64_SIZE
    ensures Concat(chunks + [bytes]) == Concat(chunks) + bytes
    ensures Counter(Sizes(chunks + [bytes]), total) == Min(Add(Counter(Sizes(chunks), total), |bytes|), total)
  {
    var more := chunks + [bytes];
    assert more[..|chunks|] == chunks;
    assert Sizes(more)[..|chunks|] == Sizes(chunks);
  }

  method DownloadFile(stream: seq<Option<Bytes>>, total: U64) returns (file: Bytes, downloaded: U64, ok: bool)
    requires forall i | 0 <= i < |stream| :: stream[i].Some? ==> |stream[i].value| < U64_SIZE
    ensures ok <==> forall i | 0 <= i < |stream| :: stream[i].Some?
    ensures file == Concat(Received(stream))
    ensures forall i | 0 <= i < |Received(stream)| :: |Received(stream)[i]| < U64_SIZE
    ensures downloaded == Counter(Sizes(Received(stream)), total)
  {
    hide Counter, Concat;
    NoChunks(total);
    file := [];
    downloaded := 0;
    ghost var chunks: seq<Bytes> := [];
    for i := 0 to |stream|
      invariant |chunks| == i && forall k | 0 <= k < i :: stream[k] == Some(chunks[k])
      invariant forall k | 0 <= k < i :: |chunks[k]| < U64_SIZE
      invariant file == Concat(chunks)
      invariant downloaded == Counter(Sizes(chunks), total)
    {
      if stream[i].None? {
        ReceivedPrefix(stream, i);
        assert Received(stream) == chunks;
        ok := false;
        return;
      }
      var bytes := stream[i].value;
      file := file + bytes;
      downloaded := Min(Add(downloaded, |bytes|), total);
      OneMoreChunk(chunks, bytes, total);
      chunks := chunks + [bytes];
    }
    ReceivedPrefix(stream, |stream|);
    assert Received(stream) == chunks;
    ok := true;
  }

  /** No addition leaves the 64-bit range. */
  predicate NeverWraps(sizes: seq<U64>, total: U64) {
    forall k | 0 <= k < |sizes| :: Min(Sum(sizes[..k]), total) + sizes[k] < U64_SIZE
  }

  /** The counter shows the bytes written, clamped once. */
  ghost predicate IsFaithful(sizes: seq<U64>, total: U64) {
    forall k | 0 <= k <= |sizes| :: Counter(sizes[..k], total) == Min(Sum(sizes[..k]), total)
  }

  lemma SumSnoc(sizes: seq<U64>, k: nat)
    requires k < |sizes|
    ensures Sum(sizes[..k + 1]) == Sum(sizes[..k]) + sizes[k]
    ensures forall total: U64 :: Counter(sizes[..k + 1], total) == Min(Add(Counter(sizes[..k], total), sizes[k]), total)
  {
    assert sizes[..k + 1][..k] == sizes[..k];
  }

  lemma NothingYet(sizes: seq<U64>, total: U64)
    ensures Counter(sizes[..0], total) == Sum(sizes[..0]) == 0
  {
  }

  lemma SmallAdd(a: U64, b: U64)
    requires a + b < U64_SIZE
    ensures Add(a, b) == a + b
  {
  }

  lemma {:induction false} FaithfulUpTo(sizes: seq<U64>, total: U64, k: nat)
    requires NeverWraps(sizes, total) && k <= |sizes|
    ensures Counter(sizes[..k], total) == Min(Sum(sizes[..k]), total)
  {
    hide Add, Counter, Sum;
    if k == 0 {
      NothingYet(sizes, total);
    } else {
      FaithfulUpTo(sizes, total, k - 1);
      SumSnoc(sizes, k - 1);
      SmallAdd(Counter(sizes[..k - 1], total), sizes[k - 1]);
    }
  }

  lemma {:induction false} SumIsLength(chunks: seq<Bytes>)
    requires forall i | 0 <= i < |chunks| :: |chunks[i]| < U64_SIZE
    ensures Sum(Sizes(chunks)) == |Concat(chunks)|
  {
    if chunks != [] {
      var n := |chunks| - 1;
      SumIsLength(chunks[..n]);
      assert Sizes(chunks)[..n] == Sizes(chunks[..n]);
    }
  }

  /** The counter ends at the number of bytes in the file, or at the announced size if that is less,
      when the announced size leaves room for each chunk or the file for fewer than 2^64 bytes. */
  lemma CounterShowsFile(chunks: seq<Bytes>, total: U64)
    requires forall i | 0 <= i < |chunks| :: |chunks[i]| < 0x1_0000_0000_0000_0000
    requires (forall i | 0 <= i < |chunks| :: total + |chunks[i]| < 0x1_0000_0000_0000_0000) ||
             |Concat(chunks)| < 0x1_0000_0000_0000_0000
    ensures Counter(Sizes(chunks), total) == if |Concat(chunks)| < total then |Concat(chunks)| else total
  {
    hide Counter, Sum, Concat;
    var sizes := Sizes(chunks);
    SumIsLength(chunks);
    CounterIsMonotone(sizes, total, |sizes|, |sizes|);
    FaithfulUpTo(sizes, total, |sizes|);
    assert sizes[..|sizes|] == sizes;
  }

  /** A wrapped addition leaves less than the true total, clamped. */
  lemma WrapShows(shown: U64, size: U64, sum: nat, total: U64)
    requires shown == Min(sum, total) && shown + size >= U64_SIZE
    ensures Min(Add(shown, size), total) != Min(sum + size, total)
  {
    assert Add(shown, size) == shown + size - U64_SIZE;
  }

  /** Clamping at every step is clamping once, at every chunk, exactly as long as no addition
      wraps around. */
  lemma CounterExactly(sizes: seq<U64>, total: U64)
    ensures IsFaithful(sizes, total) <==> NeverWraps(sizes, total)
  {
    if NeverWraps(sizes, total) {
      forall k | 0 <= k <= |sizes|
        ensures Counter(sizes[..k], total) == Min(Sum(sizes[..k]), total)
      {
        FaithfulUpTo(sizes, total, k);
      }
    }
    if IsFaithful(sizes, total) {
      hide Counter, Sum;
      forall k | 0 <= k < |sizes|
        ensures Min(Sum(sizes[..k]), total) + sizes[k] < U64_SIZE
      {
        SumSnoc(sizes, k);
        if Min(Sum(sizes[..k]), total) + sizes[k] >= U64_SIZE {
          WrapShows(Min(Sum(sizes[..k]), total), sizes[k], Sum(sizes[..k]), total);
        }
      }
    }
  }

  lemma {:induction false} SumGrows(sizes: seq<U64>, j: nat, k: nat)
    requires j <= k <= |sizes|
    ensures Sum(sizes[..j]) <= Sum(sizes[..k])
  {
    if j < k {
      SumGrows(sizes, j, k - 1);
      SumSnoc(sizes, k - 1);
    }
  }

  /** The counter never goes back, and nothing wraps, if the announced size leaves room for any
      one chunk or if fewer bytes arrive than 64 bits can count. */
  lemma CounterIsMonotone(sizes: seq<U64>, total: U64, j: nat, k: nat)
    requires j <= k <= |sizes|
    requires (forall i | 0 <= i < |sizes| :: total + sizes[i] < U64_SIZE) || Sum(sizes) < U64_SIZE
    ensures NeverWraps(sizes, total)
    ensures Counter(sizes[..j], total) <= Counter(sizes[..k], total) <= total
  {
    assert sizes[..|sizes|] == sizes;
    forall i | 0 <= i < |sizes|
      ensures Min(Sum(sizes[..i]), total) + sizes[i] < U64_SIZE
    {
      SumSnoc(sizes, i);
      SumGrows(sizes, i + 1, |sizes|);
    }
    FaithfulUpTo(sizes, total, j);
    FaithfulUpTo(sizes, total, k);
    SumGrows(sizes, j, k);
  }

  /** No chunk is larger than a buffer can be. */
  predicate IsWithin(sizes: seq<U64>, bound: U64) {
    forall i | 0 <= i < |sizes| :: sizes[i] <= bound
  }

  function Ones(n: nat): seq<U64> {
    seq(n, _ => 1)
  }

  lemma {:induction false} SumOfOnes(n: nat)
    ensures Sum(Ones(n)) == n
  {
    if n > 0 {
      SumOfOnes(n - 1);
      assert Ones(n)[..n - 1] == Ones(n - 1);
    }
  }

  lemma SmallChunksWrap(total: U64, bound: U64)
    requires total + bound >= U64_SIZE
    ensures IsWithin(Ones(total) + [bound], bound) && !IsFaithful(Ones(total) + [bound], total)
  {
    var sizes := Ones(total) + [bound];
    SumOfOnes(total);
    assert sizes[..total] == Ones(total) && sizes[total] == bound;
    CounterExactly(sizes, total);
  }

  /** With chunks of at most `bound` bytes, some stream makes the counter wrong if and only if the
      announced size leaves no room for one chunk. */
  lemma CounterWrapsExactly(total: U64, bound: U64)
    ensures (exists sizes: seq<U64> :: IsWithin(sizes, bound) && !IsFaithful(sizes, total))
            <==> total + bound >= 0x1_0000_0000_0000_0000
  {
    hide Ones, Sum, Counter;
    if total + bound >= U64_SIZE {
      SmallChunksWrap(total, bound);
    } else {
      forall sizes: seq<U64> | IsWithin(sizes, bound)
        ensures IsFaithful(sizes, total)
      {
        CounterExactly(sizes, total);
      }
    }
  }

  /** The largest buffer on a 64-bit platform. */
  const MAX_CHUNK: U64 := 0x7FFF_FFFF_FFFF_FFFF

  /** Three chunks that buffers can hold wrap the counter of a download announced at the top of the
      range. */
  lemma CounterCanWrap()
    ensures IsWithin([MAX_CHUNK, MAX_CHUNK, 2], MAX_CHUNK)
    ensures !IsFaithful([MAX_CHUNK, MAX_CHUNK, 2], U64_SIZE - 1)
  {
    var sizes: seq<U64> := [MAX_CHUNK, MAX_CHUNK, 2];
    assert sizes[..2] == [MAX_CHUNK, MAX_CHUNK] && sizes[..2][..1] == [MAX_CHUNK];
    assert Sum(sizes[..2]) == MAX_CHUNK + MAX_CHUNK by {
      assert Sum([MAX_CHUNK]) == MAX_CHUNK;
    }
    CounterExactly(sizes, U64_SIZE - 1);
  }

  // ---------- Ranges ----------

  /** A validated range: both ends inclusive and inside the data. */
  datatype ByteRange = ByteRange(start: nat, end: nat)

  predicate AreValid(ranges: seq<ByteRange>, size: nat) {
    forall i | 0 <= i < |ranges| :: ranges[i].start <= ranges[i].end < size
  }

  /** The bytes a range denotes by section 14.1.2 of RFC 9110. */
  function Denoted(item: Bytes, ranges: seq<ByteRange>): seq<Bytes>
    requires AreValid(ranges, |item|)
  {
    seq(|ranges|, i requires 0 <= i < |ranges| => item[ranges[i].start..ranges[i].end + 1])
  }

  function WithoutLast(b: Bytes): Bytes {
    if b == [] then [] else b[..|b| - 1]
  }

  function Shortened(pieces: seq<Bytes>): seq<Bytes> {
    seq(|pieces|, i requires 0 <= i < |pieces| => WithoutLast(pieces[i]))
  }

  /** The piece that a range yields goes from its start to just before its inclusive end. */
  lemma PiecesExactly(item: Bytes, ranges: seq<ByteRange>)
    requires AreValid(ranges, |item|)
    ensures |Shortened(Denoted(item, ranges))| == |ranges|
    ensures forall i | 0 <= i < |ranges| ::
              && Denoted(item, ranges)[i] == item[ranges[i].start..ranges[i].end + 1]
              && Shortened(Denoted(item, ranges))[i] == item[ranges[i].start..ranges[i].end]
  {
  }

  /** `ranges` is absent without the option and an error if the option did not validate. */
  method SelectRanges(item: Bytes, ranges: Option<Result<seq<ByteRange>, string>>) returns (r: Result<Bytes, string>)
    requires ranges.Some? && ranges.value.Ok? ==> AreValid(ranges.value.value, |item|)
    ensures ranges.None? ==> r == Ok(item)
    ensures ranges.Some? && ranges.value.Err? ==> r == Err(ranges.value.error)
    ensures ranges.Some? && ranges.value.Ok? ==> r == Ok(Concat(Shortened(Denoted(item, ranges.value.value))))
    ensures ranges.Some? && ranges.value.Ok? && |ranges.value.value| == 1 ==>
              r == Ok(item[ranges.value.value[0].start..ranges.value.value[0].end])
  {
    if ranges.None? {
      return Ok(item);
    }
    if ranges.value.Err? {
      return Err(ranges.value.error);
    }
    var valid := ranges.value.value;
    ghost var pieces := Shortened(Denoted(item, valid));
    var concatenated: Bytes := [];
    for i := 0 to |valid|
      invariant concatenated == Concat(pieces[..i])
    {
      var start, end := valid[i].start, valid[i].end;
      var bytes := item[start..end];
      concatenated := concatenated + bytes;
      assert bytes == pieces[i];
      assert pieces[..i + 1][..i] == pieces[..i];
    }
    assert pieces[..|valid|] == pieces;
    PiecesExactly(item, valid);
    if |valid| == 1 {
      ConcatInOrder([], []);
      assert pieces == [pieces[0]];
    }
    r := Ok(concatenated);
  }

  lemma {:induction false} ConcatLength(pieces: seq<Bytes>)
    requires forall i | 0 <= i < |pieces| :: pieces[i] != []
    ensures |Concat(Shortened(pieces))| + |pieces| == |Concat(pieces)|
  {
    if pieces != [] {
      var n := |pieces| - 1;
      ConcatLength(pieces[..n]);
      assert Shortened(pieces)[..n] == Shortened(pieces[..n]);
    }
  }

  /** Every range comes out one byte short: the selection is what the ranges denote exactly when
      there is no range. */
  lemma SelectionExactly(item: Bytes, ranges: seq<ByteRange>)
    requires AreValid(ranges, |item|)
    ensures |Concat(Shortened(Denoted(item, ranges)))| == |Concat(Denoted(item, ranges))| - |ranges|
    ensures Concat(Shortened(Denoted(item, ranges))) == Concat(Denoted(item, ranges)) <==> ranges == []
  {
    ConcatLength(Denoted(item, ranges));
    if ranges == [] {
      assert Shortened(Denoted(item, ranges)) == Denoted(item, ranges);
    }
  }
}
