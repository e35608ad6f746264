// The exporter-side helpers of the Mechanical add-in: LINQ-style chunking of
// a sequence, splitting an array into fixed-size pieces, and decoding the
// facet list of an ANSYS face into the index triples a DMesh expects.

module Utilities {

  // ---------------------------------------------------------------------
  // LINQ Take / Skip on a materialised sequence
  // ---------------------------------------------------------------------

  /** `Enumerable.Take`: the first `n` elements, none for `n <= 0`, all when `n` exceeds the length. */
  function Take<T>(s: seq<T>, n: int): (r: seq<T>)
    ensures |r| == if n <= 0 then 0 else if n < |s| then n else |s|
  {
    if n <= 0 then [] else if n < |s| then s[..n] else s
  }

  /** `Enumerable.Skip`: what `Take(s, n)` leaves behind. */
  function Skip<T>(s: seq<T>, n: int): (r: seq<T>)
    ensures |r| == if n <= 0 then |s| else if n < |s| then |s| - n else 0
  {
    if n <= 0 then s else if n < |s| then s[n..] else []
  }

  /** Taking and skipping the same count splits the sequence. */
  lemma TakeSkip<T>(s: seq<T>, n: int)
    ensures Take(s, n) + Skip(s, n) == s
  {
    if 0 < n < |s| {
      assert s[..n] + s[n..] == s;
    }
  }

  function Min(a: int, b: int): int { if a <= b then a else b }

  /** Skipping twice is skipping the sum, for non-negative counts. */
  lemma SkipSkip<T>(s: seq<T>, m: int, n: int)
    requires 0 <= m && 0 <= n
    ensures Skip(Skip(s, m), n) == Skip(s, m + n)
  {
    if m + n < |s| && 0 < m && 0 < n {
      assert Skip(s, m)[n..] == s[m + n..];
    }
  }

  /** The concatenation of a sequence of sequences. */
  function Flatten<T>(cs: seq<seq<T>>): seq<T> {
    if cs == [] then [] else cs[0] + Flatten(cs[1..])
  }

  // ---------------------------------------------------------------------
  // Chunk (Utilities.cs, `Chunk`)
  // ---------------------------------------------------------------------

  /** The chunks `Chunk` yields for a positive chunk size. */
  function Chunks<T>(s: seq<T>, k: int): seq<seq<T>>
    requires k > 0
    decreases |s|
  {
    if s == [] then [] else [Take(s, k)] + Chunks(Skip(s, k), k)
  }

  /**
   * The iterator: while anything is left, yield the next `chunksize`
   * elements and drop them. For `chunksize <= 0` and a non-empty source the
   * source never shrinks (see `ChunkStalls`), so the caller must exclude it.
   */
  method Chunk<T>(source: seq<T>, chunksize: int) returns (chunks: seq<seq<T>>)
    requires chunksize > 0 || source == []
    ensures chunksize > 0 ==> chunks == Chunks(source, chunksize)
    ensures source == [] ==> chunks == []
  {
    chunks := [];
    var rest := source;
    while rest != []
      invariant |rest| <= |source|
      invariant chunksize > 0 || rest == []
      invariant source == [] ==> chunks == []
      invariant chunksize > 0 ==> chunks + Chunks(rest, chunksize) == Chunks(source, chunksize)
      decreases |rest|
    {
      ghost var before := chunks;
      chunks := chunks + [Take(rest, chunksize)];
      assert Chunks(rest, chunksize) == [Take(rest, chunksize)] + Chunks(Skip(rest, chunksize), chunksize);
      assert chunks + Chunks(Skip(rest, chunksize), chunksize) == before + Chunks(rest, chunksize);
      rest := Skip(rest, chunksize);
    }
  }

  /** With a non-positive chunk size one step yields nothing and keeps the whole source. */
  lemma ChunkStalls<T>(source: seq<T>, chunksize: int)
    requires chunksize <= 0 && source != []
    ensures Take(source, chunksize) == [] && Skip(source, chunksize) == source
  {
  }

  /** Concatenating the chunks gives back the source. */
  lemma {:induction false} ChunksFlatten<T>(s: seq<T>, k: int)
    requires k > 0
    ensures Flatten(Chunks(s, k)) == s
    decreases |s|
  {
    if s != [] {
      TakeSkip(s, k);
      ChunksFlatten(Skip(s, k), k);
      assert Chunks(s, k)[1..] == Chunks(Skip(s, k), k);
    }
  }

  /** Every chunk is non-empty and at most `k` long; all but the last are exactly `k` long. */
  lemma {:induction false} ChunkSizes<T>(s: seq<T>, k: int)
    requires k > 0
    ensures forall i :: 0 <= i < |Chunks(s, k)| ==> 0 < |Chunks(s, k)[i]| <= k
    ensures forall i :: 0 <= i < |Chunks(s, k)| - 1 ==> |Chunks(s, k)[i]| == k
    decreases |s|
  {
    if s != [] {
      var cs, rest := Chunks(s, k), Chunks(Skip(s, k), k);
      ChunkSizes(Skip(s, k), k);
      assert cs == [Take(s, k)] + rest;
      forall i | 1 <= i < |cs| ensures 0 < |cs[i]| <= k && (i < |cs| - 1 ==> |cs[i]| == k) {
        assert cs[i] == rest[i - 1];
      }
      if 1 < |cs| {
        assert |Skip(s, k)| > 0;
      }
    }
  }

  /** There are ⌈|s| / k⌉ chunks. */
  lemma {:induction false} ChunkCount<T>(s: seq<T>, k: int)
    requires k > 0
    ensures (|Chunks(s, k)| - 1) * k < |s| <= |Chunks(s, k)| * k
    decreases |s|
  {
    if s != [] {
      var m := |Chunks(Skip(s, k), k)|;
      ChunkCount(Skip(s, k), k);
      assert |Chunks(s, k)| == m + 1;
      assert (m + 1) * k == m * k + k;
    }
  }

  // ---------------------------------------------------------------------
  // SplitToArray (Utilities.cs, `SplitToArray`)
  // ---------------------------------------------------------------------

  /**
   * The loop test `i < (float)array.Length / size`, with the division exact.
   * A zero size gives an infinite quotient when the array is non-empty and a
   * quotient that compares false (0/0) when it is empty.
   */
  predicate MoreArrays(i: int, n: nat, size: int) {
    if size == 0 then n > 0 else (i as real) < (n as real) / (size as real)
  }

  lemma MoreArraysPositive(i: int, n: nat, size: int)
    requires size > 0
    ensures MoreArrays(i, n, size) <==> i * size < n
  {
    var q := (n as real) / (size as real);
    assert q * (size as real) == n as real;
    assert (i as real) * (size as real) == (i * size) as real;
    if (i as real) < q {
      assert (i as real) * (size as real) < q * (size as real);
    } else {
      assert (i as real) * (size as real) >= q * (size as real);
    }
  }

  lemma MoreArraysNegative(i: int, n: nat, size: int)
    requires size < 0 && 0 <= i
    ensures !MoreArrays(i, n, size)
  {
    var q := (n as real) / (size as real);
    assert q * (size as real) == n as real;
  }

  /** How many pieces of `size` elements cover `n` elements: none for a non-positive size. */
  function PieceCount(n: nat, size: int): nat
    decreases n
  {
    if size <= 0 || n == 0 then 0 else if n <= size then 1 else 1 + PieceCount(n - size, size)
  }

  /** Piece `i`: `array.Skip(i * size).Take(size)`. */
  function Piece<T>(a: seq<T>, size: int, i: int): seq<T> {
    Take(Skip(a, i * size), size)
  }

  /** The arrays `SplitToArray` yields. */
  function Split<T>(a: seq<T>, size: int): seq<seq<T>> {
    seq(PieceCount(|a|, size), i => Piece(a, size, i))
  }

  lemma MulMono(a: int, b: int, d: int)
    requires a <= b && 0 < d
    ensures a * d <= b * d
  {
    var k := b - a;
    assert b * d == a * d + k * d;
  }

  /** Euclidean division picks the one quotient that leaves a remainder in `[0, d)`. */
  lemma DivIs(x: int, d: int, q: int)
    requires 0 < d && q * d <= x < q * d + d
    ensures x / d == q
  {
    var q', r := x / d, x % d;
    assert x == q' * d + r && 0 <= r < d;
    if q' > q {
      MulMono(q + 1, q', d);
    } else if q' < q {
      MulMono(q', q - 1, d);
    }
  }

  /** The piece count is the one `c` with `(c - 1) * size < n <= c * size`. */
  lemma {:induction false} PieceCountIs(n: nat, size: int, c: int)
    requires size > 0 && (c - 1) * size < n <= c * size
    ensures PieceCount(n, size) == c
    decreases n
  {
    if n == 0 {
      if c > 0 {
        MulMono(1, c, size);
      } else if c < 0 {
        MulMono(c, -1, size);
      }
    } else if n <= size {
      if c > 1 {
        MulMono(1, c - 1, size);
      } else if c < 1 {
        MulMono(c, 0, size);
      }
    } else {
      assert (c - 1) * size == c * size - size;
      assert (c - 2) * size == c * size - 2 * size;
      PieceCountIs(n - size, size, c - 1);
    }
  }

  /** ⌈n / size⌉ pieces: `(c - 1) * size < n <= c * size`. */
  lemma {:induction false} PieceCountBounds(n: nat, size: int)
    requires size > 0
    ensures (PieceCount(n, size) - 1) * size < n <= PieceCount(n, size) * size
    decreases n
  {
    if n > size {
      var c := PieceCount(n - size, size);
      PieceCountBounds(n - size, size);
      assert (c + 1) * size == c * size + size;
    }
  }

  /** The closed form: ⌈n / size⌉ is `(n + size - 1) / size`. */
  lemma PieceCountIsCeiling(n: nat, size: int)
    requires size > 0
    ensures PieceCount(n, size) == (n + size - 1) / size
  {
    var c := PieceCount(n, size);
    PieceCountBounds(n, size);
    assert (c - 1) * size == c * size - size;
    DivIs(n + size - 1, size, c);
  }

  /**
   * The iterator: for `i = 0, 1, …` while `i < length / size`, yield the
   * `i`-th piece. A zero size on a non-empty array never stops, so the
   * caller must exclude it.
   */
  method SplitToArray<T>(a: seq<T>, size: int) returns (arrays: seq<seq<T>>)
    requires size != 0 || |a| == 0
    ensures arrays == Split(a, size)
  {
    arrays := [];
    var i := 0;
    while MoreArrays(i, |a|, size)
      invariant 0 <= i && |arrays| == i
      invariant size > 0 ==> (i - 1) * size < |a|
      invariant size <= 0 ==> i == 0
      invariant forall j :: 0 <= j < i ==> arrays[j] == Piece(a, size, j)
      decreases if size > 0 then |a| + size - i * size else 0
    {
      if size < 0 {
        MoreArraysNegative(i, |a|, size);
      }
      MoreArraysPositive(i, |a|, size);
      assert (i + 1) * size == i * size + size;
      arrays := arrays + [Piece(a, size, i)];
      i := i + 1;
    }
    if size > 0 {
      MoreArraysPositive(i, |a|, size);
      PieceCountIs(|a|, size, i);
    } else if size < 0 {
      MoreArraysNegative(i, |a|, size);
    }
  }

  /** A piece that starts inside the array is the slice up to the next multiple of `size` or the end. */
  lemma PieceIsSlice<T>(a: seq<T>, size: int, i: nat)
    requires size > 0 && i * size < |a|
    ensures Piece(a, size, i) == a[i * size .. Min((i + 1) * size, |a|)]
  {
    MulMono(0, i, size);
    assert (i + 1) * size == i * size + size;
  }

  /**
   * There are ⌈|a| / size⌉ pieces, and piece `i` holds the elements from
   * `i * size` up to `(i + 1) * size` or the end.
   */
  lemma SplitPieces<T>(a: seq<T>, size: int)
    requires size > 0
    ensures (|Split(a, size)| - 1) * size < |a| <= |Split(a, size)| * size
    ensures forall i :: 0 <= i < |Split(a, size)| ==>
      i * size < |a| && Split(a, size)[i] == a[i * size .. Min((i + 1) * size, |a|)]
  {
    var c := PieceCount(|a|, size);
    PieceCountBounds(|a|, size);
    forall i | 0 <= i < c
      ensures i * size < |a| && Split(a, size)[i] == a[i * size .. Min((i + 1) * size, |a|)]
    {
      MulMono(i, c - 1, size);
      PieceIsSlice(a, size, i);
    }
  }

  /** Piece `i + 1` of an array is piece `i` of what follows its first piece. */
  lemma PieceShift<T>(a: seq<T>, size: int, i: nat)
    requires size > 0
    ensures Piece(a, size, i + 1) == Piece(Skip(a, size), size, i)
  {
    MulMono(0, i, size);
    SkipSkip(a, size, i * size);
    assert size + i * size == (i + 1) * size;
  }

  /** The first piece, then the pieces of what follows it. */
  lemma SplitUnfolds<T>(a: seq<T>, size: int)
    requires size > 0 && a != []
    ensures Split(a, size) == [Take(a, size)] + Split(Skip(a, size), size)
  {
    var rest := Skip(a, size);
    var cs := [Take(a, size)] + Split(rest, size);
    assert |Split(a, size)| == |cs|;
    forall i | 0 <= i < |cs| ensures Split(a, size)[i] == cs[i] {
      if i == 0 {
        assert 0 * size == 0;
      } else {
        PieceShift(a, size, i - 1);
      }
    }
  }

  /** For a positive size `SplitToArray` and `Chunk` cut the same pieces. */
  lemma {:induction false} SplitIsChunks<T>(a: seq<T>, size: int)
    requires size > 0
    ensures Split(a, size) == Chunks(a, size)
    decreases |a|
  {
    if a != [] {
      SplitIsChunks(Skip(a, size), size);
      SplitUnfolds(a, size);
    }
  }

  // ---------------------------------------------------------------------
  // ConvertANSYSFacetListToDMesh (Utilities.cs)
  // ---------------------------------------------------------------------

  datatype Vector3d = Vector3d(x: real, y: real, z: real)

  /**
   * `BufferUtil.ToVector3d`: consecutive coordinate triples as vectors (a
   * trailing incomplete triple is dropped).
   */
  function ToVector3d(a: seq<real>): seq<Vector3d> {
    seq(|a| / 3, i requires 0 <= i < |a| / 3 => Vector3d(a[3 * i], a[3 * i + 1], a[3 * i + 2]))
  }

  /**
   * The orientation test on the triangle's corners and the first corner's
   * normal: true keeps the order (a, b, c), false swaps it to (a, c, b).
   * The source computes it in double precision; here it is a parameter.
   */
  type Orientation = (Vector3d, Vector3d, Vector3d, Vector3d) -> bool

  /** The test as it reads with exact arithmetic: the triangle's normal points along `n0`. */
  predicate AlongNormal(v0: Vector3d, v1: Vector3d, v2: Vector3d, n0: Vector3d) {
    var e1 := Vector3d(v1.x - v0.x, v1.y - v0.y, v1.z - v0.z);
    var e2 := Vector3d(v2.x - v0.x, v2.y - v0.y, v2.z - v0.z);
    var c := Vector3d(e1.y * e2.z - e1.z * e2.y, e1.z * e2.x - e1.x * e2.z, e1.x * e2.y - e1.y * e2.x);
    c.x * n0.x + c.y * n0.y + c.z * n0.z > 0.0
  }

  /** The outcome: the index list, or the exception the conversion throws. */
  datatype Conversion = Converted(indices: seq<int>) | InvalidData | IndexOutOfRange

  /** Puts decoded indices in front of a later outcome; an exception discards them. */
  function Prepend(t: seq<int>, c: Conversion): Conversion {
    if c.Converted? then Converted(t + c.indices) else c
  }

  lemma PrependTwice(a: seq<int>, b: seq<int>, c: Conversion)
    ensures Prepend(a + b, c) == Prepend(a, Prepend(b, c))
  {
    if c.Converted? {
      assert (a + b) + c.indices == a + (b + c.indices);
    }
  }

  /** The three vertex indices of the record at `j` name a position, and the first a normal. */
  predicate InRange(p: seq<Vector3d>, n: seq<Vector3d>, facet: seq<int>, j: nat)
    requires j + 3 < |facet|
  {
    && 0 <= facet[j + 1] < |p| && 0 <= facet[j + 2] < |p| && 0 <= facet[j + 3] < |p|
    && facet[j + 1] < |n|
  }

  /** The record at `j` is complete, counts three vertices and its indices are in range. */
  predicate RecordOk(p: seq<Vector3d>, n: seq<Vector3d>, facet: seq<int>, j: nat) {
    j + 3 < |facet| && facet[j] == 3 && InRange(p, n, facet, j)
  }

  /** The first `k` records from `i` on are good. */
  predicate OkUpTo(p: seq<Vector3d>, n: seq<Vector3d>, facet: seq<int>, i: nat, k: nat) {
    forall m :: 0 <= m < k ==> RecordOk(p, n, facet, i + 4 * m)
  }

  /** The output triple of a good record. */
  function Triple(p: seq<Vector3d>, n: seq<Vector3d>, facet: seq<int>, j: nat, keepsOrder: Orientation): seq<int>
    requires RecordOk(p, n, facet, j)
  {
    var a, b, c := facet[j + 1], facet[j + 2], facet[j + 3];
    if keepsOrder(p[a], p[b], p[c], n[a]) then [a, b, c] else [a, c, b]
  }

  /** Decoding the records from position `i` on. */
  function DecodeFrom(p: seq<Vector3d>, n: seq<Vector3d>, facet: seq<int>, i: nat, keepsOrder: Orientation): Conversion
    decreases |facet| - i
  {
    if |facet| <= i then Converted([])
    else if facet[i] != 3 then InvalidData
    else if !RecordOk(p, n, facet, i) then IndexOutOfRange
    else Prepend(Triple(p, n, facet, i, keepsOrder), DecodeFrom(p, n, facet, i + 4, keepsOrder))
  }

  /** What the conversion returns or throws for the given arrays. */
  function Decode(positions: seq<real>, facet: seq<int>, normals: seq<real>, keepsOrder: Orientation): Conversion {
    DecodeFrom(ToVector3d(positions), ToVector3d(normals), facet, 0, keepsOrder)
  }

  /**
   * The loop: at each record read the count; if it is 3, read the three
   * indices after it, look up the corners and the first normal, and append
   * the triple in the order the orientation test picks; otherwise throw.
   */
  method ConvertANSYSFacetListToDMesh(positions: seq<real>, facet: seq<int>, normals: seq<real>,
                                      keepsOrder: Orientation)
    returns (result: Conversion)
    ensures result == Decode(positions, facet, normals, keepsOrder)
  {
    var p := ToVector3d(positions);
    var n := ToVector3d(normals);
    var facets: seq<int> := [];
    var i := 0;
    while i < |facet|
      invariant i <= |facet|
      invariant Decode(positions, facet, normals, keepsOrder) == Prepend(facets, DecodeFrom(p, n, facet, i, keepsOrder))
      decreases |facet| - i
    {
      ghost var start := i;
      if facet[i] == 3 {
        if i + 3 >= |facet| {
          return IndexOutOfRange;
        }
        i := i + 1;
        var iv0 := facet[i];
        i := i + 1;
        var iv1 := facet[i];
        i := i + 1;
        var iv2 := facet[i];
        if !(0 <= iv0 < |p| && 0 <= iv1 < |p| && 0 <= iv2 < |p| && iv0 < |n|) {
          assert !InRange(p, n, facet, start);
          return IndexOutOfRange;
        }
        var v0, v1, v2, n0 := p[iv0], p[iv1], p[iv2], n[iv0];
        ghost var t := Triple(p, n, facet, start, keepsOrder);
        assert t == if keepsOrder(v0, v1, v2, n0) then [iv0, iv1, iv2] else [iv0, iv2, iv1];
        assert DecodeFrom(p, n, facet, start, keepsOrder) == Prepend(t, DecodeFrom(p, n, facet, start + 4, keepsOrder));
        PrependTwice(facets, t, DecodeFrom(p, n, facet, start + 4, keepsOrder));
        if keepsOrder(v0, v1, v2, n0) {
          facets := facets + [iv0, iv1, iv2];
        } else {
          facets := facets + [iv0, iv2, iv1];
        }
      } else {
        return InvalidData;
      }
      i := i + 1;
    }
    return Converted(facets);
  }

  /** The indices of every whole record from `i` on, without the counts. */
  function Indices(facet: seq<int>, i: nat): seq<int>
    decreases |facet| - i
  {
    if i + 4 <= |facet| then facet[i + 1 .. i + 4] + Indices(facet, i + 4) else []
  }

  /**
   * Output triple `k` comes from record `k`: that record is good, the first
   * index stays first, and the other two keep their order exactly when the
   * orientation test holds.
   */
  predicate TripleFrom(p: seq<Vector3d>, n: seq<Vector3d>, facet: seq<int>, i: nat, keepsOrder: Orientation,
                       out: seq<int>, k: nat)
  {
    && 3 * k + 3 <= |out| && RecordOk(p, n, facet, i + 4 * k)
    && var j, o := i + 4 * k, out[3 * k .. 3 * k + 3];
    && var a, b, c := facet[j + 1], facet[j + 2], facet[j + 3];
    && o[0] == a
    && (o == [a, b, c] || o == [a, c, b])
    && (o == [a, b, c] <== keepsOrder(p[a], p[b], p[c], n[a]))
    && (o == [a, c, b] <== !keepsOrder(p[a], p[b], p[c], n[a]))
  }

  lemma FirstTriple(p: seq<Vector3d>, n: seq<Vector3d>, facet: seq<int>, i: nat, keepsOrder: Orientation,
                    rest: seq<int>)
    requires RecordOk(p, n, facet, i)
    ensures TripleFrom(p, n, facet, i, keepsOrder, Triple(p, n, facet, i, keepsOrder) + rest, 0)
  {
    var out := Triple(p, n, facet, i, keepsOrder) + rest;
    assert out[0..3] == Triple(p, n, facet, i, keepsOrder);
  }

  lemma LaterTriple(p: seq<Vector3d>, n: seq<Vector3d>, facet: seq<int>, i: nat, keepsOrder: Orientation,
                    t: seq<int>, rest: seq<int>, k: nat)
    requires |t| == 3 && 0 < k && TripleFrom(p, n, facet, i + 4, keepsOrder, rest, k - 1)
    ensures TripleFrom(p, n, facet, i, keepsOrder, t + rest, k)
  {
    assert (t + rest)[3 * k .. 3 * k + 3] == rest[3 * (k - 1) .. 3 * (k - 1) + 3];
    assert i + 4 * k == (i + 4) + 4 * (k - 1);
  }

  /** A successful conversion consumes the facet list as 4-int records and emits 3 ints per record. */
  lemma {:induction false} DecodedTriples(p: seq<Vector3d>, n: seq<Vector3d>, facet: seq<int>, i: nat,
                                          keepsOrder: Orientation, out: seq<int>)
    requires i <= |facet| && DecodeFrom(p, n, facet, i, keepsOrder) == Converted(out)
    ensures 4 * |out| == 3 * (|facet| - i)
    ensures forall k :: 0 <= k < |out| / 3 ==> TripleFrom(p, n, facet, i, keepsOrder, out, k)
    decreases |facet| - i
  {
    if i < |facet| {
      var t := Triple(p, n, facet, i, keepsOrder);
      var rest := DecodeFrom(p, n, facet, i + 4, keepsOrder).indices;
      DecodedTriples(p, n, facet, i + 4, keepsOrder, rest);
      assert out == t + rest;
      forall k | 0 <= k < |out| / 3 ensures TripleFrom(p, n, facet, i, keepsOrder, out, k) {
        if k == 0 {
          FirstTriple(p, n, facet, i, keepsOrder, rest);
        } else {
          LaterTriple(p, n, facet, i, keepsOrder, t, rest, k);
        }
      }
    }
  }

  /** A triple holds the record's three indices. */
  lemma TripleReorders(p: seq<Vector3d>, n: seq<Vector3d>, facet: seq<int>, j: nat, keepsOrder: Orientation)
    requires RecordOk(p, n, facet, j)
    ensures multiset(Triple(p, n, facet, j, keepsOrder)) == multiset(facet[j + 1 .. j + 4])
  {
    assert facet[j + 1 .. j + 4] == [facet[j + 1], facet[j + 2], facet[j + 3]];
  }

  /** A successful conversion emits exactly the record indices, reordered within each triple. */
  lemma {:induction false} DecodedIndices(p: seq<Vector3d>, n: seq<Vector3d>, facet: seq<int>, i: nat,
                                          keepsOrder: Orientation, out: seq<int>)
    requires DecodeFrom(p, n, facet, i, keepsOrder) == Converted(out)
    ensures multiset(out) == multiset(Indices(facet, i))
    decreases |facet| - i
  {
    if i < |facet| {
      var rest := DecodeFrom(p, n, facet, i + 4, keepsOrder).indices;
      DecodedIndices(p, n, facet, i + 4, keepsOrder, rest);
      var t := Triple(p, n, facet, i, keepsOrder);
      assert out == t + rest;
      assert Indices(facet, i) == facet[i + 1 .. i + 4] + Indices(facet, i + 4);
      TripleReorders(p, n, facet, i, keepsOrder);
      assert multiset(out) == multiset(t) + multiset(rest);
    }
  }

  /** Good records all the way to the end of the list convert. */
  lemma {:induction false} DecodeAccepts(p: seq<Vector3d>, n: seq<Vector3d>, facet: seq<int>, i: nat,
                                         keepsOrder: Orientation, k: nat)
    requires i + 4 * k == |facet| && OkUpTo(p, n, facet, i, k)
    ensures DecodeFrom(p, n, facet, i, keepsOrder).Converted?
    decreases k
  {
    if k > 0 {
      assert RecordOk(p, n, facet, i + 4 * 0);
      forall m | 0 <= m < k - 1 ensures RecordOk(p, n, facet, (i + 4) + 4 * m) {
        assert RecordOk(p, n, facet, i + 4 * (m + 1));
      }
      DecodeAccepts(p, n, facet, i + 4, keepsOrder, k - 1);
    }
  }

  /** After good records, a record whose count is not 3 makes the conversion throw `InvalidDataException`. */
  lemma {:induction false} DecodeRejectsCount(p: seq<Vector3d>, n: seq<Vector3d>, facet: seq<int>, i: nat,
                                              keepsOrder: Orientation, k: nat)
    requires i + 4 * k < |facet| && OkUpTo(p, n, facet, i, k) && facet[i + 4 * k] != 3
    ensures DecodeFrom(p, n, facet, i, keepsOrder) == InvalidData
    decreases k
  {
    if k > 0 {
      assert RecordOk(p, n, facet, i + 4 * 0);
      forall m | 0 <= m < k - 1 ensures RecordOk(p, n, facet, (i + 4) + 4 * m) {
        assert RecordOk(p, n, facet, i + 4 * (m + 1));
      }
      assert (i + 4) + 4 * (k - 1) == i + 4 * k;
      DecodeRejectsCount(p, n, facet, i + 4, keepsOrder, k - 1);
    }
  }

  /**
   * After good records, a record that counts 3 but is cut short or names a
   * missing position or normal makes the conversion throw
   * `IndexOutOfRangeException`.
   */
  lemma {:induction false} DecodeRejectsIndex(p: seq<Vector3d>, n: seq<Vector3d>, facet: seq<int>, i: nat,
                                              keepsOrder: Orientation, k: nat)
    requires i + 4 * k < |facet| && OkUpTo(p, n, facet, i, k) && facet[i + 4 * k] == 3
    requires !RecordOk(p, n, facet, i + 4 * k)
    ensures DecodeFrom(p, n, facet, i, keepsOrder) == IndexOutOfRange
    decreases k
  {
    if k > 0 {
      assert RecordOk(p, n, facet, i + 4 * 0);
      forall m | 0 <= m < k - 1 ensures RecordOk(p, n, facet, (i + 4) + 4 * m) {
        assert RecordOk(p, n, facet, i + 4 * (m + 1));
      }
      assert (i + 4) + 4 * (k - 1) == i + 4 * k;
      DecodeRejectsIndex(p, n, facet, i + 4, keepsOrder, k - 1);
    }
  }
}
