/**
 Packing chunks into buckets, the way the NCCL and the NIXL senders do, and slicing a received
 bucket back into its chunks.
 */
module Buckets {
  import opened Options
  import opened Seqs
  import opened Arith
  import opened Chunks

  /** bucket_meta in insertion order, and the bytes [0, offset) of the buffer. */
  datatype Bucket = Bucket(metas: seq<TensorMeta>, data: seq<Byte>)

  const EMPTY := Bucket([], [])

  function Place(b: Bucket, c: Chunk): Bucket {
    Bucket(b.metas + [c.meta.(offset := Some(|b.data|))], b.data + c.data)
  }

  /** The buckets a sender makes out of the chunks that remain, with bucket b being filled. */
  function Pack(chunks: seq<Chunk>, b: Bucket, bucketSize: nat): (r: seq<Bucket>)
    ensures |r| > 0
    decreases |chunks|
  {
    if chunks == [] then [b]
    else if |b.data| + chunks[0].meta.chunkSize > bucketSize then
      [b] + Pack(chunks[1..], Place(EMPTY, chunks[0]), bucketSize)
    else
      Pack(chunks[1..], Place(b, chunks[0]), bucketSize)
  }

  // ------------------------------------------------------ properties of the packing

  /** Where the extent after the i-th one starts, or the bytes end. */
  function NextStart(b: Bucket, i: nat): nat {
    if i + 1 < |b.metas| then b.metas[i + 1].offset.GetOr(0) else |b.data|
  }

  /** The extents in the metadata tile [0, |data|). */
  ghost predicate Tiled(b: Bucket) {
    && (|b.metas| == 0 ==> |b.data| == 0)
    && (|b.metas| > 0 ==> b.metas[0].offset == Some(0))
    && (forall i :: 0 <= i < |b.metas| ==>
          && b.metas[i].offset.Some?
          && b.metas[i].offset.value + b.metas[i].chunkSize <= |b.data|
          && b.metas[i].offset.value + b.metas[i].chunkSize == NextStart(b, i))
  }

  ghost predicate NamesDistinct(b: Bucket) {
    forall i, j :: 0 <= i < j < |b.metas| ==> b.metas[i].name != b.metas[j].name
  }

  predicate NameIn(name: string, metas: seq<TensorMeta>) {
    exists m :: m in metas && m.name == name
  }

  /** Neither assertion of the packing loop fails: every chunk fits the bucket it is put in, and no
      name is put twice in a bucket. */
  ghost predicate PacksCleanly(chunks: seq<Chunk>, b: Bucket, bucketSize: nat)
    decreases |chunks|
  {
    chunks == [] ||
    var c, rest := chunks[0], chunks[1..];
    && c.Valid() && 0 < c.meta.chunkSize <= bucketSize && c.meta.offset == None
    && if |b.data| + c.meta.chunkSize > bucketSize then PacksCleanly(rest, Place(EMPTY, c), bucketSize)
       else !NameIn(c.meta.name, b.metas) && PacksCleanly(rest, Place(b, c), bucketSize)
  }

  /** No later chunk shares its name with one that is in the bucket, unless the bucket is full. */
  ghost predicate NoClash(b: Bucket, chunks: seq<Chunk>, bucketSize: nat) {
    forall m, c :: m in b.metas && c in chunks && m.name == c.meta.name ==> |b.data| == bucketSize
  }

  lemma PlaceNoClash(chunks: seq<Chunk>, b: Bucket, bucketSize: nat)
    requires chunks != [] && Packable(chunks, bucketSize) && NoClash(b, chunks, bucketSize)
    requires |b.data| + chunks[0].meta.chunkSize <= bucketSize
    ensures !NameIn(chunks[0].meta.name, b.metas)
    ensures NoClash(Place(b, chunks[0]), chunks[1..], bucketSize)
  {
    assert chunks[0] in chunks && forall d :: d in chunks[1..] ==> d in chunks;
  }

  /** The chunks that come out of splitting distinctly named weights pack cleanly. */
  lemma {:induction false} PackableAsserts(chunks: seq<Chunk>, b: Bucket, bucketSize: nat)
    requires Packable(chunks, bucketSize) && NoClash(b, chunks, bucketSize)
    ensures PacksCleanly(chunks, b, bucketSize)
    decreases |chunks|
  {
    if chunks != [] {
      var c := chunks[0];
      if |b.data| + c.meta.chunkSize > bucketSize {
        PlaceNoClash(chunks, EMPTY, bucketSize);
        PackableAsserts(chunks[1..], Place(EMPTY, c), bucketSize);
      } else {
        PlaceNoClash(chunks, b, bucketSize);
        PackableAsserts(chunks[1..], Place(b, c), bucketSize);
      }
    }
  }

  lemma SplitPacksCleanly(ws: seq<Weight>, bucketSize: nat)
    requires 0 < bucketSize && (forall w :: w in ws ==> w.Valid()) && DistinctNames(ws)
    ensures PacksCleanly(Split(ws, bucketSize), EMPTY, bucketSize)
  {
    SplitIsPackable(ws, bucketSize);
    PackableAsserts(Split(ws, bucketSize), EMPTY, bucketSize);
  }

  lemma PlaceKeepsTiled(b: Bucket, c: Chunk)
    requires Tiled(b) && c.Valid()
    ensures Tiled(Place(b, c))
  {
    var b', n := Place(b, c), |b.metas|;
    assert b'.metas[n].offset == Some(|b.data|);
    forall i | 0 <= i < n
      ensures b'.metas[i] == b.metas[i] && NextStart(b', i) == NextStart(b, i)
    {
    }
  }

  lemma PlaceKeepsNames(b: Bucket, c: Chunk)
    requires NamesDistinct(b) && !NameIn(c.meta.name, b.metas)
    ensures NamesDistinct(Place(b, c))
  {
    assert forall i :: 0 <= i < |b.metas| ==> b.metas[i] in b.metas;
  }

  /** In every bucket the extents tile the bytes that were written, the bytes fit, and the names are
      distinct. */
  ghost predicate WellPacked(buckets: seq<Bucket>, bucketSize: nat) {
    forall b :: b in buckets ==> Tiled(b) && NamesDistinct(b) && |b.data| <= bucketSize
  }

  lemma {:induction false} PackIsWellPacked(chunks: seq<Chunk>, b: Bucket, bucketSize: nat)
    requires PacksCleanly(chunks, b, bucketSize) && Tiled(b) && NamesDistinct(b) && |b.data| <= bucketSize
    ensures WellPacked(Pack(chunks, b, bucketSize), bucketSize)
    decreases |chunks|
  {
    if chunks != [] {
      var c := chunks[0];
      if |b.data| + c.meta.chunkSize > bucketSize {
        PlaceKeepsTiled(EMPTY, c);
        PackIsWellPacked(chunks[1..], Place(EMPTY, c), bucketSize);
      } else {
        PlaceKeepsTiled(b, c);
        PlaceKeepsNames(b, c);
        PackIsWellPacked(chunks[1..], Place(b, c), bucketSize);
      }
    }
  }

  /** A bucket that is followed by another one could not have taken the first chunk of that one. */
  lemma {:induction false} NeighboursOverflow(chunks: seq<Chunk>, b: Bucket, bucketSize: nat)
    requires PacksCleanly(chunks, b, bucketSize) && |b.data| <= bucketSize
    ensures var r := Pack(chunks, b, bucketSize);
            && |r[0].data| >= |b.data|
            && (forall k :: 0 <= k < |r| - 1 ==> |r[k].data| + |r[k + 1].data| > bucketSize && r[k].data != [])
    decreases |chunks|
  {
    if chunks != [] {
      var c := chunks[0];
      if |b.data| + c.meta.chunkSize > bucketSize {
        NeighboursOverflow(chunks[1..], Place(EMPTY, c), bucketSize);
        assert |Place(EMPTY, c).data| == c.meta.chunkSize;
      } else {
        NeighboursOverflow(chunks[1..], Place(b, c), bucketSize);
      }
    }
  }

  /** Every bucket but the first begins with a chunk that the bucket before it could not take. */
  predicate Greedy(buckets: seq<Bucket>, bucketSize: nat) {
    |buckets| <= 1 ||
    var a, b := buckets[0], buckets[1];
    b.metas != [] && |a.data| + b.metas[0].chunkSize > bucketSize && Greedy(buckets[1..], bucketSize)
  }

  lemma GreedyCons(b: Bucket, rest: seq<Bucket>, bucketSize: nat)
    requires rest != [] && Greedy(rest, bucketSize)
    requires rest[0].metas != [] && |b.data| + rest[0].metas[0].chunkSize > bucketSize
    ensures Greedy([b] + rest, bucketSize)
  {
    TailOfCons(b, rest);
  }

  /** A bucket is closed only when the next chunk does not fit, and that chunk then opens the next one. */
  lemma {:induction false} PackIsGreedy(chunks: seq<Chunk>, b: Bucket, bucketSize: nat)
    ensures b.metas <= Pack(chunks, b, bucketSize)[0].metas
    ensures Greedy(Pack(chunks, b, bucketSize), bucketSize)
    decreases |chunks|
  {
    hide Greedy;
    if chunks != [] {
      var c := chunks[0];
      if |b.data| + c.meta.chunkSize > bucketSize {
        var rest := Pack(chunks[1..], Place(EMPTY, c), bucketSize);
        PackIsGreedy(chunks[1..], Place(EMPTY, c), bucketSize);
        assert Place(EMPTY, c).metas == [c.meta.(offset := Some(0))];
        assert rest[0].metas[0] == c.meta.(offset := Some(0));
        GreedyCons(b, rest, bucketSize);
      } else {
        PackIsGreedy(chunks[1..], Place(b, c), bucketSize);
      }
    } else {
      OneIsGreedy(b, bucketSize);
    }
  }

  lemma OneIsGreedy(b: Bucket, bucketSize: nat)
    ensures Greedy([b], bucketSize)
  {
  }

  function TotalBytes(chunks: seq<Chunk>): nat {
    if chunks == [] then 0 else |chunks[0].data| + TotalBytes(chunks[1..])
  }

  function TotalData(buckets: seq<Bucket>): nat {
    if buckets == [] then 0 else |buckets[0].data| + TotalData(buckets[1..])
  }

  lemma {:induction false} PackConservesBytes(chunks: seq<Chunk>, b: Bucket, bucketSize: nat)
    ensures TotalData(Pack(chunks, b, bucketSize)) == |b.data| + TotalBytes(chunks)
    decreases |chunks|
  {
    if chunks == [] {
      assert TotalData([b]) == |b.data| + TotalData([]);
    } else {
      PackConservesBytes(chunks[1..], Place(b, chunks[0]), bucketSize);
      PackConservesBytes(chunks[1..], Place(EMPTY, chunks[0]), bucketSize);
    }
  }

  lemma {:induction false} PairsAddUp(buckets: seq<Bucket>, bucketSize: nat)
    requires forall k :: 0 <= k < |buckets| - 1 ==> |buckets[k].data| + |buckets[k + 1].data| > bucketSize
    ensures TotalData(buckets) >= |buckets| / 2 * (bucketSize + 1)
    decreases |buckets|
  {
    if |buckets| >= 2 {
      var rest := buckets[2..];
      assert buckets[1..][1..] == rest;
      assert forall k :: 0 <= k < |rest| ==> rest[k] == buckets[k + 2];
      forall k | 0 <= k < |rest| - 1
        ensures |rest[k].data| + |rest[k + 1].data| > bucketSize
      {
        assert |buckets[k + 2].data| + |buckets[k + 2 + 1].data| > bucketSize;
      }
      PairsAddUp(rest, bucketSize);
      assert |buckets| / 2 == |rest| / 2 + 1;
      assert (|rest| / 2 + 1) * (bucketSize + 1) == |rest| / 2 * (bucketSize + 1) + (bucketSize + 1);
    }
  }

  lemma CeilDivAbove(a: nat, b: nat, q: nat)
    requires 0 < b && a > q * b
    ensures CeilDiv(a, b) >= q + 1
  {
    CeilDivBounds(a, b);
    var c := CeilDiv(a, b);
    assert (c - q) * b == c * b - q * b > 0;
  }

  /** At most max(1, 2 * ceil(total / bucketSize) - 1) buckets are sent, and only the last can be empty. */
  lemma BucketCount(chunks: seq<Chunk>, bucketSize: nat)
    requires 0 < bucketSize && PacksCleanly(chunks, EMPTY, bucketSize)
    ensures var r := Pack(chunks, EMPTY, bucketSize);
            && (|r| == 1 || |r| <= 2 * CeilDiv(TotalBytes(chunks), bucketSize) - 1)
            && (forall k :: 0 <= k < |r| - 1 ==> r[k].data != [])
  {
    var r := Pack(chunks, EMPTY, bucketSize);
    NeighboursOverflow(chunks, EMPTY, bucketSize);
    PackConservesBytes(chunks, EMPTY, bucketSize);
    PairsAddUp(r, bucketSize);
    if |r| >= 2 {
      var q := |r| / 2;
      assert q * (bucketSize + 1) == q * bucketSize + q;
      CeilDivAbove(TotalBytes(chunks), bucketSize, q);
    }
  }

  // ------------------------------------------------------------------- unpacking

  /** buffer[lo : lo + size], which stops at the end of the buffer */
  function Slice(buffer: seq<Byte>, lo: nat, size: nat): seq<Byte> {
    if lo + size <= |buffer| then buffer[lo..lo + size]
    else if lo <= |buffer| then buffer[lo..] else []
  }

  function UnpackOne(m: TensorMeta, buffer: seq<Byte>): Chunk {
    Chunk(m, Slice(buffer, m.offset.GetOr(0), m.chunkSize))
  }

  /** The chunks a receiver yields out of a buffer, following the metadata. */
  function Unpack(metas: seq<TensorMeta>, buffer: seq<Byte>): seq<Chunk> {
    seq(|metas|, i requires 0 <= i < |metas| => UnpackOne(metas[i], buffer))
  }

  function UnpackAll(buckets: seq<Bucket>): seq<Chunk> {
    if buckets == [] then []
    else UnpackAll(buckets[..|buckets| - 1]) + Unpack(buckets[|buckets| - 1].metas, buckets[|buckets| - 1].data)
  }

  /** A buffer that starts with the bytes of the bucket gives the same chunks, whatever follows. */
  lemma UnpackLooksAtPrefix(b: Bucket, buffer: seq<Byte>, j: nat)
    requires Tiled(b) && b.data <= buffer && j < |b.metas|
    ensures UnpackOne(b.metas[j], buffer) == Unpack(b.metas, b.data)[j]
  {
    var lo, size := b.metas[j].offset.GetOr(0), b.metas[j].chunkSize;
    assert buffer[..|b.data|] == b.data;
    assert buffer[lo..lo + size] == buffer[..|b.data|][lo..lo + size];
  }

  lemma UnpackPlace(b: Bucket, c: Chunk)
    requires Tiled(b) && c.Valid() && c.meta.offset == None
    ensures Unplaced(Unpack(Place(b, c).metas, Place(b, c).data)) == Unplaced(Unpack(b.metas, b.data)) + [c]
  {
    var b' := Place(b, c);
    forall i | 0 <= i < |b.metas|
      ensures UnpackOne(b'.metas[i], b'.data) == UnpackOne(b.metas[i], b.data)
    {
      UnpackLooksAtPrefix(b, b'.data, i);
    }
    assert UnpackOne(b'.metas[|b.metas|], b'.data).data == c.data;
  }

  lemma UnplacedAdds(a: seq<Chunk>, b: seq<Chunk>)
    ensures Unplaced(a + b) == Unplaced(a) + Unplaced(b)
  {
  }

  lemma {:induction false} UnpackAllCons(b: Bucket, rest: seq<Bucket>)
    ensures UnpackAll([b] + rest) == Unpack(b.metas, b.data) + UnpackAll(rest)
    decreases |rest|
  {
    hide Unpack;
    var all := [b] + rest;
    if rest == [] {
      AppendNothing([b]);
      AppendNothing(Unpack(b.metas, b.data));
      assert all[..0] == [];
    } else {
      var n := |rest| - 1;
      var last := rest[n];
      assert all[..|all| - 1] == [b] + rest[..n] && all[|all| - 1] == last;
      UnpackAllCons(b, rest[..n]);
      Assoc(Unpack(b.metas, b.data), UnpackAll(rest[..n]), Unpack(last.metas, last.data));
    }
  }

  /** Slicing every bucket gives back the chunks that were packed, in order and with their bytes. */
  lemma {:induction false} UnpackInvertsPack(chunks: seq<Chunk>, b: Bucket, bucketSize: nat)
    requires PacksCleanly(chunks, b, bucketSize) && Tiled(b)
    ensures Unplaced(UnpackAll(Pack(chunks, b, bucketSize))) == Unplaced(Unpack(b.metas, b.data)) + chunks
    decreases |chunks|
  {
    hide Tiled, Unpack, Place, UnpackAll;
    if chunks == [] {
      UnpackAllCons(b, []);
      UnpackAllOfNothing();
      AppendNothing([b]);
      AppendNothing(Unpack(b.metas, b.data));
      AppendNothing(Unplaced(Unpack(b.metas, b.data)));
    } else {
      var c := chunks[0];
      ConsHead(chunks);
      if |b.data| + c.meta.chunkSize > bucketSize {
        EmptyIsTiled();
        PlaceKeepsTiled(EMPTY, c);
        var rest := Pack(chunks[1..], Place(EMPTY, c), bucketSize);
        UnpackInvertsPack(chunks[1..], Place(EMPTY, c), bucketSize);
        UnpackPlace(EMPTY, c);
        AppendNothing([c]);
        UnpackAllCons(b, rest);
        UnplacedAdds(Unpack(b.metas, b.data), UnpackAll(rest));
      } else {
        PlaceKeepsTiled(b, c);
        UnpackInvertsPack(chunks[1..], Place(b, c), bucketSize);
        UnpackPlace(b, c);
        Assoc(Unplaced(Unpack(b.metas, b.data)), [c], chunks[1..]);
      }
    }
  }

  lemma ConsHead(chunks: seq<Chunk>)
    requires chunks != []
    ensures chunks == [chunks[0]] + chunks[1..]
  {
  }

  lemma UnpackAllOfNothing()
    ensures UnpackAll([]) == []
  {
  }

  lemma EmptyIsTiled()
    ensures Tiled(EMPTY) && Unplaced(Unpack(EMPTY.metas, EMPTY.data)) == []
  {
  }

  // ------------------------------------------------------- what a receiver has yielded

  /** Everything out of the first h buckets, and the first j chunks of the next one. */
  function Yielded(sched: seq<Bucket>, h: nat, j: nat): seq<Chunk>
    requires h < |sched| && j <= |sched[h].metas|
  {
    UnpackAll(sched[..h]) + Unpack(sched[h].metas, sched[h].data)[..j]
  }

  lemma YieldedAtStart(sched: seq<Bucket>)
    requires |sched| > 0
    ensures Yielded(sched, 0, 0) == []
  {
    assert sched[..0] == [];
  }

  lemma YieldedOneMore(sched: seq<Bucket>, h: nat, j: nat)
    requires h < |sched| && j < |sched[h].metas|
    ensures Yielded(sched, h, j + 1) == Yielded(sched, h, j) + [Unpack(sched[h].metas, sched[h].data)[j]]
  {
    var u := Unpack(sched[h].metas, sched[h].data);
    TakeOneMore(u, j);
    Assoc(UnpackAll(sched[..h]), u[..j], [u[j]]);
  }

  lemma YieldedWhole(sched: seq<Bucket>, h: nat)
    requires h < |sched|
    ensures Yielded(sched, h, |sched[h].metas|) == UnpackAll(sched[..h + 1])
    ensures h + 1 < |sched| ==> Yielded(sched, h + 1, 0) == UnpackAll(sched[..h + 1])
    ensures h + 1 == |sched| ==> UnpackAll(sched[..h + 1]) == UnpackAll(sched)
  {
    var u := Unpack(sched[h].metas, sched[h].data);
    assert u[..|sched[h].metas|] == u;
    assert sched[..h + 1][..h] == sched[..h] && sched[..h + 1][h] == sched[h];
    if h + 1 < |sched| {
      assert Unpack(sched[h + 1].metas, sched[h + 1].data)[..0] == [];
      AppendNothing(UnpackAll(sched[..h + 1]));
    } else {
      assert sched[..h + 1] == sched;
    }
  }

  lemma PrefixOfBoth(a: seq<Chunk>, u: seq<Chunk>, j: nat, all: seq<Chunk>)
    requires j <= |u| && a + u <= all
    ensures a + u[..j] <= all
  {
  }

  lemma {:induction false} YieldedIsPrefix(sched: seq<Bucket>, h: nat, j: nat)
    requires h < |sched| && j <= |sched[h].metas|
    ensures Yielded(sched, h, j) <= UnpackAll(sched)
    decreases |sched| - h
  {
    var u := Unpack(sched[h].metas, sched[h].data);
    YieldedWhole(sched, h);
    assert u[..|sched[h].metas|] == u;
    if h + 1 < |sched| {
      YieldedIsPrefix(sched, h + 1, 0);
    }
    PrefixOfBoth(UnpackAll(sched[..h]), u, j, UnpackAll(sched));
  }

  lemma UnplacedPrefix(a: seq<Chunk>, b: seq<Chunk>)
    requires a <= b
    ensures Unplaced(a) <= Unplaced(b)
  {
  }

  lemma YieldedAreSent(chunks: seq<Chunk>, bucketSize: nat)
    requires PacksCleanly(chunks, EMPTY, bucketSize)
    ensures Unplaced(UnpackAll(Pack(chunks, EMPTY, bucketSize))) == chunks
  {
    EmptyIsTiled();
    UnpackInvertsPack(chunks, EMPTY, bucketSize);
    AppendNothing(chunks);
  }

  lemma FlushStep(buckets: seq<Bucket>, done: nat, chunks: seq<Chunk>, b: Bucket, bucketSize: nat)
    requires done < |buckets| && buckets[done..] == Pack(chunks, b, bucketSize)
    requires chunks != [] && chunks[0].meta.chunkSize <= bucketSize < |b.data| + chunks[0].meta.chunkSize
    ensures buckets[done] == b && done + 1 < |buckets|
    ensures buckets[done + 1..] == Pack(chunks, EMPTY, bucketSize)
    ensures PacksCleanly(chunks, b, bucketSize) <==> PacksCleanly(chunks, EMPTY, bucketSize)
  {
    Uncons(buckets, done);
    TailOfCons(b, Pack(chunks[1..], Place(EMPTY, chunks[0]), bucketSize));
  }

  /** Split, pack, unpack and merge give back the weights, for every bucket size. */
  lemma TransferRoundTrip(ws: seq<Weight>, bucketSize: nat)
    requires 0 < bucketSize && (forall w :: w in ws ==> w.Valid()) && DistinctNames(ws)
    ensures MergeFrom(NoPending, UnpackAll(Pack(Split(ws, bucketSize), EMPTY, bucketSize)), bucketSize)
            == Merged(NonEmpty(ws), None)
  {
    SplitPacksCleanly(ws, bucketSize);
    YieldedAreSent(Split(ws, bucketSize), bucketSize);
    MergeIgnoresPlacement(NoPending, UnpackAll(Pack(Split(ws, bucketSize), EMPTY, bucketSize)), bucketSize);
    MergeInvertsSplit(ws, bucketSize);
  }

  // ---------------------------------------------------------------------- measures

  function B2N(b: bool): nat {
    if b then 1 else 0
  }

  /** width exceeds what a bucket can add to the work that is left at one rank. */
  ghost predicate WideEnough(sched: seq<Bucket>, size: nat, width: nat) {
    forall b :: b in sched ==> |b.metas| + size + 12 <= width
  }

  lemma {:induction false} SomeWidth(sched: seq<Bucket>, size: nat) returns (width: nat)
    ensures WideEnough(sched, size, width)
  {
    if sched == [] {
      width := 0;
    } else {
      var w := SomeWidth(sched[1..], size);
      var first := |sched[0].metas| + size + 12;
      width := if w <= first then first else w;
      assert forall b :: b in sched ==> b == sched[0] || b in sched[1..];
    }
  }
}
