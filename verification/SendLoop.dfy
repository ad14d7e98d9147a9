/**
 The loop of the NCCL sender over its two buffers, and when it succeeds: the assertion that a name is put only
 once in a bucket, as a condition on the names and sizes of the weights.
 */
module SendLoop {
  import opened Options
  import opened Seqs
  import opened Arith
  import opened Chunks
  import opened Buckets

  // ------------------------------------------------------------- which names meet in a bucket

  /** How much of the last bucket a weight of more than one bucket fills. */
  function LastChunk(n: nat, size: nat): nat
    requires 0 < size
  {
    if n % size == 0 then size else n % size
  }

  /** How full the bucket is when the sender comes to the i-th weight. */
  function Level(ws: seq<Weight>, size: nat, i: nat): (level: nat)
    requires 0 < size && i <= |ws|
    ensures level <= size
  {
    if i == 0 then 0
    else
      var before, n := Level(ws, size, i - 1), |ws[i - 1].bytes|;
      if before + n <= size then before + n else if n <= size then n else (LastBounds(n, size); LastChunk(n, size))
  }

  lemma LastBounds(n: nat, size: nat)
    requires 0 < size
    ensures 0 < LastChunk(n, size) <= size
  {
  }

  /** The end of the i-th weight and the beginning of the j-th are in the same bucket: nothing between them
      overflows it. */
  predicate Meet(ws: seq<Weight>, size: nat, i: nat, j: nat)
    requires 0 < size && i < j < |ws|
  {
    && ws[i].bytes != [] && ws[j].bytes != []
    && forall k :: i < k <= j ==> Level(ws, size, k) + |ws[k].bytes| <= size
  }

  /** No two weights of the same name meet, the first one from lo on and the second one from p on. */
  ghost predicate Apart(ws: seq<Weight>, size: nat, lo: nat, p: nat)
    requires 0 < size
  {
    forall i, j :: lo <= i < j < |ws| && p <= j && Meet(ws, size, i, j) ==> ws[i].name != ws[j].name
  }

  /** What the packing loop asserts depends on the level and the names of the bucket only. */
  ghost predicate Clean(chunks: seq<Chunk>, level: nat, names: set<string>, size: nat)
    decreases |chunks|
  {
    chunks == [] ||
    var c, rest := chunks[0], chunks[1..];
    && c.Valid() && 0 < c.meta.chunkSize <= size && c.meta.offset == None
    && if level + c.meta.chunkSize > size then Clean(rest, c.meta.chunkSize, {c.meta.name}, size)
       else c.meta.name !in names && Clean(rest, level + c.meta.chunkSize, names + {c.meta.name}, size)
  }

  function MetaNames(metas: seq<TensorMeta>): set<string> {
    set m | m in metas :: m.name
  }

  lemma {:induction false} PacksCleanlyIsClean(chunks: seq<Chunk>, b: Bucket, size: nat)
    ensures PacksCleanly(chunks, b, size) <==> Clean(chunks, |b.data|, MetaNames(b.metas), size)
    decreases |chunks|
  {
    if chunks != [] && chunks[0].Valid() {
      var c := chunks[0];
      PlaceNames(b, c);
      PlaceNames(EMPTY, c);
      assert MetaNames(EMPTY.metas) == {} && {} + {c.meta.name} == {c.meta.name};
      PacksCleanlyIsClean(chunks[1..], Place(EMPTY, c), size);
      PacksCleanlyIsClean(chunks[1..], Place(b, c), size);
    }
  }

  lemma PlaceNames(b: Bucket, c: Chunk)
    requires c.Valid()
    ensures MetaNames(Place(b, c).metas) == MetaNames(b.metas) + {c.meta.name}
    ensures |Place(b, c).data| == |b.data| + c.meta.chunkSize
    ensures NameIn(c.meta.name, b.metas) <==> c.meta.name in MetaNames(b.metas)
  {
    var m := c.meta.(offset := Some(|b.data|));
    assert forall x :: x in Place(b, c).metas <==> x in b.metas || x == m;
  }

  lemma CleanCons(c: Chunk, rest: seq<Chunk>, level: nat, names: set<string>, size: nat)
    requires c.Valid() && 0 < c.meta.chunkSize <= size && c.meta.offset == None
    ensures Clean([c] + rest, level, names, size)
            <==> if level + c.meta.chunkSize > size then Clean(rest, c.meta.chunkSize, {c.meta.name}, size)
                 else c.meta.name !in names && Clean(rest, level + c.meta.chunkSize, names + {c.meta.name}, size)
  {
    TailOfCons(c, rest);
  }

  lemma LastOfMore(n: nat, size: nat)
    requires 0 < size < n
    ensures LastChunk(n, size) == LastChunk(n - size, size)
  {
    DivUnique(n, size, (n - size) / size + 1, (n - size) % size);
  }

  lemma LastOfOne(n: nat, size: nat)
    requires 0 < n <= size
    ensures LastChunk(n, size) == n
  {
    if n < size {
      DivUnique(n, size, 0, n);
    }
  }

  /** The chunks of a weight after one that has filled a bucket. */
  lemma {:induction false} MoreChunks(w: Weight, size: nat, offset: nat, rest: seq<Chunk>)
    requires w.Valid() && 0 < size && offset < |w.bytes|
    ensures Clean(ChunksFrom(w, size, offset) + rest, size, {w.name}, size)
            <==> Clean(rest, LastChunk(|w.bytes| - offset, size), {w.name}, size)
    decreases |w.bytes| - offset
  {
    hide LastChunk, Clean;
    var left := |w.bytes| - offset;
    var n := if size <= left then size else left;
    var more := ChunksFrom(w, size, offset + n);
    NextChunk(w, size, offset, n);
    ChunkShape(w, offset, n);
    Assoc([ChunkAt(w, offset, n)], more, rest);
    CleanCons(ChunkAt(w, offset, n), more + rest, size, {w.name}, size);
    if left <= size {
      LastOfOne(left, size);
      AppendNothing(rest);
    } else {
      LastOfMore(left, size);
      MoreChunks(w, size, offset + size, rest);
    }
  }

  /** All chunks of one weight. */
  lemma WholeWeight(w: Weight, size: nat, rest: seq<Chunk>, level: nat, names: set<string>)
    requires w.Valid() && 0 < size && level <= size && (level == 0 ==> names == {})
    ensures var n := |w.bytes|;
            Clean(ChunksFrom(w, size, 0) + rest, level, names, size)
            <==> if n == 0 then Clean(rest, level, names, size)
                 else if level + n <= size then w.name !in names && Clean(rest, level + n, names + {w.name}, size)
                 else Clean(rest, if n <= size then n else LastChunk(n, size), {w.name}, size)
  {
    hide LastChunk, Clean;
    var n := |w.bytes|;
    if n == 0 {
      AppendNothing(rest);
    } else {
      var first := if size <= n then size else n;
      var c, more := ChunkAt(w, 0, first), ChunksFrom(w, size, first);
      NextChunk(w, size, 0, first);
      ChunkShape(w, 0, first);
      Assoc([c], more, rest);
      CleanCons(c, more + rest, level, names, size);
      if n <= size {
        AppendNothing(rest);
      } else {
        MoreChunks(w, size, size, rest);
        LastOfMore(n, size);
        assert names == {} ==> names + {w.name} == {w.name};
      }
    }
  }

  /** The names of the weights lo, ..., p - 1 that have bytes. */
  function NamesIn(ws: seq<Weight>, lo: nat, p: nat): set<string>
    requires p <= |ws|
  {
    set i | lo <= i < p && ws[i].bytes != [] :: ws[i].name
  }

  /** The weights from lo on, up to p, are in the bucket that is being filled. */
  ghost predicate InBucket(ws: seq<Weight>, size: nat, lo: nat, p: nat)
    requires 0 < size
  {
    lo <= p <= |ws| && forall k :: lo < k < p ==> Level(ws, size, k) + |ws[k].bytes| <= size
  }

  lemma {:induction false} EmptyLevel(ws: seq<Weight>, size: nat, p: nat)
    requires 0 < size && p <= |ws| && Level(ws, size, p) == 0
    ensures forall i :: 0 <= i < p ==> ws[i].bytes == []
  {
    if p > 0 {
      LastBounds(|ws[p - 1].bytes|, size);
      EmptyLevel(ws, size, p - 1);
    }
  }

  lemma OneNameMore(ws: seq<Weight>, lo: nat, p: nat)
    requires lo <= p < |ws|
    ensures NamesIn(ws, lo, p + 1)
            == if ws[p].bytes == [] then NamesIn(ws, lo, p) else NamesIn(ws, lo, p) + {ws[p].name}
  {
  }

  lemma JoinsBucket(ws: seq<Weight>, size: nat, lo: nat, p: nat)
    requires 0 < size && InBucket(ws, size, lo, p) && p < |ws| && Level(ws, size, p) + |ws[p].bytes| <= size
    ensures InBucket(ws, size, lo, p + 1)
    ensures Apart(ws, size, lo, p)
            <==> (ws[p].bytes == [] || ws[p].name !in NamesIn(ws, lo, p)) && Apart(ws, size, lo, p + 1)
  {
    hide Level;
    if ws[p].bytes != [] {
      forall i | lo <= i < p && ws[i].bytes != [] ensures Meet(ws, size, i, p) {
      }
    }
  }

  lemma StartsBucket(ws: seq<Weight>, size: nat, lo: nat, p: nat)
    requires 0 < size && lo <= p < |ws| && Level(ws, size, p) + |ws[p].bytes| > size
    ensures InBucket(ws, size, p, p + 1) && NamesIn(ws, p, p + 1) == {ws[p].name}
    ensures Apart(ws, size, lo, p) <==> Apart(ws, size, p, p + 1)
  {
  }

  lemma {:induction false} RestIsClean(ws: seq<Weight>, size: nat, lo: nat, p: nat)
    requires 0 < size && InBucket(ws, size, lo, p) && forall w :: w in ws ==> w.Valid()
    ensures Clean(Split(ws[p..], size), Level(ws, size, p), NamesIn(ws, lo, p), size) <==> Apart(ws, size, lo, p)
    decreases |ws| - p
  {
    hide Clean, Apart, InBucket, NamesIn, LastChunk;
    InBucketRange(ws, size, lo, p);
    if p == |ws| {
      NothingLeft(ws, size, lo, Level(ws, size, p), NamesIn(ws, lo, p));
    } else {
      var w, rest := ws[p], Split(ws[p + 1..], size);
      assert w in ws;
      Uncons(ws, p);
      if Level(ws, size, p) == 0 {
        EmptyLevel(ws, size, p);
        NoNames(ws, lo, p);
      }
      WholeWeight(w, size, rest, Level(ws, size, p), NamesIn(ws, lo, p));
      if Level(ws, size, p) + |w.bytes| <= size {
        JoinsBucket(ws, size, lo, p);
        OneNameMore(ws, lo, p);
        RestIsClean(ws, size, lo, p + 1);
      } else {
        StartsBucket(ws, size, lo, p);
        RestIsClean(ws, size, p, p + 1);
      }
    }
  }

  lemma InBucketRange(ws: seq<Weight>, size: nat, lo: nat, p: nat)
    requires 0 < size && InBucket(ws, size, lo, p)
    ensures lo <= p <= |ws|
  {
  }

  lemma NothingLeft(ws: seq<Weight>, size: nat, lo: nat, level: nat, names: set<string>)
    requires 0 < size
    ensures Clean(Split(ws[|ws|..], size), level, names, size) && Apart(ws, size, lo, |ws|)
  {
  }

  lemma NoNames(ws: seq<Weight>, lo: nat, p: nat)
    requires p <= |ws| && forall i :: 0 <= i < p ==> ws[i].bytes == []
    ensures NamesIn(ws, lo, p) == {}
  {
  }

  /** Neither assertion of the packing loop fails if and only if no two weights of the same name meet in a
      bucket, which their sizes decide. */
  lemma PacksCleanlyIff(ws: seq<Weight>, size: nat)
    requires 0 < size && forall w :: w in ws ==> w.Valid()
    ensures PacksCleanly(Split(ws, size), EMPTY, size) <==> Apart(ws, size, 0, 0)
  {
    hide Clean, Apart;
    PacksCleanlyIsClean(Split(ws, size), EMPTY, size);
    assert MetaNames([]) == {} == NamesIn(ws, 0, 0) && ws[0..] == ws;
    RestIsClean(ws, size, 0, 0);
  }

  // --------------------------------------------------------------- the send loop

  lemma PlaceStep(chunks: seq<Chunk>, b: Bucket, bucketSize: nat)
    requires chunks != [] && chunks[0].Valid() && |b.data| + chunks[0].meta.chunkSize <= bucketSize
    requires 0 < chunks[0].meta.chunkSize && chunks[0].meta.offset == None
    ensures Pack(chunks, b, bucketSize) == Pack(chunks[1..], Place(b, chunks[0]), bucketSize)
    ensures PacksCleanly(chunks, b, bucketSize)
            <==> !NameIn(chunks[0].meta.name, b.metas) && PacksCleanly(chunks[1..], Place(b, chunks[0]), bucketSize)
  {
  }

  lemma PackEnd(b: Bucket, bucketSize: nat)
    ensures Pack([], b, bucketSize) == [b] && PacksCleanly([], b, bucketSize)
  {
  }

  lemma LastBucket(buckets: seq<Bucket>, done: nat, b: Bucket)
    requires done < |buckets| && buckets[done..] == [b]
    ensures done == |buckets| - 1 && buckets[done] == b
  {
    Uncons(buckets, done);
    assert |buckets[done..]| == 1;
  }

  /** Whatever the names are, a chunk fits a bucket by itself. */
  lemma {:induction false} ChunksFit(ws: seq<Weight>, bucketSize: nat)
    requires 0 < bucketSize && forall w :: w in ws ==> w.Valid()
    ensures forall c :: c in Split(ws, bucketSize) ==>
              c.Valid() && 0 < c.meta.chunkSize <= bucketSize && c.meta.offset == None
  {
    if ws != [] {
      ChunksFit(ws[1..], bucketSize);
      ChunksFromShape(ws[0], bucketSize, 0);
      PackableFit(ChunksFrom(ws[0], bucketSize, 0), bucketSize);
    }
  }

  lemma {:induction false} PackableFit(chunks: seq<Chunk>, bucketSize: nat)
    requires Packable(chunks, bucketSize)
    ensures forall c :: c in chunks ==> c.Valid() && 0 < c.meta.chunkSize <= bucketSize && c.meta.offset == None
  {
    if chunks != [] {
      PackableFit(chunks[1..], bucketSize);
      ConsHead(chunks);
    }
  }

  /** What one broadcast delivers: the metadata, and the whole buffer it was given. */
  datatype Delivery = Delivery(metas: seq<TensorMeta>, isLast: bool, payload: seq<Byte>)

  ghost predicate Delivers(d: Delivery, b: Bucket, isLast: bool) {
    d.metas == b.metas && d.isLast == isLast && b.data <= d.payload
  }

  ghost predicate AllDeliver(sent: seq<Delivery>, buckets: seq<Bucket>) {
    |sent| <= |buckets| && forall k :: 0 <= k < |sent| ==> Delivers(sent[k], buckets[k], k == |buckets| - 1)
  }

  lemma NoneSent(chunks: seq<Chunk>, bucketSize: nat)
    ensures AllDeliver([], Pack(chunks, EMPTY, bucketSize))
  {
  }

  lemma DeliverNext(sent: seq<Delivery>, buckets: seq<Bucket>, d: Delivery)
    requires AllDeliver(sent, buckets) && |sent| < |buckets|
    requires Delivers(d, buckets[|sent|], |sent| == |buckets| - 1)
    ensures AllDeliver(sent + [d], buckets) && |sent + [d]| <= |buckets|
  {
  }

  /** send_buf[offset : offset + chunk_size] = chunk, with its place recorded in bucket_meta */
  method FillChunk(buffer: array<Byte>, metas: seq<TensorMeta>, offset: nat, c: Chunk)
    returns (metas': seq<TensorMeta>, offset': nat)
    requires c.Valid() && offset + c.meta.chunkSize <= buffer.Length
    modifies buffer
    ensures offset' == offset + c.meta.chunkSize
    ensures Bucket(metas', buffer[..offset']) == Place(Bucket(metas, old(buffer[..offset])), c)
  {
    metas' := metas + [c.meta.(offset := Some(offset))];
    WriteSlice(buffer, offset, c.data);
    offset' := offset + c.meta.chunkSize;
    assert buffer[..offset'] == old(buffer[..offset]) + c.data;
  }

  /** The send loop over two buffers. A broadcast that has been started reads its buffer at some time
      before it is waited for; here it does so at the last moment, when it is waited for, so that a
      write to the buffer in flight would show in the payload. It succeeds if and only if
      no two weights of the same name meet in a bucket. */
  method SendWeights(weights: seq<Weight>, bucketSize: nat, sendBuf: array<Byte>, recvBuf: array<Byte>)
    returns (sent: seq<Delivery>, ok: bool)
    requires 0 < bucketSize == sendBuf.Length == recvBuf.Length && sendBuf != recvBuf
    requires forall w :: w in weights ==> w.Valid()
    modifies sendBuf, recvBuf
    ensures ok <==> Apart(weights, bucketSize, 0, 0)
    ensures var buckets := Pack(Split(weights, bucketSize), EMPTY, bucketSize);
            AllDeliver(sent, buckets) && (ok ==> |sent| == |buckets|)
  {
    hide Apart, PacksCleanly, Pack, Place, Split, Overwrite, NameIn, AllDeliver;
    var chunks := SplitWeightChunks(weights, bucketSize);
    NoneSent(chunks, bucketSize);
    PacksCleanlyIff(weights, bucketSize);
    ChunksFit(weights, bucketSize);
    ghost var buckets := Pack(chunks, EMPTY, bucketSize);
    var filling, other := sendBuf, recvBuf;
    var metas: seq<TensorMeta>, offset := [], 0;
    var inFlight, flying := false, [];  // broadcast_op is not None, and its metadata
    sent, ok := [], true;
    ghost var done := 0;  // broadcasts started
    var i := 0;
    while i < |chunks|
      invariant 0 <= i <= |chunks| && ok
      invariant (filling == sendBuf && other == recvBuf) || (filling == recvBuf && other == sendBuf)
      invariant 0 <= offset <= bucketSize
      invariant PacksCleanly(chunks, EMPTY, bucketSize)
                <==> PacksCleanly(chunks[i..], Bucket(metas, filling[..offset]), bucketSize)
      invariant done == |sent| + (if inFlight then 1 else 0) < |buckets|
      invariant buckets[done..] == Pack(chunks[i..], Bucket(metas, filling[..offset]), bucketSize)
      invariant AllDeliver(sent, buckets)
      invariant inFlight ==> Delivers(Delivery(flying, false, other[..]), buckets[|sent|], false)
    {
      var c := chunks[i];
      assert chunks[i..][1..] == chunks[i + 1..] && c == chunks[i..][0] && c in chunks;
      if offset + c.meta.chunkSize > bucketSize {
        FlushStep(buckets, done, chunks[i..], Bucket(metas, filling[..offset]), bucketSize);
        if inFlight {
          DeliverNext(sent, buckets, Delivery(flying, false, other[..]));
          sent := sent + [Delivery(flying, false, other[..])];
        }
        inFlight, flying, done := true, metas, done + 1;
        filling, other := other, filling;
        metas, offset := [], 0;
        assert filling[..0] == [];
      }
      PlaceStep(chunks[i..], Bucket(metas, filling[..offset]), bucketSize);
      if offset + c.meta.chunkSize > bucketSize || NameIn(c.meta.name, metas) {
        ok := false;
        return;
      }
      ghost var inOther := other[..];
      metas, offset := FillChunk(filling, metas, offset, c);
      assert other[..] == inOther;
      i := i + 1;
    }
    assert chunks[i..] == [];
    PackEnd(Bucket(metas, filling[..offset]), bucketSize);
    LastBucket(buckets, done, Bucket(metas, filling[..offset]));
    if inFlight {
      DeliverNext(sent, buckets, Delivery(flying, false, other[..]));
      sent := sent + [Delivery(flying, false, other[..])];
    }
    DeliverNext(sent, buckets, Delivery(metas, true, filling[..]));
    sent := sent + [Delivery(metas, true, filling[..])];
  }
}
