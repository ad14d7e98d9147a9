/**
 Cutting weight tensors into chunks no larger than a bucket, and rebuilding the tensors
 from the chunks on the receiving side.

 A generator of the program becomes a method that returns everything it yields, in order.
 An assertion that fails ends the generator: the method then returns what had been yielded
 before it, together with the assertion that failed.
 */
module Chunks {
  import opened Options
  import opened Seqs

  type Byte = b: int | 0 <= b < 256

  datatype DType = DType(tag: string, itemsize: nat)

  /** The number of elements of a tensor of the given shape; a scalar has one. */
  function Numel(shape: seq<nat>): nat {
    if shape == [] then 1 else shape[0] * Numel(shape[1..])
  }

  function NBytes(shape: seq<nat>, dtype: DType): nat {
    Numel(shape) * dtype.itemsize
  }

  /** A named tensor, as the flat bytes of its contiguous storage. */
  datatype Weight = Weight(name: string, shape: seq<nat>, dtype: DType, bytes: seq<Byte>) {
    ghost predicate Valid() {
      |bytes| == NBytes(shape, dtype)
    }
  }

  datatype TensorMeta = TensorMeta(
    name: string, shape: seq<nat>, dtype: DType,
    chunkOffset: nat, chunkSize: nat, offset: Option<nat>)

  datatype Chunk = Chunk(meta: TensorMeta, data: seq<Byte>) {
    /** What a chunk's metadata says about the bytes that travel with it. */
    ghost predicate Valid() {
      && |data| == meta.chunkSize
      && meta.chunkOffset + meta.chunkSize <= NBytes(meta.shape, meta.dtype)
    }
  }

  // ---------------------------------------------------------------- splitting

  function ChunkAt(w: Weight, offset: nat, size: nat): Chunk
    requires offset + size <= |w.bytes|
  {
    Chunk(TensorMeta(w.name, w.shape, w.dtype, offset, size, None), w.bytes[offset..offset + size])
  }

  /** The chunks of one weight from a given byte on. */
  function ChunksFrom(w: Weight, bucketSize: nat, offset: nat): seq<Chunk>
    requires 0 < bucketSize && offset <= |w.bytes|
    decreases |w.bytes| - offset
  {
    if offset == |w.bytes| then []
    else
      var size := if bucketSize <= |w.bytes| - offset then bucketSize else |w.bytes| - offset;
      [ChunkAt(w, offset, size)] + ChunksFrom(w, bucketSize, offset + size)
  }

  function Split(ws: seq<Weight>, bucketSize: nat): seq<Chunk>
    requires 0 < bucketSize
  {
    if ws == [] then [] else ChunksFrom(ws[0], bucketSize, 0) + Split(ws[1..], bucketSize)
  }

  /** split_weight_chunks: the loop does not end for a bucket of size zero. */
  method SplitWeightChunks(weights: seq<Weight>, bucketSize: nat) returns (chunks: seq<Chunk>)
    requires 0 < bucketSize
    ensures chunks == Split(weights, bucketSize)
  {
    chunks := [];
    var i := 0;
    assert weights[0..] == weights;
    AppendNothing(Split(weights, bucketSize));
    while i < |weights|
      invariant 0 <= i <= |weights|
      invariant chunks + Split(weights[i..], bucketSize) == Split(weights, bucketSize)
    {
      var w := weights[i];
      ghost var rest := Split(weights[i + 1..], bucketSize);
      Uncons(weights, i);
      Assoc(chunks, ChunksFrom(w, bucketSize, 0), rest);
      var cs := SplitWeight(w, bucketSize);
      chunks := chunks + cs;
      i := i + 1;
    }
    AppendNothing(chunks);
  }

  lemma NextChunk(w: Weight, bucketSize: nat, offset: nat, size: nat)
    requires 0 < bucketSize && offset < |w.bytes|
    requires size == if bucketSize <= |w.bytes| - offset then bucketSize else |w.bytes| - offset
    ensures ChunksFrom(w, bucketSize, offset)
            == [ChunkAt(w, offset, size)] + ChunksFrom(w, bucketSize, offset + size)
  {
  }

  /** The inner loop, over one weight. */
  method SplitWeight(w: Weight, bucketSize: nat) returns (chunks: seq<Chunk>)
    requires 0 < bucketSize
    ensures chunks == ChunksFrom(w, bucketSize, 0)
  {
    chunks := [];
    var chunkOffset := 0;
    ghost var rest := ChunksFrom(w, bucketSize, 0);
    ghost var all := rest;
    AppendNothing(rest);
    assert ChunksFrom(w, bucketSize, |w.bytes|) == [];
    hide ChunksFrom, ChunkAt;
    while chunkOffset < |w.bytes|
      invariant 0 <= chunkOffset <= |w.bytes|
      invariant rest == ChunksFrom(w, bucketSize, chunkOffset) && chunks + rest == all
    {
      var chunkSize := if bucketSize <= |w.bytes| - chunkOffset then bucketSize else |w.bytes| - chunkOffset;
      var c := ChunkAt(w, chunkOffset, chunkSize);
      NextChunk(w, bucketSize, chunkOffset, chunkSize);
      rest := ChunksFrom(w, bucketSize, chunkOffset + chunkSize);
      Assoc(chunks, [c], rest);
      chunks := chunks + [c];
      chunkOffset := chunkOffset + chunkSize;
    }
    AppendNothing(chunks);
  }

  /** The properties of a chunk stream that the packing loop relies on: every chunk is non-empty and
      fits a bucket, and one that a chunk of the same name follows fills a bucket by itself. */
  ghost predicate Packable(chunks: seq<Chunk>, bucketSize: nat)
    decreases |chunks|
  {
    chunks == [] ||
    var c := chunks[0];
    && c.Valid() && 0 < c.meta.chunkSize <= bucketSize && c.meta.offset == None
    && (forall d :: d in chunks[1..] && d.meta.name == c.meta.name ==>
          c.meta.chunkSize == bucketSize && d.meta.shape == c.meta.shape && d.meta.dtype == c.meta.dtype)
    && Packable(chunks[1..], bucketSize)
  }

  predicate DistinctNames(ws: seq<Weight>) {
    forall i, j :: 0 <= i < j < |ws| ==> ws[i].name != ws[j].name
  }

  lemma ChunkShape(w: Weight, offset: nat, size: nat)
    requires w.Valid() && 0 < size && offset + size <= |w.bytes|
    ensures var c := ChunkAt(w, offset, size);
            && c.Valid() && c.meta.chunkSize == size && c.meta.offset == None
            && c.meta.name == w.name && c.meta.shape == w.shape && c.meta.dtype == w.dtype
  {
  }

  lemma ChunksFromShape(w: Weight, bucketSize: nat, offset: nat)
    requires w.Valid() && 0 < bucketSize && offset <= |w.bytes|
    ensures Packable(ChunksFrom(w, bucketSize, offset), bucketSize)
    ensures AllOf(w, ChunksFrom(w, bucketSize, offset))
  {
    ChunksOfWeight(w, bucketSize, offset);
    ChunksArePackable(w, bucketSize, offset);
  }

  /** The chunks are all of this weight. */
  ghost predicate AllOf(w: Weight, chunks: seq<Chunk>) {
    forall c :: c in chunks ==> c.meta.name == w.name && c.meta.shape == w.shape && c.meta.dtype == w.dtype
  }

  lemma AllOfCons(w: Weight, c: Chunk, rest: seq<Chunk>)
    requires c.meta.name == w.name && c.meta.shape == w.shape && c.meta.dtype == w.dtype && AllOf(w, rest)
    ensures AllOf(w, [c] + rest)
  {
  }

  lemma {:induction false} ChunksOfWeight(w: Weight, bucketSize: nat, offset: nat)
    requires w.Valid() && 0 < bucketSize && offset <= |w.bytes|
    ensures AllOf(w, ChunksFrom(w, bucketSize, offset))
    decreases |w.bytes| - offset
  {
    if offset < |w.bytes| {
      var size := if bucketSize <= |w.bytes| - offset then bucketSize else |w.bytes| - offset;
      hide AllOf, ChunkAt, NBytes;
      ChunksOfWeight(w, bucketSize, offset + size);
      ChunkShape(w, offset, size);
      NextChunk(w, bucketSize, offset, size);
      hide ChunksFrom;
      AllOfCons(w, ChunkAt(w, offset, size), ChunksFrom(w, bucketSize, offset + size));
    }
  }

  lemma PackableOfWeight(w: Weight, c: Chunk, rest: seq<Chunk>, bucketSize: nat)
    requires c.Valid() && 0 < c.meta.chunkSize <= bucketSize && c.meta.offset == None
    requires c.meta.name == w.name && c.meta.shape == w.shape && c.meta.dtype == w.dtype
    requires Packable(rest, bucketSize) && AllOf(w, rest) && (c.meta.chunkSize < bucketSize ==> rest == [])
    ensures Packable([c] + rest, bucketSize)
  {
    hide Packable;
    PackableCons(c, rest, bucketSize);
  }

  lemma {:induction false} ChunksArePackable(w: Weight, bucketSize: nat, offset: nat)
    requires w.Valid() && 0 < bucketSize && offset <= |w.bytes|
    ensures Packable(ChunksFrom(w, bucketSize, offset), bucketSize)
    decreases |w.bytes| - offset
  {
    hide ChunksFrom, ChunkAt, Packable, AllOf, NBytes;
    if offset == |w.bytes| {
      NothingPackable(w, bucketSize);
    } else {
      var size := if bucketSize <= |w.bytes| - offset then bucketSize else |w.bytes| - offset;
      if size < bucketSize {
        NothingPackable(w, bucketSize);
      }
      NextChunk(w, bucketSize, offset, size);
      ChunksArePackable(w, bucketSize, offset + size);
      ChunksOfWeight(w, bucketSize, offset + size);
      ChunkShape(w, offset, size);
      PackableOfWeight(w, ChunkAt(w, offset, size), ChunksFrom(w, bucketSize, offset + size), bucketSize);
    }
  }

  lemma NothingPackable(w: Weight, bucketSize: nat)
    requires 0 < bucketSize
    ensures ChunksFrom(w, bucketSize, |w.bytes|) == [] && Packable([], bucketSize)
  {
  }

  lemma PackableCons(c: Chunk, rest: seq<Chunk>, bucketSize: nat)
    requires c.Valid() && 0 < c.meta.chunkSize <= bucketSize && c.meta.offset == None && Packable(rest, bucketSize)
    requires forall d :: d in rest && d.meta.name == c.meta.name ==>
               c.meta.chunkSize == bucketSize && d.meta.shape == c.meta.shape && d.meta.dtype == c.meta.dtype
    ensures Packable([c] + rest, bucketSize)
  {
    hide NBytes;
    TailOfCons(c, rest);
  }

  lemma {:induction false} SplitNames(ws: seq<Weight>, bucketSize: nat)
    requires 0 < bucketSize && forall w :: w in ws ==> w.Valid()
    ensures forall c :: c in Split(ws, bucketSize) ==> exists k :: 0 <= k < |ws| && ws[k].name == c.meta.name
  {
    if ws != [] {
      SplitNames(ws[1..], bucketSize);
      ChunksFromShape(ws[0], bucketSize, 0);
      forall c | c in Split(ws, bucketSize)
        ensures exists k :: 0 <= k < |ws| && ws[k].name == c.meta.name
      {
        if c in Split(ws[1..], bucketSize) {
          var k :| 0 <= k < |ws[1..]| && ws[1..][k].name == c.meta.name;
          assert ws[k + 1].name == c.meta.name;
        } else {
          assert ws[0].name == c.meta.name;
        }
      }
    }
  }

  lemma {:induction false} PackableConcat(head: seq<Chunk>, tail: seq<Chunk>, bucketSize: nat)
    requires Packable(head, bucketSize) && Packable(tail, bucketSize)
    requires forall c, d :: c in head && d in tail ==> c.meta.name != d.meta.name
    ensures Packable(head + tail, bucketSize)
  {
    if head == [] {
      AppendNothing(tail);
    } else {
      PackableConcat(head[1..], tail, bucketSize);
      assert (head + tail)[1..] == head[1..] + tail;
    }
  }

  lemma {:induction false} SplitIsPackable(ws: seq<Weight>, bucketSize: nat)
    requires 0 < bucketSize && (forall w :: w in ws ==> w.Valid()) && DistinctNames(ws)
    ensures Packable(Split(ws, bucketSize), bucketSize)
  {
    if ws != [] {
      var head, tail := ChunksFrom(ws[0], bucketSize, 0), Split(ws[1..], bucketSize);
      ChunksFromShape(ws[0], bucketSize, 0);
      SplitIsPackable(ws[1..], bucketSize);
      SplitNames(ws[1..], bucketSize);
      forall c, d | c in head && d in tail
        ensures c.meta.name != d.meta.name
      {
        var k :| 0 <= k < |ws[1..]| && ws[1..][k].name == d.meta.name;
        assert ws[k + 1].name != ws[0].name;
      }
      PackableConcat(head, tail, bucketSize);
    }
  }

  // ------------------------------------------------------------------ merging

  /** The four assertions, and the two ways in which viewing or copying a chunk fails. */
  datatype MergeError = WeightPending | NonzeroChunkOffset | NameMismatch | OffsetMismatch | ViewMismatch | CopyMismatch

  /** What merge_weight_chunks has yielded, and the error that stopped it, if any. */
  datatype Merged = Merged(weights: seq<Weight>, error: Option<MergeError>)

  /** The weight that is being rebuilt: the bytes of its buffer that have been written, and merge_offset, which
      can be larger than the buffer. */
  datatype Pending = NoPending | Pending(name: string, shape: seq<nat>, dtype: DType, got: seq<Byte>, offset: nat)

  /** What one chunk does: the new pending weight, the weights yielded (at most one), or an error. */
  datatype MergeStep = MergeStep(pending: Pending, yielded: seq<Weight>, error: Option<MergeError>)

  function Zeros(n: nat): (r: seq<Byte>)
    ensures |r| == n && forall k :: 0 <= k < n ==> r[k] == 0
  {
    seq(n, _ => 0)
  }

  function Min(a: nat, b: nat): nat {
    if a <= b then a else b
  }

  /** The part of a buffer of the given size that buffer[lo : lo + size] is. */
  function SliceSize(total: nat, lo: nat, size: nat): nat {
    Min(lo + size, total) - Min(lo, total)
  }

  /** What is copied into a slice of n bytes: a single byte is repeated. */
  function Spread(data: seq<Byte>, n: nat): (r: seq<Byte>)
    requires |data| == n || |data| == 1
    ensures |r| == n
  {
    if |data| == n then data else seq(n, _ => data[0])
  }

  /** The buffer of a weight has the size its first chunk says. Bytes that no chunk has written, of which the
      source says nothing, are zero here. */
  function StepMerge(p: Pending, c: Chunk, bucketSize: nat): MergeStep {
    var m := c.meta;
    if NBytes(m.shape, m.dtype) <= bucketSize then
      if p != NoPending then MergeStep(p, [], Some(WeightPending))
      else if |c.data| != NBytes(m.shape, m.dtype) then MergeStep(p, [], Some(ViewMismatch))
      else MergeStep(NoPending, [Weight(m.name, m.shape, m.dtype, c.data)], None)
    else if p == NoPending && m.chunkOffset != 0 then MergeStep(p, [], Some(NonzeroChunkOffset))
    else
      var q := if p == NoPending then Pending(m.name, m.shape, m.dtype, [], 0) else p;
      var n := SliceSize(NBytes(q.shape, q.dtype), m.chunkOffset, m.chunkSize);
      if m.name != q.name then MergeStep(p, [], Some(NameMismatch))
      else if m.chunkOffset != q.offset then MergeStep(p, [], Some(OffsetMismatch))
      else if |c.data| != n && |c.data| != 1 then MergeStep(p, [], Some(CopyMismatch))
      else
        var got := q.got + Spread(c.data, n);
        if m.chunkOffset + m.chunkSize == NBytes(m.shape, m.dtype) then
          MergeStep(NoPending, [Weight(q.name, q.shape, q.dtype, Filled(got, NBytes(q.shape, q.dtype)))], None)
        else MergeStep(q.(got := got, offset := m.chunkOffset + m.chunkSize), [], None)
  }

  function Filled(got: seq<Byte>, total: nat): seq<Byte> {
    if |got| <= total then got + Zeros(total - |got|) else got
  }

  function MergeFrom(p: Pending, chunks: seq<Chunk>, bucketSize: nat): Merged
    decreases |chunks|
  {
    if chunks == [] then Merged([], None)
    else
      var step := StepMerge(p, chunks[0], bucketSize);
      if step.error.Some? then Merged([], step.error)
      else
        var rest := MergeFrom(step.pending, chunks[1..], bucketSize);
        Merged(step.yielded + rest.weights, rest.error)
  }

  /** Which error a chunk meets, given the first chunk of the weight that is pending and how far it has come. The
      assertions come in the order of the source, and only for weights larger than a bucket does the order of
      the chunks matter. */
  function ErrorOf(first: Option<TensorMeta>, mergeOffset: nat, c: Chunk, bucketSize: nat): (e: Option<MergeError>)
    ensures var nbytes, inSlice := NBytes(c.meta.shape, c.meta.dtype), Copied(first.GetOr(c.meta), c);
            && (e == Some(WeightPending) <==> nbytes <= bucketSize && first.Some?)
            && (e == Some(ViewMismatch) <==> nbytes <= bucketSize && first.None? && |c.data| != nbytes)
            && (e == Some(NonzeroChunkOffset) <==> nbytes > bucketSize && first.None? && c.meta.chunkOffset != 0)
            && (e == Some(NameMismatch) <==> nbytes > bucketSize && first.Some? && c.meta.name != first.value.name)
            && (e == Some(OffsetMismatch)
                <==> nbytes > bucketSize && first.Some? && c.meta.name == first.value.name
                     && c.meta.chunkOffset != mergeOffset)
            && (e == Some(CopyMismatch)
                <==> && nbytes > bucketSize && |c.data| != inSlice && |c.data| != 1
                     && if first.None? then c.meta.chunkOffset == 0
                        else c.meta.name == first.value.name && c.meta.chunkOffset == mergeOffset)
  {
    var nbytes := NBytes(c.meta.shape, c.meta.dtype);
    if nbytes <= bucketSize then
      if first.Some? then Some(WeightPending) else if |c.data| != nbytes then Some(ViewMismatch) else None
    else if first.None? && c.meta.chunkOffset != 0 then Some(NonzeroChunkOffset)
    else if first.Some? && c.meta.name != first.value.name then Some(NameMismatch)
    else if first.Some? && c.meta.chunkOffset != mergeOffset then Some(OffsetMismatch)
    else if |c.data| != Copied(first.GetOr(c.meta), c) && |c.data| != 1 then Some(CopyMismatch)
    else None
  }

  /** How many bytes of the weight's buffer the slice of a chunk has. */
  function Copied(first: TensorMeta, c: Chunk): nat {
    SliceSize(NBytes(first.shape, first.dtype), c.meta.chunkOffset, c.meta.chunkSize)
  }

  /** buffer[lo : lo + |data|] = data */
  method WriteSlice(buffer: array<Byte>, lo: nat, data: seq<Byte>)
    requires lo + |data| <= buffer.Length
    modifies buffer
    ensures buffer[..] == Overwrite(old(buffer[..]), lo, data)
  {
    forall k | 0 <= k < |data| {
      buffer[lo + k] := data[k];
    }
  }

  /** The local variables of merge_weight_chunks. */
  class Merger {
    var mergeMeta: Option<TensorMeta>  // of the first chunk of the weight being rebuilt
    var mergeBuffer: array<Byte>
    var mergeOffset: nat

    ghost predicate Valid()
      reads this, mergeBuffer
    {
      mergeMeta.Some? ==>
        && mergeBuffer.Length == NBytes(mergeMeta.value.shape, mergeMeta.value.dtype)
        && forall k :: mergeOffset <= k < mergeBuffer.Length ==> mergeBuffer[k] == 0
    }

    ghost function Contents(): Pending
      requires Valid()
      reads this, mergeBuffer
    {
      if mergeMeta.None? then NoPending
      else
        Pending(mergeMeta.value.name, mergeMeta.value.shape, mergeMeta.value.dtype,
                mergeBuffer[..Min(mergeOffset, mergeBuffer.Length)], mergeOffset)
    }

    constructor ()
      ensures Valid() && Contents() == NoPending && fresh(mergeBuffer)
    {
      mergeMeta := None;
      mergeBuffer := new Byte[0];
      mergeOffset := 0;
    }

    /** merge_buffer[chunk_offset : chunk_offset + chunk_size] = chunk; merge_offset += chunk_size */
    method Copy(m: TensorMeta, data: seq<Byte>) returns (ok: bool)
      requires Valid() && mergeMeta.Some? && m.chunkOffset == mergeOffset
      modifies this`mergeOffset, mergeBuffer
      ensures var n := SliceSize(mergeBuffer.Length, m.chunkOffset, m.chunkSize);
              && (ok <==> |data| == n || |data| == 1)
              && (ok ==>
                    && Valid()
                    && var p := old(Contents());
                       Contents() == p.(got := p.got + Spread(data, n), offset := m.chunkOffset + m.chunkSize))
    {
      var at, n := Min(m.chunkOffset, mergeBuffer.Length), SliceSize(mergeBuffer.Length, m.chunkOffset, m.chunkSize);
      ok := |data| == n || |data| == 1;
      if ok {
        ghost var got, before := mergeBuffer[..at], mergeBuffer[..];
        WriteSlice(mergeBuffer, at, Spread(data, n));
        mergeOffset := mergeOffset + m.chunkSize;
        assert mergeBuffer[..at + n] == got + Spread(data, n);
        assert forall k :: at + n <= k < mergeBuffer.Length ==> mergeBuffer[..][k] == before[k];
      }
    }

    /** The whole buffer, when the weight is complete. */
    lemma BufferIsFilled()
      requires Valid() && mergeMeta.Some?
      ensures mergeBuffer[..] == Filled(Contents().got, mergeBuffer.Length)
    {
      var end := Min(mergeOffset, mergeBuffer.Length);
      assert mergeBuffer[..] == mergeBuffer[..end] + Zeros(mergeBuffer.Length - end);
    }

    /** The body of the loop, for one chunk. */
    method Absorb(c: Chunk, bucketSize: nat) returns (yielded: seq<Weight>, error: Option<MergeError>)
      requires Valid()
      modifies this, mergeBuffer
      ensures (error.None? ==> Valid()) && (mergeBuffer == old(mergeBuffer) || fresh(mergeBuffer))
      ensures error == StepMerge(old(Contents()), c, bucketSize).error
      ensures error == ErrorOf(old(mergeMeta), old(mergeOffset), c, bucketSize)
      ensures error.None? ==>
                var nbytes := NBytes(c.meta.shape, c.meta.dtype);
                if nbytes <= bucketSize then
                  && mergeMeta.None? && yielded == [Weight(c.meta.name, c.meta.shape, c.meta.dtype, c.data)]
                else
                  var first := old(mergeMeta).GetOr(c.meta);
                  if c.meta.chunkOffset + c.meta.chunkSize == nbytes then
                    && mergeMeta.None? && |yielded| == 1 && yielded[0].Valid()
                    && yielded[0].name == first.name && yielded[0].shape == first.shape
                    && yielded[0].dtype == first.dtype
                  else
                    && mergeMeta == Some(first) && mergeOffset == c.meta.chunkOffset + c.meta.chunkSize && yielded == []
      ensures error.None? ==> MergeStep(Contents(), yielded, error) == StepMerge(old(Contents()), c, bucketSize)
    {
      hide NBytes, SliceSize, Spread;
      var m, nbytes := c.meta, NBytes(c.meta.shape, c.meta.dtype);
      if nbytes <= bucketSize {
        if mergeMeta.Some? { return [], Some(WeightPending); }
        if |c.data| != nbytes { return [], Some(ViewMismatch); }
        return [Weight(m.name, m.shape, m.dtype, c.data)], None;
      }
      if mergeMeta.None? {
        if m.chunkOffset != 0 { return [], Some(NonzeroChunkOffset); }
        mergeMeta := Some(m);
        mergeBuffer := new Byte[nbytes](_ => 0);
        mergeOffset := 0;
      }
      var first := mergeMeta.value;
      if m.name != first.name { return [], Some(NameMismatch); }
      if mergeOffset != m.chunkOffset { return [], Some(OffsetMismatch); }
      var copied := Copy(m, c.data);
      if !copied { return [], Some(CopyMismatch); }
      if m.chunkOffset + m.chunkSize == nbytes {
        BufferIsFilled();
        mergeMeta := None;
        return [Weight(first.name, first.shape, first.dtype, mergeBuffer[..])], None;
      }
      return [], None;
    }
  }

  /** merge_weight_chunks, writing each chunk in place into the buffer of the weight it belongs to. */
  method MergeWeightChunks(chunks: seq<Chunk>, bucketSize: nat) returns (r: Merged)
    ensures r == MergeFrom(NoPending, chunks, bucketSize)
  {
    var merger := new Merger();
    var yielded: seq<Weight> := [];
    var i: nat := 0;
    ghost var rest := MergeFrom(NoPending, chunks, bucketSize);
    AppendNothing(rest.weights);
    assert chunks[0..] == chunks;
    while i < |chunks|
      invariant 0 <= i <= |chunks|
      invariant merger.Valid() && fresh(merger) && fresh(merger.mergeBuffer)
      invariant rest == MergeFrom(merger.Contents(), chunks[i..], bucketSize)
      invariant MergeFrom(NoPending, chunks, bucketSize) == Merged(yielded + rest.weights, rest.error)
    {
      Uncons(chunks, i);
      var ws, error := merger.Absorb(chunks[i], bucketSize);
      if error.Some? {
        AppendNothing(yielded);
        return Merged(yielded, error);
      }
      rest := MergeFrom(merger.Contents(), chunks[i + 1..], bucketSize);
      Assoc(yielded, ws, rest.weights);
      yielded := yielded + ws;
      i := i + 1;
    }
    AppendNothing(yielded);
    r := Merged(yielded, None);
  }

  // --------------------------------------------------------------- round trip

  /** Metadata without the place of the chunk in its bucket, which only the packing loop assigns. */
  function Unplaced(chunks: seq<Chunk>): (r: seq<Chunk>)
    ensures |r| == |chunks|
    ensures forall i :: 0 <= i < |r| ==> r[i] == chunks[i].(meta := chunks[i].meta.(offset := None))
  {
    seq(|chunks|, i requires 0 <= i < |chunks| => chunks[i].(meta := chunks[i].meta.(offset := None)))
  }

  lemma StepIgnoresPlacement(p: Pending, c: Chunk, bucketSize: nat)
    ensures StepMerge(p, c.(meta := c.meta.(offset := None)), bucketSize) == StepMerge(p, c, bucketSize)
  {
  }

  /** Rebuilding does not look at where in a bucket a chunk had been. */
  lemma {:induction false} MergeIgnoresPlacement(p: Pending, chunks: seq<Chunk>, bucketSize: nat)
    ensures MergeFrom(p, Unplaced(chunks), bucketSize) == MergeFrom(p, chunks, bucketSize)
    decreases |chunks|
  {
    if chunks != [] {
      hide StepMerge;
      assert Unplaced(chunks)[1..] == Unplaced(chunks[1..]);
      StepIgnoresPlacement(p, chunks[0], bucketSize);
      MergeIgnoresPlacement(StepMerge(p, chunks[0], bucketSize).pending, chunks[1..], bucketSize);
    }
  }

  function NonEmpty(ws: seq<Weight>): seq<Weight> {
    if ws == [] then []
    else if ws[0].bytes == [] then NonEmpty(ws[1..])
    else [ws[0]] + NonEmpty(ws[1..])
  }

  function Prepend(w: Weight, rest: Merged): Merged {
    Merged([w] + rest.weights, rest.error)
  }

  /** The weight that is pending once the first offset bytes of w have arrived. */
  function PendingAt(w: Weight, offset: nat): Pending
    requires offset <= |w.bytes|
  {
    if offset == 0 then NoPending else Pending(w.name, w.shape, w.dtype, w.bytes[..offset], offset)
  }

  lemma StepOfSplit(w: Weight, bucketSize: nat, offset: nat, size: nat)
    requires w.Valid() && 0 < bucketSize < |w.bytes| && 0 < size && offset + size <= |w.bytes|
    ensures StepMerge(PendingAt(w, offset), ChunkAt(w, offset, size), bucketSize)
            == if offset + size == |w.bytes| then MergeStep(NoPending, [w], None)
               else MergeStep(PendingAt(w, offset + size), [], None)
  {
    TakeMore(w.bytes, offset, size);
    assert w.bytes[..|w.bytes|] == w.bytes;
    assert Zeros(0) == [];
    AppendNothing(w.bytes[..offset] + w.bytes[offset..offset + size]);
    if offset == 0 {
      AppendNothing(w.bytes[..size]);
    }
  }

  lemma {:induction false} MergeOneWeight(w: Weight, bucketSize: nat, offset: nat, rest: seq<Chunk>)
    requires w.Valid() && 0 < bucketSize < |w.bytes| && offset < |w.bytes|
    ensures MergeFrom(PendingAt(w, offset), ChunksFrom(w, bucketSize, offset) + rest, bucketSize)
            == Prepend(w, MergeFrom(NoPending, rest, bucketSize))
    decreases |w.bytes| - offset
  {
    hide StepMerge, ChunkAt;
    var size := if bucketSize <= |w.bytes| - offset then bucketSize else |w.bytes| - offset;
    var c, more := ChunkAt(w, offset, size), ChunksFrom(w, bucketSize, offset + size);
    Assoc([c], more, rest);
    TailOfCons(c, more + rest);
    StepOfSplit(w, bucketSize, offset, size);
    if offset + size < |w.bytes| {
      MergeOneWeight(w, bucketSize, offset + size, rest);
      AppendNothing(MergeFrom(PendingAt(w, offset + size), more + rest, bucketSize).weights);
    } else {
      AppendNothing(rest);
    }
  }

  /** No merge assertion fires and the non-empty weights come back, in order, for every bucket size. */
  lemma {:induction false} MergeInvertsSplit(ws: seq<Weight>, bucketSize: nat)
    requires 0 < bucketSize && forall w :: w in ws ==> w.Valid()
    ensures MergeFrom(NoPending, Split(ws, bucketSize), bucketSize) == Merged(NonEmpty(ws), None)
  {
    if ws != [] {
      var w, rest := ws[0], Split(ws[1..], bucketSize);
      MergeInvertsSplit(ws[1..], bucketSize);
      if w.bytes == [] {
        AppendNothing(rest);
      } else if |w.bytes| <= bucketSize {
        var c := ChunkAt(w, 0, |w.bytes|);
        assert w in ws && w.Valid();
        assert ChunksFrom(w, bucketSize, 0) == [c];
        TailOfCons(c, rest);
        assert w.bytes[0..|w.bytes|] == w.bytes;
        assert StepMerge(NoPending, c, bucketSize) == MergeStep(NoPending, [w], None);
      } else {
        MergeOneWeight(w, bucketSize, 0, rest);
      }
    }
  }

  /** Of every weight it is the bytes alone that decide, and the order is kept. */
  lemma {:induction false} NonEmptyAdds(a: seq<Weight>, b: seq<Weight>)
    ensures NonEmpty(a + b) == NonEmpty(a) + NonEmpty(b)
    ensures |a| == 1 ==> NonEmpty(a) == if a[0].bytes == [] then [] else a
  {
    if a == [] {
      AppendNothing(b);
      AppendNothing(NonEmpty(b));
    } else {
      assert (a + b)[1..] == a[1..] + b && (a + b)[0] == a[0];
      NonEmptyAdds(a[1..], b);
      Assoc([a[0]], NonEmpty(a[1..]), NonEmpty(b));
      assert |a| == 1 ==> a == [a[0]] && a[1..] == [];
    }
  }

  lemma {:induction false} NonEmptyIsAll(ws: seq<Weight>)
    ensures |NonEmpty(ws)| <= |ws|
    ensures NonEmpty(ws) == ws <==> forall w :: w in ws ==> w.bytes != []
  {
    if ws != [] {
      NonEmptyIsAll(ws[1..]);
      assert ws == [ws[0]] + ws[1..];
      if ws[0].bytes == [] {
        assert ws[0] in ws;
      }
    }
  }

  /** The round trip returns its input exactly when no weight is empty: a tensor of zero bytes is
      never cut into a chunk, so the receiver never hears of it. */
  lemma RoundTripIffNoEmptyWeight(ws: seq<Weight>, bucketSize: nat)
    requires 0 < bucketSize && forall w :: w in ws ==> w.Valid()
    ensures MergeFrom(NoPending, Split(ws, bucketSize), bucketSize) == Merged(ws, None)
            <==> forall w :: w in ws ==> w.bytes != []
  {
    MergeInvertsSplit(ws, bucketSize);
    NonEmptyIsAll(ws);
  }
}
