/**
 Padding a batch, distributing it over workers in equal chunks, and putting the results together, as
 DataProto does. A batch is the sequence of its rows.
 */
module BatchAlgebra {
  import opened Seqs
  import opened Arith
  import opened Cuts

  // ------------------------------------------------------------------------------- padding

  function Mod(i: nat, n: nat): (m: nat)
    requires n > 0
    ensures m < n
  {
    i % n
  }

  /** The rows from the start again, as often as it takes. */
  ghost predicate Wraps<R>(padded: seq<R>, rows: seq<R>) {
    |rows| > 0 && forall i :: 0 <= i < |padded| ==> padded[i] == rows[Mod(i, |rows|)]
  }

  lemma ModOfMultiple(q: nat, n: nat, j: nat)
    requires j < n
    ensures Mod(q * n + j, n) == j
  {
    DivUnique(q * n + j, n, q, j);
  }

  lemma WrapsMore<R>(padded: seq<R>, rows: seq<R>, q: nat, take: nat)
    requires Wraps(padded, rows) && |padded| == q * |rows| && take <= |rows|
    ensures Wraps(padded + rows[..take], rows)
    ensures take == |rows| ==> |padded + rows[..take]| == (q + 1) * |rows|
  {
    hide Mod;
    var n := |rows|;
    var more := padded + rows[..take];
    forall i | |padded| <= i < |more|
      ensures more[i] == rows[Mod(i, n)]
    {
      ModOfMultiple(q, n, i - |padded|);
    }
    assert (q + 1) * n == q * n + n;
  }

  /** pad_dataproto_to_divisor; the loop ends because a batch that needs padding is not empty. */
  method PadToDivisor<R>(rows: seq<R>, divisor: nat) returns (padded: seq<R>, padSize: nat)
    requires divisor > 0
    ensures padSize < divisor && |padded| == |rows| + padSize && |padded| % divisor == 0
    ensures rows <= padded && (rows != [] ==> Wraps(padded, rows))
  {
    hide Mod, Wraps;
    if |rows| % divisor != 0 {
      padSize := divisor - |rows| % divisor;
      PaddedSize(|rows|, divisor);
      padded := PadRows(rows, padSize);
    } else {
      padSize, padded := 0, rows;
      if rows != [] {
        WrapsItself(rows);
      }
    }
  }

  /** The padding loop. */
  method PadRows<R>(rows: seq<R>, padSize: nat) returns (padded: seq<R>)
    requires rows != []
    ensures |padded| == |rows| + padSize && rows <= padded && Wraps(padded, rows)
  {
    hide Mod, Wraps;
    padded := rows;
    WrapsItself(rows);
    var remaining := padSize;
    ghost var q := 1;
    while remaining > 0
      invariant 0 <= remaining <= padSize && |padded| == |rows| + padSize - remaining
      invariant rows <= padded && Wraps(padded, rows)
      invariant 0 <= q && (remaining > 0 ==> |padded| == q * |rows|)
    {
      var take := if remaining <= |rows| then remaining else |rows|;
      WrapsMore(padded, rows, q, take);
      padded := padded + rows[..take];
      remaining, q := remaining - take, q + 1;
    }
  }

  lemma PaddedSize(n: nat, divisor: nat)
    requires divisor > 0
    ensures (n + (divisor - n % divisor)) % divisor == 0
  {
    var q := n / divisor;
    assert n == q * divisor + n % divisor;
    assert (q + 1) * divisor == q * divisor + divisor;
    DivExact(q + 1, divisor);
  }

  lemma WrapsItself<R>(rows: seq<R>)
    requires rows != []
    ensures Wraps(rows, rows)
  {
    hide Mod;
    forall i | 0 <= i < |rows|
      ensures rows[i] == rows[Mod(i, |rows|)]
    {
      ModOfMultiple(0, |rows|, i);
    }
  }

  /** unpad_dataproto: data[:-pad_size], or data itself when there is no padding. */
  function Unpad<R>(rows: seq<R>, padSize: nat): seq<R>
    requires padSize <= |rows|
  {
    if padSize != 0 then rows[..|rows| - padSize] else rows
  }

  // ------------------------------------------------------------------- chunking and concatenating

  datatype Chunked<R> = NotEqualChunks | Chunks(parts: seq<seq<R>>)

  /** DataProto.chunk without automatic padding: equal chunks, or an assertion. */
  function Chunk<R>(rows: seq<R>, chunks: nat): Chunked<R>
    requires chunks > 0
  {
    if |rows| % chunks != 0 then NotEqualChunks
    else
      ExactChunks(|rows|, chunks);
      Chunks(Cut(rows, |rows| / chunks, chunks))
  }

  lemma ExactChunks(rows: nat, chunks: nat)
    requires chunks > 0 && rows % chunks == 0
    ensures rows == chunks * (rows / chunks)
  {
  }

  lemma {:induction false} CutSizes<R>(rows: seq<R>, size: nat, n: nat)
    requires |rows| == n * size
    ensures forall p :: p in Cut(rows, size, n) ==> |p| == size
    decreases n
  {
    if n > 0 {
      RowsOfGroups(n, size);
      CutSizes(rows[size..], size, n - 1);
    }
  }

  /** It is an error exactly if the rows cannot be cut into that many equal chunks; the chunks are equal and
      are the rows in order. */
  lemma ChunkIs<R>(rows: seq<R>, chunks: nat)
    requires chunks > 0
    ensures Chunk(rows, chunks).NotEqualChunks? <==> |rows| % chunks != 0
    ensures Chunk(rows, chunks).Chunks? ==>
              var parts := Chunk(rows, chunks).parts;
              && |parts| == chunks && Flatten(parts) == rows && forall p :: p in parts ==> |p| == |rows| / chunks
  {
    if |rows| % chunks == 0 {
      ExactChunks(|rows|, chunks);
      CutSizes(rows, |rows| / chunks, chunks);
      FlattenInvertsCut(rows, |rows| / chunks, chunks);
    }
  }

  function MapRows<R, S>(f: R -> S, rows: seq<R>): (r: seq<S>)
    ensures |r| == |rows| && forall i :: 0 <= i < |rows| ==> r[i] == f(rows[i])
  {
    seq(|rows|, i requires 0 <= i < |rows| => f(rows[i]))
  }

  /** What the workers return, each for its own chunk. */
  function MapParts<R, S>(f: R -> S, parts: seq<seq<R>>): (r: seq<seq<S>>)
    ensures |r| == |parts| && forall i :: 0 <= i < |parts| ==> r[i] == MapRows(f, parts[i])
  {
    seq(|parts|, i requires 0 <= i < |parts| => MapRows(f, parts[i]))
  }

  lemma {:induction false} MapFlatten<R, S>(f: R -> S, parts: seq<seq<R>>)
    ensures Flatten(MapParts(f, parts)) == MapRows(f, Flatten(parts))
  {
    if parts != [] {
      assert MapParts(f, parts)[1..] == MapParts(f, parts[1..]);
      MapFlatten(f, parts[1..]);
      assert MapRows(f, parts[0] + Flatten(parts[1..])) == MapRows(f, parts[0]) + MapRows(f, Flatten(parts[1..]));
    }
  }

  /** Distribution is invisible to a row-wise function: pad, chunk, apply on every worker, concatenate and
      unpad gives what applying it to the original rows gives, for any number of workers. */
  method Distribute<R, S>(rows: seq<R>, workers: nat, f: R -> S) returns (result: seq<S>)
    requires workers > 0
    ensures result == MapRows(f, rows)
  {
    var padded, padSize := PadToDivisor(rows, workers);
    var chunked := Chunk(padded, workers);
    ExactChunks(|padded|, workers);
    var collected: seq<S> := [];
    var i := 0;
    while i < |chunked.parts|
      invariant 0 <= i <= |chunked.parts|
      invariant collected == Flatten(MapParts(f, chunked.parts[..i]))
    {
      assert MapParts(f, chunked.parts[..i + 1]) == MapParts(f, chunked.parts[..i]) + [MapRows(f, chunked.parts[i])];
      FlattenSnoc(MapParts(f, chunked.parts[..i]), MapRows(f, chunked.parts[i]));
      collected := collected + MapRows(f, chunked.parts[i]);
      i := i + 1;
    }
    assert chunked.parts[..i] == chunked.parts;
    MapFlatten(f, chunked.parts);
    FlattenInvertsCut(padded, |padded| / workers, workers);
    result := Unpad(collected, padSize);
    assert padded[..|rows|] == rows;
  }

  // -------------------------------------------------------------------------------- futures

  /** DataProtoFuture.get of the i-th future that chunk made: collect all outputs, and take one chunk. */
  function Get<R>(outputs: seq<seq<R>>, chunks: nat, i: nat): seq<R>
    requires i < chunks && |Flatten(outputs)| % chunks == 0
  {
    Chunk(Flatten(outputs), chunks).parts[i]
  }

  /** The futures that chunk makes concatenate back to the collected whole. */
  lemma FuturesCoverTheWhole<R>(outputs: seq<seq<R>>, chunks: nat)
    requires chunks > 0 && |Flatten(outputs)| % chunks == 0
    ensures Flatten(seq(chunks, i requires 0 <= i < chunks => Get(outputs, chunks, i))) == Flatten(outputs)
  {
    var all := Flatten(outputs);
    ExactChunks(|all|, chunks);
    FlattenInvertsCut(all, |all| / chunks, chunks);
    assert seq(chunks, i requires 0 <= i < chunks => Get(outputs, chunks, i)) == Cut(all, |all| / chunks, chunks);
  }
}
