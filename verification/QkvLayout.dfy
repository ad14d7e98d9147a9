/**
 The layout of the attention weights in a Megatron checkpoint: q, k and v interleaved by key/value
 group and cut by rows over the tensor-parallel ranks, and the merge that takes them apart again.
 A matrix is the sequence of its rows.
 */
module QkvLayout {
  import opened Seqs
  import opened Arith
  import opened Cuts

  datatype MergeError = HeadsNotDivisible | RowsNotDivisible | NoGroups | SplitMismatch
  datatype Result<+T> = Ok(value: T) | Err(error: MergeError)

  datatype Qkv<T> = Qkv(q: seq<T>, k: seq<T>, v: seq<T>)

  // ------------------------------------------------------------------ the interleaved layout

  /** One key/value group: its query rows, its key rows and its value rows. */
  datatype Group<T> = Group(q: seq<T>, k: seq<T>, v: seq<T>)

  predicate Sized<T>(g: Group<T>, a: nat, b: nat) {
    |g.q| == a && |g.k| == b && |g.v| == b
  }

  predicate AllSized<T>(gs: seq<Group<T>>, a: nat, b: nat) {
    forall i :: 0 <= i < |gs| ==> Sized(gs[i], a, b)
  }

  /** The views of q, k and v by group: a rows of q and b rows of k and of v in each. */
  function View<T>(m: Qkv<T>, n: nat, a: nat, b: nat): (gs: seq<Group<T>>)
    requires |m.q| == n * a && |m.k| == |m.v| == n * b
    ensures |gs| == n && AllSized(gs, a, b)
    decreases n
  {
    if n == 0 then []
    else
      RowsOfGroups(n, a);
      RowsOfGroups(n, b);
      [Group(m.q[..a], m.k[..b], m.v[..b])] + View(Qkv(m.q[a..], m.k[b..], m.v[b..]), n - 1, a, b)
  }

  /** q, k and v, each with its groups one after the other. */
  function Separate<T>(gs: seq<Group<T>>): Qkv<T> {
    if gs == [] then Qkv([], [], [])
    else
      var rest := Separate(gs[1..]);
      Qkv(gs[0].q + rest.q, gs[0].k + rest.k, gs[0].v + rest.v)
  }

  /** The rows of linear_qkv: the groups one after the other, each as q, k, v. */
  function Interleaved<T>(gs: seq<Group<T>>): seq<T> {
    if gs == [] then [] else gs[0].q + gs[0].k + gs[0].v + Interleaved(gs[1..])
  }

  lemma {:induction false} SeparateInvertsView<T>(m: Qkv<T>, n: nat, a: nat, b: nat)
    requires |m.q| == n * a && |m.k| == |m.v| == n * b
    ensures Separate(View(m, n, a, b)) == m
    decreases n
  {
    if n > 0 {
      RowsOfGroups(n, a);
      RowsOfGroups(n, b);
      SeparateInvertsView(Qkv(m.q[a..], m.k[b..], m.v[b..]), n - 1, a, b);
      assert m.q == m.q[..a] + m.q[a..] && m.k == m.k[..b] + m.k[b..] && m.v == m.v[..b] + m.v[b..];
    }
  }

  lemma {:induction false} InterleavedLength<T>(gs: seq<Group<T>>, a: nat, b: nat)
    requires AllSized(gs, a, b)
    ensures |Interleaved(gs)| == |gs| * (a + 2 * b)
  {
    if gs != [] {
      assert Sized(gs[0], a, b);
      assert forall i :: 0 <= i < |gs[1..]| ==> gs[1..][i] == gs[i + 1];
      InterleavedLength(gs[1..], a, b);
      RowsOfGroups(|gs|, a + 2 * b);
    }
  }

  ghost predicate Shaped<T>(m: Qkv<T>, n: nat, a: nat, b: nat) {
    |m.q| == n * a && |m.k| == |m.v| == n * b
  }

  /** The rows of linear_qkv for q, k and v of n groups. */
  ghost function Layout<T>(m: Qkv<T>, n: nat, a: nat, b: nat): seq<T>
    requires Shaped(m, n, a, b)
  {
    Interleaved(View(m, n, a, b))
  }

  /** The first row of group g, when every group has the given number. */
  function First(g: nat, rows: nat): nat {
    g * rows
  }

  /** The n rows at the one place are those at the other. */
  predicate PartAt<T(==)>(rows: seq<T>, at: nat, part: seq<T>, lo: nat, n: nat) {
    at + n <= |rows| && lo + n <= |part| && rows[at..at + n] == part[lo..lo + n]
  }

  predicate GroupAt<T(==)>(rows: seq<T>, m: Qkv<T>, g: nat, a: nat, b: nat) {
    var at := First(g, a + 2 * b);
    && PartAt(rows, at, m.q, First(g, a), a)
    && PartAt(rows, at + a, m.k, First(g, b), b)
    && PartAt(rows, at + a + b, m.v, First(g, b), b)
  }

  /** Row by row, group g of linear_qkv is the g-th group of query rows, then of key rows, then of value rows. */
  lemma {:induction false} InterleavedRows<T>(m: Qkv<T>, n: nat, a: nat, b: nat, g: nat)
    requires Shaped(m, n, a, b) && g < n
    ensures GroupAt(Layout(m, n, a, b), m, g, a, b)
    decreases n
  {
    hide Shaped, Layout, First, GroupAt;
    FirstGroup(m, n, a, b);
    if g == 0 {
      GroupAtHead(m, a, b, Layout(Rest(m, a, b), n - 1, a, b));
    } else {
      InterleavedRows(Rest(m, a, b), n - 1, a, b, g - 1);
      GroupBehind(m, a, b, Layout(Rest(m, a, b), n - 1, a, b), g - 1);
    }
  }

  function Rest<T>(m: Qkv<T>, a: nat, b: nat): Qkv<T>
    requires a <= |m.q| && b <= |m.k| && b <= |m.v|
  {
    Qkv(m.q[a..], m.k[b..], m.v[b..])
  }

  lemma FirstGroup<T>(m: Qkv<T>, n: nat, a: nat, b: nat)
    requires n > 0 && Shaped(m, n, a, b)
    ensures a <= |m.q| && b <= |m.k| && b <= |m.v| && Shaped(Rest(m, a, b), n - 1, a, b)
    ensures Layout(m, n, a, b) == m.q[..a] + m.k[..b] + m.v[..b] + Layout(Rest(m, a, b), n - 1, a, b)
  {
    RowsOfGroups(n, a);
    RowsOfGroups(n, b);
    TailOfCons(Group(m.q[..a], m.k[..b], m.v[..b]), View(Rest(m, a, b), n - 1, a, b));
  }

  lemma FirstOfNext(g: nat, rows: nat)
    ensures First(0, rows) == 0 && First(g + 1, rows) == First(g, rows) + rows
  {
  }

  lemma GroupAtHead<T>(m: Qkv<T>, a: nat, b: nat, more: seq<T>)
    requires a <= |m.q| && b <= |m.k| && b <= |m.v|
    ensures GroupAt(m.q[..a] + m.k[..b] + m.v[..b] + more, m, 0, a, b)
  {
    hide First;
    FirstOfNext(0, a + 2 * b);
    FirstOfNext(0, a);
    FirstOfNext(0, b);
    SlicesOfFirst(m.q[..a], m.k[..b], m.v[..b], more);
  }

  lemma GroupBehind<T>(m: Qkv<T>, a: nat, b: nat, more: seq<T>, g: nat)
    requires a <= |m.q| && b <= |m.k| && b <= |m.v| && GroupAt(more, Rest(m, a, b), g, a, b)
    ensures GroupAt(m.q[..a] + m.k[..b] + m.v[..b] + more, m, g + 1, a, b)
  {
    hide First, PartAt;
    FirstOfNext(g, a + 2 * b);
    FirstOfNext(g, a);
    FirstOfNext(g, b);
    var first, at := m.q[..a] + m.k[..b] + m.v[..b], First(g, a + 2 * b);
    PartBehind(first, more, at, m.q, First(g, a), a, a);
    PartBehind(first, more, at + a, m.k, First(g, b), b, b);
    PartBehind(first, more, at + a + b, m.v, First(g, b), b, b);
  }

  lemma PartBehind<T>(first: seq<T>, more: seq<T>, at: nat, part: seq<T>, lo: nat, n: nat, cut: nat)
    requires cut <= |part| && PartAt(more, at, part[cut..], lo, n)
    ensures PartAt(first + more, at + |first|, part, lo + cut, n)
  {
    var at', lo' := at + |first|, lo + cut;
    assert (first + more)[at'..at' + n] == more[at..at + n];
    assert part[lo'..lo' + n] == part[cut..][lo..lo + n];
  }

  lemma SlicesOfFirst<T>(q: seq<T>, k: seq<T>, v: seq<T>, more: seq<T>)
    requires |k| == |v|
    ensures var rows, a, b := q + k + v + more, |q|, |k|;
            && a + 2 * b <= |rows| && rows[0..a] == q && rows[a..a + b] == k && rows[a + b..a + 2 * b] == v
  {
  }

  lemma {:induction false} InterleavedAdds<T>(a: seq<Group<T>>, b: seq<Group<T>>)
    ensures Interleaved(a + b) == Interleaved(a) + Interleaved(b)
  {
    if a == [] {
      AppendNothing(b);
      AppendNothing(Interleaved(b));
    } else {
      assert (a + b)[1..] == a[1..] + b;
      InterleavedAdds(a[1..], b);
      Assoc(a[0].q + a[0].k + a[0].v, Interleaved(a[1..]), Interleaved(b));
    }
  }

  // ------------------------------------------------------------------ chunk, split and cat

  function Pieces<T>(s: seq<T>, size: nat): seq<seq<T>>
    requires 0 < size
    decreases |s|
  {
    if |s| <= size then [s] else [s[..size]] + Pieces(s[size..], size)
  }

  /** Tensor.chunk: pieces of ceil(rows / n) rows, so there can be fewer than n of them. */
  function Chunk<T>(s: seq<T>, n: nat): seq<seq<T>>
    requires 0 < n
  {
    if s == [] then seq(n, _ => []) else CeilDivPositive(|s|, n); Pieces(s, CeilDiv(|s|, n))
  }

  function Then<T>(a: Qkv<T>, r: Result<Qkv<T>>): Result<Qkv<T>> {
    if r.Err? then r else Ok(Qkv(a.q + r.value.q, a.k + r.value.k, a.v + r.value.v))
  }

  /** chunk.split([a, b, b]) of every chunk, with the q, k and v parts concatenated. */
  function SplitChunks<T>(chunks: seq<seq<T>>, a: nat, b: nat): Result<Qkv<T>> {
    if chunks == [] then Ok(Qkv([], [], []))
    else if |chunks[0]| != a + b + b then Err(SplitMismatch)
    else Then(Qkv(chunks[0][..a], chunks[0][a..a + b], chunks[0][a + b..]), SplitChunks(chunks[1..], a, b))
  }

  function MergeParts<T>(parts: seq<seq<T>>, groups: nat, a: nat, b: nat): Result<Qkv<T>>
    requires 0 < groups
  {
    if parts == [] then Ok(Qkv([], [], []))
    else
      var r := SplitChunks(Chunk(parts[0], groups), a, b);
      if r.Err? then r else Then(r.value, MergeParts(parts[1..], groups, a, b))
  }

  /** The query rows of one chunk. */
  function QueryRows(kvSize: nat, perKv: nat, groups: nat): nat
    requires 0 < groups
  {
    kvSize * perKv / groups
  }

  function MergeQkv<T>(parts: seq<seq<T>>, heads: nat, kvHeads: nat, tpSize: nat): Result<Qkv<T>>
    requires 0 < kvHeads && 0 < tpSize && parts != []
  {
    if heads % kvHeads != 0 then Err(HeadsNotDivisible)
    else
      var perKv := heads / kvHeads;
      if |parts[0]| % (perKv + 2) != 0 then Err(RowsNotDivisible)
      else
        var kv, groups := |parts[0]| / (perKv + 2), kvHeads / tpSize;
        if groups == 0 then Err(NoGroups)
        else MergeParts(parts, groups, QueryRows(kv, perKv, groups), kv / groups)
  }

  /** Splitting fails exactly if some chunk does not have the rows of a group. */
  lemma {:induction false} SplitFailsIff<T>(chunks: seq<seq<T>>, a: nat, b: nat)
    ensures SplitChunks(chunks, a, b).Err? <==> exists c :: c in chunks && |c| != a + 2 * b
    ensures SplitChunks(chunks, a, b).Err? ==> SplitChunks(chunks, a, b) == Err(SplitMismatch)
  {
    if chunks != [] {
      SplitFailsIff(chunks[1..], a, b);
      assert chunks == [chunks[0]] + chunks[1..];
    }
  }

  ghost predicate WrongChunk<T>(parts: seq<seq<T>>, groups: nat, rows: nat)
    requires 0 < groups
  {
    exists p, c :: p in parts && c in Chunk(p, groups) && |c| != rows
  }

  lemma {:induction false} MergeFailsIff<T>(parts: seq<seq<T>>, groups: nat, a: nat, b: nat)
    requires 0 < groups
    ensures MergeParts(parts, groups, a, b).Err? <==> WrongChunk(parts, groups, a + 2 * b)
    ensures MergeParts(parts, groups, a, b).Err? ==> MergeParts(parts, groups, a, b) == Err(SplitMismatch)
  {
    if parts != [] {
      hide Chunk;
      MergeFailsIff(parts[1..], groups, a, b);
      SplitFailsIff(Chunk(parts[0], groups), a, b);
      assert parts == [parts[0]] + parts[1..];
      assert parts[0] in parts;
    }
  }

  /** Tensor.chunk loses nothing; of the pieces all but the last have ceil(rows / n) rows, and the last has some
      and no more. */
  lemma ChunkIs<T>(s: seq<T>, n: nat)
    requires 0 < n
    ensures Flatten(Chunk(s, n)) == s
    ensures s == [] ==> |Chunk(s, n)| == n
    ensures s != [] ==>
              var ps, size := Chunk(s, n), CeilDiv(|s|, n);
              && ps != [] && 0 < |ps[|ps| - 1]| <= size && forall i :: 0 <= i < |ps| - 1 ==> |ps[i]| == size
  {
    if s == [] {
      FlattenOfNothing<T>(n);
      assert seq(n, _ => []) == NothingTimes<T>(n);
    } else {
      CeilDivPositive(|s|, n);
      PiecesAre(s, CeilDiv(|s|, n));
    }
  }

  function NothingTimes<T>(n: nat): seq<seq<T>> {
    if n == 0 then [] else [[]] + NothingTimes(n - 1)
  }

  lemma {:induction false} FlattenOfNothing<T>(n: nat)
    ensures |NothingTimes<T>(n)| == n && Flatten(NothingTimes<T>(n)) == []
    ensures forall i :: 0 <= i < n ==> NothingTimes<T>(n)[i] == []
  {
    if n > 0 {
      FlattenOfNothing<T>(n - 1);
      FlattenCons([], NothingTimes<T>(n - 1));
    }
  }

  lemma {:induction false} PiecesAre<T>(s: seq<T>, size: nat)
    requires s != [] && 0 < size
    ensures var ps := Pieces(s, size);
            && Flatten(ps) == s && ps != [] && 0 < |ps[|ps| - 1]| <= size
            && forall i :: 0 <= i < |ps| - 1 ==> |ps[i]| == size
    decreases |s|
  {
    if |s| <= size {
      FlattenCons(s, []);
      AppendNothing(s);
      assert [s] + [] == [s];
    } else {
      PiecesAre(s[size..], size);
      FlattenCons(s[..size], Pieces(s[size..], size));
      assert s[..size] + s[size..] == s;
    }
  }

  lemma ThenAssoc<T>(a: Qkv<T>, b: Qkv<T>, r: Result<Qkv<T>>)
    ensures Then(Qkv(a.q + b.q, a.k + b.k, a.v + b.v), r) == Then(a, Then(b, r))
  {
    if r.Ok? {
      Assoc(a.q, b.q, r.value.q);
      Assoc(a.k, b.k, r.value.k);
      Assoc(a.v, b.v, r.value.v);
    }
  }

  lemma ThenNothing<T>(a: Qkv<T>, r: Result<Qkv<T>>)
    ensures Then(a, Ok(Qkv([], [], []))) == Ok(a) && Then(Qkv([], [], []), r) == r
  {
    AppendNothing(a.q);
    AppendNothing(a.k);
    AppendNothing(a.v);
    if r.Ok? {
      AppendNothing(r.value.q);
      AppendNothing(r.value.k);
      AppendNothing(r.value.v);
    }
  }

  /** The loop over the chunks of one tensor. */
  method SplitAndCat<T>(chunks: seq<seq<T>>, a: nat, b: nat) returns (r: Result<Qkv<T>>)
    ensures r == SplitChunks(chunks, a, b)
  {
    var qs: seq<T>, ks: seq<T>, vs: seq<T> := [], [], [];
    ThenNothing(Qkv([], [], []), SplitChunks(chunks, a, b));
    assert chunks[0..] == chunks;
    var j := 0;
    while j < |chunks|
      invariant 0 <= j <= |chunks|
      invariant SplitChunks(chunks, a, b) == Then(Qkv(qs, ks, vs), SplitChunks(chunks[j..], a, b))
    {
      Uncons(chunks, j);
      if |chunks[j]| != a + b + b { return Err(SplitMismatch); }
      ghost var part := Qkv(chunks[j][..a], chunks[j][a..a + b], chunks[j][a + b..]);
      ThenAssoc(Qkv(qs, ks, vs), part, SplitChunks(chunks[j + 1..], a, b));
      qs, ks, vs := qs + chunks[j][..a], ks + chunks[j][a..a + b], vs + chunks[j][a + b..];
      j := j + 1;
    }
    ThenNothing(Qkv(qs, ks, vs), Ok(Qkv([], [], [])));
    r := Ok(Qkv(qs, ks, vs));
  }

  /** The loop over the ranks' parts. */
  method MergeAll<T>(parts: seq<seq<T>>, groups: nat, a: nat, b: nat) returns (r: Result<Qkv<T>>)
    requires 0 < groups
    ensures r == MergeParts(parts, groups, a, b)
  {
    hide SplitChunks, Chunk;
    var all: Qkv<T> := Qkv([], [], []);
    ThenNothing(all, MergeParts(parts, groups, a, b));
    assert parts[0..] == parts;
    var i := 0;
    while i < |parts|
      invariant 0 <= i <= |parts|
      invariant MergeParts(parts, groups, a, b) == Then(all, MergeParts(parts[i..], groups, a, b))
    {
      Uncons(parts, i);
      var one := SplitAndCat(Chunk(parts[i], groups), a, b);
      if one.Err? { return one; }
      ThenAssoc(all, one.value, MergeParts(parts[i + 1..], groups, a, b));
      all := Qkv(all.q + one.value.q, all.k + one.value.k, all.v + one.value.v);
      i := i + 1;
    }
    ThenNothing(all, Ok(Qkv([], [], [])));
    r := Ok(all);
  }

  lemma GroupsOfRank(kvHeads: nat, tpSize: nat)
    requires 0 < tpSize
    ensures kvHeads / tpSize == 0 <==> kvHeads < tpSize
  {
    if kvHeads < tpSize {
      DivUnique(kvHeads, tpSize, 0, kvHeads);
    }
  }

  /** The rows of a rank are so many for every key/value head and its query heads. */
  predicate RowsFit(rows: nat, heads: nat, kvHeads: nat)
    requires 0 < kvHeads
  {
    rows % (heads / kvHeads + 2) == 0
  }

  /** Some chunk of some rank does not have the rows that a group of the first rank has. */
  ghost predicate BadChunk<T>(parts: seq<seq<T>>, heads: nat, kvHeads: nat, tpSize: nat)
    requires 0 < kvHeads && 0 < tpSize && parts != []
  {
    var groups := kvHeads / tpSize;
    groups > 0 && WrongChunk(parts, groups, ChunkRows(KvRows(|parts[0]|, heads, kvHeads), heads / kvHeads, groups))
  }

  function KvRows(rows: nat, heads: nat, kvHeads: nat): nat
    requires 0 < kvHeads
  {
    rows / (heads / kvHeads + 2)
  }

  /** The query, key and value rows of one group. */
  function ChunkRows(kvRows: nat, perKv: nat, groups: nat): nat
    requires 0 < groups
  {
    QueryRows(kvRows, perKv, groups) + 2 * (kvRows / groups)
  }

  /** _merge_across_tp for the attention weights. */
  method MergeAcrossTp<T>(parts: seq<seq<T>>, heads: nat, kvHeads: nat, tpSize: nat) returns (r: Result<Qkv<T>>)
    requires 0 < kvHeads && 0 < tpSize && parts != []
    ensures r == MergeQkv(parts, heads, kvHeads, tpSize)
    ensures r == Err(HeadsNotDivisible) <==> heads % kvHeads != 0
    ensures r == Err(RowsNotDivisible) <==> heads % kvHeads == 0 && !RowsFit(|parts[0]|, heads, kvHeads)
    ensures r == Err(NoGroups) <==> heads % kvHeads == 0 && RowsFit(|parts[0]|, heads, kvHeads) && kvHeads < tpSize
    ensures r == Err(SplitMismatch)
            <==> && heads % kvHeads == 0 && RowsFit(|parts[0]|, heads, kvHeads) && tpSize <= kvHeads
                 && BadChunk(parts, heads, kvHeads, tpSize)
  {
    hide MergeParts, QueryRows, WrongChunk;
    GroupsOfRank(kvHeads, tpSize);
    if heads % kvHeads != 0 { return Err(HeadsNotDivisible); }
    var perKv := heads / kvHeads;
    if |parts[0]| % (perKv + 2) != 0 { return Err(RowsNotDivisible); }
    var kvSize, groups := |parts[0]| / (perKv + 2), kvHeads / tpSize;
    if groups == 0 { return Err(NoGroups); }
    MergeFailsIff(parts, groups, QueryRows(kvSize, perKv, groups), kvSize / groups);
    r := MergeAll(parts, groups, QueryRows(kvSize, perKv, groups), kvSize / groups);
  }

  // ------------------------------------------------------------------------- round trip

  lemma TakeAndDrop<T>(a: seq<T>, b: seq<T>)
    ensures (a + b)[..|a|] == a && (a + b)[|a|..] == b
  {
  }

  lemma SplitCons<T>(c: seq<T>, rest: seq<seq<T>>, a: nat, b: nat)
    requires |c| == a + 2 * b
    ensures SplitChunks([c] + rest, a, b) == Then(Qkv(c[..a], c[a..a + b], c[a + b..]), SplitChunks(rest, a, b))
  {
    TailOfCons(c, rest);
  }

  lemma SplitNothing<T>(a: nat, b: nat)
    ensures SplitChunks<T>([], a, b) == Ok(Qkv([], [], []))
  {
  }

  lemma GroupRows<T>(g: Group<T>, a: nat, b: nat)
    requires Sized(g, a, b)
    ensures var c := g.q + g.k + g.v; |c| == a + 2 * b && c[..a] == g.q && c[a..a + b] == g.k && c[a + b..] == g.v
  {
  }

  lemma {:induction false} SplitInvertsInterleaved<T>(gs: seq<Group<T>>, a: nat, b: nat)
    requires gs != [] && a + 2 * b > 0 && AllSized(gs, a, b)
    ensures SplitChunks(Pieces(Interleaved(gs), a + 2 * b), a, b) == Ok(Separate(gs))
  {
    hide SplitChunks, Then;
    var g, rest, n := gs[0], gs[1..], a + 2 * b;
    var c := g.q + g.k + g.v;
    assert Sized(g, a, b);
    GroupRows(g, a, b);
    TakeAndDrop(c, Interleaved(rest));
    assert forall i :: 0 <= i < |rest| ==> rest[i] == gs[i + 1];
    InterleavedLength(rest, a, b);
    assert Then(Qkv(g.q, g.k, g.v), Ok(Separate(rest))) == Ok(Separate(gs)) by { ThenSeparate(gs); }
    if rest == [] {
      AppendNothing(c);
      SplitCons(c, [], a, b);
      AppendNothing([c]);
      SplitNothing<T>(a, b);
    } else {
      MulOrder(|rest|, n);
      SplitInvertsInterleaved(rest, a, b);
      SplitCons(c, Pieces(Interleaved(rest), n), a, b);
    }
  }

  lemma ThenSeparate<T>(gs: seq<Group<T>>)
    requires gs != []
    ensures Then(Qkv(gs[0].q, gs[0].k, gs[0].v), Ok(Separate(gs[1..]))) == Ok(Separate(gs))
  {
  }

  lemma ChunkOfGroups<T>(rows: seq<T>, groups: nat, n: nat)
    requires groups > 0 && n > 0 && |rows| == groups * n
    ensures Chunk(rows, groups) == Pieces(rows, n)
  {
    MulOrder(groups, n);
    CeilDivExact(n, groups);
    assert n * groups == groups * n;
  }

  lemma MergeCons<T>(part: seq<T>, rest: seq<seq<T>>, groups: nat, a: nat, b: nat, m: Qkv<T>)
    requires groups > 0 && SplitChunks(Chunk(part, groups), a, b) == Ok(m)
    ensures MergeParts([part] + rest, groups, a, b) == Then(m, MergeParts(rest, groups, a, b))
  {
    TailOfCons(part, rest);
  }

  lemma MergeNothing<T>(groups: nat, a: nat, b: nat)
    requires groups > 0
    ensures MergeParts<T>([], groups, a, b) == Ok(Qkv([], [], []))
  {
  }

  lemma {:induction false} SeparateAdds<T>(x: seq<Group<T>>, y: seq<Group<T>>)
    ensures Then(Separate(x), Ok(Separate(y))) == Ok(Separate(x + y))
  {
    if x == [] {
      AppendNothing(y);
      ThenNothing(Separate(x), Ok(Separate(y)));
    } else {
      assert (x + y)[1..] == x[1..] + y;
      SeparateAdds(x[1..], y);
      ThenSeparate(x);
      ThenAssoc(Qkv(x[0].q, x[0].k, x[0].v), Separate(x[1..]), Ok(Separate(y)));
      ThenSeparate(x + y);
    }
  }

  lemma CutCons<T>(x: seq<T>, y: seq<T>, n: nat)
    requires n > 0 && |y| == (n - 1) * |x|
    ensures |x + y| == n * |x| && Cut(x + y, |x|, n) == [x] + Cut(y, |x|, n - 1)
  {
    RowsOfGroups(n, |x|);
    TakeAndDrop(x, y);
  }

  /** The part of one rank, taken apart by itself. */
  lemma OnePart<T>(x: seq<Group<T>>, a: nat, b: nat)
    requires x != [] && a + 2 * b > 0 && AllSized(x, a, b)
    ensures |Interleaved(x)| == |x| * (a + 2 * b)
    ensures SplitChunks(Chunk(Interleaved(x), |x|), a, b) == Ok(Separate(x))
  {
    hide SplitChunks, Chunk, Interleaved, Separate;
    InterleavedLength(x, a, b);
    ChunkOfGroups(Interleaved(x), |x|, a + 2 * b);
    SplitInvertsInterleaved(x, a, b);
  }

  /** A rank's part holds the rows of its own groups, and merging takes every part apart by itself. */
  lemma {:induction false} MergeInvertsCut<T>(gs: seq<Group<T>>, tp: nat, perPart: nat, a: nat, b: nat)
    requires perPart > 0 && a + 2 * b > 0 && |gs| == tp * perPart && AllSized(gs, a, b)
    ensures |Interleaved(gs)| == tp * (perPart * (a + 2 * b))
    ensures MergeParts(Cut(Interleaved(gs), perPart * (a + 2 * b), tp), perPart, a, b) == Ok(Separate(gs))
    decreases tp
  {
    hide SplitChunks, Then, MergeParts, Chunk, Interleaved, Separate;
    if tp == 0 {
      MergeNothing<T>(perPart, a, b);
      NoGroupsLeft<T>();
      assert gs == [];
    } else {
      RowsOfGroups(tp, perPart);
      var x, y := gs[..perPart], gs[perPart..];
      assert gs == x + y;
      InterleavedAdds(x, y);
      SeparateAdds(x, y);
      OnePart(x, a, b);
      MergeInvertsCut(y, tp - 1, perPart, a, b);
      hide Cut, AllSized;
      CutCons(Interleaved(x), Interleaved(y), tp);
      MergeCons(Interleaved(x), Cut(Interleaved(y), |Interleaved(x)|, tp - 1), perPart, a, b, Separate(x));
    }
  }

  lemma NoGroupsLeft<T>()
    ensures Interleaved<T>([]) == [] && Separate<T>([]) == Qkv([], [], [])
  {
  }

  lemma SplitSizes(perPart: nat, perKv: nat, headDim: nat)
    requires perPart > 0
    ensures var rows := perPart * (perKv * headDim + 2 * headDim);
            && rows % (perKv + 2) == 0 && rows / (perKv + 2) == perPart * headDim
            && QueryRows(perPart * headDim, perKv, perPart) == perKv * headDim && perPart * headDim / perPart == headDim
  {
    var kv := perPart * headDim;
    assert perKv * headDim + 2 * headDim == (perKv + 2) * headDim;
    assert perPart * ((perKv + 2) * headDim) == kv * (perKv + 2);
    DivExact(kv, perKv + 2);
    DivExact(headDim, perPart);
    assert kv * perKv == (perKv * headDim) * perPart;
    DivExact(perKv * headDim, perPart);
  }

  /** Interleaving q, k and v by key/value group, cutting the rows over any number of tensor-parallel ranks
      that divides the number of groups, and merging across the ranks returns q, k and v. */
  lemma TensorParallelRoundTrip<T>(m: Qkv<T>, tp: nat, perPart: nat, perKv: nat, headDim: nat)
    requires tp > 0 && perPart > 0 && headDim > 0
    requires |m.q| == tp * perPart * (perKv * headDim) && |m.k| == |m.v| == tp * perPart * headDim
    ensures var kvHeads, a := tp * perPart, perKv * headDim;
            var rows, size := Interleaved(View(m, kvHeads, a, headDim)), perPart * (a + 2 * headDim);
            && |rows| == tp * size && kvHeads > 0
            && MergeQkv(Cut(rows, size, tp), kvHeads * perKv, kvHeads, tp) == Ok(m)
  {
    hide Interleaved, MergeParts, View;
    var kvHeads, a, size := tp * perPart, perKv * headDim, perPart * (perKv * headDim + 2 * headDim);
    var gs := View(m, kvHeads, a, headDim);
    SeparateInvertsView(m, kvHeads, a, headDim);
    MulOrder(perPart, tp);
    MergeInvertsCut(gs, tp, perPart, a, headDim);
    DivExact(perKv, kvHeads);
    assert perKv * kvHeads == kvHeads * perKv;
    DivExact(perPart, tp);
    assert perPart * tp == tp * perPart;
    SplitSizes(perPart, perKv, headDim);
    RowsOfGroups(tp, size);
    assert Cut(Interleaved(gs), size, tp)[0] == Interleaved(gs)[..size];
  }

  /** The unsharded case is the merge of one part. */
  lemma MergeOfOne<T>(tensor: seq<T>, heads: nat, kvHeads: nat)
    requires 0 < kvHeads
    ensures MergeQkv([tensor], heads, kvHeads, 1)
            == if heads % kvHeads != 0 then Err(HeadsNotDivisible)
               else if |tensor| % (heads / kvHeads + 2) != 0 then Err(RowsNotDivisible)
               else
                 var kv := |tensor| / (heads / kvHeads + 2);
                 SplitChunks(Chunk(tensor, kvHeads), QueryRows(kv, heads / kvHeads, kvHeads), kv / kvHeads)
  {
    hide SplitChunks, Chunk, QueryRows;
    if heads % kvHeads == 0 && |tensor| % (heads / kvHeads + 2) == 0 {
      var kv := |tensor| / (heads / kvHeads + 2);
      var a, b := QueryRows(kv, heads / kvHeads, kvHeads), kv / kvHeads;
      var r := SplitChunks(Chunk(tensor, kvHeads), a, b);
      assert [tensor][1..] == [];
      MergeNothing<T>(kvHeads, a, b);
      if r.Ok? {
        ThenNothing(r.value, r);
      }
    }
  }

  /** _split_tensors, on an unsharded tensor. */
  method SplitTensors<T>(tensor: seq<T>, heads: nat, kvHeads: nat) returns (r: Result<Qkv<T>>)
    requires 0 < kvHeads
    ensures r == MergeQkv([tensor], heads, kvHeads, 1)
  {
    hide MergeQkv, Then, Chunk, QueryRows;
    MergeOfOne(tensor, heads, kvHeads);
    if heads % kvHeads != 0 { return Err(HeadsNotDivisible); }
    var perKv := heads / kvHeads;
    if |tensor| % (perKv + 2) != 0 { return Err(RowsNotDivisible); }
    var kvSize := |tensor| / (perKv + 2);
    r := SplitAndCat(Chunk(tensor, kvHeads), QueryRows(kvSize, perKv, kvHeads), kvSize / kvHeads);
  }
}
