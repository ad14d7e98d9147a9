/**
 Putting the layers of a pipeline-parallel checkpoint together: renumbering the local layers of every
 part, and splitting what a rank holds into files.

 A part is the state dict of one pipeline rank or virtual stage: a list of items with distinct keys. A
 key is a layer number with the rest of the name, or a name without a layer number.
 */
module LayerMerge {
  import opened Seqs
  import opened Arith
  import PipelineShards

  datatype Key = LayerKey(no: nat, name: string) | Other(name: string)

  type Part<V> = seq<(Key, V)>

  predicate DistinctKeys<V>(p: Part<V>) {
    forall i, j :: 0 <= i < j < |p| ==> p[i].0 != p[j].0
  }

  // -------------------------------------------------------------------- intervals that tile

  /** Where the i-th of consecutive intervals of the given sizes starts. */
  function Start(sizes: seq<nat>, i: nat): nat
    requires i <= |sizes|
  {
    if i == 0 then 0 else Start(sizes, i - 1) + sizes[i - 1]
  }

  function Total(sizes: seq<nat>): nat {
    Start(sizes, |sizes|)
  }

  predicate InInterval(sizes: seq<nat>, i: nat, x: nat)
    requires i < |sizes|
  {
    Start(sizes, i) <= x < Start(sizes, i + 1)
  }

  lemma {:induction false} StartGrows(sizes: seq<nat>, i: nat, j: nat)
    requires i <= j <= |sizes|
    ensures Start(sizes, i) <= Start(sizes, j)
  {
    if i < j {
      StartGrows(sizes, i, j - 1);
    }
  }

  /** No number is in two of the intervals. */
  lemma IntervalsDisjoint(sizes: seq<nat>, i: nat, j: nat, x: nat)
    requires i < |sizes| && j < |sizes| && InInterval(sizes, i, x) && InInterval(sizes, j, x)
    ensures i == j
  {
    if i < j {
      StartGrows(sizes, i + 1, j);
    } else if j < i {
      StartGrows(sizes, j + 1, i);
    }
  }

  /** Every number below the total is in one of them. */
  lemma {:induction false} Locate(sizes: seq<nat>, n: nat, x: nat) returns (i: nat)
    requires n <= |sizes| && x < Start(sizes, n)
    ensures i < n && InInterval(sizes, i, x)
    decreases n
  {
    if x < Start(sizes, n - 1) {
      i := Locate(sizes, n - 1, x);
    } else {
      i := n - 1;
    }
  }

  // ------------------------------------------------------------------------- renumbering

  /** The largest local layer number that was seen, which starts at zero. */
  function Handled<V>(p: Part<V>): nat {
    if p == [] then 0
    else
      var before, key := Handled(p[..|p| - 1]), p[|p| - 1].0;
      if key.LayerKey? && key.no > before then key.no else before
  }

  function Shift(key: Key, off: nat): Key {
    if key.LayerKey? then LayerKey(key.no + off, key.name) else key
  }

  function AddPart<V>(d: map<Key, V>, p: Part<V>, off: nat): map<Key, V> {
    if p == [] then d
    else AddPart(d, p[..|p| - 1], off)[Shift(p[|p| - 1].0, off) := p[|p| - 1].1]
  }

  /** How far the layer number advances for every part. */
  function Advances<V>(parts: seq<Part<V>>): (sizes: seq<nat>)
    ensures |sizes| == |parts| && forall i :: 0 <= i < |parts| ==> sizes[i] == Handled(parts[i]) + 1
  {
    seq(|parts|, i requires 0 <= i < |parts| => Handled(parts[i]) + 1)
  }

  /** The offset of the i-th part. */
  function Offset<V>(parts: seq<Part<V>>, start: nat, i: nat): nat
    requires i <= |parts|
  {
    start + Start(Advances(parts), i)
  }

  function MergedUpTo<V>(parts: seq<Part<V>>, start: nat, n: nat): map<Key, V>
    requires n <= |parts|
  {
    if n == 0 then map[] else AddPart(MergedUpTo(parts, start, n - 1), parts[n - 1], Offset(parts, start, n - 1))
  }

  /** _merge_state_dicts; start is zero, or the first layer of the rank that merges its own parts. */
  method MergeStateDicts<V>(parts: seq<Part<V>>, start: nat) returns (stateDict: map<Key, V>)
    ensures stateDict == MergedUpTo(parts, start, |parts|)
  {
    stateDict := map[];
    var layersCum := start;
    var n := 0;
    while n < |parts|
      invariant 0 <= n <= |parts|
      invariant layersCum == Offset(parts, start, n)
      invariant stateDict == MergedUpTo(parts, start, n)
    {
      var part := parts[n];
      var layersHandled := 0;
      ghost var before := stateDict;
      var k := 0;
      while k < |part|
        invariant 0 <= k <= |part|
        invariant layersHandled == Handled(part[..k])
        invariant stateDict == AddPart(before, part[..k], layersCum)
      {
        assert part[..k + 1][..k] == part[..k] && part[..k + 1][k] == part[k];
        var (key, tensor) := part[k];
        if key.LayerKey? && key.no > layersHandled {
          layersHandled := key.no;
        }
        stateDict := stateDict[Shift(key, layersCum) := tensor];
        k := k + 1;
      }
      assert part[..|part|] == part;
      layersCum := layersCum + layersHandled + 1;
      n := n + 1;
    }
  }

  lemma {:induction false} HandledIsMax<V>(p: Part<V>)
    ensures forall i :: 0 <= i < |p| && p[i].0.LayerKey? ==> p[i].0.no <= Handled(p)
    ensures Handled(p) == 0 || exists i :: 0 <= i < |p| && p[i].0.LayerKey? && p[i].0.no == Handled(p)
  {
    if p != [] {
      var init, key := p[..|p| - 1], p[|p| - 1].0;
      HandledIsMax(init);
      assert forall i :: 0 <= i < |init| ==> init[i] == p[i];
      if Handled(p) != 0 {
        if key.LayerKey? && key.no == Handled(p) {
          assert p[|p| - 1].0.no == Handled(p);
        } else {
          var i :| 0 <= i < |init| && init[i].0.LayerKey? && init[i].0.no == Handled(init);
          assert p[i].0.no == Handled(p);
        }
      }
    }
  }

  /** Where a part's items end up: every layer of the part in the part's own interval. */
  lemma LayersLandInInterval<V>(parts: seq<Part<V>>, start: nat, i: nat, k: nat)
    requires i < |parts| && k < |parts[i]| && parts[i][k].0.LayerKey?
    ensures Offset(parts, start, i) <= Shift(parts[i][k].0, Offset(parts, start, i)).no < Offset(parts, start, i + 1)
  {
    HandledIsMax(parts[i]);
  }

  lemma {:induction false} AddPartKeys<V>(d: map<Key, V>, p: Part<V>, off: nat)
    ensures forall key :: key in AddPart(d, p, off)
                          <==> key in d || exists k :: 0 <= k < |p| && Shift(p[k].0, off) == key
  {
    if p != [] {
      var init := p[..|p| - 1];
      AddPartKeys(d, init, off);
      assert forall k :: 0 <= k < |init| ==> init[k] == p[k];
      forall key
        ensures key in AddPart(d, p, off) <==> key in d || exists k :: 0 <= k < |p| && Shift(p[k].0, off) == key
      {
        if key == Shift(p[|p| - 1].0, off) {
          assert Shift(p[|p| - 1].0, off) == key;
        } else if exists k :: 0 <= k < |p| && Shift(p[k].0, off) == key {
          var k :| 0 <= k < |p| && Shift(p[k].0, off) == key;
          assert Shift(init[k].0, off) == key;
        }
      }
    }
  }

  lemma {:induction false} AddPartValues<V>(d: map<Key, V>, p: Part<V>, off: nat, k: nat)
    requires DistinctKeys(p) && k < |p|
    ensures Shift(p[k].0, off) in AddPart(d, p, off) && AddPart(d, p, off)[Shift(p[k].0, off)] == p[k].1
  {
    var init := p[..|p| - 1];
    if k < |init| {
      assert forall i :: 0 <= i < |init| ==> init[i] == p[i];
      assert DistinctKeys(init);
      AddPartValues(d, init, off, k);
      assert p[k].0 != p[|p| - 1].0;
    }
  }

  lemma {:induction false} AddPartKeeps<V>(d: map<Key, V>, p: Part<V>, off: nat, key: Key)
    requires key in d && forall k :: 0 <= k < |p| ==> Shift(p[k].0, off) != key
    ensures key in AddPart(d, p, off) && AddPart(d, p, off)[key] == d[key]
  {
    if p != [] {
      var init := p[..|p| - 1];
      assert forall i :: 0 <= i < |init| ==> init[i] == p[i];
      AddPartKeeps(d, init, off, key);
    }
  }

  /** No layer overwrites another: every item of every part is found under its renumbered key. */
  lemma {:induction false} EveryLayerIsKept<V>(parts: seq<Part<V>>, start: nat, n: nat, i: nat, k: nat)
    requires (forall p :: p in parts ==> DistinctKeys(p)) && i < n <= |parts| && k < |parts[i]|
    requires parts[i][k].0.LayerKey?
    ensures var key := Shift(parts[i][k].0, Offset(parts, start, i));
            key in MergedUpTo(parts, start, n) && MergedUpTo(parts, start, n)[key] == parts[i][k].1
    decreases n
  {
    var key := Shift(parts[i][k].0, Offset(parts, start, i));
    var before, last, off := MergedUpTo(parts, start, n - 1), parts[n - 1], Offset(parts, start, n - 1);
    if i == n - 1 {
      AddPartValues(before, last, off, k);
    } else {
      EveryLayerIsKept(parts, start, n - 1, i, k);
      LayersLandInInterval(parts, start, i, k);
      StartGrows(Advances(parts), i + 1, n - 1);
      forall x | 0 <= x < |last|
        ensures Shift(last[x].0, off) != key
      {
        if last[x].0.LayerKey? {
          LayersLandInInterval(parts, start, n - 1, x);
        }
      }
      AddPartKeeps(before, last, off, key);
    }
  }

  /** A name without a layer number keeps its name, and has the value of the last part that has it. */
  lemma {:induction false} OtherKeysAreKept<V>(parts: seq<Part<V>>, start: nat, n: nat, i: nat, k: nat)
    requires (forall p :: p in parts ==> DistinctKeys(p)) && i < n <= |parts| && k < |parts[i]| && parts[i][k].0.Other?
    requires forall j, x :: i < j < n && 0 <= x < |parts[j]| ==> parts[j][x].0 != parts[i][k].0
    ensures parts[i][k].0 in MergedUpTo(parts, start, n) && MergedUpTo(parts, start, n)[parts[i][k].0] == parts[i][k].1
    decreases n
  {
    var before, last, off := MergedUpTo(parts, start, n - 1), parts[n - 1], Offset(parts, start, n - 1);
    if i == n - 1 {
      AddPartValues(before, last, off, k);
    } else {
      OtherKeysAreKept(parts, start, n - 1, i, k);
      AddPartKeeps(before, last, off, parts[i][k].0);
    }
  }

  /** A name without a layer number that is in the merged dict is in some part. */
  lemma {:induction false} OtherKeysHaveAnOrigin<V>(parts: seq<Part<V>>, start: nat, n: nat, key: Key)
    returns (i: nat, k: nat)
    requires n <= |parts| && key.Other? && key in MergedUpTo(parts, start, n)
    ensures i < n && k < |parts[i]| && parts[i][k].0 == key
    decreases n
  {
    i, k := 0, 0;
    if n > 0 {
      var before, last, off := MergedUpTo(parts, start, n - 1), parts[n - 1], Offset(parts, start, n - 1);
      AddPartKeys(before, last, off);
      if key in before {
        i, k := OtherKeysHaveAnOrigin(parts, start, n - 1, key);
      } else {
        var x :| 0 <= x < |last| && Shift(last[x].0, off) == key;
        i, k := n - 1, x;
      }
    }
  }

  /** And nothing else: a layer of the merged dict comes from exactly one part. */
  lemma {:induction false} EveryLayerHasAnOrigin<V>(parts: seq<Part<V>>, start: nat, n: nat, key: Key)
    returns (i: nat, k: nat)
    requires n <= |parts| && key.LayerKey? && key in MergedUpTo(parts, start, n)
    ensures i < n && k < |parts[i]| && parts[i][k].0.LayerKey? && Shift(parts[i][k].0, Offset(parts, start, i)) == key
    decreases n
  {
    i, k := 0, 0;
    if n > 0 {
      var before, last, off := MergedUpTo(parts, start, n - 1), parts[n - 1], Offset(parts, start, n - 1);
      AddPartKeys(before, last, off);
      if key in before {
        i, k := EveryLayerHasAnOrigin(parts, start, n - 1, key);
      } else {
        var x :| 0 <= x < |last| && Shift(last[x].0, off) == key;
        i, k := n - 1, x;
      }
    }
  }

  /** The local layers of a part are 0, ..., layers - 1. */
  ghost predicate HasLayers<V>(p: Part<V>, layers: nat) {
    && (forall k :: 0 <= k < |p| && p[k].0.LayerKey? ==> p[k].0.no < layers)
    && (forall no :: 0 <= no < layers ==> HasLayer(p, no))
  }

  predicate HasLayer<V>(p: Part<V>, no: nat) {
    exists k :: 0 <= k < |p| && p[k].0.LayerKey? && p[k].0.no == no
  }

  lemma AdvanceOf<V>(p: Part<V>, layers: nat)
    requires HasLayers(p, layers)
    ensures Handled(p) + 1 == if layers == 0 then 1 else layers
  {
    HandledIsMax(p);
    if layers > 0 {
      assert HasLayer(p, layers - 1);
    }
  }

  /** Global layer g of the merged dict is some local layer of some part. */
  ghost predicate Hit<V>(parts: seq<Part<V>>, start: nat, g: nat) {
    exists i: nat, no: nat :: i < |parts| && HasLayer(parts[i], no) && g == Offset(parts, start, i) + no
  }

  lemma {:induction false} MergedKeysStay<V>(parts: seq<Part<V>>, start: nat, i: nat, n: nat, k: nat)
    requires i < n <= |parts| && k < |parts[i]|
    ensures Shift(parts[i][k].0, Offset(parts, start, i)) in MergedUpTo(parts, start, n)
    decreases n
  {
    AddPartKeys(MergedUpTo(parts, start, n - 1), parts[n - 1], Offset(parts, start, n - 1));
    if i < n - 1 {
      MergedKeysStay(parts, start, i, n - 1, k);
    }
  }

  /** The merged dict has something of global layer g. */
  ghost predicate HasGlobalLayer<V>(parts: seq<Part<V>>, start: nat, g: nat) {
    exists name :: LayerKey(g, name) in MergedUpTo(parts, start, |parts|)
  }

  lemma HasGlobalLayerIffHit<V>(parts: seq<Part<V>>, start: nat, g: nat)
    ensures HasGlobalLayer(parts, start, g) <==> Hit(parts, start, g)
  {
    hide MergedUpTo, Offset;
    if HasGlobalLayer(parts, start, g) {
      var name :| LayerKey(g, name) in MergedUpTo(parts, start, |parts|);
      var i, k := EveryLayerHasAnOrigin(parts, start, |parts|, LayerKey(g, name));
      assert HasLayer(parts[i], parts[i][k].0.no);
    }
    if Hit(parts, start, g) {
      var i: nat, no: nat :| i < |parts| && HasLayer(parts[i], no) && g == Offset(parts, start, i) + no;
      var k :| 0 <= k < |parts[i]| && parts[i][k].0.LayerKey? && parts[i][k].0.no == no;
      MergedKeysStay(parts, start, i, |parts|, k);
      assert LayerKey(g, parts[i][k].0.name) in MergedUpTo(parts, start, |parts|);
    }
  }

  /** An empty part advances the numbering by one; with that, the offsets are the true first layers
      exactly as long as no empty part is followed by one with layers. */
  predicate EmptyOnesLast(layers: seq<nat>) {
    forall i, j :: 0 <= i < j < |layers| && layers[i] == 0 ==> layers[j] == 0
  }

  lemma {:induction false} OffsetsAreExact<V>(parts: seq<Part<V>>, start: nat, layers: seq<nat>, i: nat)
    requires |layers| == |parts| && (forall j :: 0 <= j < |parts| ==> HasLayers(parts[j], layers[j]))
    requires i <= |parts| && forall j :: 0 <= j < i ==> layers[j] > 0
    ensures Offset(parts, start, i) == start + Start(layers, i)
  {
    if i > 0 {
      OffsetsAreExact(parts, start, layers, i - 1);
      AdvanceOf(parts[i - 1], layers[i - 1]);
    }
  }

  lemma {:induction false} OffsetsAreLate<V>(parts: seq<Part<V>>, start: nat, layers: seq<nat>, i: nat)
    requires |layers| == |parts| && (forall j :: 0 <= j < |parts| ==> HasLayers(parts[j], layers[j])) && i <= |parts|
    ensures Offset(parts, start, i) >= start + Start(layers, i)
    ensures (exists j :: 0 <= j < i && layers[j] == 0) ==> Offset(parts, start, i) > start + Start(layers, i)
  {
    if i > 0 {
      OffsetsAreLate(parts, start, layers, i - 1);
      AdvanceOf(parts[i - 1], layers[i - 1]);
    }
  }

  lemma NoEmptyBefore(layers: seq<nat>, i: nat)
    requires EmptyOnesLast(layers) && i < |layers| && layers[i] > 0
    ensures forall j :: 0 <= j < i ==> layers[j] > 0
  {
  }

  /** The merged dict has the global layers start, ..., start + total - 1, and no other, if and only if every
      empty part comes after all parts that have layers. */
  lemma RenumberingIsExactIff<V>(parts: seq<Part<V>>, start: nat, layers: seq<nat>)
    requires |layers| == |parts| && forall j :: 0 <= j < |parts| ==> HasLayers(parts[j], layers[j])
    ensures (forall g: nat :: HasGlobalLayer(parts, start, g) <==> start <= g < start + Total(layers))
            <==> EmptyOnesLast(layers)
  {
    hide HasGlobalLayer, Hit, EmptyOnesLast, HasLayers;
    forall g: nat ensures HasGlobalLayer(parts, start, g) <==> Hit(parts, start, g) {
      HasGlobalLayerIffHit(parts, start, g);
    }
    HitsAreExactIff(parts, start, layers);
  }

  lemma HitsAreExactIff<V>(parts: seq<Part<V>>, start: nat, layers: seq<nat>)
    requires |layers| == |parts| && forall j :: 0 <= j < |parts| ==> HasLayers(parts[j], layers[j])
    ensures (forall g: nat :: Hit(parts, start, g) <==> start <= g < start + Total(layers)) <==> EmptyOnesLast(layers)
  {
    if EmptyOnesLast(layers) {
      forall g: nat
        ensures Hit(parts, start, g) <==> start <= g < start + Total(layers)
      {
        RenumberingHits(parts, start, layers, g);
      }
    } else {
      var i, j :| 0 <= i < j < |layers| && layers[i] == 0 && layers[j] != 0;
      var m := LastNonEmpty(layers, j);
      OffsetsAreLate(parts, start, layers, m);
      var g := Offset(parts, start, m) + (layers[m] - 1);
      assert HasLayer(parts[m], layers[m] - 1);
      assert Hit(parts, start, g);
      TotalFromLast(layers, m);
      assert g >= start + Total(layers);
    }
  }

  lemma {:induction false} LastNonEmpty(layers: seq<nat>, j: nat) returns (m: nat)
    requires j < |layers| && layers[j] != 0
    ensures j <= m < |layers| && layers[m] != 0 && forall k :: m < k < |layers| ==> layers[k] == 0
    decreases |layers| - j
  {
    if k :| j < k < |layers| && layers[k] != 0 {
      m := LastNonEmpty(layers, k);
    } else {
      m := j;
    }
  }

  lemma {:induction false} StartStays(layers: seq<nat>, i: nat, j: nat)
    requires i <= j <= |layers| && forall k :: i <= k < j ==> layers[k] == 0
    ensures Start(layers, j) == Start(layers, i)
  {
    if i < j {
      StartStays(layers, i, j - 1);
    }
  }

  lemma TotalFromLast(layers: seq<nat>, m: nat)
    requires m < |layers| && forall k :: m < k < |layers| ==> layers[k] == 0
    ensures Total(layers) == Start(layers, m) + layers[m]
  {
    StartStays(layers, m + 1, |layers|);
  }

  lemma RenumberingHits<V>(parts: seq<Part<V>>, start: nat, layers: seq<nat>, g: nat)
    requires |layers| == |parts| && (forall j :: 0 <= j < |parts| ==> HasLayers(parts[j], layers[j]))
    requires EmptyOnesLast(layers)
    ensures Hit(parts, start, g) <==> start <= g < start + Total(layers)
  {
    hide Start, Offset, EmptyOnesLast, HasLayer;
    if Hit(parts, start, g) {
      var i: nat, no: nat :| i < |parts| && HasLayer(parts[i], no) && g == Offset(parts, start, i) + no;
      LayerInRange(parts[i], layers[i], no);
      NoEmptyBefore(layers, i);
      OffsetsAreExact(parts, start, layers, i);
      StartNext(layers, i);
      StartGrows(layers, i + 1, |layers|);
    }
    if start <= g < start + Total(layers) {
      var i := Locate(layers, |layers|, g - start);
      StartNext(layers, i);
      NoEmptyBefore(layers, i);
      OffsetsAreExact(parts, start, layers, i);
      assert HasLayer(parts[i], g - start - Start(layers, i));
    }
  }

  // -------------------------------------------------------------------- across the ranks

  lemma {:induction false} StartIsPrefixSum(shards: seq<nat>, r: nat)
    requires r <= |shards|
    ensures Start(shards, r) == PipelineShards.Sum(shards[..r])
  {
    if r > 0 {
      StartIsPrefixSum(shards, r - 1);
      assert shards[..r] == shards[..r - 1] + [shards[r - 1]];
      PipelineShards.SumAdds(shards[..r - 1], [shards[r - 1]]);
      PipelineShards.SumOfOne(shards[r - 1]);
    }
  }

  /** When the ranks merge their parts by themselves, each from the first layer its pipeline shard has, the
      ranks together hit every layer of the model, and no layer belongs to two ranks. */
  lemma RanksTileTheModel(layerNum: nat, ppSize: nat, shards: seq<nat>, g: nat) returns (rank: nat)
    requires PipelineShards.Shards(layerNum, ppSize) == PipelineShards.Ok(shards) && g < layerNum
    ensures |shards| == ppSize && Total(shards) == layerNum
    ensures rank < |shards| && InInterval(shards, rank, g)
    ensures forall r :: 0 <= r < |shards| && InInterval(shards, r, g) ==> r == rank
  {
    TotalOfShards(layerNum, ppSize, shards);
    rank := Locate(shards, |shards|, g);
    forall r | 0 <= r < |shards| && InInterval(shards, r, g) ensures r == rank {
      IntervalsDisjoint(shards, r, rank, g);
    }
  }

  /** Every rank has merged its own parts, which together have the layers of its shard. */
  ghost predicate RanksHave<V>(shards: seq<nat>, ranks: seq<seq<Part<V>>>, layersOf: seq<seq<nat>>) {
    && |ranks| == |layersOf| == |shards|
    && forall r :: 0 <= r < |shards| ==>
         && |layersOf[r]| == |ranks[r]| && Total(layersOf[r]) == shards[r]
         && forall j :: 0 <= j < |ranks[r]| ==> HasLayers(ranks[r][j], layersOf[r][j])
  }

  /** The dict that rank r has merged has something of global layer g. */
  ghost predicate RankHits<V>(shards: seq<nat>, ranks: seq<seq<Part<V>>>, r: nat, g: nat)
    requires |ranks| == |shards|
  {
    r < |ranks| && HasGlobalLayer(ranks[r], Start(shards, r), g)
  }

  ghost predicate HitByOneRank<V>(shards: seq<nat>, ranks: seq<seq<Part<V>>>, g: nat)
    requires |ranks| == |shards|
  {
    exists r: nat :: RankHits(shards, ranks, r, g) && forall q: nat :: RankHits(shards, ranks, q, g) ==> q == r
  }

  lemma RankHitsItsShard<V>(shards: seq<nat>, ranks: seq<seq<Part<V>>>, layersOf: seq<seq<nat>>, r: nat, g: nat)
    requires RanksHave(shards, ranks, layersOf) && r < |shards| && EmptyOnesLast(layersOf[r])
    ensures RankHits(shards, ranks, r, g) <==> InInterval(shards, r, g)
  {
    HasGlobalLayerIffHit(ranks[r], Start(shards, r), g);
    RenumberingHits(ranks[r], Start(shards, r), layersOf[r], g);
  }

  /** The first layer after an empty part is numbered too late, and nothing else gets its number. */
  lemma HoleAfterEmptyPart<V>(parts: seq<Part<V>>, start: nat, layers: seq<nat>) returns (g: nat)
    requires |layers| == |parts| && (forall j :: 0 <= j < |parts| ==> HasLayers(parts[j], layers[j]))
    requires !EmptyOnesLast(layers)
    ensures start <= g < start + Total(layers) && !Hit(parts, start, g)
  {
    var i, j :| 0 <= i < j < |layers| && layers[i] == 0 && layers[j] != 0;
    i := FirstEmpty(layers, i);
    g := start + Start(layers, i);
    StartGrows(layers, i, j);
    StartGrows(layers, j + 1, |layers|);
    forall k: nat, no: nat | k < |parts| && HasLayer(parts[k], no)
      ensures g != Offset(parts, start, k) + no
    {
      NotAtHole(parts, start, layers, i, k, no);
    }
  }

  lemma NotAtHole<V>(parts: seq<Part<V>>, start: nat, layers: seq<nat>, i: nat, k: nat, no: nat)
    requires |layers| == |parts| && (forall j :: 0 <= j < |parts| ==> HasLayers(parts[j], layers[j]))
    requires i < |layers| && layers[i] == 0 && (forall j :: 0 <= j < i ==> layers[j] > 0)
    requires k < |parts| && HasLayer(parts[k], no)
    ensures start + Start(layers, i) != Offset(parts, start, k) + no
  {
    hide Start, Offset;
    assert no < layers[k] by { LayerInRange(parts[k], layers[k], no); }
    if k < i {
      OffsetsAreExact(parts, start, layers, k);
      StartGrows(layers, k + 1, i);
      StartNext(layers, k);
    } else {
      OffsetsAreLate(parts, start, layers, k);
      StartGrows(layers, i, k);
    }
  }

  lemma StartNext(layers: seq<nat>, k: nat)
    requires k < |layers|
    ensures Start(layers, k + 1) == Start(layers, k) + layers[k]
  {
  }

  lemma LayerInRange<V>(p: Part<V>, layers: nat, no: nat)
    requires HasLayers(p, layers) && HasLayer(p, no)
    ensures no < layers
  {
  }

  lemma {:induction false} FirstEmpty(layers: seq<nat>, i: nat) returns (f: nat)
    requires i < |layers| && layers[i] == 0
    ensures f <= i && layers[f] == 0 && forall j :: 0 <= j < f ==> layers[j] > 0
  {
    if j :| 0 <= j < i && layers[j] == 0 {
      f := FirstEmpty(layers, j);
    } else {
      f := i;
    }
  }

  lemma HitsComeLater<V>(parts: seq<Part<V>>, start: nat, g: nat)
    requires Hit(parts, start, g)
    ensures g >= start
  {
  }

  lemma {:induction false} FirstBadRank(layersOf: seq<seq<nat>>, r: nat) returns (f: nat)
    requires r < |layersOf| && !EmptyOnesLast(layersOf[r])
    ensures f < |layersOf| && !EmptyOnesLast(layersOf[f]) && forall q :: 0 <= q < f ==> EmptyOnesLast(layersOf[q])
  {
    if q :| 0 <= q < r && !EmptyOnesLast(layersOf[q]) {
      f := FirstBadRank(layersOf, q);
    } else {
      f := r;
    }
  }

  /** When the ranks merge their parts by themselves, each from the first layer its pipeline shard has: every
      layer of the model is in exactly one rank's dict if and only if on no rank an empty part is followed by
      one with layers. */
  lemma LayersAreSharedOutIff<V>(layerNum: nat, ppSize: nat, shards: seq<nat>, ranks: seq<seq<Part<V>>>,
                                 layersOf: seq<seq<nat>>)
    requires PipelineShards.Shards(layerNum, ppSize) == PipelineShards.Ok(shards) && RanksHave(shards, ranks, layersOf)
    ensures (forall g :: 0 <= g < layerNum ==> HitByOneRank(shards, ranks, g))
            <==> forall r :: 0 <= r < |shards| ==> EmptyOnesLast(layersOf[r])
  {
    hide RanksHave, RankHits, EmptyOnesLast, PipelineShards.Shards;
    SameLengths(shards, ranks, layersOf);
    if forall r :: 0 <= r < |shards| ==> EmptyOnesLast(layersOf[r]) {
      forall g | 0 <= g < layerNum
        ensures HitByOneRank(shards, ranks, g)
      {
        var r := RanksTileTheModel(layerNum, ppSize, shards, g);
        HitByOwner(shards, ranks, layersOf, r, g);
      }
    } else {
      var r :| 0 <= r < |shards| && !EmptyOnesLast(layersOf[r]);
      r := FirstBadRank(layersOf, r);
      var g := HoleInShard(shards, ranks, layersOf, r);
      TotalOfShards(layerNum, ppSize, shards);
      StartGrows(shards, r + 1, |shards|);
      assert !HitByOneRank(shards, ranks, g);
    }
  }

  lemma SameLengths<V>(shards: seq<nat>, ranks: seq<seq<Part<V>>>, layersOf: seq<seq<nat>>)
    requires RanksHave(shards, ranks, layersOf)
    ensures |ranks| == |layersOf| == |shards|
  {
  }

  lemma TotalOfShards(layerNum: nat, ppSize: nat, shards: seq<nat>)
    requires PipelineShards.Shards(layerNum, ppSize) == PipelineShards.Ok(shards)
    ensures |shards| == ppSize && Total(shards) == layerNum
  {
    PipelineShards.ShardsAreAPartition(layerNum, ppSize);
    StartIsPrefixSum(shards, |shards|);
    assert shards[..|shards|] == shards;
  }

  lemma HitByOwner<V>(shards: seq<nat>, ranks: seq<seq<Part<V>>>, layersOf: seq<seq<nat>>, r: nat, g: nat)
    requires RanksHave(shards, ranks, layersOf) && forall q :: 0 <= q < |shards| ==> EmptyOnesLast(layersOf[q])
    requires r < |shards| && InInterval(shards, r, g)
    ensures RankHits(shards, ranks, r, g) && forall q: nat :: RankHits(shards, ranks, q, g) ==> q == r
  {
    hide EmptyOnesLast, HasGlobalLayer;
    RankHitsItsShard(shards, ranks, layersOf, r, g);
    forall q: nat | RankHits(shards, ranks, q, g) ensures q == r {
      RankHitsItsShard(shards, ranks, layersOf, q, g);
      IntervalsDisjoint(shards, q, r, g);
    }
  }

  lemma HoleInShard<V>(shards: seq<nat>, ranks: seq<seq<Part<V>>>, layersOf: seq<seq<nat>>, r: nat) returns (g: nat)
    requires RanksHave(shards, ranks, layersOf) && r < |shards| && !EmptyOnesLast(layersOf[r])
    requires forall q :: 0 <= q < r ==> EmptyOnesLast(layersOf[q])
    ensures InInterval(shards, r, g) && forall q: nat :: !RankHits(shards, ranks, q, g)
  {
    hide EmptyOnesLast, Hit, HasGlobalLayer;
    g := HoleAfterEmptyPart(ranks[r], Start(shards, r), layersOf[r]);
    HasGlobalLayerIffHit(ranks[r], Start(shards, r), g);
    forall q: nat | q != r ensures !RankHits(shards, ranks, q, g) {
      if RankHits(shards, ranks, q, g) {
        if q < r {
          RankHitsItsShard(shards, ranks, layersOf, q, g);
          IntervalsDisjoint(shards, q, r, g);
        } else {
          HasGlobalLayerIffHit(ranks[q], Start(shards, q), g);
          HitsComeLater(ranks[q], Start(shards, q), g);
          StartGrows(shards, r + 1, q);
        }
        assert false;
      }
    }
  }

  // --------------------------------------------------------------------------- save files

  /** numpy.array_split: the first |keys| % n chunks have one element more. */
  function ArraySplit<T>(keys: seq<T>, n: nat): (chunks: seq<seq<T>>)
    requires n > 0
    ensures |chunks| == n
    decreases n
  {
    if n == 1 then [keys]
    else
      SplitSize(|keys|, n);
      var size := CeilDiv(|keys|, n);
      [keys[..size]] + ArraySplit(keys[size..], n - 1)
  }

  lemma SplitSize(k: nat, n: nat)
    requires n > 0
    ensures 0 <= CeilDiv(k, n) <= k
  {
    CeilDivBounds(k, n);
    var c := CeilDiv(k, n);
    MulOrder(-c, n);
    assert (-c) * n == -(c * n);
    if c > 0 {
      MulOrder(c - 1, n);
      Monotone(1, n, c - 1);
      assert (c - 1) * n == n * (c - 1) && 1 * (c - 1) == c - 1;
    }
  }

  /** Splitting loses and repeats nothing: every key is in exactly one chunk. */
  lemma {:induction false} ArraySplitPartitions<T>(keys: seq<T>, n: nat)
    requires n > 0
    ensures Flatten(ArraySplit(keys, n)) == keys
    decreases n
  {
    if n == 1 {
      assert Flatten([keys]) == keys + Flatten([]) by { assert [keys][1..] == []; }
      AppendNothing(keys);
    } else {
      SplitSize(|keys|, n);
      var size := CeilDiv(|keys|, n);
      ArraySplitPartitions(keys[size..], n - 1);
      TailOfCons(keys[..size], ArraySplit(keys[size..], n - 1));
      assert keys[..size] + keys[size..] == keys;
    }
  }

  /** The keys are spread evenly: every chunk has |keys| / n of them, and the first |keys| % n chunks one more. */
  lemma {:induction false} ArraySplitSizes<T>(keys: seq<T>, n: nat, i: nat)
    requires i < n
    ensures |ArraySplit(keys, n)[i]| == |keys| / n + if i < |keys| % n then 1 else 0
    decreases n
  {
    hide CeilDiv;
    if n == 1 {
      DivUnique(|keys|, 1, |keys|, 0);
    } else {
      SplitSize(|keys|, n);
      CeilDivIs(|keys|, n);
      if i > 0 {
        RestOfSplit(|keys|, n);
        ArraySplitSizes(keys[CeilDiv(|keys|, n)..], n - 1, i - 1);
      }
    }
  }

  lemma CeilDivIs(k: nat, n: nat)
    requires n > 0
    ensures CeilDiv(k, n) == k / n + if k % n > 0 then 1 else 0
  {
    var q, r := k / n, k % n;
    assert k == q * n + r;
    Distributes(q, 1, n);
    if r > 0 {
      DivUnique(k + n - 1, n, q + 1, r - 1);
    } else {
      DivUnique(k + n - 1, n, q, n - 1);
    }
  }

  /** What is left after the first of n chunks has the same quotient, and a remainder that is one less. */
  lemma RestOfSplit(k: nat, n: nat)
    requires n > 1
    ensures var rest, q, r := k - CeilDiv(k, n), k / n, k % n;
            rest >= 0 && rest / (n - 1) == q && rest % (n - 1) == if r > 0 then r - 1 else 0
  {
    hide CeilDiv;
    CeilDivIs(k, n);
    SplitSize(k, n);
    var q, r := k / n, k % n;
    assert k == q * n + r;
    Distributes(n, 1, q);
    assert (n - 1) * q == q * (n - 1) && n * q == q * n;
    DivUnique(k - CeilDiv(k, n), n - 1, q, if r > 0 then r - 1 else 0);
  }

  function SavesPerLayer(layerNum: nat): (saves: nat)
    ensures saves == 1 <==> layerNum <= 29
    ensures 1 <= saves <= 2
  {
    if layerNum < 30 then 1 else 2
  }

  /** The index names, for every key, a file that holds the key; files[i] is the file number first + i. */
  predicate Indexed<K(==)>(indexes: map<K, nat>, files: seq<seq<K>>, first: nat) {
    forall k :: k in indexes ==> first <= indexes[k] < first + |files| && k in files[indexes[k] - first]
  }

  /** sd_to_save for one file: every key of the file is entered in the index. */
  method SaveFile<K(==)>(indexes0: map<K, nat>, files: seq<seq<K>>, keys: seq<K>, first: nat)
    returns (indexes: map<K, nat>)
    requires Indexed(indexes0, files, first)
    ensures indexes.Keys == indexes0.Keys + set k | k in keys
    ensures Indexed(indexes, files + [keys], first)
  {
    indexes := indexes0;
    var j := 0;
    assert Indexed(indexes, files + [keys], first);
    while j < |keys|
      invariant 0 <= j <= |keys|
      invariant indexes.Keys == indexes0.Keys + set k | k in keys[..j]
      invariant Indexed(indexes, files + [keys], first)
    {
      indexes := indexes[keys[j] := first + |files|];
      TakeOneMore(keys, j);
      j := j + 1;
    }
    assert keys[..j] == keys;
  }

  /** What the save loop of one rank writes: its files, and the entries of the index. */
  method SaveAll<K(==)>(keys: seq<K>, layerStart: nat, layersThisRank: nat, savesPerLayer: nat)
    returns (indexes: map<K, nat>, files: seq<seq<K>>)
    requires layersThisRank * savesPerLayer > 0
    ensures |files| == layersThisRank * savesPerLayer && Flatten(files) == keys
    ensures forall i :: 0 <= i < |files| ==> |files[i]| == |keys| / |files| + if i < |keys| % |files| then 1 else 0
    ensures indexes.Keys == set k | k in keys
    ensures Indexed(indexes, files, layerStart * savesPerLayer)
  {
    var n, first := layersThisRank * savesPerLayer, layerStart * savesPerLayer;
    var chunks := ArraySplit(keys, n);
    ArraySplitPartitions(keys, n);
    indexes, files := map[], [];
    var i := 0;
    while i < n
      invariant 0 <= i <= n && files == chunks[..i]
      invariant indexes.Keys == set k | k in Flatten(files)
      invariant Indexed(indexes, files, first)
    {
      indexes := SaveFile(indexes, files, chunks[i], first);
      FlattenSnoc(files, chunks[i]);
      TakeOneMore(chunks, i);
      files := files + [chunks[i]];
      i := i + 1;
    }
    assert chunks[..n] == chunks;
    forall i | 0 <= i < n ensures |chunks[i]| == |keys| / n + if i < |keys| % n then 1 else 0 {
      ArraySplitSizes(keys, n, i);
    }
  }

  ghost predicate AllDifferent<K>(keys: seq<K>) {
    forall x, y :: 0 <= x < y < |keys| ==> keys[x] != keys[y]
  }

  /** A key of a rank is in at most one of the files the rank writes. */
  lemma {:induction false} OneFilePerKey<K>(files: seq<seq<K>>, i: nat, j: nat, k: K)
    requires AllDifferent(Flatten(files))
    requires i < |files| && j < |files| && k in files[i] && k in files[j]
    ensures i == j
  {
    var a, rest, all := files[0], Flatten(files[1..]), Flatten(files);
    assert all == a + rest;
    if i > 0 && j > 0 {
      forall x, y | 0 <= x < y < |rest| ensures rest[x] != rest[y] {
        assert all[|a| + x] != all[|a| + y];
      }
      OneFilePerKey(files[1..], i - 1, j - 1, k);
    } else if i != j {
      var other := if i == 0 then j else i;
      assert files[1..][other - 1] == files[other];
      InFlatten(files[1..], other - 1, k);
      HeadNotInTail(files, k);
    }
  }

  lemma HeadNotInTail<K>(files: seq<seq<K>>, k: K)
    requires AllDifferent(Flatten(files))
    requires files != [] && k in files[0]
    ensures k !in Flatten(files[1..])
  {
    var a, rest, all := files[0], Flatten(files[1..]), Flatten(files);
    assert all == a + rest;
    var x :| 0 <= x < |a| && a[x] == k;
    assert all[x] == k;
    forall y | 0 <= y < |rest| ensures rest[y] != k {
      assert all[|a| + y] == rest[y];
    }
  }

  lemma {:induction false} InFlatten<T>(chunks: seq<seq<T>>, i: nat, x: T)
    requires i < |chunks| && x in chunks[i]
    ensures x in Flatten(chunks)
  {
    if i > 0 {
      InFlatten(chunks[1..], i - 1, x);
    }
  }

  lemma {:induction false} StartScales(shards: seq<nat>, s: nat, r: nat)
    requires r <= |shards|
    ensures Start(Scaled(shards, s), r) == Start(shards, r) * s
  {
    if r > 0 {
      StartScales(shards, s, r - 1);
      Distributes(Start(shards, r - 1), shards[r - 1], s);
    }
  }

  function Scaled(shards: seq<nat>, s: nat): (t: seq<nat>)
    ensures |t| == |shards| && forall i :: 0 <= i < |shards| ==> t[i] == shards[i] * s
  {
    seq(|shards|, i requires 0 <= i < |shards| => (shards[i] * s) as nat)
  }

  /** Across the ranks the save indices are 0, ..., saves_total - 1, each exactly once: a file is written by
      exactly one rank, as one of that rank's files. */
  lemma EveryFileIsWrittenOnce(layerNum: nat, ppSize: nat, shards: seq<nat>, file: nat) returns (rank: nat)
    requires PipelineShards.Shards(layerNum, ppSize) == PipelineShards.Ok(shards)
    requires file < SavesPerLayer(layerNum) * layerNum
    ensures var s := SavesPerLayer(layerNum);
            && rank < |shards| == ppSize
            && Start(shards, rank) * s <= file < Start(shards, rank) * s + shards[rank] * s
            && forall r :: 0 <= r < |shards| && Start(shards, r) * s <= file < Start(shards, r) * s + shards[r] * s ==>
                 r == rank
  {
    var s := SavesPerLayer(layerNum);
    TotalOfShards(layerNum, ppSize, shards);
    StartScales(shards, s, |shards|);
    assert Total(Scaled(shards, s)) == layerNum * s == s * layerNum;
    rank := Locate(Scaled(shards, s), |shards|, file);
    StartScales(shards, s, rank);
    forall r | 0 <= r < |shards| && Start(shards, r) * s <= file < Start(shards, r) * s + shards[r] * s
      ensures r == rank
    {
      StartScales(shards, s, r);
      IntervalsDisjoint(Scaled(shards, s), r, rank, file);
    }
  }

  // ------------------------------------------------------------- the files of all the ranks

  /** What one rank has saved. */
  datatype Saved<K> = Saved(keys: seq<K>, indexes: map<K, nat>, files: seq<seq<K>>)

  /** What SaveAll gives for the distinct keys of a merged dict. */
  ghost predicate SavedRank<K>(shards: seq<nat>, s: nat, r: nat, d: Saved<K>)
    requires r < |shards|
  {
    && AllDifferent(d.keys) && Flatten(d.files) == d.keys && |d.files| == shards[r] * s
    && d.indexes.Keys == (set k | k in d.keys)
    && Indexed(d.indexes, d.files, Start(shards, r) * s)
  }

  ghost predicate SavedRanks<K>(shards: seq<nat>, s: nat, saved: seq<Saved<K>>) {
    |saved| == |shards| && forall r :: 0 <= r < |shards| ==> SavedRank(shards, s, r, saved[r])
  }

  /** {k: v for i in all_save_indexes for k, v in i.items()} */
  function AllIndexes<K>(saved: seq<Saved<K>>): map<K, nat> {
    IndexesUpTo(saved, |saved|)
  }

  function IndexesUpTo<K>(saved: seq<Saved<K>>, n: nat): map<K, nat>
    requires n <= |saved|
  {
    if n == 0 then map[] else IndexesUpTo(saved, n - 1) + saved[n - 1].indexes
  }

  /** The key is in the file that rank r writes as its i-th. */
  predicate InFile<K(==)>(saved: seq<Saved<K>>, r: nat, i: nat, k: K) {
    r < |saved| && i < |saved[r].files| && k in saved[r].files[i]
  }

  /** The file with this save index holds the key. */
  ghost predicate Holds<K>(shards: seq<nat>, s: nat, saved: seq<Saved<K>>, file: nat, k: K)
    requires |saved| == |shards|
  {
    exists r: nat, i: nat :: InFile(saved, r, i, k) && file == Start(shards, r) * s + i
  }

  ghost predicate InOneFile<K>(shards: seq<nat>, s: nat, saved: seq<Saved<K>>, k: K)
    requires |saved| == |shards|
  {
    exists file :: Holds(shards, s, saved, file, k) && forall f :: Holds(shards, s, saved, f, k) ==> f == file
  }

  predicate HasKey<K(==)>(saved: seq<Saved<K>>, r: nat, k: K) {
    r < |saved| && k in saved[r].keys
  }

  ghost predicate OnOneRank<K>(saved: seq<Saved<K>>, k: K) {
    exists r: nat :: HasKey(saved, r, k) && forall q: nat :: HasKey(saved, q, k) ==> q == r
  }

  lemma IndexHolds<K>(shards: seq<nat>, s: nat, saved: seq<Saved<K>>, r: nat, k: K)
    requires SavedRanks(shards, s, saved) && r < |saved|
    ensures k in saved[r].indexes <==> HasKey(saved, r, k)
    ensures k in saved[r].indexes ==> Holds(shards, s, saved, saved[r].indexes[k], k)
  {
    hide AllDifferent, Start;
    assert SavedRank(shards, s, r, saved[r]);
    if k in saved[r].indexes {
      assert InFile(saved, r, saved[r].indexes[k] - Start(shards, r) * s, k);
    }
  }

  lemma {:induction false} IndexedSomewhere<K>(shards: seq<nat>, s: nat, saved: seq<Saved<K>>, n: nat, k: K)
    requires SavedRanks(shards, s, saved) && n <= |saved|
    ensures k in IndexesUpTo(saved, n) <==> KeyBefore(saved, n, k)
    ensures k in IndexesUpTo(saved, n) ==> Holds(shards, s, saved, IndexesUpTo(saved, n)[k], k)
  {
    ManySaved(shards, s, saved);
    hide SavedRanks, Holds, HasKey;
    if n > 0 {
      IndexedSomewhere(shards, s, saved, n - 1, k);
      IndexHolds(shards, s, saved, n - 1, k);
    }
  }

  ghost predicate KeyBefore<K>(saved: seq<Saved<K>>, n: nat, k: K) {
    n > 0 && (KeyBefore(saved, n - 1, k) || HasKey(saved, n - 1, k))
  }

  lemma {:induction false} KeyBeforeIs<K>(saved: seq<Saved<K>>, n: nat, k: K)
    ensures KeyBefore(saved, n, k) <==> exists r: nat :: r < n && HasKey(saved, r, k)
  {
    hide HasKey;
    if n > 0 {
      KeyBeforeIs(saved, n - 1, k);
    }
  }

  lemma FileOfKey<K>(shards: seq<nat>, s: nat, saved: seq<Saved<K>>, r: nat, k: K)
    requires SavedRanks(shards, s, saved) && HasKey(saved, r, k)
    ensures exists i: nat :: InFile(saved, r, i, k)
  {
    assert SavedRank(shards, s, r, saved[r]);
    var i := saved[r].indexes[k] - Start(shards, r) * s;
    assert InFile(saved, r, i, k);
  }

  lemma KeyOfFile<K>(shards: seq<nat>, s: nat, saved: seq<Saved<K>>, r: nat, i: nat, k: K)
    requires SavedRanks(shards, s, saved) && InFile(saved, r, i, k)
    ensures HasKey(saved, r, k)
    ensures Start(shards, r) * s <= Start(shards, r) * s + i < Start(shards, r) * s + shards[r] * s
  {
    assert SavedRank(shards, s, r, saved[r]);
    InFlatten(saved[r].files, i, k);
  }

  /** Files of different ranks have different save indices. */
  lemma FilesApart(shards: seq<nat>, s: nat, r: nat, q: nat, file: nat)
    requires r < |shards| && q < |shards|
    requires Start(shards, r) * s <= file < Start(shards, r) * s + shards[r] * s
    requires Start(shards, q) * s <= file < Start(shards, q) * s + shards[q] * s
    ensures r == q
  {
    FileInterval(shards, s, r, file);
    FileInterval(shards, s, q, file);
    IntervalsDisjoint(Scaled(shards, s), r, q, file);
  }

  lemma FileInterval(shards: seq<nat>, s: nat, r: nat, file: nat)
    requires r < |shards| && Start(shards, r) * s <= file < Start(shards, r) * s + shards[r] * s
    ensures InInterval(Scaled(shards, s), r, file)
  {
    StartScales(shards, s, r);
  }

  /** A key that is saved at all is in the index, which names a file that holds it; and it is in exactly one
      file if and only if exactly one rank has it. */
  lemma KeyIsInOneFileIff<K>(shards: seq<nat>, s: nat, saved: seq<Saved<K>>, k: K)
    requires SavedRanks(shards, s, saved)
    ensures k in AllIndexes(saved) <==> exists r: nat :: HasKey(saved, r, k)
    ensures k in AllIndexes(saved) ==> Holds(shards, s, saved, AllIndexes(saved)[k], k)
    ensures InOneFile(shards, s, saved, k) <==> OnOneRank(saved, k)
  {
    hide SavedRanks, HasKey, InFile;
    ManySaved(shards, s, saved);
    IndexedSomewhere(shards, s, saved, |saved|, k);
    KeyBeforeIs(saved, |saved|, k);
    HasKeyInRange(saved, k);
    if OnOneRank(saved, k) {
      var r: nat :| HasKey(saved, r, k) && forall q: nat :: HasKey(saved, q, k) ==> q == r;
      OneRankOneFile(shards, s, saved, r, k);
    }
    if InOneFile(shards, s, saved, k) {
      var file :| Holds(shards, s, saved, file, k) && forall f :: Holds(shards, s, saved, f, k) ==> f == file;
      OneFileOneRank(shards, s, saved, file, k);
    }
  }

  lemma ManySaved<K>(shards: seq<nat>, s: nat, saved: seq<Saved<K>>)
    requires SavedRanks(shards, s, saved)
    ensures |saved| == |shards|
  {
  }

  lemma HasKeyInRange<K>(saved: seq<Saved<K>>, k: K)
    ensures forall r: nat :: HasKey(saved, r, k) ==> r < |saved|
  {
  }

  lemma OneRankOneFile<K>(shards: seq<nat>, s: nat, saved: seq<Saved<K>>, r: nat, k: K)
    requires SavedRanks(shards, s, saved) && HasKey(saved, r, k) && forall q: nat :: HasKey(saved, q, k) ==> q == r
    ensures InOneFile(shards, s, saved, k)
  {
    hide AllDifferent, Start;
    FileOfKey(shards, s, saved, r, k);
    var i: nat :| InFile(saved, r, i, k);
    var file := Start(shards, r) * s + i;
    assert Holds(shards, s, saved, file, k);
    forall f | Holds(shards, s, saved, f, k) ensures f == file {
      var q: nat, j: nat :| InFile(saved, q, j, k) && f == Start(shards, q) * s + j;
      KeyOfFile(shards, s, saved, q, j, k);
      SameFile(shards, s, saved, r, i, j, k);
    }
  }

  lemma SameFile<K>(shards: seq<nat>, s: nat, saved: seq<Saved<K>>, r: nat, i: nat, j: nat, k: K)
    requires SavedRanks(shards, s, saved) && InFile(saved, r, i, k) && InFile(saved, r, j, k)
    ensures i == j
  {
    assert SavedRank(shards, s, r, saved[r]);
    OneFilePerKey(saved[r].files, i, j, k);
  }

  lemma OneFileOneRank<K>(shards: seq<nat>, s: nat, saved: seq<Saved<K>>, file: nat, k: K)
    requires SavedRanks(shards, s, saved) && Holds(shards, s, saved, file, k)
    requires forall f :: Holds(shards, s, saved, f, k) ==> f == file
    ensures OnOneRank(saved, k)
  {
    hide AllDifferent, Start;
    var r: nat, i: nat :| InFile(saved, r, i, k) && file == Start(shards, r) * s + i;
    KeyOfFile(shards, s, saved, r, i, k);
    forall q: nat | HasKey(saved, q, k) ensures q == r {
      FileOfKey(shards, s, saved, q, k);
      var j: nat :| InFile(saved, q, j, k);
      KeyOfFile(shards, s, saved, q, j, k);
      HoldsIt(shards, s, saved, q, j, k);
      FilesApart(shards, s, r, q, file);
    }
  }

  lemma HoldsIt<K>(shards: seq<nat>, s: nat, saved: seq<Saved<K>>, q: nat, j: nat, k: K)
    requires |saved| == |shards| && InFile(saved, q, j, k)
    ensures Holds(shards, s, saved, Start(shards, q) * s + j, k)
  {
  }

  /** From the parts to the files: with no empty part before one with layers, every layer item of every rank's
      merged dict is in exactly one file of all, and the index names that file. */
  lemma LayersAreSavedOnce<V>(shards: seq<nat>, s: nat, ranks: seq<seq<Part<V>>>, layersOf: seq<seq<nat>>,
                              saved: seq<Saved<Key>>, r: nat, key: Key)
    requires RanksHave(shards, ranks, layersOf) && SavedRanks(shards, s, saved)
    requires forall q :: 0 <= q < |shards| ==> EmptyOnesLast(layersOf[q])
    requires forall q, k :: 0 <= q < |shards| ==>
               (k in saved[q].keys <==> k in MergedUpTo(ranks[q], Start(shards, q), |ranks[q]|))
    requires r < |shards| && key.LayerKey? && key in saved[r].keys
    ensures InOneFile(shards, s, saved, key)
    ensures key in AllIndexes(saved) && Holds(shards, s, saved, AllIndexes(saved)[key], key)
  {
    hide EmptyOnesLast, HasLayers, SavedRank, MergedUpTo;
    KeyIsHit(shards, ranks, r, key);
    RankHitsItsShard(shards, ranks, layersOf, r, key.no);
    forall q: nat | HasKey(saved, q, key) ensures q == r {
      KeyIsHit(shards, ranks, q, key);
      RankHitsItsShard(shards, ranks, layersOf, q, key.no);
      IntervalsDisjoint(shards, q, r, key.no);
    }
    assert HasKey(saved, r, key);
    assert OnOneRank(saved, key);
    KeyIsInOneFileIff(shards, s, saved, key);
  }

  lemma KeyIsHit<V>(shards: seq<nat>, ranks: seq<seq<Part<V>>>, r: nat, key: Key)
    requires |ranks| == |shards| && r < |shards| && key.LayerKey?
    requires key in MergedUpTo(ranks[r], Start(shards, r), |ranks[r]|)
    ensures RankHits(shards, ranks, r, key.no)
  {
    assert LayerKey(key.no, key.name) in MergedUpTo(ranks[r], Start(shards, r), |ranks[r]|);
  }
}
