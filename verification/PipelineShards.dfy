/**
 get_dynamic_pipeline_shards: how many layers each pipeline stage gets. The search over the size of the
 middle stages refines a closed form, which says when it finds anything and what it finds.
 */
module PipelineShards {
  import opened Seqs
  import opened Arith

  datatype ShardError = TooFewLayers | BadPipelineSize | NoCandidate
  datatype Result = Ok(shards: seq<int>) | Err(error: ShardError)

  function Repeat(x: int, n: nat): (r: seq<int>)
    ensures |r| == n && forall i :: 0 <= i < n ==> r[i] == x
  {
    seq(n, _ => x)
  }

  function Sum(s: seq<int>): int {
    if s == [] then 0 else s[0] + Sum(s[1..])
  }

  /** What is left for the first and the last stage; / rounds down, also for negative numbers. */
  function Ends(layers: int, p: int, middle: int): int {
    layers - middle * (p - 2)
  }

  function First(layers: int, p: int, middle: int): int {
    Ends(layers, p, middle) / 2
  }

  function Last(layers: int, p: int, middle: int): int {
    Ends(layers, p, middle) - Ends(layers, p, middle) / 2
  }

  predicate Candidate(layers: int, p: int, middle: int) {
    0 < First(layers, p, middle) <= middle && 0 < Last(layers, p, middle) <= middle
  }

  function Strategy(layers: int, p: int, middle: int): seq<int>
    requires p >= 3
  {
    [First(layers, p, middle)] + Repeat(middle, p - 2) + [Last(layers, p, middle)]
  }

  // --------------------------------------------------------------- where the candidates are

  lemma CeilDivIsLeast(a: int, b: int, m: int)
    requires 0 < b
    ensures m >= CeilDiv(a, b) <==> m * b >= a
  {
    CeilDivBounds(a, b);
    var c := CeilDiv(a, b);
    if m >= c {
      Monotone(c, m, b);
    } else {
      Monotone(m, c - 1, b);
    }
  }

  /** A middle size is a candidate when it leaves two layers for the ends and its p-fold covers all. */
  lemma CandidateIff(layers: int, p: int, middle: int)
    requires p >= 3
    ensures Candidate(layers, p, middle) <==> middle >= CeilDiv(layers, p) && middle * (p - 2) + 2 <= layers
  {
    CeilDivIsLeast(layers, p, middle);
    assert middle * p == middle * (p - 2) + 2 * middle;
  }

  /** If any middle size is a candidate then the smallest one that covers the layers is. */
  lemma CeilingIsCandidate(layers: int, p: int, middle: int)
    requires p >= 3 && Candidate(layers, p, middle)
    ensures Candidate(layers, p, CeilDiv(layers, p)) && CeilDiv(layers, p) <= middle
  {
    CandidateIff(layers, p, middle);
    CandidateIff(layers, p, CeilDiv(layers, p));
    Monotone(CeilDiv(layers, p), middle, p - 2);
  }

  function Diff(layers: int, p: int, middle: int): int {
    middle - First(layers, p, middle)
  }

  /** A larger middle size is less uniform. */
  lemma DiffGrows(layers: int, p: int, a: int, b: int)
    requires p >= 3 && a < b
    ensures Diff(layers, p, a) < Diff(layers, p, b)
  {
    Monotone(a, b, p - 2);
  }

  // -------------------------------------------------------------------------- the search

  /** The head of a list that was sorted by the second component; sorting is stable. */
  method HeadOfSorted(s: seq<(seq<int>, int)>) returns (head: (seq<int>, int))
    requires s != []
    ensures exists k :: 0 <= k < |s| && head == s[k] && (forall i :: 0 <= i < |s| ==> s[k].1 <= s[i].1)
                        && (forall i :: 0 <= i < k ==> s[k].1 < s[i].1)
  {
    var k, n := 0, 1;
    while n < |s|
      invariant 0 <= k < n <= |s|
      invariant (forall i :: 0 <= i < n ==> s[k].1 <= s[i].1) && (forall i :: 0 <= i < k ==> s[k].1 < s[i].1)
    {
      if s[n].1 < s[k].1 {
        k := n;
      }
      n := n + 1;
    }
    head := s[k];
  }

  /** The closed form. */
  function Shards(layers: int, p: int): Result {
    if layers < p then Err(TooFewLayers)
    else if p < 1 then Err(BadPipelineSize)
    else if p == 1 then Ok([layers])
    else if p == 2 then Ok([layers / 2, layers - layers / 2])
    else if (p - 2) * CeilDiv(layers, p) + 2 <= layers then Ok(Strategy(layers, p, CeilDiv(layers, p)))
    else Err(NoCandidate)
  }

  /** With three stages or more there is an answer if and only if there is a candidate, and that is a matter of
      arithmetic. */
  lemma ShardsOkIff(layers: int, p: int)
    requires 3 <= p <= layers
    ensures Shards(layers, p).Ok? <==> exists m :: 0 <= m < layers && Candidate(layers, p, m)
    ensures Shards(layers, p).Ok? <==> (p - 2) * CeilDiv(layers, p) + 2 <= layers
  {
    var c := CeilDiv(layers, p);
    CandidateIff(layers, p, c);
    CeilingInRange(layers, p);
    assert c * (p - 2) == (p - 2) * c;
    if m :| 0 <= m < layers && Candidate(layers, p, m) {
      CeilingIsCandidate(layers, p, m);
    }
  }

  /** The search of the source, which takes the first of the least uneven candidates; when there is none,
      indexing the empty list fails. Every error has its own condition, and in every other case there is an
      answer. */
  method GetDynamicPipelineShards(layerNum: int, ppSize: int) returns (r: Result)
    ensures r == Shards(layerNum, ppSize)
    ensures r == Err(TooFewLayers) <==> layerNum < ppSize
    ensures r == Err(BadPipelineSize) <==> ppSize <= layerNum && ppSize < 1
    ensures r == Err(NoCandidate)
            <==> 3 <= ppSize <= layerNum && forall m :: 0 <= m < layerNum ==> !Candidate(layerNum, ppSize, m)
    ensures r.Ok?
            <==> && 1 <= ppSize <= layerNum
                 && (ppSize <= 2 || (ppSize - 2) * CeilDiv(layerNum, ppSize) + 2 <= layerNum)
    ensures r.Ok? <==> 1 <= ppSize <= layerNum
                       && (ppSize <= 2 || exists m :: 0 <= m < layerNum && Candidate(layerNum, ppSize, m))
  {
    if 3 <= ppSize <= layerNum {
      ShardsOkIff(layerNum, ppSize);
    }
    hide CeilDiv;
    if layerNum < ppSize { return Err(TooFewLayers); }
    if ppSize < 1 { return Err(BadPipelineSize); }
    if ppSize == 1 { return Ok([layerNum]); }
    if ppSize == 2 { return Ok([layerNum / 2, layerNum - layerNum / 2]); }
    ghost var c := CeilDiv(layerNum, ppSize);
    CandidateIff(layerNum, ppSize, c);
    var strategies: seq<(seq<int>, int)> := [];
    var middle := 0;
    while middle < layerNum
      invariant 0 <= middle <= layerNum
      invariant strategies == [] <==> !(Candidate(layerNum, ppSize, c) && 0 <= c < middle)
      invariant strategies != [] ==>
                  && strategies[0] == (Strategy(layerNum, ppSize, c), Diff(layerNum, ppSize, c))
                  && forall i :: 1 <= i < |strategies| ==> strategies[i].1 > strategies[0].1
    {
      var firstLast := layerNum - middle * (ppSize - 2);
      var first := firstLast / 2;
      var last := firstLast - firstLast / 2;
      if 0 < first <= middle && 0 < last <= middle {
        CeilingIsCandidate(layerNum, ppSize, middle);
        if c < middle {
          DiffGrows(layerNum, ppSize, c, middle);
        }
        var diff := if first - middle < 0 then middle - first else first - middle;
        strategies := strategies + [([first] + Repeat(middle, ppSize - 2) + [last], diff)];
      }
      middle := middle + 1;
    }
    CeilingInRange(layerNum, ppSize);
    if strategies == [] { return Err(NoCandidate); }
    var head := HeadOfSorted(strategies);
    r := Ok(head.0);
  }

  lemma CeilingInRange(layers: int, p: int)
    requires p >= 3 && layers >= p
    ensures 0 <= CeilDiv(layers, p)
    ensures Candidate(layers, p, CeilDiv(layers, p)) ==> CeilDiv(layers, p) < layers
  {
    var c := CeilDiv(layers, p);
    CeilDivBounds(layers, p);
    if c < 0 {
      Monotone(c, 0, p);
    }
    if Candidate(layers, p, c) {
      CandidateIff(layers, p, c);
      Monotone(1, p - 2, c);
      assert c * (p - 2) == (p - 2) * c && 1 * c == c;
    }
  }

  // ---------------------------------------------------------------- what the result means

  lemma {:induction false} SumAdds(a: seq<int>, b: seq<int>)
    ensures Sum(a + b) == Sum(a) + Sum(b)
  {
    if a == [] {
      AppendNothing(b);
    } else {
      assert (a + b)[1..] == a[1..] + b;
      SumAdds(a[1..], b);
    }
  }

  lemma {:induction false} SumOfRepeat(x: int, n: nat)
    ensures Sum(Repeat(x, n)) == x * n
  {
    if n > 0 {
      assert Repeat(x, n)[1..] == Repeat(x, n - 1);
      SumOfRepeat(x, n - 1);
      assert x + x * (n - 1) == x * n;
    }
  }

  lemma SumOfOne(x: int)
    ensures Sum([x]) == x
  {
    assert Sum([x][1..]) == 0;
  }

  /** Every result has p positive entries that sum to the number of layers, its ends differ by at most
      one, and no entry exceeds ceil(layers / p). */
  lemma ShardsAreAPartition(layers: int, p: int)
    requires Shards(layers, p).Ok?
    ensures var s := Shards(layers, p).shards;
            && |s| == p && Sum(s) == layers
            && (forall i :: 0 <= i < p ==> 0 < s[i] <= CeilDiv(layers, p))
            && 0 <= s[p - 1] - s[0] <= (if p == 1 then 0 else 1)
            && (forall i :: 0 < i < p - 1 ==> s[i] == CeilDiv(layers, p))
  {
    var s, c := Shards(layers, p).shards, CeilDiv(layers, p);
    if p == 1 {
      SumOfOne(layers);
    } else if p == 2 {
      SumAdds([layers / 2], [layers - layers / 2]);
      SumOfOne(layers / 2);
      SumOfOne(layers - layers / 2);
      assert [layers / 2] + [layers - layers / 2] == s;
    } else {
      CandidateIff(layers, p, c);
      assert c * (p - 2) == (p - 2) * c;
      var f, l := First(layers, p, c), Last(layers, p, c);
      SumAdds([f] + Repeat(c, p - 2), [l]);
      SumAdds([f], Repeat(c, p - 2));
      SumOfOne(f);
      SumOfOne(l);
      SumOfRepeat(c, p - 2);
    }
  }

  lemma {:induction false} SumBelow(s: seq<int>, bound: int)
    requires forall i :: 0 <= i < |s| ==> s[i] <= bound
    ensures Sum(s) <= |s| * bound
  {
    if s != [] {
      SumBelow(s[1..], bound);
      assert bound + (|s| - 1) * bound == |s| * bound;
    }
  }

  /** The sharding is as uniform as any: no way of cutting the layers into p parts has a smaller largest
      part. */
  lemma ShardsAreUniform(layers: int, p: int, other: seq<int>, bound: int)
    requires Shards(layers, p).Ok? && |other| == p && Sum(other) == layers
    requires forall i :: 0 <= i < p ==> other[i] <= bound
    ensures forall i :: 0 <= i < p ==> Shards(layers, p).shards[i] <= bound
  {
    SumBelow(other, bound);
    CeilDivIsLeast(layers, p, bound);
    assert bound * p == p * bound;
    ShardsAreAPartition(layers, p);
  }

  /** Five layers on four stages: the search fails although [1, 1, 1, 2] would do. */
  lemma SearchCanFail()
    ensures Shards(5, 4) == Err(NoCandidate)
    ensures Sum([1, 1, 1, 2]) == 5
  {
    assert CeilDiv(5, 4) == 2;
    assert [1, 1, 1, 2][1..] == [1, 1, 2] && [1, 1, 2][1..] == [1, 2] && [1, 2][1..] == [2];
    SumOfOne(2);
  }
}
