/**
 Stacking the expert weights of every layer into one tensor per projection, and taking the stacks apart
 again. A state dict is a map from structured keys to tensors.
 */
module MoeExperts {
  import opened Options

  datatype Proj = Gate | Up | Down

  datatype Key =
    | Expert(layer: nat, expert: nat, proj: Proj)
    | Stacked(layer: nat, proj: Proj)
    | Plain(name: string)

  datatype Tensor = Leaf(id: int) | Stack(rows: seq<Tensor>)

  type StateDict = map<Key, Tensor>

  /** The entries tensor[0], tensor[1], ... that a tensor can be indexed with. */
  function Rows(t: Tensor): seq<Tensor> {
    if t.Stack? then t.rows else []
  }

  /** The part of the work that is done: all projections of layers start, ..., layer - 1, and those of the
      given set in that layer. */
  datatype Work = Work(start: nat, layer: nat, projs: set<Proj>)

  predicate Covers(w: Work, layer: nat, proj: Proj) {
    w.start <= layer && (layer < w.layer || (layer == w.layer && proj in w.projs))
  }

  // ---------------------------------------------------------------------------- stacking

  predicate HasExperts(d: StateDict, layer: nat, proj: Proj, experts: nat) {
    forall j :: 0 <= j < experts ==> Expert(layer, j, proj) in d
  }

  function StackOf(d: StateDict, layer: nat, proj: Proj, experts: nat): Tensor
    requires HasExperts(d, layer, proj, experts)
  {
    Stack(seq(experts, j requires 0 <= j < experts => d[Expert(layer, j, proj)]))
  }

  ghost predicate AllExperts(d: StateDict, w: Work, experts: nat) {
    forall i: nat, p :: Covers(w, i, p) ==> HasExperts(d, i, p, experts)
  }

  ghost predicate MergedKey(d: StateDict, w: Work, experts: nat, k: Key) {
    match k
    case Expert(i, j, p) => k in d && !(Covers(w, i, p) && j < experts)
    case Stacked(i, p) => k in d || Covers(w, i, p)
    case Plain(_) => k in d
  }

  ghost function MergedValue(d: StateDict, w: Work, experts: nat, k: Key): Tensor
    requires AllExperts(d, w, experts) && MergedKey(d, w, experts, k)
  {
    if k.Stacked? && Covers(w, k.layer, k.proj) then StackOf(d, k.layer, k.proj, experts) else d[k]
  }

  /** r is d with the experts of the work that is done replaced by their stacks. */
  ghost predicate IsMerged(d: StateDict, w: Work, experts: nat, r: StateDict) {
    AllExperts(d, w, experts) && forall k ::
      (k in r <==> MergedKey(d, w, experts, k)) && (k in r ==> r[k] == MergedValue(d, w, experts, k))
  }

  /** d without the first n experts of a projection. */
  ghost predicate IsPopped(r: StateDict, layer: nat, proj: Proj, n: nat, r': StateDict) {
    forall k :: (k in r' <==> k in r && !(k.Expert? && k.layer == layer && k.proj == proj && k.expert < n))
                && (k in r' ==> r'[k] == r[k])
  }

  /** The loop that pops the experts of one projection; popping a key that is missing is an error. */
  method PopExperts(r0: StateDict, layer: nat, proj: Proj, experts: nat)
    returns (r: StateDict, popped: seq<Tensor>, missing: bool)
    ensures missing <==> !HasExperts(r0, layer, proj, experts)
    ensures !missing ==> |popped| == experts && IsPopped(r0, layer, proj, experts, r)
    ensures !missing ==> Stack(popped) == StackOf(r0, layer, proj, experts)
  {
    r, popped, missing := r0, [], false;
    var j := 0;
    while j < experts
      invariant 0 <= j <= experts && |popped| == j && !missing
      invariant forall x :: 0 <= x < j ==> Expert(layer, x, proj) in r0 && popped[x] == r0[Expert(layer, x, proj)]
      invariant IsPopped(r0, layer, proj, j, r)
    {
      var key := Expert(layer, j, proj);
      if key !in r {
        missing := true;
        return;
      }
      popped := popped + [r[key]];
      r := r - {key};
      j := j + 1;
    }
  }

  lemma MergeOneMore(d: StateDict, w: Work, w': Work, layer: nat, proj: Proj, experts: nat,
                     r: StateDict, r1: StateDict, stack: Tensor)
    requires IsMerged(d, w, experts, r) && !Covers(w, layer, proj)
    requires forall i: nat, p :: Covers(w', i, p) <==> Covers(w, i, p) || (i == layer && p == proj)
    requires HasExperts(r, layer, proj, experts) && IsPopped(r, layer, proj, experts, r1)
    requires stack == StackOf(r, layer, proj, experts)
    ensures IsMerged(d, w', experts, r1[Stacked(layer, proj) := stack])
  {
    assert HasExperts(d, layer, proj, experts) by {
      forall j | 0 <= j < experts ensures Expert(layer, j, proj) in d {
        assert MergedKey(d, w, experts, Expert(layer, j, proj));
      }
    }
    forall j | 0 <= j < experts
      ensures r[Expert(layer, j, proj)] == d[Expert(layer, j, proj)]
    {
      assert MergedKey(d, w, experts, Expert(layer, j, proj));
    }
    assert stack == StackOf(d, layer, proj, experts);
    assert AllExperts(d, w', experts);
    var r' := r1[Stacked(layer, proj) := stack];
    forall k
      ensures k in r' <==> MergedKey(d, w', experts, k)
      ensures k in r' ==> r'[k] == MergedValue(d, w', experts, k)
    {
      assert k in r <==> MergedKey(d, w, experts, k);
    }
  }

  lemma ExpertsAreThere(d: StateDict, w: Work, layer: nat, proj: Proj, experts: nat, r: StateDict)
    requires IsMerged(d, w, experts, r) && !Covers(w, layer, proj)
    ensures HasExperts(r, layer, proj, experts) <==> HasExperts(d, layer, proj, experts)
  {
    assert forall j :: 0 <= j < experts ==>
      (Expert(layer, j, proj) in r <==> MergedKey(d, w, experts, Expert(layer, j, proj)));
  }

  /** One round of the loop body: the stack of one projection. There is no stack of nothing. */
  method StackProjection(r0: StateDict, layer: nat, proj: Proj, experts: nat, ghost d: StateDict, ghost w: Work,
                         ghost w': Work)
    returns (r: StateDict, missing: bool)
    requires IsMerged(d, w, experts, r0) && !Covers(w, layer, proj)
    requires forall i: nat, p :: Covers(w', i, p) <==> Covers(w, i, p) || (i == layer && p == proj)
    ensures missing <==> !HasExperts(d, layer, proj, experts) || experts == 0
    ensures !missing ==> IsMerged(d, w', experts, r)
  {
    var popped: seq<Tensor>;
    ExpertsAreThere(d, w, layer, proj, experts, r0);
    r, popped, missing := PopExperts(r0, layer, proj, experts);
    if popped == [] {
      missing := true;
    }
    if !missing {
      MergeOneMore(d, w, w', layer, proj, experts, r0, r, Stack(popped));
      r := r[Stacked(layer, proj) := Stack(popped)];
    }
  }

  /** Every expert of the layers is there, and there is at least one, unless there is nothing to do. */
  ghost predicate Mergeable(d: StateDict, start: nat, layers: nat, experts: nat) {
    AllExperts(d, Work(start, layers, {}), experts) && (experts > 0 || layers <= start)
  }

  lemma MergeableIff(d: StateDict, start: nat, layers: nat, experts: nat)
    ensures !Mergeable(d, start, layers, experts)
            <==> && start < layers
                 && (experts == 0
                     || exists i: nat, j: nat, p :: start <= i < layers && j < experts && Expert(i, j, p) !in d)
  {
    var w := Work(start, layers, {});
    if !AllExperts(d, w, experts) {
      var i: nat, p :| Covers(w, i, p) && !HasExperts(d, i, p, experts);
      var j :| 0 <= j < experts && Expert(i, j, p) !in d;
    }
    if i: nat, j: nat, p :| start <= i < layers && j < experts && Expert(i, j, p) !in d {
      assert Covers(w, i, p) && !HasExperts(d, i, p, experts);
    }
  }

  /** In every layer from start on the experts of a projection are gone, and their stack has the j-th expert as
      its j-th entry; everything else is as it was. */
  ghost predicate Stacks(d: StateDict, start: nat, layers: nat, experts: nat, r: StateDict) {
    && (forall i: nat, p :: start <= i < layers ==>
          Stacked(i, p) in r && r[Stacked(i, p)].Stack? && |r[Stacked(i, p)].rows| == experts)
    && (forall i: nat, j: nat, p :: start <= i < layers && j < experts ==>
          && Expert(i, j, p) in d && Expert(i, j, p) !in r
          && Stacked(i, p) in r && r[Stacked(i, p)].Stack? && j < |r[Stacked(i, p)].rows|
          && r[Stacked(i, p)].rows[j] == d[Expert(i, j, p)])
    && (forall k: Key ::
          (match k
           case Expert(i, j, _) => !(start <= i < layers && j < experts)
           case Stacked(i, _) => !(start <= i < layers)
           case Plain(_) => true) ==> (k in r <==> k in d) && (k in d ==> r[k] == d[k]))
  }

  lemma MergedIsStacked(d: StateDict, start: nat, layers: nat, experts: nat, r: StateDict)
    requires IsMerged(d, Work(start, layers, {}), experts, r)
    ensures Stacks(d, start, layers, experts, r)
  {
    var w := Work(start, layers, {});
    forall i: nat, p | start <= i < layers
      ensures Stacked(i, p) in r && HasExperts(d, i, p, experts) && r[Stacked(i, p)] == StackOf(d, i, p, experts)
    {
      assert Covers(w, i, p) && MergedKey(d, w, experts, Stacked(i, p));
    }
    forall i: nat, j: nat, p | start <= i < layers && j < experts
      ensures Expert(i, j, p) in d && Expert(i, j, p) !in r
    {
      assert Covers(w, i, p) && HasExperts(d, i, p, experts);
      assert !MergedKey(d, w, experts, Expert(i, j, p));
    }
    forall k: Key | match k
                    case Expert(i, j, _) => !(start <= i < layers && j < experts)
                    case Stacked(i, _) => !(start <= i < layers)
                    case Plain(_) => true
      ensures (k in r <==> k in d) && (k in d ==> r[k] == d[k])
    {
      assert k in r <==> MergedKey(d, w, experts, k);
    }
  }

  /** moe_merge: for every layer from the first one with experts on, the three projections. */
  method MergeExperts(d: StateDict, start: nat, layers: nat, experts: nat) returns (r: Option<StateDict>)
    ensures r.None? <==> !Mergeable(d, start, layers, experts)
    ensures r.None?
            <==> && start < layers
                 && (experts == 0
                     || exists i: nat, j: nat, p :: start <= i < layers && j < experts && Expert(i, j, p) !in d)
    ensures r.Some? ==> IsMerged(d, Work(start, layers, {}), experts, r.value)
    ensures r.Some? ==> Stacks(d, start, layers, experts, r.value)
  {
    MergeableIff(d, start, layers, experts);
    hide IsMerged, HasExperts, Stacks;
    var cur, missing := d, false;
    NothingMerged(d, start, experts);
    var i := start;
    while i < layers
      invariant start <= i && (i <= layers || i == start) && (start < i ==> experts > 0)
      invariant IsMerged(d, Work(start, i, {}), experts, cur)
    {
      cur, missing := StackProjection(cur, i, Gate, experts, d, Work(start, i, {}), Work(start, i, {Gate}));
      if missing { assert Covers(Work(start, layers, {}), i, Gate); return None; }
      cur, missing := StackProjection(cur, i, Up, experts, d, Work(start, i, {Gate}), Work(start, i, {Gate, Up}));
      if missing { assert Covers(Work(start, layers, {}), i, Up); return None; }
      cur, missing :=
        StackProjection(cur, i, Down, experts, d, Work(start, i, {Gate, Up}), Work(start, i, {Gate, Up, Down}));
      if missing { assert Covers(Work(start, layers, {}), i, Down); return None; }
      SameWork(d, Work(start, i, {Gate, Up, Down}), Work(start, i + 1, {}), experts, cur);
      i := i + 1;
    }
    SameWork(d, Work(start, i, {}), Work(start, layers, {}), experts, cur);
    MergedHasExperts(d, Work(start, layers, {}), experts, cur);
    MergedIsStacked(d, start, layers, experts, cur);
    r := Some(cur);
  }

  lemma NothingMerged(d: StateDict, start: nat, experts: nat)
    ensures IsMerged(d, Work(start, start, {}), experts, d)
  {
  }

  lemma MergedHasExperts(d: StateDict, w: Work, experts: nat, r: StateDict)
    requires IsMerged(d, w, experts, r)
    ensures AllExperts(d, w, experts)
  {
  }

  lemma SameWork(d: StateDict, w: Work, w': Work, experts: nat, r: StateDict)
    requires IsMerged(d, w, experts, r) && forall i: nat, p :: Covers(w, i, p) <==> Covers(w', i, p)
    ensures IsMerged(d, w', experts, r)
  {
    assert AllExperts(d, w', experts);
    forall k
      ensures k in r <==> MergedKey(d, w', experts, k)
      ensures k in r ==> r[k] == MergedValue(d, w', experts, k)
    {
      assert k in r <==> MergedKey(d, w, experts, k);
    }
  }

  // -------------------------------------------------------------------------- unstacking

  /** A stack that is present and covered by the work. */
  predicate Unstacked(d: StateDict, w: Work, layer: nat, proj: Proj) {
    Covers(w, layer, proj) && Stacked(layer, proj) in d
  }

  ghost predicate LongEnough(d: StateDict, w: Work, experts: nat) {
    forall i: nat, p :: Unstacked(d, w, i, p) ==> experts <= |Rows(d[Stacked(i, p)])|
  }

  ghost predicate SplitKey(d: StateDict, w: Work, experts: nat, k: Key) {
    match k
    case Expert(i, j, p) => k in d || (Unstacked(d, w, i, p) && j < experts)
    case Stacked(i, p) => k in d && !Covers(w, i, p)
    case Plain(_) => k in d
  }

  ghost function SplitValue(d: StateDict, w: Work, experts: nat, k: Key): Tensor
    requires LongEnough(d, w, experts) && SplitKey(d, w, experts, k)
  {
    if k.Expert? && Unstacked(d, w, k.layer, k.proj) && k.expert < experts then
      Rows(d[Stacked(k.layer, k.proj)])[k.expert]
    else d[k]
  }

  /** r is d with the stacks that the work covers replaced by their entries. */
  ghost predicate IsSplit(d: StateDict, w: Work, experts: nat, r: StateDict) {
    LongEnough(d, w, experts) && forall k ::
      (k in r <==> SplitKey(d, w, experts, k)) && (k in r ==> r[k] == SplitValue(d, w, experts, k))
  }

  ghost predicate IsSpread(r: StateDict, layer: nat, proj: Proj, rows: seq<Tensor>, n: nat, r': StateDict)
    requires n <= |rows|
  {
    forall k: Key ::
      var mine := k.Expert? && k.layer == layer && k.proj == proj && k.expert < n;
      (k in r' <==> k in r || mine) && (k in r' ==> r'[k] == if mine then rows[k.expert] else r[k])
  }

  /** The inner loop, which fails when the stack has too few entries. */
  method SpreadExperts(r0: StateDict, layer: nat, proj: Proj, stack: Tensor, experts: nat)
    returns (r: StateDict, tooShort: bool)
    ensures tooShort <==> experts > |Rows(stack)|
    ensures !tooShort ==> IsSpread(r0, layer, proj, Rows(stack), experts, r)
  {
    r, tooShort := r0, false;
    var j := 0;
    while j < experts
      invariant 0 <= j <= experts && j <= |Rows(stack)| && !tooShort
      invariant IsSpread(r0, layer, proj, Rows(stack), j, r)
    {
      if j >= |Rows(stack)| {
        tooShort := true;
        return;
      }
      r := r[Expert(layer, j, proj) := Rows(stack)[j]];
      j := j + 1;
    }
  }

  lemma SplitOneMore(d: StateDict, w: Work, w': Work, layer: nat, proj: Proj, experts: nat, r: StateDict, r': StateDict)
    requires IsSplit(d, w, experts, r) && !Covers(w, layer, proj)
    requires forall i: nat, p :: Covers(w', i, p) <==> Covers(w, i, p) || (i == layer && p == proj)
    requires Stacked(layer, proj) in r && experts <= |Rows(r[Stacked(layer, proj)])|
    requires IsSpread(r - {Stacked(layer, proj)}, layer, proj, Rows(r[Stacked(layer, proj)]), experts, r')
    ensures IsSplit(d, w', experts, r')
  {
    var s := Stacked(layer, proj);
    assert SplitKey(d, w, experts, s) && r[s] == d[s];
    assert LongEnough(d, w', experts);
    forall k
      ensures k in r' <==> SplitKey(d, w', experts, k)
      ensures k in r' ==> r'[k] == SplitValue(d, w', experts, k)
    {
      assert k in r <==> SplitKey(d, w, experts, k);
    }
  }

  lemma SplitNothing(d: StateDict, w: Work, w': Work, layer: nat, proj: Proj, experts: nat, r: StateDict)
    requires IsSplit(d, w, experts, r) && !Covers(w, layer, proj)
    requires forall i: nat, p :: Covers(w', i, p) <==> Covers(w, i, p) || (i == layer && p == proj)
    requires Stacked(layer, proj) !in r
    ensures IsSplit(d, w', experts, r)
    ensures Stacked(layer, proj) !in d
  {
    assert !SplitKey(d, w, experts, Stacked(layer, proj));
    assert LongEnough(d, w', experts);
    forall k
      ensures k in r <==> SplitKey(d, w', experts, k)
      ensures k in r ==> r[k] == SplitValue(d, w', experts, k)
    {
      assert k in r <==> SplitKey(d, w, experts, k);
    }
  }

  method UnstackProjection(r0: StateDict, layer: nat, proj: Proj, experts: nat, ghost d: StateDict, ghost w: Work,
                           ghost w': Work)
    returns (r: StateDict, tooShort: bool)
    requires IsSplit(d, w, experts, r0) && !Covers(w, layer, proj)
    requires forall i: nat, p :: Covers(w', i, p) <==> Covers(w, i, p) || (i == layer && p == proj)
    ensures tooShort <==> Stacked(layer, proj) in d && experts > |Rows(d[Stacked(layer, proj)])|
    ensures !tooShort ==> IsSplit(d, w', experts, r)
  {
    var s := Stacked(layer, proj);
    r, tooShort := r0, false;
    assert s in r0 <==> SplitKey(d, w, experts, s);
    if s in r0 {
      r, tooShort := SpreadExperts(r0 - {s}, layer, proj, r0[s], experts);
      if !tooShort {
        SplitOneMore(d, w, w', layer, proj, experts, r0, r);
      }
    } else {
      SplitNothing(d, w, w', layer, proj, experts, r0);
    }
  }

  lemma LongEnoughIff(d: StateDict, layers: nat, experts: nat)
    ensures !LongEnough(d, Work(0, layers, {}), experts)
            <==> exists i: nat, p :: i < layers && Stacked(i, p) in d && |Rows(d[Stacked(i, p)])| < experts
  {
    if i: nat, p :| i < layers && Stacked(i, p) in d && |Rows(d[Stacked(i, p)])| < experts {
      assert Unstacked(d, Work(0, layers, {}), i, p);
    }
  }

  /** Every stack of a layer is gone, and its j-th entry is the j-th expert; everything else is as it was. */
  ghost predicate Unstacks(d: StateDict, layers: nat, experts: nat, r: StateDict) {
    && (forall i: nat, p :: i < layers ==> Stacked(i, p) !in r)
    && (forall i: nat, j: nat, p :: i < layers && j < experts && Stacked(i, p) in d ==>
          && j < |Rows(d[Stacked(i, p)])| && Expert(i, j, p) in r
          && r[Expert(i, j, p)] == Rows(d[Stacked(i, p)])[j])
    && (forall k: Key ::
          (match k
           case Expert(i, j, p) => !(i < layers && j < experts && Stacked(i, p) in d)
           case Stacked(i, _) => i >= layers
           case Plain(_) => true) ==> (k in r <==> k in d) && (k in d ==> r[k] == d[k]))
  }

  lemma SplitIsUnstacked(d: StateDict, layers: nat, experts: nat, r: StateDict)
    requires IsSplit(d, Work(0, layers, {}), experts, r)
    ensures Unstacks(d, layers, experts, r)
  {
    var w := Work(0, layers, {});
    forall i: nat, p | i < layers ensures Stacked(i, p) !in r {
      assert !SplitKey(d, w, experts, Stacked(i, p));
    }
    forall i: nat, j: nat, p | i < layers && j < experts && Stacked(i, p) in d
      ensures j < |Rows(d[Stacked(i, p)])| && Expert(i, j, p) in r
      ensures r[Expert(i, j, p)] == Rows(d[Stacked(i, p)])[j]
    {
      assert Unstacked(d, w, i, p) && SplitKey(d, w, experts, Expert(i, j, p));
    }
    forall k: Key | match k
                    case Expert(i, j, p) => !(i < layers && j < experts && Stacked(i, p) in d)
                    case Stacked(i, _) => i >= layers
                    case Plain(_) => true
      ensures (k in r <==> k in d) && (k in d ==> r[k] == d[k])
    {
      assert k in r <==> SplitKey(d, w, experts, k);
    }
  }

  /** moe_split: every layer, and of every layer the stacks that are there. */
  method SplitExperts(d: StateDict, layers: nat, experts: nat) returns (r: Option<StateDict>)
    ensures r.None? <==> !LongEnough(d, Work(0, layers, {}), experts)
    ensures r.None? <==> exists i: nat, p :: i < layers && Stacked(i, p) in d && |Rows(d[Stacked(i, p)])| < experts
    ensures r.Some? ==> IsSplit(d, Work(0, layers, {}), experts, r.value)
    ensures r.Some? ==> Unstacks(d, layers, experts, r.value)
  {
    LongEnoughIff(d, layers, experts);
    hide IsSplit, Rows, Unstacks;
    var cur, tooShort := d, false;
    NothingSplit(d, experts);
    var i := 0;
    while i < layers
      invariant 0 <= i <= layers
      invariant IsSplit(d, Work(0, i, {}), experts, cur)
    {
      cur, tooShort := UnstackProjection(cur, i, Gate, experts, d, Work(0, i, {}), Work(0, i, {Gate}));
      if tooShort { assert Unstacked(d, Work(0, layers, {}), i, Gate); return None; }
      cur, tooShort := UnstackProjection(cur, i, Up, experts, d, Work(0, i, {Gate}), Work(0, i, {Gate, Up}));
      if tooShort { assert Unstacked(d, Work(0, layers, {}), i, Up); return None; }
      cur, tooShort :=
        UnstackProjection(cur, i, Down, experts, d, Work(0, i, {Gate, Up}), Work(0, i, {Gate, Up, Down}));
      if tooShort { assert Unstacked(d, Work(0, layers, {}), i, Down); return None; }
      SameSplitWork(d, Work(0, i, {Gate, Up, Down}), Work(0, i + 1, {}), experts, cur);
      i := i + 1;
    }
    SplitIsLong(d, Work(0, layers, {}), experts, cur);
    SplitIsUnstacked(d, layers, experts, cur);
    r := Some(cur);
  }

  lemma NothingSplit(d: StateDict, experts: nat)
    ensures IsSplit(d, Work(0, 0, {}), experts, d)
  {
  }

  lemma SplitIsLong(d: StateDict, w: Work, experts: nat, r: StateDict)
    requires IsSplit(d, w, experts, r)
    ensures LongEnough(d, w, experts)
  {
  }

  lemma SameSplitWork(d: StateDict, w: Work, w': Work, experts: nat, r: StateDict)
    requires IsSplit(d, w, experts, r) && forall i: nat, p :: Covers(w, i, p) <==> Covers(w', i, p)
    ensures IsSplit(d, w', experts, r)
  {
    assert LongEnough(d, w', experts);
    forall k
      ensures k in r <==> SplitKey(d, w', experts, k)
      ensures k in r ==> r[k] == SplitValue(d, w', experts, k)
    {
      assert k in r <==> SplitKey(d, w, experts, k);
    }
  }

  // -------------------------------------------------------------------------- round trips

  /** No stacked key among the layers of the model. */
  ghost predicate NoStacks(d: StateDict, layers: nat) {
    forall i: nat, p :: i < layers ==> Stacked(i, p) !in d
  }

  /** Splitting what was merged returns the original state dict, if and only if that had no stacked key of
      its own in any layer; whatever else it holds is left alone. */
  lemma SplitInvertsMergeIff(d: StateDict, start: nat, layers: nat, experts: nat, r: StateDict, back: StateDict)
    requires IsMerged(d, Work(start, layers, {}), experts, r) && IsSplit(r, Work(0, layers, {}), experts, back)
    ensures back == d <==> NoStacks(d, layers)
  {
    var m, s := Work(start, layers, {}), Work(0, layers, {});
    if NoStacks(d, layers) {
      forall k
        ensures k in back <==> k in d
        ensures k in d ==> back[k] == d[k]
      {
        SplitInvertsMergeAt(d, start, layers, experts, r, back, k);
      }
    } else {
      var i: nat, p :| i < layers && Stacked(i, p) in d;
      assert !SplitKey(r, s, experts, Stacked(i, p));
    }
  }

  lemma SplitInvertsMergeAt(d: StateDict, start: nat, layers: nat, experts: nat, r: StateDict, back: StateDict, k: Key)
    requires NoStacks(d, layers)
    requires IsMerged(d, Work(start, layers, {}), experts, r) && IsSplit(r, Work(0, layers, {}), experts, back)
    ensures (k in back <==> k in d) && (k in d ==> back[k] == d[k])
  {
    var m, s := Work(start, layers, {}), Work(0, layers, {});
    assert k in back <==> SplitKey(r, s, experts, k);
    assert k in r <==> MergedKey(d, m, experts, k);
    if k.Expert? {
      var stack := Stacked(k.layer, k.proj);
      assert stack in r <==> MergedKey(d, m, experts, stack);
      if Covers(m, k.layer, k.proj) {
        assert HasExperts(d, k.layer, k.proj, experts);
        assert r[stack] == StackOf(d, k.layer, k.proj, experts);
      }
    }
  }

  /** Every layer with experts holds exactly its stacks, each with one entry per expert and no expert beside
      it, and the dense layers hold none. */
  ghost predicate FullyStacked(d: StateDict, start: nat, layers: nat, experts: nat) {
    && (forall i: nat, p :: i < start && i < layers ==> Stacked(i, p) !in d)
    && (forall i: nat, p :: start <= i < layers ==>
          Stacked(i, p) in d && d[Stacked(i, p)].Stack? && |Rows(d[Stacked(i, p)])| == experts)
    && (forall i: nat, j: nat, p :: start <= i < layers && j < experts ==> Expert(i, j, p) !in d)
  }

  /** The reverse round trip, with its exact condition. */
  lemma MergeInvertsSplitIff(d: StateDict, start: nat, layers: nat, experts: nat, r: StateDict, back: StateDict)
    requires IsSplit(d, Work(0, layers, {}), experts, r) && IsMerged(r, Work(start, layers, {}), experts, back)
    ensures back == d <==> FullyStacked(d, start, layers, experts)
  {
    if FullyStacked(d, start, layers, experts) {
      forall k
        ensures k in back <==> k in d
        ensures k in d ==> back[k] == d[k]
      {
        MergeInvertsSplitAt(d, start, layers, experts, r, back, k);
      }
    }
    if back == d {
      BackMeansStacked(d, start, layers, experts, r);
    }
  }

  lemma MergeInvertsSplitAt(d: StateDict, start: nat, layers: nat, experts: nat, r: StateDict, back: StateDict, k: Key)
    requires FullyStacked(d, start, layers, experts)
    requires IsSplit(d, Work(0, layers, {}), experts, r) && IsMerged(r, Work(start, layers, {}), experts, back)
    ensures (k in back <==> k in d) && (k in d ==> back[k] == d[k])
  {
    var m, s := Work(start, layers, {}), Work(0, layers, {});
    assert k in back <==> MergedKey(r, m, experts, k);
    assert k in r <==> SplitKey(d, s, experts, k);
    if k.Stacked? && Covers(m, k.layer, k.proj) {
      assert HasExperts(r, k.layer, k.proj, experts);
      forall j | 0 <= j < experts
        ensures r[Expert(k.layer, j, k.proj)] == Rows(d[k])[j]
      {
        assert SplitKey(d, s, experts, Expert(k.layer, j, k.proj));
      }
      assert StackOf(r, k.layer, k.proj, experts).rows == d[k].rows;
    }
  }

  lemma BackMeansStacked(d: StateDict, start: nat, layers: nat, experts: nat, r: StateDict)
    requires IsSplit(d, Work(0, layers, {}), experts, r) && IsMerged(r, Work(start, layers, {}), experts, d)
    ensures FullyStacked(d, start, layers, experts)
  {
    var m, s := Work(start, layers, {}), Work(0, layers, {});
    forall i: nat, p | i < start && i < layers
      ensures Stacked(i, p) !in d
    {
      assert !SplitKey(d, s, experts, Stacked(i, p));
      assert Stacked(i, p) in d <==> MergedKey(r, m, experts, Stacked(i, p));
    }
    forall i: nat, p | start <= i < layers
      ensures Stacked(i, p) in d && d[Stacked(i, p)].Stack? && |Rows(d[Stacked(i, p)])| == experts
    {
      assert Covers(m, i, p);
      assert MergedKey(r, m, experts, Stacked(i, p));
      assert HasExperts(r, i, p, experts);
    }
    forall i: nat, j: nat, p | start <= i < layers && j < experts
      ensures Expert(i, j, p) !in d
    {
      assert Covers(m, i, p);
      assert !MergedKey(r, m, experts, Expert(i, j, p));
    }
  }

  /** A merged dict can be split. */
  lemma SplitOfMergedSucceeds(d: StateDict, start: nat, layers: nat, experts: nat, r: StateDict)
    requires IsMerged(d, Work(start, layers, {}), experts, r) && NoStacks(d, layers)
    ensures LongEnough(r, Work(0, layers, {}), experts)
  {
    var m := Work(start, layers, {});
    forall i: nat, p | Unstacked(r, Work(0, layers, {}), i, p)
      ensures experts <= |Rows(r[Stacked(i, p)])|
    {
      assert MergedKey(d, m, experts, Stacked(i, p)) && Covers(m, i, p);
      assert r[Stacked(i, p)] == MergedValue(d, m, experts, Stacked(i, p));
    }
  }

  /** A fully stacked dict can be split, and what comes out can be merged. */
  lemma MergeOfSplitSucceeds(d: StateDict, start: nat, layers: nat, experts: nat)
    requires FullyStacked(d, start, layers, experts)
    ensures LongEnough(d, Work(0, layers, {}), experts)
    ensures forall r :: IsSplit(d, Work(0, layers, {}), experts, r) ==> AllExperts(r, Work(start, layers, {}), experts)
  {
    var s := Work(0, layers, {});
    forall r | IsSplit(d, s, experts, r)
      ensures AllExperts(r, Work(start, layers, {}), experts)
    {
      forall i: nat, p, j | Covers(Work(start, layers, {}), i, p) && 0 <= j < experts
        ensures Expert(i, j, p) in r
      {
        assert Unstacked(d, s, i, p);
        assert SplitKey(d, s, experts, Expert(i, j, p));
      }
    }
  }

  /** moe_merge and then moe_split: both succeed and the original comes back if and only if it can be merged
      and has no stacked key in any layer. */
  method MergeThenSplit(d: StateDict, start: nat, layers: nat, experts: nat) returns (back: Option<StateDict>)
    ensures back == Some(d) <==> Mergeable(d, start, layers, experts) && NoStacks(d, layers)
  {
    hide IsMerged, IsSplit, Mergeable, NoStacks, LongEnough;
    var r := MergeExperts(d, start, layers, experts);
    if r.None? { return None; }
    back := SplitExperts(r.value, layers, experts);
    if back.Some? {
      SplitInvertsMergeIff(d, start, layers, experts, r.value, back.value);
    } else if NoStacks(d, layers) {
      SplitOfMergedSucceeds(d, start, layers, experts, r.value);
    }
  }

  /** moe_split and then moe_merge: both succeed and the original comes back if and only if it is fully
      stacked, with at least one expert if any layer has experts. */
  method SplitThenMerge(d: StateDict, start: nat, layers: nat, experts: nat) returns (back: Option<StateDict>)
    ensures back == Some(d) <==> FullyStacked(d, start, layers, experts) && (experts > 0 || layers <= start)
  {
    hide IsMerged, IsSplit, LongEnough, FullyStacked, AllExperts;
    if FullyStacked(d, start, layers, experts) {
      MergeOfSplitSucceeds(d, start, layers, experts);
    }
    var r := SplitExperts(d, layers, experts);
    if r.None? { return None; }
    back := MergeExperts(r.value, start, layers, experts);
    if back.Some? {
      MergeInvertsSplitIff(d, start, layers, experts, r.value, back.value);
    }
  }
}
