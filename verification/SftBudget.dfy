/**
 The token budget of a supervised example: how the turns of a conversation share cutoff_len tokens, and
 which labels they are given.
 */
module SftBudget {
  import opened Seqs
  import opened Arith

  type Token = int

  const IGNORE_INDEX: int := -100

  datatype Turn = Turn(source: seq<Token>, target: seq<Token>)

  function Min(a: int, b: int): int {
    if a <= b then a else b
  }

  function Max(a: int, b: int): int {
    if a >= b then a else b
  }

  /** infer_lengths. The quotient of the last branch is a floating-point one in the source; here it is
      rounded down exactly. */
  function MaxTarget(source: nat, target: nat, cutoff: nat): int {
    if target * 2 < cutoff then cutoff
    else if source * 2 < cutoff then cutoff - source
    else if source + target == 0 then 0
    else cutoff * target / (source + target)
  }

  function InferLengths(source: nat, target: nat, cutoff: nat): (nat, nat)
    requires cutoff > 0
  {
    TargetShare(source, target, cutoff);
    var newTarget := Min(MaxTarget(source, target, cutoff), target);
    var newSource := Min(Max(cutoff - newTarget, 0), source);
    (newSource, newTarget)
  }

  lemma TargetShare(source: nat, target: nat, cutoff: nat)
    requires cutoff > 0
    ensures 0 <= MaxTarget(source, target, cutoff)
    ensures target * 2 >= cutoff && source * 2 >= cutoff ==>
              && source + target >= cutoff
              && MaxTarget(source, target, cutoff) <= target
              && cutoff - MaxTarget(source, target, cutoff) <= source
  {
    if target * 2 >= cutoff && source * 2 >= cutoff {
      var n := source + target;
      var share := cutoff * target / n;
      assert share * n + cutoff * target % n == cutoff * target;
      ShareBounds(source, target, cutoff, share);
    }
  }

  lemma ShareBounds(source: nat, target: nat, cutoff: nat, share: int)
    requires source + target >= cutoff && source + target > 0
    requires share * (source + target) <= cutoff * target < (share + 1) * (source + target)
    ensures 0 <= share <= target && cutoff - share <= source
  {
    var n := source + target;
    MulOrder(share + 1, n);
    Monotone(cutoff, n, target);
    Distributes(target, share, n);
    MulOrder(target - share, n);
    Distributes(share, 1, n);
    Monotone(cutoff, n, source);
    SourceShare(source, target, cutoff, share);
  }

  /** cutoff - share - source is below 1, because n times it is less than n. */
  lemma SourceShare(source: nat, target: nat, cutoff: nat, share: int)
    requires source + target > 0 && cutoff * source <= (source + target) * source
    requires cutoff * target < share * (source + target) + (source + target)
    ensures cutoff - share <= source
  {
    var n := source + target;
    Distributes(cutoff - share, source, n);
    Distributes(cutoff, share, n);
    Distributes(source, target, cutoff);
    MulOrder(cutoff - share - source, n);
  }

  /** A turn is given exactly what it needs, or exactly what is left. */
  lemma BudgetIsUsed(source: nat, target: nat, cutoff: nat)
    requires cutoff > 0
    ensures var (s, t) := InferLengths(source, target, cutoff);
            s <= source && t <= target && s + t == Min(cutoff, source + target)
  {
    TargetShare(source, target, cutoff);
  }

  /** How a turn that does not fit is shared out: a target of less than half the budget is kept whole; else a
      source of less than half is; and else the target gets its proportional share, rounded down. A turn that
      fits is kept whole. */
  lemma ShareIs(source: nat, target: nat, cutoff: nat)
    requires cutoff > 0
    ensures var (s, t) := InferLengths(source, target, cutoff);
            if source + target <= cutoff then s == source && t == target
            else if target * 2 < cutoff then t == target && s == cutoff - target
            else if source * 2 < cutoff then s == source && t == cutoff - source
            else
              && s == cutoff - t
              && t * (source + target) <= cutoff * target < (t + 1) * (source + target)
  {
    hide InferLengths;
    BudgetIsUsed(source, target, cutoff);
    if source + target > cutoff && target * 2 >= cutoff && source * 2 >= cutoff {
      ProportionalShare(source, target, cutoff);
    } else if source + target > cutoff {
      KeptShare(source, target, cutoff);
    }
  }

  lemma KeptShare(source: nat, target: nat, cutoff: nat)
    requires cutoff > 0 && (target * 2 < cutoff || source * 2 < cutoff)
    ensures var (s, t) := InferLengths(source, target, cutoff);
            if target * 2 < cutoff then t == target else t == Min(cutoff - source, target)
  {
  }

  lemma ProportionalShare(source: nat, target: nat, cutoff: nat)
    requires cutoff > 0 && target * 2 >= cutoff && source * 2 >= cutoff
    ensures var (s, t) := InferLengths(source, target, cutoff);
            t * (source + target) <= cutoff * target < (t + 1) * (source + target)
  {
    TargetShare(source, target, cutoff);
    var n := source + target;
    var share := cutoff * target / n;
    assert share * n + cutoff * target % n == cutoff * target;
    Distributes(share, 1, n);
  }

  // ------------------------------------------------------------------------ the example

  /** The tokens of the turns, each cut to its share, while some of the budget is left. */
  function Encoded(turns: seq<Turn>, used: nat, cutoff: nat): seq<Token>
    decreases |turns|
  {
    if turns == [] || used >= cutoff then []
    else
      var (s, t) := InferLengths(|turns[0].source|, |turns[0].target|, cutoff - used);
      BudgetIsUsed(|turns[0].source|, |turns[0].target|, cutoff - used);
      turns[0].source[..s] + turns[0].target[..t] + Encoded(turns[1..], used + s + t, cutoff)
  }

  function Ignored(n: nat): (r: seq<int>)
    ensures |r| == n && forall i :: 0 <= i < n ==> r[i] == IGNORE_INDEX
  {
    seq(n, _ => IGNORE_INDEX)
  }

  function Labels(turns: seq<Turn>, used: nat, cutoff: nat): seq<int>
    decreases |turns|
  {
    if turns == [] || used >= cutoff then []
    else
      var (s, t) := InferLengths(|turns[0].source|, |turns[0].target|, cutoff - used);
      BudgetIsUsed(|turns[0].source|, |turns[0].target|, cutoff - used);
      Ignored(s) + turns[0].target[..t] + Labels(turns[1..], used + s + t, cutoff)
  }

  /** What one round of the loop adds. */
  lemma OneRound(turns: seq<Turn>, i: nat, used: nat, cutoff: nat, s: nat, t: nat)
    requires i < |turns| && used < cutoff
    requires (s, t) == InferLengths(|turns[i].source|, |turns[i].target|, cutoff - used)
    ensures s <= |turns[i].source| && t <= |turns[i].target|
    ensures Encoded(turns[i..], used, cutoff)
            == turns[i].source[..s] + turns[i].target[..t] + Encoded(turns[i + 1..], used + s + t, cutoff)
    ensures Labels(turns[i..], used, cutoff)
            == Ignored(s) + turns[i].target[..t] + Labels(turns[i + 1..], used + s + t, cutoff)
  {
    hide InferLengths;
    Uncons(turns, i);
    BudgetIsUsed(|turns[i].source|, |turns[i].target|, cutoff - used);
  }

  lemma NothingLeft(turns: seq<Turn>, i: nat, used: nat, cutoff: nat)
    requires i == |turns| || (i <= |turns| && used >= cutoff)
    ensures Encoded(turns[i..], used, cutoff) == Labels(turns[i..], used, cutoff) == []
  {
  }

  /** encode_sft_example, after the turns have been tokenized. */
  method EncodeSftExample(turns: seq<Turn>, cutoff: nat, efficientEos: bool, eos: Token)
    returns (inputIds: seq<Token>, labels: seq<int>)
    ensures var base := if efficientEos then 1 else 0;
            && inputIds == Encoded(turns, base, cutoff) + (if efficientEos then [eos] else [])
            && labels == Labels(turns, base, cutoff) + (if efficientEos then [eos] else [])
  {
    hide InferLengths;
    inputIds, labels := [], [];
    var totalLength := if efficientEos then 1 else 0;
    ghost var base := totalLength;
    assert turns[0..] == turns;
    AppendNothing(Encoded(turns, base, cutoff));
    AppendNothing(Labels(turns, base, cutoff));
    var i := 0;
    hide Encoded, Labels;
    while i < |turns| && totalLength < cutoff
      invariant 0 <= i <= |turns| && 0 <= totalLength
      invariant inputIds + Encoded(turns[i..], totalLength, cutoff) == Encoded(turns, base, cutoff)
      invariant labels + Labels(turns[i..], totalLength, cutoff) == Labels(turns, base, cutoff)
    {
      var source, target := turns[i].source, turns[i].target;
      var (s, t) := InferLengths(|source|, |target|, cutoff - totalLength);
      OneRound(turns, i, totalLength, cutoff, s, t);
      Assoc(inputIds, source[..s] + target[..t], Encoded(turns[i + 1..], totalLength + s + t, cutoff));
      Assoc(labels, Ignored(s) + target[..t], Labels(turns[i + 1..], totalLength + s + t, cutoff));
      inputIds := inputIds + (source[..s] + target[..t]);
      labels := labels + (Ignored(s) + target[..t]);
      totalLength := totalLength + s + t;
      i := i + 1;
    }
    NothingLeft(turns, i, totalLength, cutoff);
    AppendNothing(inputIds);
    AppendNothing(labels);
    if efficientEos {
      inputIds := inputIds + [eos];
      labels := labels + [eos];
    } else {
      AppendNothing(inputIds);
      AppendNothing(labels);
    }
  }

  function Needed(turns: seq<Turn>): nat {
    if turns == [] then 0 else |turns[0].source| + |turns[0].target| + Needed(turns[1..])
  }

  /** The turns use the budget exactly: all that is left of it, or all they need. */
  lemma {:induction false} EncodedLength(turns: seq<Turn>, used: nat, cutoff: nat)
    ensures |Encoded(turns, used, cutoff)| == if used >= cutoff then 0 else Min(cutoff - used, Needed(turns))
    decreases |turns|
  {
    hide InferLengths;
    if turns != [] && used < cutoff {
      var turn := turns[0];
      var (s, t) := InferLengths(|turn.source|, |turn.target|, cutoff - used);
      BudgetIsUsed(|turn.source|, |turn.target|, cutoff - used);
      EncodedLength(turns[1..], used + s + t, cutoff);
    }
  }

  /** A whole example, with its closing token, has min(cutoff, base + needed) tokens; with a cutoff of zero
      the closing token is still there. */
  lemma ExampleLength(turns: seq<Turn>, cutoff: nat, efficientEos: bool)
    ensures var base := if efficientEos then 1 else 0;
            |Encoded(turns, base, cutoff)| + base == Max(base, Min(cutoff, base + Needed(turns)))
  {
    EncodedLength(turns, if efficientEos then 1 else 0, cutoff);
  }

  /** How many turns from the front are kept whole. */
  function Whole(turns: seq<Turn>, used: nat, cutoff: nat): (n: nat)
    ensures n <= |turns|
    decreases |turns|
  {
    if turns == [] || used + |turns[0].source| + |turns[0].target| > cutoff then 0
    else 1 + Whole(turns[1..], used + |turns[0].source| + |turns[0].target|, cutoff)
  }

  function Full(turns: seq<Turn>): seq<Token> {
    if turns == [] then [] else turns[0].source + turns[0].target + Full(turns[1..])
  }

  function Shortened(turn: Turn, s: nat, t: nat): seq<Token>
    requires s <= |turn.source| && t <= |turn.target|
  {
    turn.source[..s] + turn.target[..t]
  }

  lemma FirstWhole(turns: seq<Turn>, n: nat)
    requires 0 < n <= |turns|
    ensures Full(turns[..n]) == turns[0].source + turns[0].target + Full(turns[1..][..n - 1])
    ensures Needed(turns[..n]) == |turns[0].source| + |turns[0].target| + Needed(turns[1..][..n - 1])
    ensures turns[n..] == turns[1..][n - 1..]
  {
    assert turns[..n][1..] == turns[1..][..n - 1] && turns[..n][0] == turns[0];
  }

  /** The turns that fit are kept whole, one after the other. */
  lemma {:induction false} WholeTurnsAreKept(turns: seq<Turn>, used: nat, cutoff: nat)
    requires used <= cutoff
    ensures var n := Whole(turns, used, cutoff);
            && used + Needed(turns[..n]) <= cutoff
            && Encoded(turns, used, cutoff) == Full(turns[..n]) + Encoded(turns[n..], used + Needed(turns[..n]), cutoff)
    decreases |turns|
  {
    hide InferLengths, Encoded;
    var n := Whole(turns, used, cutoff);
    if n == 0 {
      assert turns[..0] == [] && turns[0..] == turns;
      AppendNothing(Encoded(turns, used, cutoff));
    } else {
      var turn := turns[0];
      var need := |turn.source| + |turn.target|;
      WholeTurnsAreKept(turns[1..], used + need, cutoff);
      FirstWhole(turns, n);
      var rest := Encoded(turns[n..], used + Needed(turns[..n]), cutoff);
      Assoc(turn.source + turn.target, Full(turns[1..][..n - 1]), rest);
      FirstTurn(turns, used, cutoff);
    }
  }

  lemma FirstTurn(turns: seq<Turn>, used: nat, cutoff: nat)
    requires turns != [] && used + |turns[0].source| + |turns[0].target| <= cutoff
    ensures Encoded(turns, used, cutoff)
            == turns[0].source + turns[0].target
               + Encoded(turns[1..], used + |turns[0].source| + |turns[0].target|, cutoff)
  {
    hide InferLengths;
    var turn := turns[0];
    if used < cutoff {
      var (s, t) := InferLengths(|turn.source|, |turn.target|, cutoff - used);
      BudgetIsUsed(|turn.source|, |turn.target|, cutoff - used);
      assert turn.source[..s] == turn.source && turn.target[..t] == turn.target;
    } else {
      AppendNothing(turn.source + turn.target);
    }
  }

  /** At most one turn is shortened: the turns before it are kept whole, it is given what is left of the
      budget, and after it there is nothing. */
  lemma OneTurnIsShortened(turns: seq<Turn>, used: nat, cutoff: nat) returns (s: nat, t: nat)
    requires used <= cutoff
    ensures var n := Whole(turns, used, cutoff);
            if n == |turns| then Encoded(turns, used, cutoff) == Full(turns)
            else
              && s <= |turns[n].source| && t <= |turns[n].target| && s + t == cutoff - used - Needed(turns[..n])
              && Encoded(turns, used, cutoff) == Full(turns[..n]) + Shortened(turns[n], s, t)
  {
    hide InferLengths, Whole;
    s, t := 0, 0;
    var n := Whole(turns, used, cutoff);
    var u := used + Needed(turns[..n]);
    WholeTurnsAreKept(turns, used, cutoff);
    if n == |turns| {
      assert turns[..n] == turns && turns[n..] == [];
      AppendNothing(Full(turns));
    } else {
      NextDoesNotFit(turns, used, cutoff);
      assert turns[n..][0] == turns[n];
      if u == cutoff {
        assert Shortened(turns[n], 0, 0) == [];
      } else {
        var (s', t') := InferLengths(|turns[n].source|, |turns[n].target|, cutoff - u);
        BudgetIsUsed(|turns[n].source|, |turns[n].target|, cutoff - u);
        s, t := s', t';
        assert Encoded(turns[n..][1..], cutoff, cutoff) == [];
        AppendNothing(Shortened(turns[n], s, t));
      }
    }
  }

  lemma {:induction false} NextDoesNotFit(turns: seq<Turn>, used: nat, cutoff: nat)
    requires Whole(turns, used, cutoff) < |turns|
    ensures var n := Whole(turns, used, cutoff);
            used + Needed(turns[..n]) + |turns[n].source| + |turns[n].target| > cutoff
    decreases |turns|
  {
    var n := Whole(turns, used, cutoff);
    if n == 0 {
      assert turns[..0] == [];
    } else {
      NextDoesNotFit(turns[1..], used + |turns[0].source| + |turns[0].target|, cutoff);
      FirstWhole(turns, n);
    }
  }

  /** Position by position, a label is the token or the ignore index. */
  lemma {:induction false} LabelsMatch(turns: seq<Turn>, used: nat, cutoff: nat)
    ensures var ids, labels := Encoded(turns, used, cutoff), Labels(turns, used, cutoff);
            |labels| == |ids| && forall i :: 0 <= i < |ids| ==> labels[i] == ids[i] || labels[i] == IGNORE_INDEX
    decreases |turns|
  {
    hide InferLengths;
    if turns != [] && used < cutoff {
      var turn := turns[0];
      var (s, t) := InferLengths(|turn.source|, |turn.target|, cutoff - used);
      BudgetIsUsed(|turn.source|, |turn.target|, cutoff - used);
      LabelsMatch(turns[1..], used + s + t, cutoff);
    }
  }

  lemma FirstTurnLabels(turns: seq<Turn>, used: nat, cutoff: nat)
    requires turns != [] && used < cutoff && used + |turns[0].source| + |turns[0].target| <= cutoff
    ensures Labels(turns, used, cutoff)
            == Ignored(|turns[0].source|) + turns[0].target
               + Labels(turns[1..], used + |turns[0].source| + |turns[0].target|, cutoff)
  {
    hide InferLengths;
    var turn := turns[0];
    var (s, t) := InferLengths(|turn.source|, |turn.target|, cutoff - used);
    BudgetIsUsed(|turn.source|, |turn.target|, cutoff - used);
    assert turn.target[..t] == turn.target;
  }

  /** From position p on lie s tokens of the source, which are ignored, and t tokens of the target, which are
      their own labels. */
  ghost predicate Labelled(ids: seq<Token>, labels: seq<int>, turn: Turn, p: nat, s: nat, t: nat) {
    && s <= |turn.source| && t <= |turn.target| && p + s + t <= |ids| == |labels|
    && ids[p..p + s] == turn.source[..s] && labels[p..p + s] == Ignored(s)
    && ids[p + s..p + s + t] == labels[p + s..p + s + t] == turn.target[..t]
  }

  lemma SliceLater(a: seq<int>, b: seq<int>, lo: nat, n: nat, at: nat)
    requires lo + n <= |b| && at == |a| + lo
    ensures at + n <= |a + b| && (a + b)[at..at + n] == b[lo..lo + n]
  {
  }

  lemma SliceFirst(a: seq<int>, b: seq<int>, c: seq<int>)
    ensures (a + b + c)[..|a|] == a && (a + b + c)[|a|..|a| + |b|] == b
  {
  }

  lemma FirstIsLabelled(turn: Turn, s: nat, t: nat, ids: seq<Token>, labels: seq<int>)
    requires s <= |turn.source| && t <= |turn.target| && |ids| == |labels|
    ensures Labelled(turn.source[..s] + turn.target[..t] + ids, Ignored(s) + turn.target[..t] + labels, turn, 0, s, t)
  {
    SliceFirst(turn.source[..s], turn.target[..t], ids);
    SliceFirst(Ignored(s), turn.target[..t], labels);
  }

  /** The turn lies at p and is labelled, with the share it gets when this much of the budget is left. */
  ghost predicate TurnAt(ids: seq<Token>, labels: seq<int>, turn: Turn, p: nat, left: nat) {
    left > 0 &&
    var (s, t) := InferLengths(|turn.source|, |turn.target|, left);
    Labelled(ids, labels, turn, p, s, t)
  }

  lemma LaterTurn(ids0: seq<Token>, labels0: seq<int>, ids: seq<Token>, labels: seq<int>, turn: Turn, p: nat, left: nat)
    requires |ids0| == |labels0| && TurnAt(ids, labels, turn, p, left)
    ensures TurnAt(ids0 + ids, labels0 + labels, turn, |ids0| + p, left)
  {
    hide InferLengths, Labelled;
    var (s, t) := InferLengths(|turn.source|, |turn.target|, left);
    LaterIsLabelled(ids0, labels0, ids, labels, turn, p, s, t);
  }

  lemma LaterIsLabelled(ids0: seq<Token>, labels0: seq<int>, ids: seq<Token>, labels: seq<int>, turn: Turn, p: nat,
                        s: nat, t: nat)
    requires |ids0| == |labels0| && Labelled(ids, labels, turn, p, s, t)
    ensures Labelled(ids0 + ids, labels0 + labels, turn, |ids0| + p, s, t)
  {
    var q := |ids0| + p;
    SliceLater(ids0, ids, p, s, q);
    SliceLater(labels0, labels, p, s, q);
    SliceLater(ids0, ids, p + s, t, q + s);
    SliceLater(labels0, labels, p + s, t, q + s);
  }

  lemma FirstTurnAt(turns: seq<Turn>, used: nat, cutoff: nat)
    requires turns != [] && used < cutoff
    ensures TurnAt(Encoded(turns, used, cutoff), Labels(turns, used, cutoff), turns[0], 0, cutoff - used)
  {
    hide InferLengths, Labelled;
    var turn := turns[0];
    var (s, t) := InferLengths(|turn.source|, |turn.target|, cutoff - used);
    BudgetIsUsed(|turn.source|, |turn.target|, cutoff - used);
    LabelsMatch(turns[1..], used + s + t, cutoff);
    FirstIsLabelled(turn, s, t, Encoded(turns[1..], used + s + t, cutoff), Labels(turns[1..], used + s + t, cutoff));
  }

  lemma WholeNext(turns: seq<Turn>, used: nat, cutoff: nat, m: nat)
    requires 0 < m < |turns| && m <= Whole(turns, used, cutoff)
    ensures used + |turns[0].source| + |turns[0].target| <= cutoff
    ensures m - 1 <= Whole(turns[1..], used + |turns[0].source| + |turns[0].target|, cutoff)
  {
  }

  lemma NextTurnAt(turns: seq<Turn>, used: nat, cutoff: nat, turn: Turn, p: nat, left: nat)
    requires turns != [] && used < cutoff && used + |turns[0].source| + |turns[0].target| <= cutoff
    requires var used' := used + |turns[0].source| + |turns[0].target|;
             TurnAt(Encoded(turns[1..], used', cutoff), Labels(turns[1..], used', cutoff), turn, p, left)
    ensures var need := |turns[0].source| + |turns[0].target|;
            TurnAt(Encoded(turns, used, cutoff), Labels(turns, used, cutoff), turn, need + p, left)
  {
    hide TurnAt, Encoded, Labels;
    var first, used' := turns[0], used + |turns[0].source| + |turns[0].target|;
    FirstTurn(turns, used, cutoff);
    FirstTurnLabels(turns, used, cutoff);
    LaterTurn(first.source + first.target, Ignored(|first.source|) + first.target,
              Encoded(turns[1..], used', cutoff), Labels(turns[1..], used', cutoff), turn, p, left);
  }

  lemma NeededBefore(turns: seq<Turn>, m: nat)
    requires 0 < m < |turns|
    ensures Needed(turns[..m]) == |turns[0].source| + |turns[0].target| + Needed(turns[1..][..m - 1])
    ensures turns[1..][m - 1] == turns[m]
  {
    FirstWhole(turns, m);
  }

  /** Every turn that is kept, whole or shortened, lies where the needs of the turns before it end, with its
      source ignored and its target labelled. */
  lemma {:induction false} TurnIsLabelled(turns: seq<Turn>, used: nat, cutoff: nat, m: nat)
    requires m < |turns| && m <= Whole(turns, used, cutoff) && used + Needed(turns[..m]) < cutoff
    ensures var p := Needed(turns[..m]);
            TurnAt(Encoded(turns, used, cutoff), Labels(turns, used, cutoff), turns[m], p, cutoff - used - p)
    decreases m
  {
    hide TurnAt, Encoded, Labels, Whole, Needed;
    if m == 0 {
      NothingNeeded(turns);
      FirstTurnAt(turns, used, cutoff);
    } else {
      var need := |turns[0].source| + |turns[0].target|;
      WholeNext(turns, used, cutoff, m);
      NeededBefore(turns, m);
      TurnIsLabelled(turns[1..], used + need, cutoff, m - 1);
      var p := Needed(turns[1..][..m - 1]);
      NextTurnAt(turns, used, cutoff, turns[m], p, cutoff - used - need - p);
    }
  }

  lemma NothingNeeded(turns: seq<Turn>)
    ensures Needed(turns[..0]) == 0
  {
  }
}
