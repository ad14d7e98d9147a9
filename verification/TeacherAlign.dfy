/**
 Lining up the teacher's log-probabilities with the tokens the student sampled, for one row of a batch.

 The prompt of the row may hold runs of image or video placeholder tokens. The teacher is sent each run
 as one token and expands it again on its own terms, so positions on its side are not positions in the
 row; the response is found from the end.
 */
module TeacherAlign {
  import opened Options
  import opened Seqs

  type Token = int

  // -------------------------------------------------------------------------------- masks

  /** completion_mask: up to and including the first end-of-sequence token, without padding. */
  function CompletionMask(completion: seq<Token>, pad: Token, eos: Token, hasEos: bool): (mask: seq<bool>)
    ensures |mask| == |completion|
  {
    seq(|completion|, j requires 0 <= j < |completion| =>
      completion[j] != pad && (!hasEos || eos !in completion[..j]))
  }

  /** shift_completion_mask over the positions that predict a next token. */
  function ShiftMask(width: nat, mask: seq<bool>, promptWidth: nat): (shifted: seq<bool>)
    requires promptWidth + |mask| == width + 1
    ensures |shifted| == width
  {
    var start := if promptWidth >= 1 then promptWidth - 1 else 0;
    seq(width, p requires 0 <= p < width => p >= start && mask[p - start])
  }

  /** The positions of the true entries, in order. */
  function Nonzero(mask: seq<bool>): seq<nat> {
    if mask == [] then []
    else
      var n := |mask| - 1;
      var before := Nonzero(mask[..n]);
      if mask[n] then before + [n] else before
  }

  ghost predicate Increasing(ps: seq<nat>) {
    forall k, l :: 0 <= k < l < |ps| ==> ps[k] < ps[l]
  }

  lemma {:induction false} NonzeroIs(mask: seq<bool>)
    ensures forall p :: p in Nonzero(mask) <==> 0 <= p < |mask| && mask[p]
    ensures Increasing(Nonzero(mask))
  {
    if mask != [] {
      var n := |mask| - 1;
      var before := Nonzero(mask[..n]);
      NonzeroIs(mask[..n]);
      forall k | 0 <= k < |before| ensures before[k] < n {
        assert before[k] in before;
      }
    }
  }

  /** _active_span: from the first to after the last active position. */
  function ActiveSpan(mask: seq<bool>): (nat, nat) {
    var ps := Nonzero(mask);
    if ps == [] then (|mask|, |mask|) else (ps[0], ps[|ps| - 1] + 1)
  }

  /** From the first active position to behind the last one; behind the row, if none is active. */
  ghost predicate IsSpan(mask: seq<bool>, a: nat, b: nat) {
    || (a < b <= |mask| && mask[a] && mask[b - 1] && forall i :: 0 <= i < |mask| && mask[i] ==> a <= i < b)
    || (a == b == |mask| && forall i :: 0 <= i < |mask| ==> !mask[i])
  }

  lemma SpanIff(mask: seq<bool>, a: nat, b: nat)
    ensures IsSpan(mask, a, b) <==> ActiveSpan(mask) == (a, b)
  {
    hide Nonzero;
    var ps := Nonzero(mask);
    NonzeroIs(mask);
    if ps != [] {
      assert ps[0] in ps && ps[|ps| - 1] in ps;
      forall i | 0 <= i < |mask| && mask[i] ensures ps[0] <= i <= ps[|ps| - 1] {
        assert i in ps;
      }
    } else {
      assert forall i :: 0 <= i < |mask| ==> i !in ps;
    }
  }

  // --------------------------------------------------------------- collapsing placeholder runs

  /** A token is dropped when it and the token before it are placeholders. */
  predicate Dropped(tokens: seq<Token>, mm: set<Token>, i: nat)
    requires i < |tokens|
  {
    i > 0 && tokens[i] in mm && tokens[i - 1] in mm
  }

  function Kept(tokens: seq<Token>, mm: set<Token>): seq<nat> {
    if tokens == [] then []
    else
      var n := |tokens| - 1;
      var before := Kept(tokens[..n], mm);
      if Dropped(tokens, mm, n) then before else before + [n]
  }

  /** The kept indices are strictly increasing and are those of the tokens that are not dropped: of every
      run of placeholders the first, and every other token. */
  lemma {:induction false} KeptAreRunHeads(tokens: seq<Token>, mm: set<Token>)
    ensures forall i :: i in Kept(tokens, mm) <==> 0 <= i < |tokens| && !Dropped(tokens, mm, i)
    ensures Increasing(Kept(tokens, mm))
    ensures tokens != [] ==> Kept(tokens, mm) != [] && Kept(tokens, mm)[0] == 0
  {
    if tokens != [] {
      var n := |tokens| - 1;
      var before := Kept(tokens[..n], mm);
      KeptAreRunHeads(tokens[..n], mm);
      assert forall i :: 0 <= i < n ==> (Dropped(tokens[..n], mm, i) <==> Dropped(tokens, mm, i));
      forall k | 0 <= k < |before| ensures before[k] < n {
        assert before[k] in before;
      }
    }
  }

  predicate Selects(tokens: seq<Token>, indices: seq<nat>, selected: seq<Token>) {
    && |selected| == |indices|
    && forall k :: 0 <= k < |indices| ==> indices[k] < |tokens| && selected[k] == tokens[indices[k]]
  }

  /** _dedup_consecutive_mm_tokens: the strictly increasing indices of the tokens that are not dropped, and
      those tokens. */
  method DedupConsecutive(tokens: seq<Token>, mm: set<Token>) returns (deduped: seq<Token>, kept: seq<nat>)
    ensures kept == Kept(tokens, mm) && Selects(tokens, kept, deduped)
  {
    deduped, kept := [], [];
    var previousWasMm := false;
    var idx := 0;
    while idx < |tokens|
      invariant 0 <= idx <= |tokens|
      invariant kept == Kept(tokens[..idx], mm) && Selects(tokens, kept, deduped)
      invariant previousWasMm <==> idx > 0 && tokens[idx - 1] in mm
    {
      assert tokens[..idx + 1][..idx] == tokens[..idx] && (idx > 0 ==> tokens[..idx + 1][idx - 1] == tokens[idx - 1]);
      var currentIsMm := tokens[idx] in mm;
      if !(currentIsMm && previousWasMm) {
        deduped := deduped + [tokens[idx]];
        kept := kept + [idx];
      }
      previousWasMm := currentIsMm;
      idx := idx + 1;
    }
    assert tokens[..idx] == tokens;
  }

  predicate NoPlaceholder(tokens: seq<Token>, mm: set<Token>) {
    forall i :: 0 <= i < |tokens| ==> tokens[i] !in mm
  }

  function Range(lo: nat, n: nat): (r: seq<nat>)
    ensures |r| == n && forall k :: 0 <= k < n ==> r[k] == lo + k
  {
    seq(n, k requires 0 <= k => lo + k)
  }

  /** What follows the last placeholder is kept whole. */
  lemma {:induction false} KeptSuffix(prefix: seq<Token>, suffix: seq<Token>, mm: set<Token>)
    requires NoPlaceholder(suffix, mm)
    ensures Kept(prefix + suffix, mm) == Kept(prefix, mm) + Range(|prefix|, |suffix|)
    decreases |suffix|
  {
    if suffix == [] {
      AppendNothing(prefix);
      AppendNothing(Kept(prefix, mm));
    } else {
      var n := |suffix| - 1;
      var all := prefix + suffix;
      assert all[..|all| - 1] == prefix + suffix[..n];
      assert all[|all| - 1] == suffix[n];
      KeptSuffix(prefix, suffix[..n], mm);
      assert Range(|prefix|, n + 1) == Range(|prefix|, n) + [|prefix| + n];
      Assoc(Kept(prefix, mm), Range(|prefix|, n), [|prefix| + n]);
    }
  }

  // --------------------------------------------------------------------- the engine's tokens

  /** The engine scores what it was sent with every placeholder expanded to some tokens of its own. */
  ghost predicate Expands(sent: seq<Token>, mm: set<Token>, parts: seq<seq<Token>>) {
    |parts| == |sent| && forall i :: 0 <= i < |sent| && sent[i] !in mm ==> parts[i] == [sent[i]]
  }

  /** Counted from the end, the engine's tokens are the sent ones, as far as there is no placeholder. */
  lemma {:induction false} SuffixSurvives(sent: seq<Token>, mm: set<Token>, parts: seq<seq<Token>>, n: nat)
    requires Expands(sent, mm, parts) && n <= |sent| && NoPlaceholder(sent[|sent| - n..], mm)
    ensures var e := Flatten(parts); n <= |e| && e[|e| - n..] == sent[|sent| - n..]
    decreases n
  {
    if n > 0 {
      var m := |sent| - 1;
      FrontExpands(sent, mm, parts, n);
      hide Expands, Flatten, NoPlaceholder;
      SuffixSurvives(sent[..m], mm, parts[..m], n - 1);
      FlattenSnoc(parts[..m], [sent[m]]);
      SuffixSnoc(Flatten(parts[..m]), sent[m], n - 1);
      SuffixSnoc(sent[..m], sent[m], n - 1);
    } else {
      assert Flatten(parts)[|Flatten(parts)|..] == sent[|sent|..] == [];
    }
  }

  /** All but the last of the sent tokens, which is not a placeholder. */
  lemma FrontExpands(sent: seq<Token>, mm: set<Token>, parts: seq<seq<Token>>, n: nat)
    requires Expands(sent, mm, parts) && 0 < n <= |sent| && NoPlaceholder(sent[|sent| - n..], mm)
    ensures var m := |sent| - 1;
            && |parts| == |sent| && Expands(sent[..m], mm, parts[..m])
            && NoPlaceholder(sent[..m][m - (n - 1)..], mm)
            && parts == parts[..m] + [[sent[m]]] && sent == sent[..m] + [sent[m]]
  {
    var m := |sent| - 1;
    assert sent[m] == sent[|sent| - n..][n - 1];
    assert sent[..m][m - (n - 1)..] == sent[|sent| - n..][..n - 1];
    assert parts == parts[..m] + [parts[m]];
  }

  lemma SuffixSnoc(s: seq<Token>, t: Token, n: nat)
    requires n <= |s|
    ensures (s + [t])[|s| + 1 - (n + 1)..] == s[|s| - n..] + [t]
  {
  }

  lemma {:induction false} SomePart<T>(parts: seq<seq<T>>)
    ensures Flatten(parts) != [] <==> exists i :: 0 <= i < |parts| && parts[i] != []
  {
    if parts != [] {
      SomePart(parts[1..]);
      assert forall i :: 1 <= i < |parts| ==> parts[i] == parts[1..][i - 1];
      if parts[0] == [] && Flatten(parts) != [] {
        var i :| 0 <= i < |parts[1..]| && parts[1..][i] != [];
        assert parts[i + 1] != [];
      }
    }
  }

  /** Before the last n of the sent tokens there is one that does not expand to nothing. */
  ghost predicate SomethingBefore(parts: seq<seq<Token>>, n: nat) {
    exists i :: 0 <= i < |parts| - n && parts[i] != []
  }

  /** The engine has more tokens than the suffix if and only if something before it does not expand to
      nothing. */
  lemma {:induction false} MoreThanSuffix(sent: seq<Token>, mm: set<Token>, parts: seq<seq<Token>>, n: nat)
    requires Expands(sent, mm, parts) && n <= |sent| && NoPlaceholder(sent[|sent| - n..], mm)
    ensures |Flatten(parts)| > n <==> SomethingBefore(parts, n)
    decreases n
  {
    if n == 0 {
      SomePart(parts);
    } else {
      var m := |sent| - 1;
      FrontExpands(sent, mm, parts, n);
      MoreThanSuffix(sent[..m], mm, parts[..m], n - 1);
      FlattenSnoc(parts[..m], [sent[m]]);
      assert forall i :: 0 <= i < |sent| - n ==> parts[i] == parts[..m][i];
    }
  }

  // ----------------------------------------------------------------------- the scatter loops

  /** full[indices] = rows[-len(indices):] */
  method ScatterResponse<R>(full: array<R>, indices: seq<nat>, rows: seq<R>) returns (error: bool)
    requires forall k :: 0 <= k < |indices| ==> indices[k] < full.Length
    requires forall k, l :: 0 <= k < l < |indices| ==> indices[k] < indices[l]
    modifies full
    ensures error <==> |rows| < |indices|
    ensures error ==> full[..] == old(full[..])
    ensures !error ==> forall k :: 0 <= k < |indices| ==> full[indices[k]] == rows[|rows| - |indices| + k]
    ensures forall p :: 0 <= p < full.Length && p !in indices ==> full[p] == old(full[p])
  {
    error := |rows| < |indices|;
    if error { return; }
    var base := |rows| - |indices|;
    var n := 0;
    while n < |indices|
      invariant 0 <= n <= |indices|
      invariant forall k :: 0 <= k < n ==> full[indices[k]] == rows[base + k]
      invariant forall p :: 0 <= p < full.Length && p !in indices[..n] ==> full[p] == old(full[p])
    {
      full[indices[n]] := rows[base + n];
      TakeOneMore(indices, n);
      n := n + 1;
    }
    assert indices[..n] == indices;
  }

  /** How many of n tokens are predicted by a token before them: max(n - 1, 0). */
  function Shifts(n: nat): nat {
    if n == 0 then 0 else n - 1
  }

  /** Without a response mask: the engine has returned a row for every token of the span that another one
      precedes, or one for every such kept token; anything else is an error. */
  method ScatterSpan<R>(full: array<R>, start: nat, activeLen: nat, kept: seq<nat>, rows: seq<R>) returns (error: bool)
    requires start + activeLen <= full.Length + 1
    requires forall k :: 0 <= k < |kept| ==> kept[k] < activeLen
    requires forall k, l :: 0 <= k < l < |kept| ==> kept[k] < kept[l]
    requires if activeLen == 0 then kept == [] else kept != [] && kept[0] == 0
    modifies full
    ensures error <==> |rows| != Shifts(activeLen) && |rows| != Shifts(|kept|)
    ensures error ==> full[..] == old(full[..])
    ensures |rows| == Shifts(activeLen) ==>
              && (forall i :: 0 <= i < activeLen - 1 ==> full[start + i] == rows[i])
              && forall p :: 0 <= p < full.Length && !(start <= p < start + activeLen - 1) ==> full[p] == old(full[p])
    ensures |rows| != Shifts(activeLen) && |rows| == Shifts(|kept|) ==>
              && (forall k :: 1 <= k < |kept| ==> full[start + kept[k] - 1] == rows[k - 1])
              && forall p :: 0 <= p < full.Length && (forall k :: 1 <= k < |kept| ==> p != start + kept[k] - 1) ==>
                   full[p] == old(full[p])
  {
    error := false;
    if |rows| == Shifts(activeLen) {
      forall i | 0 <= i < activeLen - 1 {
        full[start + i] := rows[i];
      }
    } else if |rows| == Shifts(|kept|) {
      var k := 1;
      while k < |kept|
        invariant 1 <= k <= |kept|
        invariant forall l :: 1 <= l < k ==> full[start + kept[l] - 1] == rows[l - 1]
        invariant forall p :: 0 <= p < full.Length && (forall l :: 1 <= l < k ==> p != start + kept[l] - 1) ==>
                    full[p] == old(full[p])
      {
        assert kept[0] < kept[k];
        full[start + kept[k] - 1] := rows[k - 1];
        k := k + 1;
      }
    } else {
      error := true;
    }
  }

  // ------------------------------------------------------------------------------- alignment

  /** No padding between two tokens that are kept. */
  predicate NoHole(mask: seq<bool>) {
    forall i, j, k :: 0 <= i < j < k < |mask| && mask[i] && mask[k] ==> mask[j]
  }

  /** The k-th of the response positions is given the k-th of the last |ps| rows, while the row it should
      have is as far from the last row as its position is from the last response position. */
  predicate Aligned(ps: seq<nat>) {
    forall k :: 0 <= k < |ps| ==> ps[k] + (|ps| - 1 - k) == ps[|ps| - 1]
  }

  /** Every response position is given its own row if and only if the response has no hole. */
  lemma AlignedIffNoHole(mask: seq<bool>)
    ensures Aligned(Nonzero(mask)) <==> NoHole(mask)
  {
    var ps := Nonzero(mask);
    NonzeroIs(mask);
    if NoHole(mask) {
      forall k | 0 <= k < |ps|
        ensures ps[k] + (|ps| - 1 - k) == ps[|ps| - 1]
      {
        NoHoleCounts(mask, ps, k);
      }
    }
    if Aligned(ps) {
      forall i, j, l | 0 <= i < j < l < |mask| && mask[i] && mask[l]
        ensures mask[j]
      {
        NothingSkipped(mask, ps, i, j, l);
      }
    }
  }

  lemma NothingSkipped(mask: seq<bool>, ps: seq<nat>, i: nat, j: nat, l: nat)
    requires ps == Nonzero(mask) && Aligned(ps) && i < j < l < |mask| && mask[i] && mask[l]
    ensures mask[j]
  {
    NonzeroIs(mask);
    assert i in ps && l in ps;
    var k :| 0 <= k < |ps| && ps[k] == i;
    var y :| 0 <= y < |ps| && ps[y] == l;
    assert ps[k] + (|ps| - 1 - k) == ps[y] + (|ps| - 1 - y);
    var x := k + (j - i);
    assert ps[x] + (|ps| - 1 - x) == ps[k] + (|ps| - 1 - k);
    assert ps[x] in ps;
  }

  lemma {:induction false} NoHoleCounts(mask: seq<bool>, ps: seq<nat>, k: nat)
    requires NoHole(mask) && ps == Nonzero(mask) && k < |ps|
    ensures ps[k] + (|ps| - 1 - k) == ps[|ps| - 1]
    decreases |ps| - k
  {
    if k < |ps| - 1 {
      NoHoleCounts(mask, ps, k + 1);
      NextPosition(mask, ps, k);
    }
  }

  lemma NextPosition(mask: seq<bool>, ps: seq<nat>, k: nat)
    requires NoHole(mask) && ps == Nonzero(mask) && k < |ps| - 1
    ensures ps[k + 1] == ps[k] + 1
  {
    NonzeroIs(mask);
    assert ps[k] < ps[k + 1];
    assert ps[k] in ps && ps[k + 1] in ps;
    assert mask[ps[k] + 1];
    assert ps[k] + 1 in ps;
    var x :| 0 <= x < |ps| && ps[x] == ps[k] + 1;
    assert x >= k + 1;
  }

  // --------------------------------------------------------- from the rollout to the scores

  /** The completion part of a row that VLLMStudentRollout.generate returns: the sampled tokens, cut or
      padded on the right to the width of the batch. */
  function RightPadded(sampled: seq<Token>, pad: Token, width: nat): (row: seq<Token>)
    ensures |row| == width
  {
    seq(width, j requires 0 <= j < width => if j < |sampled| then sampled[j] else pad)
  }

  /** With its first end-of-sequence token at e, or none and e its length, a completion is kept up to and
      including e, without padding. */
  lemma CompletionMaskIs(completion: seq<Token>, pad: Token, eos: Token, hasEos: bool, e: nat)
    requires e <= |completion| && forall j :: 0 <= j < e ==> !(hasEos && completion[j] == eos)
    requires e < |completion| ==> hasEos && completion[e] == eos
    ensures var mask := CompletionMask(completion, pad, eos, hasEos);
            forall j :: 0 <= j < |completion| ==> (mask[j] <==> completion[j] != pad && j <= e)
  {
    forall j | 0 <= j < |completion|
      ensures (!hasEos || eos !in completion[..j]) <==> j <= e
    {
      if j > e {
        assert completion[..j][e] == eos;
      }
    }
  }

  /** Padding at j, between two tokens. */
  predicate PadBetween(completion: seq<Token>, pad: Token, i: nat, j: nat, k: nat) {
    i < j < k < |completion| && completion[i] != pad && completion[j] == pad && completion[k] != pad
  }

  /** A completion's mask has no hole if and only if padding comes between two of its tokens only where an
      end-of-sequence token has come before the second. */
  lemma CompletionHasNoHoleIff(completion: seq<Token>, pad: Token, eos: Token, hasEos: bool)
    ensures NoHole(CompletionMask(completion, pad, eos, hasEos))
            <==> forall i: nat, j: nat, k: nat ::
                   PadBetween(completion, pad, i, j, k) ==> hasEos && eos in completion[..k]
  {
    var mask := CompletionMask(completion, pad, eos, hasEos);
    if NoHole(mask) {
      forall i: nat, j: nat, k: nat | PadBetween(completion, pad, i, j, k)
        ensures hasEos && eos in completion[..k]
      {
        assert completion[..i] == completion[..k][..i];
        assert !mask[j];
        assert !(mask[i] && mask[k]);
      }
    } else {
      var i, j, k :| 0 <= i < j < k < |mask| && mask[i] && mask[k] && !mask[j];
      assert completion[..j] == completion[..k][..j];
      assert PadBetween(completion, pad, i, j, k);
    }
  }

  /** If the sampler gives no padding before the first end-of-sequence token, and be it that the pad token is
      the end-of-sequence token, the mask of such a row is a prefix, so it has no hole. */
  lemma RightPaddedHasNoHole(sampled: seq<Token>, pad: Token, eos: Token, hasEos: bool, width: nat)
    requires forall j :: 0 <= j < |sampled| && sampled[j] == pad ==> hasEos && eos in sampled[..j + 1]
    ensures var mask := CompletionMask(RightPadded(sampled, pad, width), pad, eos, hasEos);
            NoHole(mask) && forall i, j :: 0 <= i < j < width && mask[j] ==> mask[i]
  {
    var row := RightPadded(sampled, pad, width);
    var mask := CompletionMask(row, pad, eos, hasEos);
    forall i, j | 0 <= i < j < width && mask[j]
      ensures mask[i]
    {
      assert row[..i] == row[..j][..i];
      assert row[..i + 1] == row[..j][..i + 1] == sampled[..i + 1];
    }
    forall i: nat, j: nat, k: nat | PadBetween(row, pad, i, j, k)
      ensures hasEos && eos in row[..k]
    {
      assert row[..j + 1] == row[..k][..j + 1] == sampled[..j + 1];
    }
    CompletionHasNoHoleIff(row, pad, eos, hasEos);
  }

  function Falses(n: nat): (r: seq<bool>)
    ensures |r| == n && forall i :: 0 <= i < n ==> !r[i]
  {
    seq(n, _ => false)
  }

  lemma {:induction false} NoneInFalses(n: nat)
    ensures Nonzero(Falses(n)) == []
  {
    if n > 0 {
      assert Falses(n)[..n - 1] == Falses(n - 1);
      NoneInFalses(n - 1);
    }
  }

  function Shifted(ps: seq<nat>, d: nat): (r: seq<nat>)
    ensures |r| == |ps| && forall k :: 0 <= k < |r| ==> r[k] == ps[k] + d
  {
    seq(|ps|, k requires 0 <= k < |ps| => ps[k] + d)
  }

  lemma {:induction false} NonzeroAdds(a: seq<bool>, b: seq<bool>)
    ensures Nonzero(a + b) == Nonzero(a) + Shifted(Nonzero(b), |a|)
    decreases |b|
  {
    if b == [] {
      AppendNothing(a);
      AppendNothing(Nonzero(a));
    } else {
      var n := |b| - 1;
      assert (a + b)[..|a + b| - 1] == a + b[..n];
      NonzeroAdds(a, b[..n]);
      Assoc(Nonzero(a), Shifted(Nonzero(b[..n]), |a|), [n + |a|]);
      assert b[n] ==> Shifted(Nonzero(b), |a|) == Shifted(Nonzero(b[..n]), |a|) + [n + |a|];
    }
  }

  /** The shifted mask marks the positions that predict the response tokens; without a prompt nothing
      predicts the first of them, and the mask is only cut to the width. */
  lemma ShiftedPositions(width: nat, mask: seq<bool>, promptWidth: nat)
    requires promptWidth + |mask| == width + 1
    ensures Nonzero(ShiftMask(width, mask, promptWidth))
            == if promptWidth == 0 then Nonzero(mask[..width]) else Shifted(Nonzero(mask), promptWidth - 1)
  {
    hide Nonzero, ShiftMask, Falses, Shifted;
    ShiftedMask(width, mask, promptWidth);
    if promptWidth > 0 {
      NonzeroAfterFalses(promptWidth - 1, mask);
    }
  }

  lemma NonzeroAfterFalses(n: nat, mask: seq<bool>)
    ensures Nonzero(Falses(n) + mask) == Shifted(Nonzero(mask), n)
  {
    hide Nonzero, Shifted;
    NoneInFalses(n);
    NonzeroAdds(Falses(n), mask);
    AppendNothing(Shifted(Nonzero(mask), n));
  }

  lemma ShiftedMask(width: nat, mask: seq<bool>, promptWidth: nat)
    requires promptWidth + |mask| == width + 1
    ensures ShiftMask(width, mask, promptWidth)
            == if promptWidth == 0 then mask[..width] else Falses(promptWidth - 1) + mask
  {
  }

  lemma LastActive(promptMask: seq<bool>, mask: seq<bool>)
    requires Nonzero(mask) != []
    ensures var (start, end) := ActiveSpan(promptMask + mask);
            var ps := Nonzero(mask);
            start <= |promptMask| + ps[0] && end == |promptMask| + ps[|ps| - 1] + 1
  {
    hide Nonzero;
    NonzeroAdds(promptMask, mask);
    NonzeroIs(promptMask);
    var qs := Nonzero(promptMask);
    if qs != [] {
      assert qs[0] in qs;
    }
  }

  /** The last tokens are those of the row at the given positions behind the prompt. */
  ghost predicate EndsIn(engine: seq<Token>, row: seq<Token>, p: nat, cs: seq<nat>)
    requires |cs| <= |engine|
  {
    forall k :: 0 <= k < |cs| ==> p + cs[k] < |row| && engine[|engine| - |cs| + k] == row[p + cs[k]]
  }

  /** The response tokens are the last tokens of the active span. */
  lemma ResponseIsSuffix(row: seq<Token>, p: nat, mask: seq<bool>, start: nat, tokens: seq<Token>)
    requires NoHole(mask) && Nonzero(mask) != [] && |row| == p + |mask|
    requires var ps := Nonzero(mask);
             && start <= p + ps[0] <= p + ps[|ps| - 1] + 1 <= |row| && tokens == row[start..p + ps[|ps| - 1] + 1]
    ensures var ps := Nonzero(mask);
            |ps| <= |tokens| && EndsIn(tokens, row, p, ps)
  {
    AlignedIffNoHole(mask);
    var ps := Nonzero(mask);
    assert ps[0] + (|ps| - 1) == ps[|ps| - 1];
    forall k | 0 <= k < |ps|
      ensures p + ps[k] < |row| && tokens[|tokens| - |ps| + k] == row[p + ps[k]]
    {
      assert ps[k] + (|ps| - 1 - k) == ps[|ps| - 1];
    }
  }

  lemma SentSuffix(tokens: seq<Token>, mm: set<Token>, sent: seq<Token>, n: nat)
    requires n <= |tokens| && NoPlaceholder(tokens[|tokens| - n..], mm) && Selects(tokens, Kept(tokens, mm), sent)
    ensures n <= |sent| && sent[|sent| - n..] == tokens[|tokens| - n..]
  {
    var prefix, suffix := tokens[..|tokens| - n], tokens[|tokens| - n..];
    assert tokens == prefix + suffix;
    KeptSuffix(prefix, suffix, mm);
    var kept := Kept(tokens, mm);
    assert forall k :: 0 <= k < n ==> kept[|kept| - n + k] == Range(|prefix|, n)[k];
  }

  /** The engine's last tokens, one for each response position, are the response tokens. */
  lemma EngineEndsInResponse(row: seq<Token>, p: nat, mask: seq<bool>, mm: set<Token>, collapsed: set<Token>,
                             start: nat,
                             tokens: seq<Token>, sent: seq<Token>, parts: seq<seq<Token>>)
    requires collapsed <= mm
    requires NoHole(mask) && Nonzero(mask) != [] && |row| == p + |mask|
    requires forall c :: 0 <= c < |mask| && mask[c] ==> row[p + c] !in mm
    requires var cs := Nonzero(mask);
             && start <= p + cs[0] <= p + cs[|cs| - 1] + 1 <= |row| && tokens == row[start..p + cs[|cs| - 1] + 1]
    requires Selects(tokens, Kept(tokens, collapsed), sent) && Expands(sent, mm, parts)
    ensures var cs, engine := Nonzero(mask), Flatten(parts);
            && |cs| <= |engine| && |cs| <= |sent|
            && (|cs| < |engine| <==> SomethingBefore(parts, |cs|))
            && EndsIn(engine, row, p, cs)
  {
    hide Kept, Expands, NoHole, Selects, Nonzero, Flatten, SomethingBefore, EndsIn, NoPlaceholder;
    ResponseIsSuffix(row, p, mask, start, tokens);
    ResponseIsPlain(row, p, mask, mm, collapsed, tokens);
    var n, engine := |Nonzero(mask)|, Flatten(parts);
    SentSuffix(tokens, collapsed, sent, n);
    SuffixSurvives(sent, mm, parts, n);
    MoreThanSuffix(sent, mm, parts, n);
    SameLength(sent, mm, parts);
    EndsInSame(tokens, engine, row, p, Nonzero(mask));
  }

  lemma EndsInSame(tokens: seq<Token>, engine: seq<Token>, row: seq<Token>, p: nat, cs: seq<nat>)
    requires |cs| <= |tokens| && |cs| <= |engine| && EndsIn(tokens, row, p, cs)
    requires engine[|engine| - |cs|..] == tokens[|tokens| - |cs|..]
    ensures EndsIn(engine, row, p, cs)
  {
    forall k | 0 <= k < |cs| ensures p + cs[k] < |row| && engine[|engine| - |cs| + k] == row[p + cs[k]] {
      assert engine[|engine| - |cs|..][k] == tokens[|tokens| - |cs|..][k];
    }
  }

  lemma ResponseIsPlain(row: seq<Token>, p: nat, mask: seq<bool>, mm: set<Token>, collapsed: set<Token>,
                        tokens: seq<Token>)
    requires |row| == p + |mask| && collapsed <= mm && forall c :: 0 <= c < |mask| && mask[c] ==> row[p + c] !in mm
    requires |Nonzero(mask)| <= |tokens| && EndsIn(tokens, row, p, Nonzero(mask))
    ensures var suffix := tokens[|tokens| - |Nonzero(mask)|..];
            NoPlaceholder(suffix, mm) && NoPlaceholder(suffix, collapsed)
  {
    hide Nonzero;
    var cs := Nonzero(mask);
    var suffix := tokens[|tokens| - |cs|..];
    NonzeroIs(mask);
    forall k | 0 <= k < |suffix| ensures suffix[k] !in mm {
      assert cs[k] in cs;
      assert suffix[k] == tokens[|tokens| - |cs| + k];
    }
  }

  lemma SameLength(sent: seq<Token>, mm: set<Token>, parts: seq<seq<Token>>)
    requires Expands(sent, mm, parts)
    ensures |parts| == |sent|
  {
  }

  // ------------------------------------------------------------------------ scoring one row

  /** The tokens of the active span. */
  function Active(row: seq<Token>, attention: seq<bool>): seq<Token>
    requires |attention| == |row|
  {
    SpanInRow(attention);
    row[ActiveSpan(attention).0..ActiveSpan(attention).1]
  }

  /** The tokens that are sent: the given ones, with the runs of some collapsed. */
  function SentOf(tokens: seq<Token>, collapsed: set<Token>): (sent: seq<Token>) {
    KeptAreRunHeads(tokens, collapsed);
    Selected(tokens, Kept(tokens, collapsed))
  }

  function Sent(row: seq<Token>, attention: seq<bool>, collapsed: set<Token>): (sent: seq<Token>)
    requires |attention| == |row|
  {
    SentOf(Active(row, attention), collapsed)
  }

  function Selected(tokens: seq<Token>, indices: seq<nat>): (selected: seq<Token>)
    requires forall i :: i in indices ==> i < |tokens|
    ensures Selects(tokens, indices, selected)
  {
    assert forall k :: 0 <= k < |indices| ==> indices[k] in indices;
    seq(|indices|, k requires 0 <= k < |indices| => tokens[indices[k]])
  }

  lemma SpanInRow(mask: seq<bool>)
    ensures ActiveSpan(mask).0 <= ActiveSpan(mask).1 <= |mask|
    ensures forall i :: 0 <= i < |mask| && mask[i] ==> ActiveSpan(mask).0 <= i < ActiveSpan(mask).1
  {
    hide Nonzero;
    var ps := Nonzero(mask);
    NonzeroIs(mask);
    if ps != [] {
      assert ps[0] in ps && ps[|ps| - 1] in ps;
      assert ps[0] <= ps[|ps| - 1];
    }
  }

  /** What the engine makes of the i-th token it was sent, if that is a placeholder, is given by expand. */
  function Expansion(sent: seq<Token>, mm: set<Token>, expand: nat -> seq<Token>): (parts: seq<seq<Token>>)
    ensures Expands(sent, mm, parts)
  {
    seq(|sent|, i requires 0 <= i < |sent| => if sent[i] in mm then expand(i) else [sent[i]])
  }

  function EngineOf(tokens: seq<Token>, mm: set<Token>, collapsed: set<Token>, expand: nat -> seq<Token>): seq<Token> {
    Flatten(Expansion(SentOf(tokens, collapsed), mm, expand))
  }

  function EngineTokens(row: seq<Token>, attention: seq<bool>, mm: set<Token>, collapsed: set<Token>,
                        expand: nat -> seq<Token>): seq<Token>
    requires |attention| == |row|
  {
    EngineOf(Active(row, attention), mm, collapsed, expand)
  }

  /** What is left or right of the span is never sent. */
  lemma EngineOfSpan(row: seq<Token>, attention: seq<bool>, a: nat, b: nat, mm: set<Token>, collapsed: set<Token>,
                     expand: nat -> seq<Token>)
    requires |attention| == |row| && IsSpan(attention, a, b)
    ensures a <= b <= |row|
    ensures EngineTokens(row, attention, mm, collapsed, expand) == EngineOf(row[a..b], mm, collapsed, expand)
  {
    hide ActiveSpan, EngineOf;
    SpanIff(attention, a, b);
    SpanInRow(attention);
  }

  /** The engine scores every token but its first, given the tokens before it. */
  function Rows<R>(engine: seq<Token>, score: (seq<Token>, Token) -> R): (rows: seq<R>)
    ensures |rows| == Shifts(|engine|)
    ensures forall r :: 0 <= r < |rows| ==> rows[r] == score(engine[..r + 1], engine[r + 1])
  {
    seq(Shifts(|engine|), r requires 0 <= r < Shifts(|engine|) => score(engine[..r + 1], engine[r + 1]))
  }

  /** The response is sampled text: no padding between its tokens, and no placeholder. */
  ghost predicate PlainResponse(row: seq<Token>, p: nat, mask: seq<bool>, mm: set<Token>)
    requires |row| == p + |mask|
  {
    NoHole(mask) && forall c :: 0 <= c < |mask| && mask[c] ==> row[p + c] !in mm
  }

  lemma EngineOfRow(row: seq<Token>, promptMask: seq<bool>, mask: seq<bool>, mm: set<Token>, collapsed: set<Token>,
                    expand: nat -> seq<Token>)
    requires |row| == |promptMask| + |mask| && collapsed <= mm && Nonzero(mask) != []
    requires PlainResponse(row, |promptMask|, mask, mm)
    ensures var p, cs, sent := |promptMask|, Nonzero(mask), Sent(row, promptMask + mask, collapsed);
            var parts := Expansion(sent, mm, expand);
            var engine := EngineTokens(row, promptMask + mask, mm, collapsed, expand);
            && |cs| <= |engine| && |cs| <= |sent|
            && (|cs| < |engine| <==> SomethingBefore(parts, |cs|))
            && EndsIn(engine, row, p, cs)
  {
    hide Kept, NoHole, Nonzero, Flatten, Expands, Selects;
    var attention := promptMask + mask;
    var (start, end) := ActiveSpan(attention);
    LastActive(promptMask, mask);
    NonzeroIs(mask);
    FirstOf(mask);
    SpanInRow(attention);
    var sent := Sent(row, attention, collapsed);
    EngineEndsInResponse(row, |promptMask|, mask, mm, collapsed, start, row[start..end], sent,
                         Expansion(sent, mm, expand));
  }

  lemma FirstOf(mask: seq<bool>)
    requires Nonzero(mask) != []
    ensures var cs := Nonzero(mask); cs[0] <= cs[|cs| - 1] < |mask|
  {
    hide Nonzero;
    NonzeroIs(mask);
    var cs := Nonzero(mask);
    assert cs[|cs| - 1] in cs;
  }

  /** The last rows score the tokens that the positions of ps predict, given the tokens of the engine before
      them. */
  ghost predicate Predicted<R>(rows: seq<R>, ps: seq<nat>, row: seq<Token>, engine: seq<Token>,
                               score: (seq<Token>, Token) -> R)
  {
    && |ps| <= |rows| && |ps| < |engine|
    && forall k :: 0 <= k < |ps| ==>
         && ps[k] + 1 < |row|
         && rows[|rows| - |ps| + k] == score(engine[..|engine| - |ps| + k], row[ps[k] + 1])
  }

  /** Whatever the prompt's placeholders were collapsed to and expanded to again, the last rows, one for each
      response position, score exactly the tokens that those positions predict. There are that many rows
      if and only if something that was sent before the response does not expand to nothing. */
  lemma ResponseRowsPredictTheirTokens<R>(row: seq<Token>, promptMask: seq<bool>, mask: seq<bool>, mm: set<Token>,
                                          collapsed: set<Token>, expand: nat -> seq<Token>, score: (seq<Token>,
                                          Token) -> R)
    requires |promptMask| >= 1 && |row| == |promptMask| + |mask| && collapsed <= mm && Nonzero(mask) != []
    requires PlainResponse(row, |promptMask|, mask, mm)
    ensures var ps, sent := Nonzero(ShiftMask(|row| - 1, mask, |promptMask|)), Sent(row, promptMask + mask, collapsed);
            var engine := EngineTokens(row, promptMask + mask, mm, collapsed, expand);
            var rows := Rows(engine, score);
            && |ps| <= |sent|
            && (|ps| <= |rows| <==> SomethingBefore(Expansion(sent, mm, expand), |ps|))
            && (|ps| <= |rows| ==> Predicted(rows, ps, row, engine, score))
  {
    hide Predicted, Nonzero, Sent, EngineTokens, PlainResponse, ShiftMask, Expansion, Rows, Expands, Shifted;
    hide SomethingBefore, EndsIn;
    EngineOfRow(row, promptMask, mask, mm, collapsed, expand);
    ShiftedPositions(|row| - 1, mask, |promptMask|);
    RowsOfSuffix(row, EngineTokens(row, promptMask + mask, mm, collapsed, expand), score, |promptMask|, Nonzero(mask));
  }

  lemma RowsOfSuffix<R>(row: seq<Token>, engine: seq<Token>, score: (seq<Token>, Token) -> R, p: nat, cs: seq<nat>)
    requires p >= 1 && cs != [] && |cs| <= |engine|
    requires EndsIn(engine, row, p, cs)
    ensures var ps, rows := Shifted(cs, p - 1), Rows(engine, score);
            && (|ps| <= |rows| <==> |cs| < |engine|)
            && (|ps| <= |rows| ==> Predicted(rows, ps, row, engine, score))
  {
    var ps, rows := Shifted(cs, p - 1), Rows(engine, score);
    hide Rows;
    if |ps| <= |rows| {
      forall k | 0 <= k < |ps|
        ensures ps[k] + 1 < |row| && rows[|rows| - |ps| + k] == score(engine[..|engine| - |ps| + k], row[ps[k] + 1])
      {
        LastRow(engine, score, |cs|, k);
      }
    }
  }

  lemma LastRow<R>(engine: seq<Token>, score: (seq<Token>, Token) -> R, n: nat, k: nat)
    requires k < n <= |Rows(engine, score)|
    ensures var rows := Rows(engine, score);
            n < |engine| && rows[|rows| - n + k] == score(engine[..|engine| - n + k], engine[|engine| - n + k])
  {
  }

  /** In particular there are enough rows if the prompt has an active token that is not a placeholder. */
  lemma ActivePromptIsEnough(row: seq<Token>, promptMask: seq<bool>, mask: seq<bool>, mm: set<Token>,
                             collapsed: set<Token>,
                             expand: nat -> seq<Token>, i: nat)
    requires |row| == |promptMask| + |mask| && collapsed <= mm && Nonzero(mask) != []
    requires PlainResponse(row, |promptMask|, mask, mm)
    requires i < |promptMask| && promptMask[i] && row[i] !in mm
    ensures |Nonzero(mask)| < |EngineTokens(row, promptMask + mask, mm, collapsed, expand)|
  {
    hide Nonzero, Kept, Flatten, NoHole;
    var attention, n := promptMask + mask, |Nonzero(mask)|;
    var (start, end) := ActiveSpan(attention);
    SpanInRow(attention);
    assert attention[i];
    var tokens, sent := row[start..end], Sent(row, attention, collapsed);
    EngineOfRow(row, promptMask, mask, mm, collapsed, expand);
    KeptAreRunHeads(tokens, collapsed);
    var kept := Kept(tokens, collapsed);
    assert tokens[i - start] == row[i] && !Dropped(tokens, collapsed, i - start);
    assert i - start in kept;
    var x :| 0 <= x < |kept| && kept[x] == i - start;
    assert sent[x] == row[i];
    var parts := Expansion(sent, mm, expand);
    assert parts[x] == [row[i]];
    ResponseComesLast(row, promptMask, mask, mm, collapsed, i, x);
  }

  lemma ResponseComesLast(row: seq<Token>, promptMask: seq<bool>, mask: seq<bool>, mm: set<Token>,
                          collapsed: set<Token>,
                          i: nat, x: nat)
    requires |row| == |promptMask| + |mask| && collapsed <= mm && Nonzero(mask) != []
    requires PlainResponse(row, |promptMask|, mask, mm) && i < |promptMask|
    requires var (start, end) := ActiveSpan(promptMask + mask);
             start <= i < end <= |row| &&
             var kept := Kept(row[start..end], collapsed);
             x < |kept| && kept[x] == i - start
    ensures x < |Kept(Active(row, promptMask + mask), collapsed)| - |Nonzero(mask)|
  {
    hide Nonzero, Kept, NoHole, Range;
    var attention, cs := promptMask + mask, Nonzero(mask);
    var (start, end) := ActiveSpan(attention);
    var tokens, n := row[start..end], |cs|;
    NonzeroIs(mask);
    FirstOf(mask);
    LastActive(promptMask, mask);
    ResponseIsSuffix(row, |promptMask|, mask, start, tokens);
    assert forall k :: 0 <= k < n ==> cs[k] in cs;
    var prefix, suffix := tokens[..|tokens| - n], tokens[|tokens| - n..];
    forall k | 0 <= k < n ensures suffix[k] !in collapsed {
      assert suffix[k] == row[|promptMask| + cs[k]];
    }
    assert tokens == prefix + suffix;
    KeptSuffix(prefix, suffix, collapsed);
    var kept := Kept(tokens, collapsed);
    assert forall k :: |kept| - n <= k < |kept| ==> kept[k] == Range(|prefix|, n)[k - (|kept| - n)];
    AlignedIffNoHole(mask);
    assert cs[0] + (n - 1) == cs[n - 1];
    assert |prefix| == |promptMask| + cs[0] - start;
  }

  /** Every position of ps holds the score of the token it predicts, given the tokens of the engine before
      that one, and every other position what it held before. */
  ghost predicate Scored<R>(before: seq<R>, after: seq<R>, ps: seq<nat>, row: seq<Token>, engine: seq<Token>,
                            score: (seq<Token>, Token) -> R)
  {
    && |after| == |before|
    && (forall k :: 0 <= k < |ps| ==>
          && ps[k] < |after| && ps[k] + 1 < |row| && |ps| < |engine|
          && after[ps[k]] == score(engine[..|engine| - |ps| + k], row[ps[k] + 1]))
    && (forall q :: 0 <= q < |after| && q !in ps ==> after[q] == before[q])
  }

  /** The last rows are at the positions of ps, and nothing else has changed. */
  ghost predicate Scattered<R>(before: seq<R>, after: seq<R>, ps: seq<nat>, rows: seq<R>) {
    && |after| == |before| && |ps| <= |rows|
    && (forall k :: 0 <= k < |ps| ==> ps[k] < |after| && after[ps[k]] == rows[|rows| - |ps| + k])
    && (forall q :: 0 <= q < |after| && q !in ps ==> after[q] == before[q])
  }

  lemma ScatteredScores<R>(row: seq<Token>, promptMask: seq<bool>, mask: seq<bool>, mm: set<Token>,
                           collapsed: set<Token>,
                           expand: nat -> seq<Token>, score: (seq<Token>, Token) -> R, ps: seq<nat>,
                           before: seq<R>, after: seq<R>)
    requires |promptMask| >= 1 && |row| == |promptMask| + |mask| && collapsed <= mm && Nonzero(mask) != []
    requires PlainResponse(row, |promptMask|, mask, mm) && ps == Nonzero(ShiftMask(|row| - 1, mask, |promptMask|))
    ensures var engine := EngineTokens(row, promptMask + mask, mm, collapsed, expand);
            && ps != [] && (|Rows(engine, score)| < |ps| <==> |engine| <= |ps|)
            && (Scattered(before, after, ps, Rows(engine, score)) ==> Scored(before, after, ps, row, engine, score))
  {
    hide Predicted, Nonzero, EngineTokens, PlainResponse, ShiftMask, Expansion, Sent, Scored, Scattered, Rows, Shifted;
    ResponseRowsPredictTheirTokens(row, promptMask, mask, mm, collapsed, expand, score);
    ShiftedPositions(|row| - 1, mask, |promptMask|);
    var engine := EngineTokens(row, promptMask + mask, mm, collapsed, expand);
    if Scattered(before, after, ps, Rows(engine, score)) {
      EnoughWereScattered(before, after, ps, Rows(engine, score));
      PredictedAreScored(before, after, ps, row, engine, score);
    }
  }

  lemma EnoughWereScattered<R>(before: seq<R>, after: seq<R>, ps: seq<nat>, rows: seq<R>)
    requires Scattered(before, after, ps, rows)
    ensures |ps| <= |rows|
  {
  }

  lemma PredictedAreScored<R>(before: seq<R>, after: seq<R>, ps: seq<nat>, row: seq<Token>, engine: seq<Token>,
                              score: (seq<Token>, Token) -> R)
    requires Predicted(Rows(engine, score), ps, row, engine, score) && Scattered(before, after, ps, Rows(engine, score))
    ensures Scored(before, after, ps, row, engine, score)
  {
    hide Rows;
  }

  /** full[indices] = rows[-len(indices):], as one fact about the whole array */
  method Scatter<R>(full: array<R>, indices: seq<nat>, rows: seq<R>) returns (error: bool)
    requires forall k :: 0 <= k < |indices| ==> indices[k] < full.Length
    requires Increasing(indices)
    modifies full
    ensures error <==> |rows| < |indices|
    ensures if error then full[..] == old(full[..]) else Scattered(old(full[..]), full[..], indices, rows)
  {
    error := ScatterResponse(full, indices, rows);
  }

  /** Where score puts the response: a mask narrower than the row is taken to end at the last position that
      predicts a token. */
  function ResponsePositions(width: nat, responseMask: seq<bool>): seq<nat>
    requires |responseMask| <= width
  {
    Shifted(Nonzero(responseMask), width - |responseMask|)
  }

  lemma PositionsInRow(width: nat, responseMask: seq<bool>)
    requires |responseMask| <= width
    ensures var ps := ResponsePositions(width, responseMask);
            Increasing(ps) && forall k :: 0 <= k < |ps| ==> ps[k] < width
  {
    hide Nonzero;
    var positions := Nonzero(responseMask);
    NonzeroIs(responseMask);
    assert forall k :: 0 <= k < |positions| ==> positions[k] in positions;
  }

  /** The mask that the loss passes is the shifted one, as wide as there are positions, so nothing is added to
      its positions; the completion's own mask would give the same ones. */
  lemma ShiftedOrNot(width: nat, mask: seq<bool>, promptWidth: nat)
    requires promptWidth + |mask| == width + 1
    ensures var shifted := ShiftMask(width, mask, promptWidth);
            && ResponsePositions(width, shifted) == Nonzero(shifted)
            && (promptWidth >= 1 ==> ResponsePositions(width, mask) == Nonzero(shifted))
  {
    ShiftedPositions(width, mask, promptWidth);
    var shifted := ShiftMask(width, mask, promptWidth);
    assert ResponsePositions(width, shifted) == Nonzero(shifted);
  }

  lemma NothingScored<R>(full: seq<R>, row: seq<Token>, engine: seq<Token>, score: (seq<Token>, Token) -> R)
    ensures Scored(full, full, [], row, engine, score)
  {
  }

  datatype ScoreError = WideMask | TooFewRows

  /** The response branch of score for one row. collapse is the dedup_mm_tokens switch. If the response mask
      marks the positions that predict the tokens after the first p, which are plain, these are scored. */
  method ScoreRow<R>(row: seq<Token>, attention: seq<bool>, responseMask: seq<bool>, ghost p: nat, mm: set<Token>,
                     collapse: bool, expand: nat -> seq<Token>, score: (seq<Token>, Token) -> R, full: array<R>)
    returns (error: Option<ScoreError>)
    requires |attention| == |row| && full.Length == Shifts(|row|)
    modifies full
    ensures error == Some(WideMask) <==> |row| > 1 && |responseMask| >= |row|
    ensures forall a: nat, b: nat :: IsSpan(attention, a, b) ==>
              var collapsed := if collapse then mm else {};
              a <= b <= |row| &&
              EngineTokens(row, attention, mm, collapsed, expand) == EngineOf(row[a..b], mm, collapsed, expand)
    ensures error.Some? ==> full[..] == old(full[..])
    ensures |responseMask| < |row| && 1 <= p <= |row| && PlainResponse(row, p, attention[p..], mm)
            && ResponsePositions(|row| - 1, responseMask) == Nonzero(ShiftMask(|row| - 1, attention[p..], p)) ==>
              var ps := ResponsePositions(|row| - 1, responseMask);
              var engine := EngineTokens(row, attention, mm, if collapse then mm else {}, expand);
              && (error == Some(TooFewRows) <==> |row| > 1 && ps != [] && |engine| <= |ps|)
              && (error.None? && |row| > 1 ==> Scored(old(full[..]), full[..], ps, row, engine, score))
  {
    hide Nonzero, EngineTokens, EngineOf, IsSpan, PlainResponse, ShiftMask, Rows, Scored, Scattered;
    hide ResponsePositions, Increasing;
    forall a: nat, b: nat | IsSpan(attention, a, b)
      ensures var collapsed := if collapse then mm else {};
              a <= b <= |row| &&
              EngineTokens(row, attention, mm, collapsed, expand) == EngineOf(row[a..b], mm, collapsed, expand)
    {
      EngineOfSpan(row, attention, a, b, mm, if collapse then mm else {}, expand);
    }
    if |row| <= 1 { return None; }
    if |responseMask| >= |row| { return Some(WideMask); }
    var collapsed := if collapse then mm else {};
    var engine := EngineTokens(row, attention, mm, collapsed, expand);
    var rows := Rows(engine, score);
    var indices := ResponsePositions(|row| - 1, responseMask);
    PositionsInRow(|row| - 1, responseMask);
    if indices == [] {
      NothingScored(full[..], row, engine, score);
      return None;
    }
    ghost var before := full[..];
    var failed := Scatter(full, indices, rows);
    error := if failed then Some(TooFewRows) else None;
    if 1 <= p <= |row| && PlainResponse(row, p, attention[p..], mm)
       && indices == Nonzero(ShiftMask(|row| - 1, attention[p..], p)) {
      assert attention[..p] + attention[p..] == attention;
      ShiftedPositions(|row| - 1, attention[p..], p);
      ScatteredScores(row, attention[..p], attention[p..], mm, collapsed, expand, score, indices, before, full[..]);
    }
  }

  // --------------------------------------------------------------- from sampling to the scores

  /** Sampled text: no padding before its first end-of-sequence token, and no placeholder. */
  ghost predicate PlainSample(sampled: seq<Token>, pad: Token, eos: Token, hasEos: bool, mm: set<Token>) {
    && (forall j :: 0 <= j < |sampled| && sampled[j] == pad ==> hasEos && eos in sampled[..j + 1])
    && forall j :: 0 <= j < |sampled| ==> sampled[j] !in mm
  }

  lemma {:induction false} PrefixMask(mask: seq<bool>)
    requires forall i, j :: 0 <= i < j < |mask| && mask[j] ==> mask[i]
    ensures var n := |Nonzero(mask)|;
            n <= |mask| && Nonzero(mask) == Range(0, n) && forall k :: 0 <= k < |mask| ==> (mask[k] <==> k < n)
  {
    if mask != [] {
      var m := |mask| - 1;
      PrefixMask(mask[..m]);
      var n := |Nonzero(mask[..m])|;
      assert forall k :: 0 <= k < m ==> mask[..m][k] == mask[k];
      if mask[m] {
        assert m > 0 ==> mask[m - 1];
        assert n == m;
        assert Range(0, n + 1) == Range(0, n) + [n];
      }
    }
  }

  /** The response is the first n of the sampled tokens: all that fit, or up to and including the first
      end-of-sequence token, or up to it if it is the pad token. */
  ghost predicate ResponseEnd(sampled: seq<Token>, width: nat, pad: Token, eos: Token, hasEos: bool, n: nat) {
    && n <= |sampled| && n <= width
    && (hasEos ==> forall k :: 0 <= k < n - 1 ==> sampled[k] != eos)
    && (n < |sampled| && n < width ==>
          hasEos && ((eos != pad && n > 0 && sampled[n - 1] == eos) || (eos == pad && sampled[n] == eos)))
    && (hasEos && eos == pad && n > 0 ==> sampled[n - 1] != eos)
  }

  lemma ResponseEnds(sampled: seq<Token>, width: nat, pad: Token, eos: Token, hasEos: bool, mm: set<Token>, n: nat)
    requires PlainSample(sampled, pad, eos, hasEos, mm) && n <= |sampled| && n <= width
    requires var mask := CompletionMask(RightPadded(sampled, pad, width), pad, eos, hasEos);
             forall k :: 0 <= k < width ==> (mask[k] <==> k < n)
    ensures ResponseEnd(sampled, width, pad, eos, hasEos, n)
  {
    var row := RightPadded(sampled, pad, width);
    var mask := CompletionMask(row, pad, eos, hasEos);
    assert n > 0 ==> mask[n - 1];
    if hasEos {
      forall k | 0 <= k < n - 1 ensures sampled[k] != eos {
        assert row[..n - 1][k] == sampled[k];
      }
    }
    if n < |sampled| && n < width {
      assert !mask[n];
      assert row[..n] == sampled[..n] && sampled[..n + 1] == sampled[..n] + [sampled[n]];
      if hasEos && eos in sampled[..n] {
        var i :| 0 <= i < n && sampled[..n][i] == eos;
        assert i == n - 1;
      }
    }
  }

  /** A right-padded sample is a plain response, at the front of the completion. */
  lemma SampleIsPlain(prompt: seq<Token>, sampled: seq<Token>, width: nat, pad: Token, eos: Token, hasEos: bool,
                      mm: set<Token>)
    requires PlainSample(sampled, pad, eos, hasEos, mm)
    ensures var completion := RightPadded(sampled, pad, width);
            var mask := CompletionMask(completion, pad, eos, hasEos);
            var n := |Nonzero(mask)|;
            && PlainResponse(prompt + completion, |prompt|, mask, mm)
            && n <= |sampled| && n <= width && Nonzero(mask) == Range(0, n)
            && ResponseEnd(sampled, width, pad, eos, hasEos, n)
            && forall k :: 0 <= k < width ==> (mask[k] <==> k < n)
  {
    hide Nonzero, NoHole, ResponseEnd;
    RightPaddedHasNoHole(sampled, pad, eos, hasEos, width);
    var completion := RightPadded(sampled, pad, width);
    var mask := CompletionMask(completion, pad, eos, hasEos);
    PrefixMask(mask);
    forall c | 0 <= c < |mask| && mask[c] ensures c < |sampled| && (prompt + completion)[|prompt| + c] !in mm {
      assert (prompt + completion)[|prompt| + c] == completion[c];
    }
    assert |sampled| < width ==> !mask[|sampled|];
    ResponseEnds(sampled, width, pad, eos, hasEos, mm, |Nonzero(mask)|);
  }

  /** The k-th of n sampled tokens, at the position before it, has its own score, given the tokens of the engine
      before it; every other position keeps what it held. */
  ghost predicate SampleScored<R>(before: seq<R>, after: seq<R>, p: nat, n: nat, sampled: seq<Token>,
                                  engine: seq<Token>,
                                  score: (seq<Token>, Token) -> R)
  {
    && |after| == |before| && n <= |sampled| && 1 <= p && p + n <= |after| + 1 && (n > 0 ==> n < |engine|)
    && (forall k :: 0 <= k < n ==> after[p - 1 + k] == score(engine[..|engine| - n + k], sampled[k]))
    && (forall q :: 0 <= q < |after| && !(p - 1 <= q < p - 1 + n) ==> after[q] == before[q])
  }

  lemma ScoredIsSampleScored<R>(before: seq<R>, after: seq<R>, prompt: seq<Token>, completion: seq<Token>, n: nat,
                                sampled: seq<Token>, engine: seq<Token>, score: (seq<Token>, Token) -> R)
    requires prompt != [] && n <= |completion| && n <= |sampled| && completion[..n] == sampled[..n]
    requires |before| == |prompt| + |completion| - 1
    requires Scored(before, after, Shifted(Range(0, n), |prompt| - 1), prompt + completion, engine, score)
    ensures SampleScored(before, after, |prompt|, n, sampled, engine, score)
  {
    var ps, row := Shifted(Range(0, n), |prompt| - 1), prompt + completion;
    assert n > 0 ==> ps[0] < |after| && |ps| < |engine|;
    forall k | 0 <= k < n
      ensures after[|prompt| - 1 + k] == score(engine[..|engine| - n + k], sampled[k])
    {
      assert ps[k] == |prompt| - 1 + k && row[ps[k] + 1] == completion[..n][k];
    }
    forall q | 0 <= q < |after| && !(|prompt| - 1 <= q < |prompt| - 1 + n) ensures q !in ps {
    }
  }

  /** The prompt is padded on the left up to a. */
  ghost predicate FirstActive(promptMask: seq<bool>, a: nat) {
    a < |promptMask| && promptMask[a] && forall i :: 0 <= i < a ==> !promptMask[i]
  }

  lemma LeftPadding(prompt: seq<Token>, promptMask: seq<bool>, completion: seq<Token>, mask: seq<bool>, a: nat, n: nat)
    requires |promptMask| == |prompt| && |mask| == |completion| && FirstActive(promptMask, a) && 0 < n <= |mask|
    requires forall k :: 0 <= k < |mask| ==> (mask[k] <==> k < n)
    ensures IsSpan(promptMask + mask, a, |prompt| + n)
    ensures (prompt + completion)[a..|prompt| + n] == prompt[a..] + completion[..n]
  {
  }

  /** From the sampled tokens of a row to its scores, the way the loss goes: pad on the right, mask, shift the
      mask, and score. */
  method ScoreRollout<R>(prompt: seq<Token>, promptMask: seq<bool>, sampled: seq<Token>, width: nat, pad: Token,
                         eos: Token, hasEos: bool, mm: set<Token>, collapse: bool, expand: nat -> seq<Token>,
                         score: (seq<Token>, Token) -> R, full: array<R>)
    returns (error: Option<ScoreError>)
    requires |promptMask| == |prompt| && full.Length == Shifts(|prompt| + width)
    modifies full
    ensures prompt != [] && |prompt| + width > 1 && PlainSample(sampled, pad, eos, hasEos, mm) ==>
              var completion := RightPadded(sampled, pad, width);
              var mask := CompletionMask(completion, pad, eos, hasEos);
              var n := |Nonzero(mask)|;
              var collapsed := if collapse then mm else {};
              var engine := EngineTokens(prompt + completion, promptMask + mask, mm, collapsed, expand);
              && ResponseEnd(sampled, width, pad, eos, hasEos, n)
              && (forall a: nat :: FirstActive(promptMask, a) && n > 0 ==>
                    engine == EngineOf(prompt[a..] + sampled[..n], mm, collapsed, expand))
              && (error == Some(TooFewRows) <==> n > 0 && |engine| <= n)
              && (error.None? ==> SampleScored(old(full[..]), full[..], |prompt|, n, sampled, engine, score))
    ensures error.Some? ==> error.value.TooFewRows? && full[..] == old(full[..])
  {
    hide Nonzero, EngineTokens, PlainResponse, ShiftMask, Scored, ResponsePositions, CompletionMask;
    hide SampleScored, PlainSample, ResponseEnd, EngineOf, IsSpan;
    var completion := RightPadded(sampled, pad, width);
    var row, mask := prompt + completion, CompletionMask(completion, pad, eos, hasEos);
    if |row| <= 1 { return None; }
    var responseMask := ShiftMask(|row| - 1, mask, |prompt|);
    ShiftedOrNot(|row| - 1, mask, |prompt|);
    assert |responseMask| == |row| - 1;
    ghost var before := full[..];
    error := ScoreRow(row, promptMask + mask, responseMask, |prompt|, mm, collapse, expand, score, full);
    assert error != Some(WideMask);
    assert (promptMask + mask)[|prompt|..] == mask;
    if prompt != [] && PlainSample(sampled, pad, eos, hasEos, mm) {
      SampleIsPlain(prompt, sampled, width, pad, eos, hasEos, mm);
      ShiftedPositions(|row| - 1, mask, |prompt|);
      var n, collapsed := |Nonzero(mask)|, if collapse then mm else {};
      assert completion[..n] == sampled[..n];
      forall a: nat | FirstActive(promptMask, a) && n > 0
        ensures EngineTokens(row, promptMask + mask, mm, collapsed, expand)
                == EngineOf(prompt[a..] + sampled[..n], mm, collapsed, expand)
      {
        LeftPadding(prompt, promptMask, completion, mask, a, n);
        EngineOfSpan(row, promptMask + mask, a, |prompt| + n, mm, collapsed, expand);
      }
      if error.None? {
        ScoredIsSampleScored(before, full[..], prompt, completion, n, sampled,
                             EngineTokens(row, promptMask + mask, mm, collapsed, expand), score);
      }
    }
  }
}
