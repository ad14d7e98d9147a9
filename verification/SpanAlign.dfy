/**
 Which token a row of the teacher scores when no response mask is given: the rows are laid over the active
 span, or over the tokens that were kept of it, and the code chooses by their number alone.
 */
module SpanAlign {
  import opened Seqs
  import opened TeacherAlign

  /** Where the n-th part begins among the engine's tokens. */
  function Begin(parts: seq<seq<Token>>, n: nat): nat
    requires n <= |parts|
  {
    if n == 0 then 0 else Begin(parts, n - 1) + |parts[n - 1]|
  }

  lemma {:induction false} BeginSame(parts: seq<seq<Token>>, m: nat, n: nat)
    requires n <= m <= |parts|
    ensures Begin(parts[..m], n) == Begin(parts, n)
  {
    if n > 0 {
      BeginSame(parts, m, n - 1);
    }
  }

  lemma {:induction false} PartInEngine(parts: seq<seq<Token>>, k: nat, j: nat)
    requires k < |parts| && j < |parts[k]|
    ensures var e := Flatten(parts);
            Begin(parts, k) + j < |e| == Begin(parts, |parts|) && e[Begin(parts, k) + j] == parts[k][j]
    decreases |parts|
  {
    var m := |parts| - 1;
    var before := parts[..m];
    assert parts == before + [parts[m]];
    FlattenSnoc(before, parts[m]);
    EngineLength(before);
    BeginSame(parts, m, m);
    BeginSame(parts, m, if k < m then k else m);
    if k < m {
      PartInEngine(before, k, j);
    }
  }

  lemma {:induction false} EngineLength(parts: seq<seq<Token>>)
    ensures |Flatten(parts)| == Begin(parts, |parts|)
  {
    if parts != [] {
      var m := |parts| - 1;
      assert parts == parts[..m] + [parts[m]];
      FlattenSnoc(parts[..m], parts[m]);
      EngineLength(parts[..m]);
      BeginSame(parts, m, m);
    }
  }

  // -------------------------------------------------------------------- when rows are on target

  /** at[k] is where the code takes the k-th sent token to be among the engine's tokens. It counts on by one
      after every token that is not a placeholder. */
  ghost predicate CountsOn(sent: seq<Token>, mm: set<Token>, at: seq<nat>) {
    && |at| == |sent| && (sent != [] ==> at[0] == 0)
    && forall k :: 0 <= k < |sent| - 1 && sent[k] !in mm ==> at[k + 1] == at[k] + 1
  }

  /** Every sent token that is not a placeholder is where the code takes it to be. */
  ghost predicate OnTarget(sent: seq<Token>, mm: set<Token>, parts: seq<seq<Token>>, at: seq<nat>)
    requires |at| == |sent| == |parts|
  {
    forall k :: 0 <= k < |sent| && sent[k] !in mm ==> Begin(parts, k) == at[k]
  }

  /** A run of placeholders, as long as can be, that another token follows. */
  predicate IsRun(sent: seq<Token>, mm: set<Token>, i: nat, j: nat) {
    && i < j < |sent| && sent[j] !in mm && (i == 0 || sent[i - 1] !in mm)
    && forall k :: i <= k < j ==> sent[k] in mm
  }

  /** Every such run expands to as many tokens as the code allows for it. */
  ghost predicate RunsFit(sent: seq<Token>, mm: set<Token>, parts: seq<seq<Token>>, at: seq<nat>)
    requires |at| == |sent| == |parts|
  {
    forall i: nat, j: nat :: IsRun(sent, mm, i, j) ==> Begin(parts, j) + at[i] == Begin(parts, i) + at[j]
  }

  lemma {:induction false} RunStart(sent: seq<Token>, mm: set<Token>, j: nat) returns (i: nat)
    requires j < |sent|
    ensures i <= j && (i == 0 || sent[i - 1] !in mm) && forall k :: i <= k < j ==> sent[k] in mm
  {
    if j == 0 || sent[j - 1] !in mm {
      i := j;
    } else {
      i := RunStart(sent, mm, j - 1);
    }
  }

  lemma {:induction false} TokenOnTarget(sent: seq<Token>, mm: set<Token>, parts: seq<seq<Token>>, at: seq<nat>, j: nat)
    requires Expands(sent, mm, parts) && CountsOn(sent, mm, at) && RunsFit(sent, mm, parts, at)
    requires j < |sent| && (sent[j] !in mm || j == 0 || sent[j - 1] !in mm)
    ensures Begin(parts, j) == at[j]
    decreases j
  {
    if j > 0 && sent[j - 1] !in mm {
      TokenOnTarget(sent, mm, parts, at, j - 1);
    } else if j > 0 {
      var i := RunStart(sent, mm, j);
      TokenOnTarget(sent, mm, parts, at, i);
      assert IsRun(sent, mm, i, j);
    }
  }

  /** Every token is on target if and only if every run of placeholders before another token fits. */
  lemma OnTargetIffRunsFit(sent: seq<Token>, mm: set<Token>, parts: seq<seq<Token>>, at: seq<nat>)
    requires Expands(sent, mm, parts) && CountsOn(sent, mm, at)
    ensures OnTarget(sent, mm, parts, at) <==> RunsFit(sent, mm, parts, at)
  {
    if RunsFit(sent, mm, parts, at) {
      forall k | 0 <= k < |sent| && sent[k] !in mm ensures Begin(parts, k) == at[k] {
        TokenOnTarget(sent, mm, parts, at, k);
      }
    }
    if OnTarget(sent, mm, parts, at) {
      forall i: nat, j: nat | IsRun(sent, mm, i, j) ensures Begin(parts, j) + at[i] == Begin(parts, i) + at[j] {
        if i > 0 {
          assert Begin(parts, i - 1) == at[i - 1] && at[i - 1 + 1] == at[i - 1] + 1;
        }
      }
    }
  }

  // ------------------------------------------------------------------- the two ways of laying rows

  /** Over the span: the k-th kept token is taken to be where it is among the tokens of the span. */
  lemma KeptCountsOn(tokens: seq<Token>, mm: set<Token>, collapsed: set<Token>, sent: seq<Token>)
    requires collapsed <= mm && Selects(tokens, Kept(tokens, collapsed), sent)
    ensures CountsOn(sent, mm, Kept(tokens, collapsed))
  {
    var kept := Kept(tokens, collapsed);
    KeptAreRunHeads(tokens, collapsed);
    hide Kept;
    forall k | 0 <= k < |sent| - 1 && sent[k] !in mm
      ensures kept[k + 1] == kept[k] + 1
    {
      NextIsKept(tokens, collapsed, kept, k);
    }
  }

  lemma NextIsKept(tokens: seq<Token>, collapsed: set<Token>, kept: seq<nat>, k: nat)
    requires Increasing(kept) && forall i :: i in kept <==> 0 <= i < |tokens| && !Dropped(tokens, collapsed, i)
    requires k + 1 < |kept| && kept[k] < |tokens| && tokens[kept[k]] !in collapsed
    ensures kept[k + 1] == kept[k] + 1
  {
    assert kept[k + 1] in kept && kept[k] < kept[k + 1];
    assert kept[k] + 1 in kept;
    var x :| 0 <= x < |kept| && kept[x] == kept[k] + 1;
    assert x > k;
  }

  /** With runs collapsed, no two placeholders follow one another. */
  lemma CollapsedRuns(tokens: seq<Token>, mm: set<Token>, sent: seq<Token>, k: nat)
    requires Selects(tokens, Kept(tokens, mm), sent) && k + 1 < |sent| && sent[k] in mm
    ensures sent[k + 1] !in mm
  {
    var kept := Kept(tokens, mm);
    KeptAreRunHeads(tokens, mm);
    assert kept[k] < kept[k + 1] && kept[k + 1] in kept;
    var p := kept[k + 1] - 1;
    if kept[k] < p {
      NotBetween(kept, k, p);
      assert Dropped(tokens, mm, p);
    }
    assert tokens[p] in mm;
  }

  lemma NotBetween(kept: seq<nat>, k: nat, p: nat)
    requires Increasing(kept) && k + 1 < |kept| && kept[k] < p < kept[k + 1]
    ensures p !in kept
  {
    forall x | 0 <= x < |kept| ensures kept[x] != p {
      assert x < k ==> kept[x] < kept[k];
      assert x > k + 1 ==> kept[k + 1] < kept[x];
    }
  }

  /** Runs that were collapsed fit when each one that another kept token follows expands to the length at
      allows for it. */
  lemma CollapsedRunsFitIff(tokens: seq<Token>, mm: set<Token>, sent: seq<Token>, parts: seq<seq<Token>>, at: seq<nat>)
    requires Selects(tokens, Kept(tokens, mm), sent) && |at| == |sent| == |parts|
    ensures RunsFit(sent, mm, parts, at)
            <==> forall k :: 0 <= k < |sent| - 1 && sent[k] in mm ==> at[k] + |parts[k]| == at[k + 1]
  {
    hide Kept, Selects;
    if RunsFit(sent, mm, parts, at) {
      forall k | 0 <= k < |sent| - 1 && sent[k] in mm ensures at[k] + |parts[k]| == at[k + 1] {
        CollapsedRuns(tokens, mm, sent, k);
        if k > 0 && sent[k - 1] in mm {
          CollapsedRuns(tokens, mm, sent, k - 1);
        }
        assert IsRun(sent, mm, k, k + 1);
      }
    }
    forall i: nat, j: nat | IsRun(sent, mm, i, j) ensures j == i + 1 {
      CollapsedRuns(tokens, mm, sent, i);
    }
  }

  function Upto(n: nat): (r: seq<nat>)
    ensures |r| == n && forall k :: 0 <= k < n ==> r[k] == k
  {
    seq(n, k requires 0 <= k => k)
  }

  /** Where the code takes the kept tokens to be, by the number of rows. */
  function Places(rows: nat, span: nat, kept: seq<nat>): (at: seq<nat>)
    ensures |at| == |kept|
  {
    if rows == Shifts(span) then kept else Upto(|kept|)
  }

  lemma PlacesCountOn(tokens: seq<Token>, mm: set<Token>, collapsed: set<Token>, sent: seq<Token>, rows: nat)
    requires collapsed <= mm && Selects(tokens, Kept(tokens, collapsed), sent)
    ensures CountsOn(sent, mm, Places(rows, |tokens|, Kept(tokens, collapsed)))
  {
    KeptCountsOn(tokens, mm, collapsed, sent);
  }

  /** Every kept token but the first has, at the position that predicts it, the row of the place where the
      code takes it to be. */
  ghost predicate Laid<R>(after: seq<R>, start: nat, kept: seq<nat>, at: seq<nat>, rows: seq<R>)
    requires |at| == |kept|
  {
    forall k :: 1 <= k < |kept| ==>
      1 <= at[k] <= |rows| && 0 <= start + kept[k] - 1 < |after| && after[start + kept[k] - 1] == rows[at[k] - 1]
  }

  /** Every kept token but the first, unless it is a placeholder, has at the position that predicts it its own
      score, given the tokens of the engine before it. */
  ghost predicate SpanScored<R>(after: seq<R>, start: nat, kept: seq<nat>, sent: seq<Token>, mm: set<Token>,
                                parts: seq<seq<Token>>, score: (seq<Token>, Token) -> R)
    requires |kept| == |sent| == |parts|
  {
    forall k :: 1 <= k < |sent| && sent[k] !in mm ==>
      && Begin(parts, k) <= |Flatten(parts)| && 0 <= start + kept[k] - 1 < |after|
      && after[start + kept[k] - 1] == score(Flatten(parts)[..Begin(parts, k)], sent[k])
  }

  lemma RowOfToken<R>(parts: seq<seq<Token>>, k: nat, t: Token, score: (seq<Token>, Token) -> R)
    requires k < |parts| && parts[k] == [t]
    ensures var engine, b := Flatten(parts), Begin(parts, k);
            b < |engine| && (b >= 1 ==> Rows(engine, score)[b - 1] == score(engine[..b], t))
  {
    PartInEngine(parts, k, 0);
  }

  lemma OnTargetIsScored<R>(after: seq<R>, start: nat, kept: seq<nat>, at: seq<nat>, sent: seq<Token>, mm: set<Token>,
                            parts: seq<seq<Token>>, score: (seq<Token>, Token) -> R)
    requires |at| == |kept| == |sent| && Expands(sent, mm, parts) && OnTarget(sent, mm, parts, at)
    requires Laid(after, start, kept, at, Rows(Flatten(parts), score))
    ensures SpanScored(after, start, kept, sent, mm, parts, score)
  {
    hide Flatten, Rows;
    forall k | 1 <= k < |sent| && sent[k] !in mm
      ensures Begin(parts, k) <= |Flatten(parts)| && 0 <= start + kept[k] - 1 < |after|
      ensures after[start + kept[k] - 1] == score(Flatten(parts)[..Begin(parts, k)], sent[k])
    {
      RowOfToken(parts, k, sent[k], score);
    }
  }

  /** A score that tells which row it is. */
  function Trace(before: seq<Token>, token: Token): nat {
    |before|
  }

  lemma TraceShows(after: seq<nat>, start: nat, kept: seq<nat>, at: seq<nat>, sent: seq<Token>, mm: set<Token>,
                   parts: seq<seq<Token>>)
    requires |at| == |kept| == |sent| && Expands(sent, mm, parts) && CountsOn(sent, mm, at)
    requires Laid(after, start, kept, at, Rows(Flatten(parts), Trace))
    requires SpanScored(after, start, kept, sent, mm, parts, Trace)
    ensures OnTarget(sent, mm, parts, at)
  {
    hide Flatten;
    forall k | 0 <= k < |sent| && sent[k] !in mm ensures Begin(parts, k) == at[k] {
      if k > 0 {
        var engine := Flatten(parts);
        assert after[start + kept[k] - 1] == Rows(engine, Trace)[at[k] - 1] == |engine[..at[k]]|;
      }
    }
  }

  /** However the rows were laid, every kept token's own score is at the position that predicts it if and only
      if every run of placeholders before another token has expanded to the length the code allowed for
      it; a score that tells rows apart shows when not. */
  lemma SpanIsRightIff<R>(tokens: seq<Token>, mm: set<Token>, collapsed: set<Token>, sent: seq<Token>,
                          parts: seq<seq<Token>>, score: (seq<Token>, Token) -> R, start: nat, after: seq<R>,
                          trace: seq<nat>)
    requires collapsed <= mm && Selects(tokens, Kept(tokens, collapsed), sent) && Expands(sent, mm, parts)
    requires var kept, engine := Kept(tokens, collapsed), Flatten(parts);
             var at := Places(Shifts(|engine|), |tokens|, kept);
             Laid(after, start, kept, at, Rows(engine, score)) && Laid(trace, start, kept, at, Rows(engine, Trace))
    ensures var kept := Kept(tokens, collapsed);
            var at := Places(Shifts(|Flatten(parts)|), |tokens|, kept);
            && (RunsFit(sent, mm, parts, at) ==> SpanScored(after, start, kept, sent, mm, parts, score))
            && (RunsFit(sent, mm, parts, at) <==> SpanScored(trace, start, kept, sent, mm, parts, Trace))
  {
    hide Kept, Laid, SpanScored, RunsFit, OnTarget, CountsOn, Rows, Flatten, Places;
    var kept := Kept(tokens, collapsed);
    var at := Places(Shifts(|Flatten(parts)|), |tokens|, kept);
    PlacesCountOn(tokens, mm, collapsed, sent, Shifts(|Flatten(parts)|));
    OnTargetIffRunsFit(sent, mm, parts, at);
    if OnTarget(sent, mm, parts, at) {
      OnTargetIsScored(after, start, kept, at, sent, mm, parts, score);
      OnTargetIsScored(trace, start, kept, at, sent, mm, parts, Trace);
    }
    if SpanScored(trace, start, kept, sent, mm, parts, Trace) {
      TraceShows(trace, start, kept, at, sent, mm, parts);
    }
  }

  /** Where the rows go when their number is that of the span: with collapsed runs they are right exactly if
      every run before another token re-expands to its own length. */
  lemma RightOverSpanIff(tokens: seq<Token>, mm: set<Token>, sent: seq<Token>, parts: seq<seq<Token>>)
    requires Selects(tokens, Kept(tokens, mm), sent) && |parts| == |sent|
    ensures RunsFit(sent, mm, parts, Kept(tokens, mm))
            <==> forall k :: 0 <= k < |sent| - 1 && sent[k] in mm ==>
                   Kept(tokens, mm)[k] + |parts[k]| == Kept(tokens, mm)[k + 1]
  {
    CollapsedRunsFitIff(tokens, mm, sent, parts, Kept(tokens, mm));
  }

  /** And when it is that of the kept tokens: exactly if every placeholder before another token is one token of
      the engine's. */
  lemma RightOverKeptIff(tokens: seq<Token>, mm: set<Token>, sent: seq<Token>, parts: seq<seq<Token>>)
    requires Selects(tokens, Kept(tokens, mm), sent) && |parts| == |sent|
    ensures RunsFit(sent, mm, parts, Upto(|sent|))
            <==> forall k :: 0 <= k < |sent| - 1 && sent[k] in mm ==> |parts[k]| == 1
  {
    var at := Upto(|sent|);
    CollapsedRunsFitIff(tokens, mm, sent, parts, at);
    hide RunsFit, Kept, Selects;
    if RunsFit(sent, mm, parts, at) {
      forall k | 0 <= k < |sent| - 1 && sent[k] in mm ensures |parts[k]| == 1 {
        assert at[k] + |parts[k]| == at[k + 1];
      }
    } else {
      var k :| 0 <= k < |sent| - 1 && sent[k] in mm && at[k] + |parts[k]| != at[k + 1];
      assert |parts[k]| != 1;
    }
  }

  /** The lengths can coincide where the runs do not: a run of two that expands to one token, and a run of one
      that expands to two. The rows are as many as the span needs, and the position that predicts the token
      between the runs is given the score of a token of the second run. */
  lemma LengthsCanCoincide<R>(score: (seq<Token>, Token) -> R)
    ensures var tokens, mm, sent, parts := [7, 7, 5, 7], {7}, [7, 5, 7], [[8], [5], [8, 9]];
            var kept, rows := Kept(tokens, mm), Rows(Flatten(parts), score);
            && kept == [0, 2, 3] && Selects(tokens, kept, sent) && Expands(sent, mm, parts)
            && |rows| == Shifts(|tokens|) && !RunsFit(sent, mm, parts, Places(|rows|, |tokens|, kept))
            && rows[kept[1] - 1] == score([8, 5], 8)
  {
    var tokens, mm, sent, parts := [7, 7, 5, 7], {7}, [7, 5, 7], [[8], [5], [8, 9]];
    assert tokens[..3] == [7, 7, 5] && tokens[..3][..2] == [7, 7] && [7, 7][..1] == [7] && [7][..0] == [];
    assert Kept(tokens, mm) == [0, 2, 3];
    FlattenCons([8], [[5], [8, 9]]);
    FlattenCons([5], [[8, 9]]);
    FlattenCons([8, 9], []);
    assert [[8]] + [[5], [8, 9]] == parts && [[5]] + [[8, 9]] == [[5], [8, 9]] && [[8, 9]] + [] == [[8, 9]];
    var engine := Flatten(parts);
    assert engine == [8, 5, 8, 9] && engine[..2] == [8, 5];
    assert IsRun(sent, mm, 0, 1) && Begin(parts, 1) == 1;
  }

  // ------------------------------------------------------------------------ scoring one row

  /** Positions that are given no row keep what they held. */
  ghost predicate Untouched<R>(before: seq<R>, after: seq<R>, start: nat, span: nat, kept: seq<nat>, rows: nat) {
    && |after| == |before|
    && forall q :: 0 <= q < |after| && (if rows == Shifts(span) then !(start <= q < start + span - 1)
                                        else forall k :: 1 <= k < |kept| ==> q != start + kept[k] - 1) ==>
         after[q] == before[q]
  }

  /** ScatterSpan, as facts about the whole array. */
  method Lay<R>(full: array<R>, start: nat, span: nat, kept: seq<nat>, rows: seq<R>) returns (error: bool)
    requires start + span <= full.Length + 1 && Increasing(kept) && forall k :: 0 <= k < |kept| ==> kept[k] < span
    requires if span == 0 then kept == [] else kept != [] && kept[0] == 0
    modifies full
    ensures error <==> |rows| != Shifts(span) && |rows| != Shifts(|kept|)
    ensures if error then full[..] == old(full[..])
            else Laid(full[..], start, kept, Places(|rows|, span, kept), rows)
                 && Untouched(old(full[..]), full[..], start, span, kept, |rows|)
  {
    error := ScatterSpan(full, start, span, kept, rows);
    if !error {
      forall k | 1 <= k < |kept|
        ensures var at := Places(|rows|, span, kept);
                && 1 <= at[k] <= |rows| && 0 <= start + kept[k] - 1 < |full[..]|
                && full[start + kept[k] - 1] == rows[at[k] - 1]
      {
        assert kept[0] < kept[k];
        assert |rows| == Shifts(span) ==> full[start + (kept[k] - 1)] == rows[kept[k] - 1];
      }
    }
  }

  /** What scoring the tokens of a span that begins at start leaves behind: an error if there are neither as
      many rows as the span needs nor as the kept tokens need; and else the rows as laid, the other positions
      as before, and the right scores if the runs fit. */
  ghost predicate SpanResult<R>(error: bool, before: seq<R>, after: seq<R>, start: nat, tokens: seq<Token>,
                                mm: set<Token>, collapsed: set<Token>, expand: nat -> seq<Token>,
                                score: (seq<Token>, Token) -> R)
  {
    var kept, sent := Kept(tokens, collapsed), SentOf(tokens, collapsed);
    var parts := Expansion(sent, mm, expand);
    var n, at := Shifts(|Flatten(parts)|), Places(Shifts(|Flatten(parts)|), |tokens|, kept);
    && (error <==> n != Shifts(|tokens|) && n != Shifts(|kept|))
    && (error ==> after == before)
    && (!error ==>
          && Laid(after, start, kept, at, Rows(Flatten(parts), score))
          && Untouched(before, after, start, |tokens|, kept, n)
          && |kept| == |sent|
          && (RunsFit(sent, mm, parts, at) ==> SpanScored(after, start, kept, sent, mm, parts, score)))
  }

  /** score for one row, without a response mask. collapse is the dedup_mm_tokens switch. Only what is between
      the first and the last active position is sent, and only positions there are given rows. */
  method ScoreSpan<R>(row: seq<Token>, attention: seq<bool>, mm: set<Token>, collapse: bool, expand: nat -> seq<Token>,
                      score: (seq<Token>, Token) -> R, full: array<R>)
    returns (error: bool)
    requires |attention| == |row| && full.Length == Shifts(|row|)
    modifies full
    ensures |row| <= 1 ==> !error
    ensures |row| > 1 ==> forall a: nat, b: nat :: IsSpan(attention, a, b) ==>
              a <= b <= |row| &&
              SpanResult(error, old(full[..]), full[..], a, row[a..b], mm, if collapse then mm else {}, expand, score)
  {
    if |row| <= 1 { return false; }
    hide ActiveSpan, IsSpan, SpanResult;
    SpanInRow(attention);
    var start, end := ActiveSpan(attention).0, ActiveSpan(attention).1;
    ghost var before := full[..];
    error := ScoreTokens(row[start..end], start, mm, if collapse then mm else {}, expand, score, full);
    forall a: nat, b: nat | IsSpan(attention, a, b)
      ensures a == start && b == end
    {
      SpanIff(attention, a, b);
    }
  }

  /** The prompt, the engine, and the rows, for the tokens of a span. */
  method ScoreTokens<R>(tokens: seq<Token>, start: nat, mm: set<Token>, collapsed: set<Token>,
                        expand: nat -> seq<Token>, score: (seq<Token>, Token) -> R, full: array<R>)
    returns (error: bool)
    requires start + |tokens| <= full.Length + 1 && collapsed <= mm
    modifies full
    ensures SpanResult(error, old(full[..]), full[..], start, tokens, mm, collapsed, expand, score)
  {
    hide Kept, Flatten, Rows, Laid, Untouched, RunsFit, SpanScored, Expansion, Places, OnTarget, CountsOn;
    var sent, kept := DedupConsecutive(tokens, collapsed);
    SentIsSelected(tokens, collapsed);
    assert sent == SentOf(tokens, collapsed);
    KeptShape(tokens, collapsed);
    var parts := Expansion(sent, mm, expand);
    var rows := Rows(Flatten(parts), score);
    error := Lay(full, start, |tokens|, kept, rows);
    if !error && RunsFit(sent, mm, parts, Places(|rows|, |tokens|, kept)) {
      PlacesCountOn(tokens, mm, collapsed, sent, |rows|);
      OnTargetIffRunsFit(sent, mm, parts, Places(|rows|, |tokens|, kept));
      OnTargetIsScored(full[..], start, kept, Places(|rows|, |tokens|, kept), sent, mm, parts, score);
    }
  }

  lemma SentIsSelected(tokens: seq<Token>, collapsed: set<Token>)
    ensures Selects(tokens, Kept(tokens, collapsed), SentOf(tokens, collapsed))
  {
    KeptAreRunHeads(tokens, collapsed);
  }

  lemma KeptShape(tokens: seq<Token>, collapsed: set<Token>)
    ensures var kept := Kept(tokens, collapsed);
            && Increasing(kept) && (forall k :: 0 <= k < |kept| ==> kept[k] < |tokens|)
            && if tokens == [] then kept == [] else kept != [] && kept[0] == 0
  {
    KeptAreRunHeads(tokens, collapsed);
    var kept := Kept(tokens, collapsed);
    assert forall k :: 0 <= k < |kept| ==> kept[k] in kept;
  }
}
