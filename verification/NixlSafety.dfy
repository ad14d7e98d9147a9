/**
 What holds in every state that a NIXL chain can reach: every rank yields the sender's chunks, no
 buffer is written while somebody may still read it, no assertion fails, the chain never gets stuck,
 and every run ends.
 */
module NixlSafety {
  import opened Options
  import opened Chunks
  import opened Buckets
  import opened NixlChain

  lemma {:induction false} RunInv(s: State, size: nat, sched: seq<Bucket>, steps: seq<Step>, t: State)
    requires Inv(s, size, sched) && WellPacked(sched, size) && Reaches(s, size, steps, t)
    ensures Inv(t, size, sched)
    decreases |steps|
  {
    hide Inv, WellPacked, Enabled, Apply;
    if steps != [] {
      StepInv(s, size, sched, steps[0]);
      RunInv(Apply(s, size, steps[0]), size, sched, steps[1..], t);
    }
  }

  // ------------------------------------------------------------------------ delivery

  /** In a reachable state every rank but the first has yielded a prefix of the same chunk sequence,
      and all of it once it is done. */
  lemma RelayYields(s: State, size: nat, sched: seq<Bucket>, i: nat)
    requires Inv(s, size, sched) && 0 < i < |s.ranks|
    ensures s.ranks[i].out <= UnpackAll(sched)
    ensures s.ranks[i].pc == Done ==> s.ranks[i].out == UnpackAll(sched)
  {
    hide Yielded, UnpackAll;
    assert RankInv(size, sched, s, i);
    var r := s.ranks[i];
    var h := Held(r);
    if h > 0 {
      YieldedIsPrefix(sched, h - 1, YieldCount(r.pc, |sched[h - 1].metas|));
      YieldedWhole(sched, h - 1);
    }
  }

  lemma {:induction false} ReachableInv(s0: State, size: nat, ws: seq<Weight>, steps: seq<Step>, t: State)
    returns (sched: seq<Bucket>)
    requires 0 < size && (forall w :: w in ws ==> w.Valid()) && DistinctNames(ws)
    requires Init(s0, size, Split(ws, size)) && Reaches(s0, size, steps, t)
    ensures sched == Pack(Split(ws, size), EMPTY, size) && WellPacked(sched, size)
    ensures Inv(s0, size, sched) && Inv(t, size, sched)
  {
    hide Inv, Init, WellPacked, Reaches;
    SplitPacksCleanly(ws, size);
    ScheduleOf(Split(ws, size), size);
    sched := Pack(Split(ws, size), EMPTY, size);
    assert WellPacked(sched, size) by { PackIsWellPacked(Split(ws, size), EMPTY, size); }
    InitInv(s0, size, sched, Split(ws, size));
    RunInv(s0, size, sched, steps, t);
  }

  /** For any number of ranks, any weights and any interleaving: what a rank has yielded is a prefix of
      the sender's chunks, and what a rank that is done has yielded merges into the sender's weights. */
  lemma ChainDelivers(s0: State, size: nat, ws: seq<Weight>, steps: seq<Step>, t: State, i: nat)
    requires 0 < size && (forall w :: w in ws ==> w.Valid()) && DistinctNames(ws)
    requires Init(s0, size, Split(ws, size)) && Reaches(s0, size, steps, t) && 0 < i < |t.ranks|
    ensures Unplaced(t.ranks[i].out) <= Split(ws, size)
    ensures t.ranks[i].pc == Done ==>
              && Unplaced(t.ranks[i].out) == Split(ws, size)
              && MergeFrom(NoPending, t.ranks[i].out, size) == Merged(NonEmpty(ws), None)
  {
    hide Inv, Init, WellPacked, Reaches;
    var sched := ReachableInv(s0, size, ws, steps, t);
    RelayYields(t, size, sched, i);
    SplitPacksCleanly(ws, size);
    YieldedAreSent(Split(ws, size), size);
    UnplacedPrefix(t.ranks[i].out, UnpackAll(sched));
    TransferRoundTrip(ws, size);
  }

  lemma NoAssertionFails(s: State, size: nat, sched: seq<Bucket>, i: nat)
    requires Inv(s, size, sched) && i < |s.ranks|
    ensures s.ranks[i].pc != Failed
  {
    assert RankInv(size, sched, s, i);
  }

  // ------------------------------------------------------------------------- buffers

  /** A buffer that somebody may still read: the rank is yielding views of it to its consumer, or has
      exposed it to its successor and has not seen the acknowledgement. */
  predicate InUse(r: Rank, b: nat) {
    (Yields(r.pc) && b == r.cur) || (r.op.Some? && b == r.op.value.buf)
  }

  /** Only two steps write: rank 0 fills its send_buf, and a read copies a byte into its destination. */
  lemma OnlyTwoStepsWrite(s: State, size: nat, st: Step, i: nat, b: nat)
    requires WF(s, size) && Enabled(s, size, st) && i < |s.ranks| && b < 2
    requires !(st.Fill? && i == 0 && b == s.ranks[0].cur)
    requires !(st.CopyByte? && i == st.i && b == s.ranks[i].xfer.value.dst)
    ensures |Apply(s, size, st).ranks| == |s.ranks| && |Apply(s, size, st).ranks[i].bufs| == 2
    ensures Apply(s, size, st).ranks[i].bufs[b] == s.ranks[i].bufs[b]
  {
    OnlyTheActorMoves(s, size, st);
  }

  lemma WritersUseOtherBuffers(s: State, size: nat, sched: seq<Bucket>, st: Step, i: nat, b: nat)
    requires Inv(s, size, sched) && Enabled(s, size, st) && i < |s.ranks| && b < 2 && InUse(s.ranks[i], b)
    ensures !(st.Fill? && i == 0 && b == s.ranks[0].cur)
    ensures !(st.CopyByte? && i == st.i && b == s.ranks[i].xfer.value.dst)
  {
    hide LinkInv, PacksCleanly, YieldedBy, Pack;
    assert RankInv(size, sched, s, i);
  }

  /** No step of any rank writes to a buffer that is in use. */
  lemma BuffersInUseAreKept(s: State, size: nat, sched: seq<Bucket>, st: Step, i: nat, b: nat)
    requires Inv(s, size, sched) && Enabled(s, size, st) && i < |s.ranks| && b < 2 && InUse(s.ranks[i], b)
    ensures |Apply(s, size, st).ranks| == |s.ranks| && |Apply(s, size, st).ranks[i].bufs| == 2
    ensures Apply(s, size, st).ranks[i].bufs[b] == s.ranks[i].bufs[b]
  {
    hide RankInv, LinkInv, InUse, Apply;
    WritersUseOtherBuffers(s, size, sched, st, i, b);
    OnlyTwoStepsWrite(s, size, st, i, b);
  }

  /** Each link carries at most one exposure: its message, the read it starts and its acknowledgement
      follow one another, so the notification a rank waits for has the key it compares it with. */
  lemma OneExposurePerLink(s: State, size: nat, sched: seq<Bucket>, i: nat)
    requires Inv(s, size, sched) && i < |s.links|
    ensures |s.links[i]| + |s.acks[i]| + (if s.ranks[i + 1].xfer.Some? then 1 else 0)
            == if s.ranks[i].op.Some? then 1 else 0
    ensures s.acks[i] != [] ==> s.ranks[i].op.Some? && s.acks[i][0] == s.ranks[i].op.value.key
  {
    assert LinkInv(size, sched, s.ranks[i], s.ranks[i + 1], s.links[i], s.acks[i]);
  }

  // ------------------------------------------------------------------------ progress

  predicate AllDone(s: State) {
    forall i :: 0 <= i < |s.ranks| ==> s.ranks[i].pc == Done
  }

  lemma RelayShape(size: nat, sched: seq<Bucket>, hasNext: bool, r: Rank)
    requires RelayInv(size, sched, hasNext, r) && |sched| > 0
    ensures r.pc != Filling && r.pc != Placing && r.pc != Failed
    ensures r.op.Some? ==> hasNext
    ensures r.xfer.Some? ==> r.xfer.value.pos <= size
    ensures r.pc == Done ==> r.got == |sched|
    ensures r.pc == AwaitFirst || r.pc == AwaitMeta ==> r.got < |sched|
  {
    hide YieldedBy;
  }

  /** A rank that is past its reads can always move, unless it waits for an acknowledgement. */
  lemma RelayMoves(s: State, size: nat, sched: seq<Bucket>, i: nat) returns (st: Step)
    requires Inv(s, size, sched) && 0 < i < |s.ranks| && s.ranks[i].xfer.None?
    requires s.ranks[i].pc != Done && s.ranks[i].pc != AwaitFirst && s.ranks[i].pc != AwaitMeta
    ensures Enabled(s, size, st) || (i < |s.links| && s.ranks[i].op.Some? && s.acks[i] == [])
  {
    hide RelayInv, SenderInv, LinkInv;
    assert RankInv(size, sched, s, i);
    var r := s.ranks[i];
    RelayShape(size, sched, i + 1 < |s.ranks|, r);
    if r.pc == FirstXfer || r.pc == AwaitXfer {
      st := TakeBucket(i);
    } else if r.pc == Top {
      st := Expose(i, 0);
    } else if Yields(r.pc) {
      st := if r.pc.j < |r.metas| then YieldChunk(i) else YieldEnd(i);
    } else {
      st := TakeAck(i);
    }
  }

  lemma ReaderBehind(size: nat, sched: seq<Bucket>, u: Rank, d: Rank, link: seq<Message>, acks: seq<nat>)
    requires LinkInv(size, sched, u, d, link, acks) && u.op.Some? && acks == []
    ensures d.xfer.Some? || (link != [] && d.got < |sched|)
  {
  }

  /** A rank that waits for an acknowledgement is behind one that can move: following the waiting ranks
      down the chain ends, at the latest, at the last rank, which waits for nobody. */
  lemma {:induction false} SomeoneBehindCanMove(s: State, size: nat, sched: seq<Bucket>, i: nat) returns (st: Step)
    requires Inv(s, size, sched) && i < |s.links| && s.ranks[i].op.Some? && s.acks[i] == []
    ensures Enabled(s, size, st)
    decreases |s.ranks| - i
  {
    hide RelayInv, SenderInv, LinkInv;
    assert RankInv(size, sched, s, i + 1);
    var d := s.ranks[i + 1];
    ReaderBehind(size, sched, s.ranks[i], d, s.links[i], s.acks[i]);
    RelayShape(size, sched, i + 2 < |s.ranks|, d);
    if d.xfer.Some? {
      st := if d.xfer.value.pos < size then CopyByte(i + 1) else CopyDone(i + 1);
    } else if d.pc == AwaitFirst || d.pc == AwaitMeta {
      st := BeginRead(i + 1);
    } else {
      st := RelayMoves(s, size, sched, i + 1);
      if !Enabled(s, size, st) {
        st := SomeoneBehindCanMove(s, size, sched, i + 1);
      }
    }
  }

  lemma SenderCanMove(s: State, size: nat, sched: seq<Bucket>) returns (st: Step)
    requires Inv(s, size, sched) && s.ranks[0].pc != Done
    ensures Enabled(s, size, st)
  {
    assert RankInv(size, sched, s, 0);
    var r := s.ranks[0];
    if r.pc == Placing || (r.pc == Filling && ChunkFits(r, size)) {
      st := Fill;
    } else if r.op.None? {
      st := Expose(0, 0);
    } else if s.acks[0] != [] {
      st := TakeAck(0);
    } else {
      st := SomeoneBehindCanMove(s, size, sched, 0);
    }
  }

  lemma AfterDone(s: State, size: nat, sched: seq<Bucket>, i: nat)
    requires Inv(s, size, sched) && 0 < i < |s.ranks| && s.ranks[i - 1].pc == Done
    ensures s.ranks[i].got == |sched| && s.ranks[i].xfer.None?
  {
    hide YieldedBy, PacksCleanly, Pack;
    assert RankInv(size, sched, s, i - 1);
    assert LinkInv(size, sched, s.ranks[i - 1], s.ranks[i], s.links[i - 1], s.acks[i - 1]);
  }

  lemma RelayCanMove(s: State, size: nat, sched: seq<Bucket>, i: nat) returns (st: Step)
    requires Inv(s, size, sched) && 0 < i < |s.ranks| && s.ranks[i - 1].pc == Done && s.ranks[i].pc != Done
    ensures Enabled(s, size, st)
  {
    hide RelayInv, SenderInv, LinkInv, Enabled;
    assert RankInv(size, sched, s, i);
    AfterDone(s, size, sched, i);
    RelayShape(size, sched, i + 1 < |s.ranks|, s.ranks[i]);
    st := RelayMoves(s, size, sched, i);
    if !Enabled(s, size, st) {
      st := SomeoneBehindCanMove(s, size, sched, i);
    }
  }

  /** No reachable state is stuck before every rank is done. */
  lemma NoDeadlock(s: State, size: nat, sched: seq<Bucket>) returns (st: Step)
    requires Inv(s, size, sched) && !AllDone(s)
    ensures Enabled(s, size, st)
  {
    hide RankInv, LinkInv, Enabled;
    var i := 0;
    while s.ranks[i].pc == Done
      invariant i < |s.ranks| && forall k :: 0 <= k < i ==> s.ranks[k].pc == Done
      decreases |s.ranks| - i
    {
      i := i + 1;
    }
    if i == 0 {
      st := SenderCanMove(s, size, sched);
    } else {
      st := RelayCanMove(s, size, sched, i);
    }
  }

  // --------------------------------------------------------------------- termination

  function SenderMeasure(r: Rank): int {
    match r.pc
    case Filling => 4 * |r.todo| + 4 + B2N(r.op.Some?)
    case Placing => 4 * |r.todo| + 1 + B2N(r.op.Some?)
    case LastAck => 1
    case _ => 0
  }

  function ReadLeft(r: Rank, size: nat): int {
    if r.xfer.Some? then size - r.xfer.value.pos + 1 else 0
  }

  /** What is left to do for the bucket in send_buf and the one being read into recv_buf. */
  function Phase(r: Rank, size: nat): int {
    match r.pc
    case AwaitFirst => 0
    case FirstXfer => 6 + |r.nextMetas| + ReadLeft(r, size)
    case Top => 5 + |r.metas|
    case AwaitMeta => 4 + |r.metas|
    case Yielding(j) => |r.metas| - j + 8 + |r.nextMetas| + ReadLeft(r, size)
    case AwaitAck => 7 + |r.nextMetas| + ReadLeft(r, size)
    case AwaitXfer => 6 + |r.nextMetas| + ReadLeft(r, size)
    case LastYield(j) => |r.metas| - j + 3
    case LastAck => 1
    case _ => 0
  }

  /** width exceeds what one bucket can add to the phase of a rank. */
  function RankMeasure(i: nat, r: Rank, size: nat, buckets: nat, width: nat): int {
    if i == 0 then SenderMeasure(r) else (buckets - r.got) * width + Phase(r, size)
  }

  function Sum(s: State, size: nat, buckets: nat, width: nat, n: nat): int
    requires n <= |s.ranks|
  {
    if n == 0 then 0 else Sum(s, size, buckets, width, n - 1) + RankMeasure(n - 1, s.ranks[n - 1], size, buckets, width)
  }

  lemma {:induction false} SumSame(s: State, t: State, size: nat, buckets: nat, width: nat, i: nat, n: nat)
    requires n <= |s.ranks| == |t.ranks| && forall k :: 0 <= k < n && k != i ==> t.ranks[k] == s.ranks[k]
    ensures Sum(t, size, buckets, width, n) - Sum(s, size, buckets, width, n)
            == if i < n then
                 RankMeasure(i, t.ranks[i], size, buckets, width) - RankMeasure(i, s.ranks[i], size, buckets, width)
               else 0
  {
    hide RankMeasure;
    if n > 0 {
      SumSame(s, t, size, buckets, width, i, n - 1);
    }
  }

  lemma OnlyTheActorMoves(s: State, size: nat, st: Step)
    requires WF(s, size) && Enabled(s, size, st)
    ensures var t := Apply(s, size, st);
            |t.ranks| == |s.ranks| && forall k :: 0 <= k < |s.ranks| && k != Target(st) ==> t.ranks[k] == s.ranks[k]
  {
    hide FillRank, ExposeSender, ExposeRelay, AckRank, BeginReadRank, CopyByteRank, TakeBucketRank, YieldRank;
  }

  lemma SenderDecreases(s: State, size: nat, sched: seq<Bucket>, st: Step)
    requires Inv(s, size, sched) && Enabled(s, size, st) && Target(st) == 0
    ensures SenderMeasure(Apply(s, size, st).ranks[0]) < SenderMeasure(s.ranks[0])
  {
    assert RankInv(size, sched, s, 0);
    assert LinkInv(size, sched, s.ranks[0], s.ranks[1], s.links[0], s.acks[0]);
  }

  lemma ReadDecreases(r: Rank, m: Message, size: nat, buckets: nat, width: nat)
    requires (r.pc == AwaitFirst || r.pc == AwaitMeta) && r.cur < 2 && |m.metas| + size + 12 <= width
    ensures (buckets - BeginReadRank(r, m).got) * width + Phase(BeginReadRank(r, m), size)
            < (buckets - r.got) * width + Phase(r, size)
  {
    assert (buckets - r.got) * width == (buckets - r.got - 1) * width + width;
  }

  lemma ReadingShape(size: nat, sched: seq<Bucket>, hasNext: bool, r: Rank)
    requires RelayInv(size, sched, hasNext, r)
    ensures r.xfer.Some? ==> Reading(r.pc) && r.xfer.value.pos <= size
    ensures Yields(r.pc) ==> r.pc.j <= |r.metas|
  {
    hide YieldedBy;
  }

  /** A step of a rank that relays, other than reading a message. */
  ghost predicate MovesOn(s: State, size: nat, st: Step) {
    && WF(s, size) && Enabled(s, size, st) && Target(st) > 0 && !st.BeginRead? &&
    var r := s.ranks[Target(st)];
    && (r.xfer.Some? ==> Reading(r.pc) && r.xfer.value.pos <= size)
    && (Yields(r.pc) ==> r.pc.j <= |r.metas|)
  }

  ghost predicate PhaseDrops(s: State, size: nat, st: Step)
    requires WF(s, size) && Enabled(s, size, st)
  {
    var i, t := Target(st), Apply(s, size, st);
    && i < |t.ranks| == |s.ranks| && t.ranks[i].got == s.ranks[i].got
    && Phase(t.ranks[i], size) < Phase(s.ranks[i], size)
  }

  lemma PhaseDropsByCopy(s: State, size: nat, st: Step)
    requires MovesOn(s, size, st) && (st.CopyByte? || st.CopyDone?)
    ensures PhaseDrops(s, size, st)
  {
    hide FillRank, ExposeSender, ExposeRelay, AckRank, BeginReadRank, TakeBucketRank, YieldRank;
  }

  lemma PhaseDropsByYield(s: State, size: nat, st: Step)
    requires MovesOn(s, size, st) && (st.YieldChunk? || st.YieldEnd?)
    ensures PhaseDrops(s, size, st)
  {
    hide FillRank, ExposeSender, ExposeRelay, AckRank, BeginReadRank, TakeBucketRank, CopyByteRank, UnpackOne;
  }

  lemma PhaseDropsByExposing(s: State, size: nat, st: Step)
    requires MovesOn(s, size, st) && (st.Expose? || st.TakeBucket?)
    ensures PhaseDrops(s, size, st)
  {
    hide FillRank, ExposeSender, AckRank, BeginReadRank, YieldRank, CopyByteRank;
  }

  lemma PhaseDropsByWaiting(s: State, size: nat, st: Step)
    requires MovesOn(s, size, st) && st.TakeAck?
    ensures PhaseDrops(s, size, st)
  {
    hide FillRank, ExposeSender, ExposeRelay, TakeBucketRank, BeginReadRank, YieldRank, CopyByteRank;
  }

  lemma PhaseDecreases(s: State, size: nat, st: Step)
    requires MovesOn(s, size, st)
    ensures PhaseDrops(s, size, st)
  {
    hide MovesOn, PhaseDrops;
    if st.CopyByte? || st.CopyDone? {
      PhaseDropsByCopy(s, size, st);
    } else if st.YieldChunk? || st.YieldEnd? {
      PhaseDropsByYield(s, size, st);
    } else if st.TakeAck? {
      PhaseDropsByWaiting(s, size, st);
    } else {
      PhaseDropsByExposing(s, size, st) by { assert !st.Fill? && !st.BeginRead? by { NotAnotherStep(s, size, st); } }
    }
  }

  lemma NotAnotherStep(s: State, size: nat, st: Step)
    requires MovesOn(s, size, st)
    ensures !st.Fill? && !st.BeginRead?
  {
  }

  lemma RelayDecreases(s: State, size: nat, sched: seq<Bucket>, width: nat, st: Step)
    requires Inv(s, size, sched) && Enabled(s, size, st) && Target(st) > 0 && WideEnough(sched, size, width)
    ensures var i := Target(st);
            RankMeasure(i, Apply(s, size, st).ranks[i], size, |sched|, width)
            < RankMeasure(i, s.ranks[i], size, |sched|, width)
  {
    hide RelayInv, SenderInv, LinkInv, Phase;
    var i := Target(st);
    assert RankInv(size, sched, s, i);
    ReadingShape(size, sched, i + 1 < |s.ranks|, s.ranks[i]);
    if st.BeginRead? {
      var m := s.links[i - 1][0];
      LinkBeginRead(size, sched, s.ranks[i - 1], s.ranks[i], s.links[i - 1], s.acks[i - 1]);
      assert sched[s.ranks[i].got] in sched;
      ReadDecreases(s.ranks[i], m, size, |sched|, width);
    } else {
      PhaseDecreases(s, size, st);
    }
  }

  /** Every step of every rank makes the work that is left, summed over all ranks, smaller. */
  lemma StepDecreases(s: State, size: nat, sched: seq<Bucket>, width: nat, st: Step)
    requires Inv(s, size, sched) && Enabled(s, size, st) && WideEnough(sched, size, width)
    ensures var t := Apply(s, size, st);
            |t.ranks| == |s.ranks| && Sum(t, size, |sched|, width, |t.ranks|) < Sum(s, size, |sched|, width, |s.ranks|)
  {
    hide Enabled, Apply, RankInv, LinkInv, WideEnough, SenderMeasure;
    OnlyTheActorMoves(s, size, st);
    SumSame(s, Apply(s, size, st), size, |sched|, width, Target(st), |s.ranks|);
    assert Target(st) < |s.ranks| by { TargetIsARank(s, size, st); }
    if Target(st) == 0 {
      SenderDecreases(s, size, sched, st);
    } else {
      RelayDecreases(s, size, sched, width, st);
    }
  }

  lemma TargetIsARank(s: State, size: nat, st: Step)
    requires WF(s, size) && Enabled(s, size, st)
    ensures Target(st) < |s.ranks|
  {
  }

  lemma PhaseIsNatural(r: Rank, size: nat, sched: seq<Bucket>, width: nat)
    requires r.got <= |sched| && (r.xfer.Some? ==> r.xfer.value.pos <= size) && (Yields(r.pc) ==> r.pc.j <= |r.metas|)
    ensures (|sched| - r.got) * width + Phase(r, size) >= 0
  {
    assert (|sched| - r.got) * width >= 0;
  }

  lemma GotIsBounded(size: nat, sched: seq<Bucket>, hasNext: bool, r: Rank)
    requires RelayInv(size, sched, hasNext, r)
    ensures r.got <= |sched|
  {
    hide YieldedBy;
  }

  lemma {:induction false} SumIsNatural(s: State, size: nat, sched: seq<Bucket>, width: nat, n: nat)
    requires Inv(s, size, sched) && n <= |s.ranks|
    ensures Sum(s, size, |sched|, width, n) >= 0
  {
    hide RelayInv, SenderInv, LinkInv, Phase;
    if n > 0 {
      SumIsNatural(s, size, sched, width, n - 1);
      assert RankInv(size, sched, s, n - 1);
      if n > 1 {
        GotIsBounded(size, sched, n < |s.ranks|, s.ranks[n - 1]);
        ReadingShape(size, sched, n < |s.ranks|, s.ranks[n - 1]);
        PhaseIsNatural(s.ranks[n - 1], size, sched, width);
      }
    }
  }

  /** A run cannot be longer than the work that was left when it began. */
  lemma {:induction false} RunIsBounded(s: State, size: nat, sched: seq<Bucket>, width: nat, steps: seq<Step>, t: State)
    requires Inv(s, size, sched) && WellPacked(sched, size) && WideEnough(sched, size, width)
    requires Reaches(s, size, steps, t)
    ensures |steps| <= Sum(s, size, |sched|, width, |s.ranks|)
    decreases |steps|
  {
    hide Inv, WellPacked, WideEnough, Enabled, Apply;
    if steps == [] {
      SumIsNatural(s, size, sched, width, |s.ranks|);
    } else {
      var s' := Apply(s, size, steps[0]);
      StepInv(s, size, sched, steps[0]);
      StepDecreases(s, size, sched, width, steps[0]);
      RunIsBounded(s', size, sched, width, steps[1..], t);
    }
  }

  ghost predicate RunsAreShorterThan(s: State, size: nat, bound: nat) {
    forall steps, t :: Reaches(s, size, steps, t) ==> |steps| <= bound
  }

  /** The chain as a whole, for any number of ranks, any weights and any interleaving: no assertion
      fails, runs have a bounded length, and a run that cannot be extended has delivered the weights
      to every rank. */
  lemma EveryRunDelivers(s0: State, size: nat, ws: seq<Weight>)
    requires 0 < size && (forall w :: w in ws ==> w.Valid()) && DistinctNames(ws)
    requires Init(s0, size, Split(ws, size))
    ensures exists bound: nat :: RunsAreShorterThan(s0, size, bound)
    ensures forall steps, t :: Reaches(s0, size, steps, t) ==>
              && WF(t, size)
              && (forall i :: 0 <= i < |t.ranks| ==> t.ranks[i].pc != Failed)
              && ((forall st :: !Enabled(t, size, st)) ==> AllDone(t))
              && (forall i :: 0 < i < |t.ranks| && t.ranks[i].pc == Done ==>
                    MergeFrom(NoPending, t.ranks[i].out, size) == Merged(NonEmpty(ws), None))
  {
    hide Inv, Init, WellPacked, Reaches, Enabled, MergeFrom;
    var sched := ReachableInv(s0, size, ws, [], s0) by { assert Reaches(s0, size, [], s0) by { NoSteps(s0, size); } }
    var width := SomeWidth(sched, size);
    SumIsNatural(s0, size, sched, width, |s0.ranks|);
    var bound: nat := Sum(s0, size, |sched|, width, |s0.ranks|);
    forall steps, t | Reaches(s0, size, steps, t)
      ensures |steps| <= bound
      ensures WF(t, size)
      ensures forall i :: 0 <= i < |t.ranks| ==> t.ranks[i].pc != Failed
      ensures (forall st :: !Enabled(t, size, st)) ==> AllDone(t)
      ensures forall i :: 0 < i < |t.ranks| && t.ranks[i].pc == Done ==>
                MergeFrom(NoPending, t.ranks[i].out, size) == Merged(NonEmpty(ws), None)
    {
      RunIsBounded(s0, size, sched, width, steps, t);
      var same := ReachableInv(s0, size, ws, steps, t);
      InvIsWF(t, size, sched);
      forall i | 0 <= i < |t.ranks| ensures t.ranks[i].pc != Failed {
        NoAssertionFails(t, size, sched, i);
      }
      if !AllDone(t) {
        var st := NoDeadlock(t, size, sched);
      }
      forall i | 0 < i < |t.ranks| && t.ranks[i].pc == Done
        ensures MergeFrom(NoPending, t.ranks[i].out, size) == Merged(NonEmpty(ws), None)
      {
        ChainDelivers(s0, size, ws, steps, t, i);
      }
    }
    assert RunsAreShorterThan(s0, size, bound);
  }

  lemma NoSteps(s: State, size: nat)
    ensures Reaches(s, size, [], s)
  {
  }

  lemma InvIsWF(s: State, size: nat, sched: seq<Bucket>)
    requires Inv(s, size, sched)
    ensures WF(s, size)
  {
  }
}
