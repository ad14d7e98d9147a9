/**
 What holds in every state that an NCCL broadcast can reach, for any number of receivers and any
 interleaving of the executor threads with filling and yielding.
 */
module NcclSafety {
  import opened Options
  import opened Chunks
  import opened Buckets
  import opened NcclBroadcast

  lemma {:induction false} RunInv(s: State, size: nat, sched: seq<Bucket>, steps: seq<Step>, t: State)
    requires Inv(s, size, sched) && WellPacked(sched, size) && Reaches(s, size, steps, t)
    ensures Inv(t, size, sched)
    decreases |steps|
  {
    hide Inv, WellPacked, Enabled, Apply;
    if steps != [] {
      StepInv(s, size, sched, steps[0]);
      RunInv(Apply(s, size, steps[0]), size, sched, steps[1..], t);
    }
  }

  lemma ReachableInv(s0: State, size: nat, ws: seq<Weight>, steps: seq<Step>, t: State) returns (sched: seq<Bucket>)
    requires 0 < size && (forall w :: w in ws ==> w.Valid()) && DistinctNames(ws)
    requires Init(s0, size, Split(ws, size)) && Reaches(s0, size, steps, t)
    ensures sched == Pack(Split(ws, size), EMPTY, size) && WellPacked(sched, size)
    ensures Inv(s0, size, sched) && Inv(t, size, sched)
  {
    hide Inv, Init, WellPacked, Reaches;
    SplitPacksCleanly(ws, size);
    sched := Pack(Split(ws, size), EMPTY, size);
    assert WellPacked(sched, size) by { PackIsWellPacked(Split(ws, size), EMPTY, size); }
    InitInv(s0, size, sched, Split(ws, size));
    RunInv(s0, size, sched, steps, t);
  }

  // ------------------------------------------------------------------------ delivery

  lemma ReceiverYields(size: nat, sched: seq<Bucket>, r: Receiver)
    requires ReceiverInv(size, sched, r)
    ensures r.out <= UnpackAll(sched)
    ensures r.pc == Done ==> r.out == UnpackAll(sched)
  {
    hide Yielded, UnpackAll;
    var h := r.dataCount;
    if h > 0 {
      YieldedIsPrefix(sched, h - 1, YieldCount(r.pc, |sched[h - 1].metas|));
      YieldedWhole(sched, h - 1);
    }
  }

  /** Whatever the interleaving, a receiver yields the sender's chunks in order, with the bytes that
      were packed, and one that is done has been given the sender's weights. */
  lemma BroadcastDelivers(s0: State, size: nat, ws: seq<Weight>, steps: seq<Step>, t: State, i: nat)
    requires 0 < size && (forall w :: w in ws ==> w.Valid()) && DistinctNames(ws)
    requires Init(s0, size, Split(ws, size)) && Reaches(s0, size, steps, t) && i < |t.receivers|
    ensures Unplaced(t.receivers[i].out) <= Split(ws, size)
    ensures t.receivers[i].pc == Done ==>
              && Unplaced(t.receivers[i].out) == Split(ws, size)
              && MergeFrom(NoPending, t.receivers[i].out, size) == Merged(NonEmpty(ws), None)
  {
    hide Init, WellPacked, Reaches, ReceiverInv, ChannelInv;
    var sched := ReachableInv(s0, size, ws, steps, t);
    ReceiverYields(size, sched, t.receivers[i]);
    SplitPacksCleanly(ws, size);
    YieldedAreSent(Split(ws, size), size);
    UnplacedPrefix(t.receivers[i].out, UnpackAll(sched));
    TransferRoundTrip(ws, size);
  }

  /** When a receiver takes a bucket, the metadata it has read and the payload it has received are those
      of the same bucket, although they came over two channels. */
  lemma MetadataMatchesPayload(s: State, size: nat, sched: seq<Bucket>, i: nat)
    requires Inv(s, size, sched) && Enabled(s, size, TakeBucket(i))
    ensures var r := s.receivers[i];
            && r.dataCount < |sched| && r.metaCount == r.dataCount + 1
            && r.op.value.metadata.value == Metadata(sched[r.dataCount].metas, r.dataCount == |sched| - 1)
            && sched[r.dataCount].data <= r.bufs[r.op.value.buf]
  {
    hide RootInv, ChannelInv, YieldedBy;
    var r := s.receivers[i];
    assert ReceiverInv(size, sched, r);
    assert r.bufs[r.op.value.buf][..size] == r.bufs[r.op.value.buf];
  }

  // ------------------------------------------------------------------------- buffers

  /** The sender never writes to the buffer that a broadcast is sending. */
  lemma BufferInFlightIsKept(s: State, size: nat, sched: seq<Bucket>, st: Step)
    requires Inv(s, size, sched) && Enabled(s, size, st) && s.root.op.Some?
    ensures |Apply(s, size, st).root.bufs| == 2
    ensures Apply(s, size, st).root.bufs[s.root.op.value.buf] == s.root.bufs[s.root.op.value.buf]
  {
    hide ReceiverInv, ChannelInv, Pack, PacksCleanly, ApplyReceiver;
  }

  /** A receiver never yields from the buffer it is receiving into, and nothing is written to the buffer
      it yields from. */
  lemma BufferYieldedIsKept(s: State, size: nat, sched: seq<Bucket>, st: Step, i: nat)
    requires Inv(s, size, sched) && Enabled(s, size, st) && i < |s.receivers| && Yields(s.receivers[i].pc)
    ensures s.receivers[i].op.Some? ==> s.receivers[i].op.value.buf != s.receivers[i].cur
    ensures |Apply(s, size, st).receivers| == |s.receivers| && |Apply(s, size, st).receivers[i].bufs| == 2
    ensures Apply(s, size, st).receivers[i].bufs[s.receivers[i].cur] == s.receivers[i].bufs[s.receivers[i].cur]
  {
    hide RootInv, ChannelInv, YieldedBy, UnpackOne;
    assert ReceiverInv(size, sched, s.receivers[i]);
  }

  // ------------------------------------------------------------------------ progress

  /** No receiver is ahead of what was published and sent. */
  ghost predicate Behind(s: State, size: nat, r: Receiver) {
    && r.dataCount <= |s.streams| && r.metaCount <= |s.published|
    && (r.op.Some? && r.op.value.pos > 0 ==>
          r.dataCount < |s.streams| && r.op.value.pos <= |s.streams[r.dataCount]|)
    && (forall k :: 0 <= k < r.dataCount ==> |s.streams[k]| >= size)
  }

  ghost predicate AllBehind(s: State, size: nat) {
    forall i :: 0 <= i < |s.receivers| ==> Behind(s, size, s.receivers[i])
  }

  /** The two channels only grow. */
  ghost predicate Grown(s: State, t: State) {
    && |s.published| <= |t.published| && |s.streams| <= |t.streams|
    && forall k :: 0 <= k < |s.streams| ==> |s.streams[k]| <= |t.streams[k]|
  }

  lemma ChannelsGrow(s: State, size: nat, st: Step)
    requires WF(s, size) && Enabled(s, size, st)
    ensures Grown(s, Apply(s, size, st))
  {
    hide FillRoot, StartRoot, ApplyReceiver;
  }

  lemma StaysBehind(s: State, t: State, size: nat, r: Receiver)
    requires Behind(s, size, r) && Grown(s, t)
    ensures Behind(t, size, r)
  {
  }

  lemma MovesBehind(s: State, size: nat, r: Receiver, st: Step)
    requires TwoBuffers(r.bufs, r.cur, size) && (r.op.Some? ==> r.op.value.buf < 2)
    requires Behind(s, size, r) && !OfRoot(st) && ReceiverEnabled(s, size, r, st) && 0 < size
    ensures Behind(s, size, ApplyReceiver(s, size, r, st))
  {
  }

  lemma StepBehind(s: State, size: nat, st: Step)
    requires WF(s, size) && 0 < size && AllBehind(s, size) && Enabled(s, size, st)
    ensures AllBehind(Apply(s, size, st), size)
  {
    hide Behind, RootEnabled, ReceiverEnabled, ApplyReceiver;
    var t := Apply(s, size, st);
    ChannelsGrow(s, size, st);
    forall i | 0 <= i < |t.receivers|
      ensures Behind(t, size, t.receivers[i])
    {
      StaysBehind(s, t, size, s.receivers[i]);
      if !OfRoot(st) && st.i == i {
        MovesBehind(s, size, s.receivers[i], st);
        StaysBehind(s, t, size, t.receivers[i]);
      }
    }
  }

  /** A receiver takes part in the broadcast that is being sent. */
  predicate Joined(s: State, r: Receiver) {
    r.op.Some? && r.op.value.metadata.Some? && r.dataCount == |s.streams| - 1
  }

  /** A collective moves only when all ranks have entered it. */
  predicate Collective(s: State, st: Step) {
    st.SendByte? ==> forall i :: 0 <= i < |s.receivers| ==> Joined(s, s.receivers[i])
  }

  predicate AllDone(s: State) {
    s.root.pc == RootDone && forall i :: 0 <= i < |s.receivers| ==> s.receivers[i].pc == Done
  }

  /** Once a bucket has been sent entirely, or another one is being sent, a receiver that has not got it
      can move. */
  lemma ReceiverMoves(s: State, size: nat, sched: seq<Bucket>, i: nat) returns (st: Step)
    requires Inv(s, size, sched) && 0 < size && AllBehind(s, size) && i < |s.receivers|
    requires s.receivers[i].pc != Done && s.receivers[i].dataCount <= |s.streams|
    requires s.receivers[i].op.Some? ==> s.receivers[i].dataCount < |s.streams|
    requires |s.streams| > 0 && (s.receivers[i].dataCount < |s.streams| - 1 || |s.streams[|s.streams| - 1]| == size
                                 || !Joined(s, s.receivers[i]))
    ensures Enabled(s, size, st) && !OfRoot(st)
  {
    hide RootInv, YieldedBy;
    var r := s.receivers[i];
    assert ReceiverInv(size, sched, r);
    if r.op.None? {
      st := if r.pc == Entry || r.pc == Top then StartReceive(i)
            else if r.pc.j < |r.metadata.metas| then YieldChunk(i) else YieldEnd(i);
    } else if r.op.value.metadata.None? {
      st := ReceiveMeta(i);
    } else if r.op.value.pos < size {
      assert |s.streams[r.dataCount]| == size;
      st := ReceiveByte(i);
    } else {
      st := if r.pc == FirstWait || r.pc == AwaitNext then TakeBucket(i)
            else if r.pc.j < |r.metadata.metas| then YieldChunk(i) else YieldEnd(i);
    }
  }

  lemma RootMoves(s: State, size: nat, sched: seq<Bucket>) returns (st: Step)
    requires Inv(s, size, sched) && s.root.pc != RootDone
    requires s.root.op.None? || !s.root.op.value.published || Sent(s.root.op.value, size)
    ensures Enabled(s, size, st) && OfRoot(st) && !st.SendByte?
  {
    hide ReceiverInv, ChannelInv, Pack, PacksCleanly;
    var r := s.root;
    st := if r.pc == Placing || (r.pc == Filling && ChunkFits(r, size)) then Fill
          else if r.op.None? then StartBroadcast
          else if !r.op.value.published then Publish else WaitBroadcast;
  }

  lemma ChannelFacts(s: State, size: nat, sched: seq<Bucket>)
    requires Inv(s, size, sched)
    ensures |s.streams| == |s.published|
    ensures s.root.pc == RootDone ==> |s.streams| == |sched| && |s.streams[|sched| - 1]| == size
    ensures s.root.op.Some? && s.root.op.value.published ==>
              |s.streams| > 0 && |s.streams[|s.streams| - 1]| == s.root.op.value.pos && |s.streams| <= |sched|
  {
    hide ReceiverInv, Pack, PacksCleanly;
  }

  lemma ReceiverFacts(s: State, size: nat, sched: seq<Bucket>, i: nat)
    requires Inv(s, size, sched) && i < |s.receivers|
    ensures var r := s.receivers[i];
            (r.op.Some? ==> r.dataCount < |sched|) && (r.pc == Done ==> r.dataCount == |sched|)
  {
    hide RootInv, ChannelInv, YieldedBy;
    assert ReceiverInv(size, sched, s.receivers[i]);
  }

  /** No reachable state is stuck before all ranks are done, even when a broadcast moves only while every
      receiver takes part in it. */
  lemma NoDeadlock(s: State, size: nat, sched: seq<Bucket>) returns (st: Step)
    requires Inv(s, size, sched) && 0 < size && AllBehind(s, size) && !AllDone(s)
    ensures Enabled(s, size, st) && Collective(s, st)
  {
    hide RootInv, ReceiverInv, ChannelInv, Joined;
    var op := s.root.op;
    ChannelFacts(s, size, sched);
    if s.root.pc == RootDone {
      var i :| 0 <= i < |s.receivers| && s.receivers[i].pc != Done;
      assert Behind(s, size, s.receivers[i]);
      ReceiverFacts(s, size, sched, i);
      st := ReceiverMoves(s, size, sched, i);
    } else if op.None? || !op.value.published || Sent(op.value, size) {
      st := RootMoves(s, size, sched);
    } else if forall i :: 0 <= i < |s.receivers| ==> Joined(s, s.receivers[i]) {
      SendingFacts(s, size, sched);
      st := SendByte;
    } else {
      var i :| 0 <= i < |s.receivers| && !Joined(s, s.receivers[i]);
      SendingFacts(s, size, sched);
      assert Behind(s, size, s.receivers[i]);
      ReceiverFacts(s, size, sched, i);
      NotAhead(s, size, s.receivers[i]);
      st := ReceiverMoves(s, size, sched, i);
    }
  }

  lemma SendingFacts(s: State, size: nat, sched: seq<Bucket>)
    requires Inv(s, size, sched) && s.root.op.Some?
    ensures s.root.op.value.pos <= size
  {
    hide ReceiverInv, ChannelInv, Pack, PacksCleanly;
  }

  lemma NotAhead(s: State, size: nat, r: Receiver)
    requires Behind(s, size, r) && |s.streams| > 0 && |s.streams[|s.streams| - 1]| < size
    ensures r.dataCount < |s.streams|
  {
  }

  lemma {:induction false} RunBehind(s: State, size: nat, sched: seq<Bucket>, steps: seq<Step>, t: State)
    requires Inv(s, size, sched) && WellPacked(sched, size) && 0 < size && AllBehind(s, size)
    requires Reaches(s, size, steps, t)
    ensures AllBehind(t, size)
    decreases |steps|
  {
    hide WellPacked, Enabled, Apply, AllBehind, RootInv, ReceiverInv, ChannelInv;
    if steps != [] {
      StepInv(s, size, sched, steps[0]);
      StepBehind(s, size, steps[0]);
      RunBehind(Apply(s, size, steps[0]), size, sched, steps[1..], t);
    }
  }

  /** Every reachable state that is not final has a step that a collective allows. */
  lemma BroadcastNeverSticks(s0: State, size: nat, ws: seq<Weight>, steps: seq<Step>, t: State)
    requires 0 < size && (forall w :: w in ws ==> w.Valid()) && DistinctNames(ws)
    requires Init(s0, size, Split(ws, size)) && Reaches(s0, size, steps, t)
    ensures WF(t, size)
    ensures AllDone(t) || exists st :: Enabled(t, size, st) && Collective(t, st)
  {
    hide WellPacked, Reaches, Enabled, Collective, AllBehind, AllDone;
    var sched := ReachableInv(s0, size, ws, steps, t);
    assert AllBehind(s0, size) by { InitBehind(s0, size, Split(ws, size)); }
    RunBehind(s0, size, sched, steps, t);
    if !AllDone(t) {
      var st := NoDeadlock(t, size, sched);
    }
  }

  lemma InitBehind(s: State, size: nat, chunks: seq<Chunk>)
    requires Init(s, size, chunks)
    ensures AllBehind(s, size)
  {
  }

  // --------------------------------------------------------------------- termination

  /** Publishing, the bytes, and the wait. */
  function SendLeft(r: Root, size: nat): int {
    if r.op.None? then 0 else size - r.op.value.pos + B2N(!r.op.value.published) + 1
  }

  /** A bucket costs less than one chunk and the bytes of a buffer, and holds at least one chunk unless it
      is the last. */
  function RootMeasure(r: Root, size: nat): int {
    match r.pc
    case Filling => |r.todo| * (size + 4) + size + 4 + SendLeft(r, size)
    case Placing => |r.todo| * (size + 4) + 1 + SendLeft(r, size)
    case LastWait => SendLeft(r, size)
    case _ => 0
  }

  function ReceiveLeft(r: Receiver, size: nat): int {
    if r.op.None? then 0 else size - r.op.value.pos + B2N(r.op.value.metadata.None?)
  }

  /** What is left to do for the bucket in send_buf and the one being received. */
  function Phase(r: Receiver, size: nat): int {
    match r.pc
    case Entry => size + 4
    case FirstWait => 1 + ReceiveLeft(r, size)
    case Top => |r.metadata.metas| + size + 5
    case Yielding(j) => |r.metadata.metas| - j + 2 + ReceiveLeft(r, size)
    case AwaitNext => 1 + ReceiveLeft(r, size)
    case LastYield(j) => |r.metadata.metas| - j + 1
    case Done => 0
  }

  /** width exceeds what one bucket can add to the phase of a receiver. */
  function ReceiverMeasure(r: Receiver, size: nat, buckets: nat, width: nat): int {
    (buckets - r.dataCount) * width + Phase(r, size)
  }

  function Sum(rs: seq<Receiver>, size: nat, buckets: nat, width: nat): int {
    if rs == [] then 0
    else Sum(rs[..|rs| - 1], size, buckets, width) + ReceiverMeasure(rs[|rs| - 1], size, buckets, width)
  }

  function Measure(s: State, size: nat, buckets: nat, width: nat): int {
    RootMeasure(s.root, size) + Sum(s.receivers, size, buckets, width)
  }

  lemma {:induction false} SumChanges(rs: seq<Receiver>, i: nat, r: Receiver, size: nat, buckets: nat, width: nat)
    requires i < |rs|
    ensures Sum(rs[i := r], size, buckets, width) - Sum(rs, size, buckets, width)
            == ReceiverMeasure(r, size, buckets, width) - ReceiverMeasure(rs[i], size, buckets, width)
  {
    hide ReceiverMeasure;
    var n := |rs| - 1;
    if i == n {
      assert rs[i := r][..n] == rs[..n];
    } else {
      assert rs[i := r][..n] == rs[..n][i := r];
      SumChanges(rs[..n], i, r, size, buckets, width);
    }
  }

  lemma RootDecreases(s: State, size: nat, sched: seq<Bucket>, st: Step)
    requires Inv(s, size, sched) && Enabled(s, size, st) && OfRoot(st)
    ensures RootMeasure(Apply(s, size, st).root, size) < RootMeasure(s.root, size)
    ensures Apply(s, size, st).receivers == s.receivers
  {
    hide ReceiverInv, ChannelInv, Pack;
    var r := s.root;
    if st.Fill? {
      assert r.todo != [];
      OneChunkLess(|r.todo|, size);
    }
  }

  lemma OneChunkLess(n: nat, size: nat)
    requires n > 0
    ensures n * (size + 4) == (n - 1) * (size + 4) + size + 4
  {
  }

  lemma PhaseDecreases(s: State, size: nat, r: Receiver, st: Step)
    requires TwoBuffers(r.bufs, r.cur, size) && (r.op.Some? ==> r.op.value.buf < 2)
    requires !OfRoot(st) && ReceiverEnabled(s, size, r, st) && !st.TakeBucket?
    requires r.op.Some? <==> r.pc == FirstWait || r.pc.Yielding? || r.pc == AwaitNext
    requires Yields(r.pc) ==> r.pc.j <= |r.metadata.metas|
    ensures Phase(ApplyReceiver(s, size, r, st), size) < Phase(r, size)
    ensures ApplyReceiver(s, size, r, st).dataCount == r.dataCount
  {
    hide UnpackOne;
  }

  lemma TakeDecreases(r: Receiver, size: nat, buckets: nat, width: nat)
    requires r.op.Some? && r.op.value.metadata.Some? && r.cur < 2 && (r.pc == FirstWait || r.pc == AwaitNext)
    requires |r.op.value.metadata.value.metas| + size + 12 <= width && r.op.value.pos <= size
    ensures ReceiverMeasure(TakeReceiver(r), size, buckets, width) < ReceiverMeasure(r, size, buckets, width)
  {
    assert (buckets - r.dataCount) * width == (buckets - r.dataCount - 1) * width + width;
  }

  lemma ReceiverDecreases(s: State, size: nat, sched: seq<Bucket>, width: nat, st: Step)
    requires Inv(s, size, sched) && Enabled(s, size, st) && !OfRoot(st) && WideEnough(sched, size, width)
    ensures var r := s.receivers[st.i];
            ReceiverMeasure(ApplyReceiver(s, size, r, st), size, |sched|, width)
            < ReceiverMeasure(r, size, |sched|, width)
  {
    hide RootInv, ChannelInv, YieldedBy, Phase;
    var r := s.receivers[st.i];
    assert ReceiverInv(size, sched, r);
    if st.TakeBucket? {
      assert sched[r.dataCount] in sched;
      TakeDecreases(r, size, |sched|, width);
    } else {
      PhaseDecreases(s, size, r, st);
    }
  }

  /** Every step of the root, of a broadcast and of a receiver makes the work that is left smaller. */
  lemma StepDecreases(s: State, size: nat, sched: seq<Bucket>, width: nat, st: Step)
    requires Inv(s, size, sched) && Enabled(s, size, st) && WideEnough(sched, size, width)
    ensures Measure(Apply(s, size, st), size, |sched|, width) < Measure(s, size, |sched|, width)
  {
    hide RootInv, ReceiverInv, ChannelInv, RootMeasure, ReceiverMeasure, Sum, ApplyReceiver, WideEnough;
    if OfRoot(st) {
      RootDecreases(s, size, sched, st);
    } else {
      ReceiverDecreases(s, size, sched, width, st);
      SumChanges(s.receivers, st.i, ApplyReceiver(s, size, s.receivers[st.i], st), size, |sched|, width);
    }
  }

  lemma ReceiverIsNatural(size: nat, sched: seq<Bucket>, r: Receiver, width: nat)
    requires ReceiverInv(size, sched, r)
    ensures ReceiverMeasure(r, size, |sched|, width) >= 0
  {
    hide YieldedBy, TwoBuffers, Agrees;
    NaturalProduct(|sched| - r.dataCount, width);
  }

  lemma NaturalProduct(a: int, b: int)
    requires a >= 0 && b >= 0
    ensures a * b >= 0
  {
  }

  lemma {:induction false} SumIsNatural(size: nat, sched: seq<Bucket>, rs: seq<Receiver>, width: nat)
    requires forall i :: 0 <= i < |rs| ==> ReceiverInv(size, sched, rs[i])
    ensures Sum(rs, size, |sched|, width) >= 0
  {
    hide ReceiverInv, ReceiverMeasure;
    if rs != [] {
      SumIsNatural(size, sched, rs[..|rs| - 1], width);
      ReceiverIsNatural(size, sched, rs[|rs| - 1], width);
    }
  }

  lemma MeasureIsNatural(s: State, size: nat, sched: seq<Bucket>, width: nat)
    requires Inv(s, size, sched)
    ensures Measure(s, size, |sched|, width) >= 0
  {
    hide ReceiverInv, ChannelInv, Pack, PacksCleanly, Sum;
    SumIsNatural(size, sched, s.receivers, width);
    assert |s.root.todo| * (size + 4) >= 0;
  }

  lemma {:induction false} RunIsBounded(s: State, size: nat, sched: seq<Bucket>, width: nat, steps: seq<Step>, t: State)
    requires Inv(s, size, sched) && WellPacked(sched, size) && WideEnough(sched, size, width)
    requires Reaches(s, size, steps, t)
    ensures |steps| <= Measure(s, size, |sched|, width)
    decreases |steps|
  {
    hide Inv, WellPacked, WideEnough, Enabled, Apply, Measure;
    if steps == [] {
      MeasureIsNatural(s, size, sched, width);
    } else {
      StepInv(s, size, sched, steps[0]);
      StepDecreases(s, size, sched, width, steps[0]);
      RunIsBounded(Apply(s, size, steps[0]), size, sched, width, steps[1..], t);
    }
  }

  ghost predicate RunsAreShorterThan(s: State, size: nat, bound: nat) {
    forall steps, t :: Reaches(s, size, steps, t) ==> |steps| <= bound
  }

  /** No step is left that a collective allows. */
  ghost predicate Stuck(s: State, size: nat) {
    forall st :: Enabled(s, size, st) ==> !Collective(s, st)
  }

  /** The broadcast as a whole, for any number of receivers, any weights and any interleaving: runs have a
      bounded length, and a run that cannot be extended, even under the rule of collectives, has every
      rank done and has delivered the weights to every receiver. */
  lemma EveryRunDelivers(s0: State, size: nat, ws: seq<Weight>)
    requires 0 < size && (forall w :: w in ws ==> w.Valid()) && DistinctNames(ws)
    requires Init(s0, size, Split(ws, size))
    ensures exists bound: nat :: RunsAreShorterThan(s0, size, bound)
    ensures forall steps, t :: Reaches(s0, size, steps, t) ==>
              && t.root.pc != RootFailed
              && (Stuck(t, size) ==> AllDone(t))
              && (forall i :: 0 <= i < |t.receivers| && t.receivers[i].pc == Done ==>
                    MergeFrom(NoPending, t.receivers[i].out, size) == Merged(NonEmpty(ws), None))
  {
    hide Inv, Init, WellPacked, Reaches, Enabled, MergeFrom, Collective, Measure, AllDone;
    var sched := ReachableInv(s0, size, ws, [], s0) by { NoSteps(s0, size); }
    var width := SomeWidth(sched, size);
    MeasureIsNatural(s0, size, sched, width);
    var bound: nat := Measure(s0, size, |sched|, width);
    forall steps, t | Reaches(s0, size, steps, t)
      ensures |steps| <= bound && t.root.pc != RootFailed
      ensures Stuck(t, size) ==> AllDone(t)
      ensures forall i :: 0 <= i < |t.receivers| && t.receivers[i].pc == Done ==>
                MergeFrom(NoPending, t.receivers[i].out, size) == Merged(NonEmpty(ws), None)
    {
      RunIsBounded(s0, size, sched, width, steps, t);
      RootNeverFails(s0, size, ws, steps, t);
      BroadcastNeverSticks(s0, size, ws, steps, t);
      forall i | 0 <= i < |t.receivers| && t.receivers[i].pc == Done
        ensures MergeFrom(NoPending, t.receivers[i].out, size) == Merged(NonEmpty(ws), None)
      {
        BroadcastDelivers(s0, size, ws, steps, t, i);
      }
    }
    assert RunsAreShorterThan(s0, size, bound);
  }

  lemma NoSteps(s: State, size: nat)
    ensures Reaches(s, size, [], s)
  {
  }

  lemma RootNeverFails(s0: State, size: nat, ws: seq<Weight>, steps: seq<Step>, t: State)
    requires 0 < size && (forall w :: w in ws ==> w.Valid()) && DistinctNames(ws)
    requires Init(s0, size, Split(ws, size)) && Reaches(s0, size, steps, t)
    ensures t.root.pc != RootFailed
  {
    hide Init, WellPacked, Reaches, ReceiverInv, ChannelInv;
    var sched := ReachableInv(s0, size, ws, steps, t);
  }
}
