/**
 The NCCL weight transfer: rank 0 broadcasts one buffer while it fills the other; every receiver
 receives into one buffer while it yields from the other. The broadcasts run in an executor thread,
 so their steps interleave freely with filling and yielding.

 A broadcast first publishes the metadata on a PUB/SUB socket and then sends the bytes of the buffer
 one at a time. Metadata and payloads travel on two separate channels, which every receiver reads at
 its own pace, in order and without loss.
 */
module NcclBroadcast {
  import opened Options
  import opened Seqs
  import opened Chunks
  import opened Buckets

  datatype Metadata = Metadata(metas: seq<TensorMeta>, isLast: bool)

  datatype RootPc = Filling | Placing | LastWait | RootDone | RootFailed

  /** A BroadcastOperation of rank 0 that has not been waited for. */
  datatype Sending = Sending(buf: nat, metadata: Metadata, published: bool, pos: nat)

  datatype Root = Root(
    pc: RootPc, bufs: seq<seq<Byte>>, cur: nat, metas: seq<TensorMeta>, offset: nat,
    todo: seq<Chunk>, op: Option<Sending>,
    posted: nat)  // history: broadcasts started

  datatype Pc = Entry | FirstWait | Top | Yielding(j: nat) | AwaitNext | LastYield(j: nat) | Done

  /** A BroadcastOperation of a receiver that has not been waited for. */
  datatype Receiving = Receiving(buf: nat, metadata: Option<Metadata>, pos: nat)

  datatype Receiver = Receiver(
    pc: Pc, bufs: seq<seq<Byte>>, cur: nat, metadata: Metadata, op: Option<Receiving>,
    metaCount: nat,   // messages read from the socket
    dataCount: nat,   // broadcasts completed
    out: seq<Chunk>)

  /** published: all metadata sent so far; streams: the bytes sent so far by each broadcast. */
  datatype State = State(root: Root, receivers: seq<Receiver>, published: seq<Metadata>, streams: seq<seq<Byte>>)

  datatype Step =
    | Fill | StartBroadcast | WaitBroadcast | Publish | SendByte
    | StartReceive(i: nat) | ReceiveMeta(i: nat) | ReceiveByte(i: nat) | TakeBucket(i: nat)
    | YieldChunk(i: nat) | YieldEnd(i: nat)

  predicate TwoBuffers(bufs: seq<seq<Byte>>, cur: nat, size: nat) {
    |bufs| == 2 && |bufs[0]| == size && |bufs[1]| == size && cur < 2
  }

  predicate WF(s: State, size: nat) {
    && TwoBuffers(s.root.bufs, s.root.cur, size) && (s.root.op.Some? ==> s.root.op.value.buf < 2)
    && forall i :: 0 <= i < |s.receivers| ==>
         && TwoBuffers(s.receivers[i].bufs, s.receivers[i].cur, size)
         && (s.receivers[i].op.Some? ==> s.receivers[i].op.value.buf < 2)
  }

  // ------------------------------------------------------------------- transitions

  predicate ChunkFits(r: Root, size: nat) {
    r.todo != [] && r.offset + r.todo[0].meta.chunkSize <= size
  }

  predicate MustFlush(r: Root, size: nat) {
    r.pc == Filling && !ChunkFits(r, size)
  }

  predicate Sent(op: Sending, size: nat) {
    op.published && op.pos == size
  }

  predicate Received(op: Receiving, size: nat) {
    op.metadata.Some? && op.pos == size
  }

  predicate Yields(pc: Pc) {
    pc.Yielding? || pc.LastYield?
  }

  predicate RootEnabled(s: State, size: nat, st: Step) {
    var r := s.root;
    match st
    case Fill => r.pc == Placing || (r.pc == Filling && ChunkFits(r, size))
    case StartBroadcast => MustFlush(r, size) && r.op.None?
    case WaitBroadcast => (MustFlush(r, size) || r.pc == LastWait) && r.op.Some? && Sent(r.op.value, size)
    case Publish => r.op.Some? && !r.op.value.published
    case SendByte => r.op.Some? && r.op.value.published && r.op.value.pos < size && s.streams != []
    case _ => false
  }

  predicate ReceiverEnabled(s: State, size: nat, r: Receiver, st: Step) {
    match st
    case StartReceive(_) => r.pc == Entry || r.pc == Top
    case ReceiveMeta(_) => r.op.Some? && r.op.value.metadata.None? && r.metaCount < |s.published|
    case ReceiveByte(_) =>
      && r.op.Some? && r.op.value.metadata.Some? && r.op.value.pos < size
      && r.dataCount < |s.streams| && r.op.value.pos < |s.streams[r.dataCount]|
    case TakeBucket(_) => (r.pc == FirstWait || r.pc == AwaitNext) && r.op.Some? && Received(r.op.value, size)
    case YieldChunk(_) => Yields(r.pc) && r.pc.j < |r.metadata.metas|
    case YieldEnd(_) => Yields(r.pc) && r.pc.j >= |r.metadata.metas|
    case _ => false
  }

  predicate OfRoot(st: Step) {
    st.Fill? || st.StartBroadcast? || st.WaitBroadcast? || st.Publish? || st.SendByte?
  }

  predicate Enabled(s: State, size: nat, st: Step) {
    if OfRoot(st) then RootEnabled(s, size, st)
    else st.i < |s.receivers| && ReceiverEnabled(s, size, s.receivers[st.i], st)
  }

  function FillRoot(r: Root, size: nat): Root
    requires TwoBuffers(r.bufs, r.cur, size)
  {
    if r.todo == [] then r.(pc := RootFailed)
    else
      var c, buf := r.todo[0], r.bufs[r.cur];
      if r.offset + c.meta.chunkSize > size || NameIn(c.meta.name, r.metas) || |c.data| != c.meta.chunkSize then
        r.(pc := RootFailed)
      else
        r.(pc := Filling,
           bufs := r.bufs[r.cur := Overwrite(buf, r.offset, c.data)],
           metas := r.metas + [c.meta.(offset := Some(r.offset))],
           offset := r.offset + c.meta.chunkSize,
           todo := r.todo[1..])
  }

  /** The last broadcast does not swap the buffers; the others do. */
  function StartRoot(r: Root): Root
    requires r.cur < 2
  {
    var last := r.todo == [];
    var r' := r.(op := Some(Sending(r.cur, Metadata(r.metas, last), false, 0)), posted := r.posted + 1);
    if last then r'.(pc := LastWait) else r'.(pc := Placing, cur := 1 - r.cur, metas := [], offset := 0)
  }

  function StartReceiver(r: Receiver): Receiver
    requires r.cur < 2
  {
    if r.pc == Top && r.metadata.isLast then r.(pc := LastYield(0))
    else r.(pc := if r.pc == Entry then FirstWait else Yielding(0), op := Some(Receiving(1 - r.cur, None, 0)))
  }

  function TakeReceiver(r: Receiver): Receiver
    requires r.op.Some? && r.op.value.metadata.Some? && r.cur < 2
  {
    r.(pc := Top, metadata := r.op.value.metadata.value, op := None, cur := 1 - r.cur, dataCount := r.dataCount + 1)
  }

  function ByteReceiver(r: Receiver, b: Byte, size: nat): Receiver
    requires r.op.Some? && r.op.value.buf < 2 && TwoBuffers(r.bufs, r.cur, size) && r.op.value.pos < size
  {
    var op := r.op.value;
    var buf := r.bufs[op.buf];
    r.(bufs := r.bufs[op.buf := Overwrite(buf, op.pos, [b])], op := Some(op.(pos := op.pos + 1)))
  }

  function YieldReceiver(r: Receiver): Receiver
    requires Yields(r.pc) && r.pc.j < |r.metadata.metas| && r.cur < |r.bufs|
  {
    var j := r.pc.j;
    r.(pc := if r.pc.Yielding? then Yielding(j + 1) else LastYield(j + 1),
       out := r.out + [UnpackOne(r.metadata.metas[j], r.bufs[r.cur])])
  }

  function ApplyReceiver(s: State, size: nat, r: Receiver, st: Step): Receiver
    requires TwoBuffers(r.bufs, r.cur, size) && (r.op.Some? ==> r.op.value.buf < 2)
    requires !OfRoot(st) && ReceiverEnabled(s, size, r, st)
  {
    match st
    case StartReceive(_) => StartReceiver(r)
    case ReceiveMeta(_) =>
      r.(op := Some(r.op.value.(metadata := Some(s.published[r.metaCount]))), metaCount := r.metaCount + 1)
    case ReceiveByte(_) => ByteReceiver(r, s.streams[r.dataCount][r.op.value.pos], size)
    case TakeBucket(_) => TakeReceiver(r)
    case YieldChunk(_) => YieldReceiver(r)
    case YieldEnd(_) => r.(pc := if r.pc.Yielding? then AwaitNext else Done)
  }

  function Apply(s: State, size: nat, st: Step): State
    requires WF(s, size) && Enabled(s, size, st)
  {
    var r := s.root;
    match st
    case Fill => s.(root := FillRoot(r, size))
    case StartBroadcast => s.(root := StartRoot(r))
    case WaitBroadcast => s.(root := r.(op := None, pc := if r.pc == LastWait then RootDone else Filling))
    case Publish =>
      s.(root := r.(op := Some(r.op.value.(published := true))),
         published := s.published + [r.op.value.metadata], streams := s.streams + [[]])
    case SendByte =>
      var n, op := |s.streams| - 1, r.op.value;
      s.(root := r.(op := Some(op.(pos := op.pos + 1))),
         streams := s.streams[n := s.streams[n] + [r.bufs[op.buf][op.pos]]])
    case _ => s.(receivers := s.receivers[st.i := ApplyReceiver(s, size, s.receivers[st.i], st)])
  }

  predicate Init(s: State, size: nat, chunks: seq<Chunk>) {
    && WF(s, size) && s.published == [] && s.streams == []
    && s.root.pc == Filling && s.root.metas == [] && s.root.offset == 0 && s.root.todo == chunks
    && s.root.op == None && s.root.posted == 0
    && forall i :: 0 <= i < |s.receivers| ==>
         var r := s.receivers[i];
         r.pc == Entry && r.op == None && r.metaCount == 0 && r.dataCount == 0 && r.out == []
  }

  ghost predicate Reaches(s: State, size: nat, steps: seq<Step>, t: State)
    decreases |steps|
  {
    if steps == [] then s == t
    else WF(s, size) && Enabled(s, size, steps[0]) && Reaches(Apply(s, size, steps[0]), size, steps[1..], t)
  }

  // --------------------------------------------------------------------- invariant

  /** The bytes that have arrived agree with the bucket, as far as both go. */
  ghost predicate Agrees(arrived: seq<Byte>, data: seq<Byte>) {
    forall k :: 0 <= k < |arrived| && k < |data| ==> arrived[k] == data[k]
  }

  ghost predicate RootInv(size: nat, sched: seq<Bucket>, r: Root) {
    && TwoBuffers(r.bufs, r.cur, size) && r.pc != RootFailed && r.offset <= size && r.posted <= |sched|
    && (r.pc == Filling || r.pc == Placing ==>
          var b := Bucket(r.metas, r.bufs[r.cur][..r.offset]);
          && r.posted < |sched| && sched[r.posted..] == Pack(r.todo, b, size) && PacksCleanly(r.todo, b, size))
    && (r.pc == Placing ==> r.todo != [] && r.offset == 0 && r.metas == [])
    && (r.pc == LastWait || r.pc == RootDone ==> r.posted == |sched|)
    && (r.pc == LastWait ==> r.op.Some?) && (r.pc == RootDone ==> r.op.None?)
    && (r.op.Some? ==>
          var op := r.op.value;
          && 1 <= r.posted && op.pos <= size && (!op.published ==> op.pos == 0)
          && op.buf == (if r.pc == LastWait then r.cur else 1 - r.cur)
          && op.metadata == Metadata(sched[r.posted - 1].metas, r.posted == |sched|)
          && sched[r.posted - 1].data <= r.bufs[op.buf])
  }

  /** What is on the two channels: the k-th metadata and the bytes of the k-th bucket. Only the last
      broadcast may still be sending. */
  ghost predicate ChannelInv(size: nat, sched: seq<Bucket>, s: State) {
    var n := s.root.posted - if s.root.op.Some? && !s.root.op.value.published then 1 else 0;
    && n == |s.published| == |s.streams| <= |sched|
    && (forall k :: 0 <= k < n ==> s.published[k] == Metadata(sched[k].metas, k == |sched| - 1))
    && (forall k :: 0 <= k < n ==> Agrees(s.streams[k], sched[k].data))
    && (forall k :: 0 <= k < n ==>
          |s.streams[k]|
          == if k == n - 1 && s.root.op.Some? && s.root.op.value.published then s.root.op.value.pos else size)
  }

  /** How many of the n chunks of the bucket in send_buf have been yielded. */
  function YieldCount(pc: Pc, n: nat): nat {
    match pc
    case Top => 0
    case Yielding(j) => if j <= n then j else n
    case LastYield(j) => if j <= n then j else n
    case _ => n
  }

  function YieldedBy(pc: Pc, sched: seq<Bucket>, h: nat): seq<Chunk>
    requires h <= |sched|
  {
    if h == 0 then [] else Yielded(sched, h - 1, YieldCount(pc, |sched[h - 1].metas|))
  }

  ghost predicate ReceiverInv(size: nat, sched: seq<Bucket>, r: Receiver) {
    var h := r.dataCount;
    && TwoBuffers(r.bufs, r.cur, size) && h <= |sched|
    && (h == 0 <==> r.pc == Entry || r.pc == FirstWait)
    && (h >= 1 ==>
          && r.metadata == Metadata(sched[h - 1].metas, h == |sched|) && sched[h - 1].data <= r.bufs[r.cur])
    && (r.op.Some? <==> r.pc == FirstWait || r.pc.Yielding? || r.pc == AwaitNext)
    && (r.pc.LastYield? || r.pc == Done ==> h == |sched|)
    && (Yields(r.pc) ==> r.pc.j <= |r.metadata.metas|)
    && (r.op.Some? ==>
          var op := r.op.value;
          && h < |sched| && op.buf == 1 - r.cur && op.pos <= size
          && (op.metadata.None? ==> op.pos == 0)
          && (op.metadata.Some? ==> op.metadata.value == Metadata(sched[h].metas, h + 1 == |sched|))
          && Agrees(r.bufs[op.buf][..op.pos], sched[h].data))
    && r.metaCount == h + (if r.op.Some? && r.op.value.metadata.Some? then 1 else 0)
    && r.out == YieldedBy(r.pc, sched, h)
  }

  ghost predicate Inv(s: State, size: nat, sched: seq<Bucket>) {
    && |sched| > 0 && (forall k :: 0 <= k < |sched| ==> |sched[k].data| <= size)
    && WF(s, size) && RootInv(size, sched, s.root) && ChannelInv(size, sched, s)
    && forall i :: 0 <= i < |s.receivers| ==> ReceiverInv(size, sched, s.receivers[i])
  }

  lemma InitInv(s: State, size: nat, sched: seq<Bucket>, chunks: seq<Chunk>)
    requires Init(s, size, chunks) && 0 < size && PacksCleanly(chunks, EMPTY, size)
    requires sched == Pack(chunks, EMPTY, size) && WellPacked(sched, size)
    ensures Inv(s, size, sched)
  {
    assert s.root.bufs[s.root.cur][..0] == [];
    assert forall k :: 0 <= k < |sched| ==> sched[k] in sched;
  }

  // --------------------------------------------------- every step keeps the invariant

  lemma FillKeeps(r: Root, size: nat, sched: seq<Bucket>)
    requires RootInv(size, sched, r) && (r.pc == Placing || (r.pc == Filling && ChunkFits(r, size)))
    ensures RootInv(size, sched, FillRoot(r, size))
    ensures FillRoot(r, size).op == r.op && FillRoot(r, size).posted == r.posted
  {
    var c, buf := r.todo[0], r.bufs[r.cur];
    var b, r' := Bucket(r.metas, buf[..r.offset]), FillRoot(r, size);
    hide Overwrite;
    assert c.Valid() && r.offset + c.meta.chunkSize <= size && !NameIn(c.meta.name, r.metas);
    assert Bucket(r'.metas, r'.bufs[r'.cur][..r'.offset]) == Place(b, c);
  }

  lemma StartKeeps(r: Root, size: nat, sched: seq<Bucket>)
    requires RootInv(size, sched, r) && MustFlush(r, size) && r.op.None?
    ensures RootInv(size, sched, StartRoot(r))
  {
    var b, r' := Bucket(r.metas, r.bufs[r.cur][..r.offset]), StartRoot(r);
    if r.todo == [] {
      assert |sched[r.posted..]| == 1 && sched[r.posted..][0] == b;
    } else {
      FlushStep(sched, r.posted, r.todo, b, size);
      assert r'.bufs[r'.cur][..0] == [];
    }
  }

  lemma RootStepKeeps(s: State, size: nat, sched: seq<Bucket>, st: Step)
    requires Inv(s, size, sched) && RootEnabled(s, size, st) && OfRoot(st)
    ensures RootInv(size, sched, Apply(s, size, st).root)
  {
    hide ReceiverInv;
    if st.Fill? {
      FillKeeps(s.root, size, sched);
    } else if st.StartBroadcast? {
      StartKeeps(s.root, size, sched);
    } else {
      hide Pack, PacksCleanly;
    }
  }

  lemma SendByteKeepsChannel(s: State, size: nat, sched: seq<Bucket>)
    requires Inv(s, size, sched) && RootEnabled(s, size, SendByte)
    ensures ChannelInv(size, sched, Apply(s, size, SendByte))
  {
    hide ReceiverInv, Pack, PacksCleanly;
    var n, op, t := |s.streams| - 1, s.root.op.value, Apply(s, size, SendByte);
    assert t.streams[n] == s.streams[n] + [s.root.bufs[op.buf][op.pos]];
    assert forall k :: 0 <= k < n ==> t.streams[k] == s.streams[k];
    var data := sched[n].data;
    assert data <= s.root.bufs[op.buf];
    assert forall k :: 0 <= k < |data| ==> data[k] == s.root.bufs[op.buf][k];
  }

  lemma RootStepKeepsChannel(s: State, size: nat, sched: seq<Bucket>, st: Step)
    requires Inv(s, size, sched) && RootEnabled(s, size, st) && OfRoot(st)
    ensures ChannelInv(size, sched, Apply(s, size, st))
  {
    hide ReceiverInv, Pack, PacksCleanly, FillRoot;
    if st.SendByte? {
      SendByteKeepsChannel(s, size, sched);
    } else if st.Fill? {
      FillKeeps(s.root, size, sched);
    } else if st.Publish? {
      var n, t := |s.streams|, Apply(s, size, st);
      assert forall k :: 0 <= k < n ==> t.streams[k] == s.streams[k] && t.published[k] == s.published[k];
      assert t.streams[n] == [] && t.published[n] == s.root.op.value.metadata;
    } else if st.WaitBroadcast? {
      var n := |s.streams| - 1;
      assert |s.streams[n]| == size;
    }
  }

  lemma StartReceiverKeeps(r: Receiver, size: nat, sched: seq<Bucket>)
    requires ReceiverInv(size, sched, r) && (r.pc == Entry || r.pc == Top) && |sched| > 0
    ensures ReceiverInv(size, sched, StartReceiver(r))
  {
    hide Yielded;
    assert r.bufs[1 - r.cur][..0] == [];
  }

  lemma ReceiveByteKeeps(r: Receiver, size: nat, sched: seq<Bucket>, stream: seq<Byte>)
    requires ReceiverInv(size, sched, r) && r.op.Some? && r.op.value.metadata.Some?
    requires r.op.value.pos < size && r.op.value.pos < |stream| && Agrees(stream, sched[r.dataCount].data)
    ensures ReceiverInv(size, sched, ByteReceiver(r, stream[r.op.value.pos], size))
  {
    hide YieldedBy;
    var op, r' := r.op.value, ByteReceiver(r, stream[r.op.value.pos], size);
    assert r'.bufs[op.buf][..op.pos + 1] == r.bufs[op.buf][..op.pos] + [stream[op.pos]];
  }

  lemma TakeBucketKeeps(r: Receiver, size: nat, sched: seq<Bucket>)
    requires ReceiverInv(size, sched, r) && (r.pc == FirstWait || r.pc == AwaitNext)
    requires r.op.Some? && Received(r.op.value, size) && |sched[r.dataCount].data| <= size
    ensures ReceiverInv(size, sched, TakeReceiver(r))
  {
    hide Yielded, UnpackAll;
    if r.pc == FirstWait {
      YieldedAtStart(sched);
    } else {
      YieldedWhole(sched, r.dataCount - 1);
    }
    var op := r.op.value;
    assert r.bufs[op.buf][..op.pos] == r.bufs[op.buf];
  }

  lemma YieldKeeps(r: Receiver, size: nat, sched: seq<Bucket>)
    requires ReceiverInv(size, sched, r) && WellPacked(sched, size) && Yields(r.pc) && r.pc.j < |r.metadata.metas|
    ensures ReceiverInv(size, sched, YieldReceiver(r))
  {
    hide Yielded, Unpack, UnpackOne, Tiled, NamesDistinct;
    var b := sched[r.dataCount - 1];
    assert b in sched;
    UnpackLooksAtPrefix(b, r.bufs[r.cur], r.pc.j);
    YieldedOneMore(sched, r.dataCount - 1, r.pc.j);
  }

  lemma YieldEndKeeps(r: Receiver, size: nat, sched: seq<Bucket>)
    requires ReceiverInv(size, sched, r) && Yields(r.pc) && r.pc.j >= |r.metadata.metas|
    ensures ReceiverInv(size, sched, r.(pc := if r.pc.Yielding? then AwaitNext else Done))
  {
    hide Yielded;
  }

  lemma ReceiveMetaKeeps(r: Receiver, size: nat, sched: seq<Bucket>, m: Metadata)
    requires ReceiverInv(size, sched, r) && r.op.Some? && r.op.value.metadata.None?
    requires m == Metadata(sched[r.dataCount].metas, r.dataCount + 1 == |sched|)
    ensures ReceiverInv(size, sched, r.(op := Some(r.op.value.(metadata := Some(m))), metaCount := r.metaCount + 1))
  {
    hide YieldedBy;
  }

  lemma ReceiverStepKeeps(s: State, size: nat, sched: seq<Bucket>, st: Step)
    requires Inv(s, size, sched) && WellPacked(sched, size) && !OfRoot(st) && Enabled(s, size, st)
    ensures ReceiverInv(size, sched, ApplyReceiver(s, size, s.receivers[st.i], st))
  {
    hide RootInv, ReceiverInv, WellPacked;
    var r := s.receivers[st.i];
    assert ReceiverInv(size, sched, r);
    if st.StartReceive? {
      StartReceiverKeeps(r, size, sched);
    } else if st.ReceiveMeta? {
      CountsMatch(size, sched, r);
      ReceiveMetaKeeps(r, size, sched, s.published[r.metaCount]);
    } else if st.ReceiveByte? {
      CountsMatch(size, sched, r);
      ReceiveByteKeeps(r, size, sched, s.streams[r.dataCount]);
    } else if st.TakeBucket? {
      CountsMatch(size, sched, r);
      TakeBucketKeeps(r, size, sched);
    } else if st.YieldChunk? {
      YieldKeeps(r, size, sched);
    } else {
      YieldEndKeeps(r, size, sched);
    }
  }

  /** The metadata and the payload that a receiver has in its hands are those of the same bucket. */
  lemma CountsMatch(size: nat, sched: seq<Bucket>, r: Receiver)
    requires ReceiverInv(size, sched, r) && r.op.Some?
    ensures r.dataCount < |sched|
    ensures r.metaCount == r.dataCount + if r.op.value.metadata.Some? then 1 else 0
  {
    hide YieldedBy;
  }

  lemma ReceiverIsWF(size: nat, sched: seq<Bucket>, r: Receiver)
    requires ReceiverInv(size, sched, r)
    ensures TwoBuffers(r.bufs, r.cur, size) && (r.op.Some? ==> r.op.value.buf < 2)
  {
    hide YieldedBy;
  }

  lemma RootIsWF(size: nat, sched: seq<Bucket>, r: Root)
    requires RootInv(size, sched, r)
    ensures TwoBuffers(r.bufs, r.cur, size) && (r.op.Some? ==> r.op.value.buf < 2)
  {
    hide Pack, PacksCleanly;
  }

  lemma StepInv(s: State, size: nat, sched: seq<Bucket>, st: Step)
    requires Inv(s, size, sched) && WellPacked(sched, size) && Enabled(s, size, st)
    ensures Inv(Apply(s, size, st), size, sched)
  {
    hide RootInv, ReceiverInv, WellPacked, RootEnabled, ReceiverEnabled, ApplyReceiver;
    var t := Apply(s, size, st);
    if OfRoot(st) {
      RootStepKeeps(s, size, sched, st);
      RootStepKeepsChannel(s, size, sched, st);
      RootIsWF(size, sched, t.root);
      assert t.receivers == s.receivers;
    } else {
      ReceiverStepKeeps(s, size, sched, st);
      ReceiverIsWF(size, sched, ApplyReceiver(s, size, s.receivers[st.i], st));
      assert ChannelInv(size, sched, t);
    }
  }
}
