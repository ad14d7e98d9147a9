/**
 The NIXL weight transfer: a chain of ranks with two buffers each. Rank 0 packs the chunks into
 buckets; every other rank reads a bucket from its predecessor while it exposes the previous one to
 its successor and yields that one's chunks to its consumer.

 A state machine over the steps of all ranks. A remote read copies one byte at a time, so that any
 write to an exposed buffer, by any interleaving, would show in what the successor yields. Message
 and notification queues are FIFO and lose nothing.
 */
module NixlChain {
  import opened Options
  import opened Seqs
  import opened Chunks
  import opened Buckets

  /** Where a rank is in send_weights (Filling to LastAck) or in _receive_weight_chunks. */
  datatype Pc =
    | Filling             // about to look at the next chunk, or at the end of the stream
    | Placing             // has flushed, and must place the chunk that did not fit
    | AwaitFirst          // read_metadata of the first bucket
    | FirstXfer           // waiting for the first read
    | Top                 // the head of the loop, with a bucket in send_buf
    | AwaitMeta           // read_metadata of the next bucket
    | Yielding(j: nat)    // j chunks of the bucket have been yielded
    | AwaitAck            // waiting until the successor has read the bucket
    | AwaitXfer           // waiting for the read of the next bucket
    | LastYield(j: nat)
    | LastAck
    | Done
    | Failed              // an assertion has failed

  datatype Message = Message(key: nat, src: nat, metas: seq<TensorMeta>, isLast: bool)

  /** A ReadableOperation that has not been waited for: its notify key and the buffer it exposes. */
  datatype Exposure = Exposure(key: nat, buf: nat)

  /** A ReadOperation in flight: bytes [0, pos) of the remote buffer src have been copied to dst. */
  datatype Xfer = Xfer(key: nat, src: nat, dst: nat, pos: nat)

  datatype Rank = Rank(
    pc: Pc,
    bufs: seq<seq<Byte>>,          // the two buffers
    cur: nat,                      // which of them is send_buf; the other is recv_buf
    metas: seq<TensorMeta>,        // bucket_meta, or metadata["bucket_meta"]
    isLast: bool,                  // metadata["is_last"]
    nextMetas: seq<TensorMeta>,    // next_metadata
    nextLast: bool,
    op: Option<Exposure>,
    xfer: Option<Xfer>,
    todo: seq<Chunk>,              // rank 0: the chunks that have not been packed
    offset: nat,                   // rank 0: the fill level of send_buf
    out: seq<Chunk>,               // what has been yielded to the consumer
    posted: nat,                   // history: how many buckets were exposed,
    got: nat)                      // and how many messages were read

  /** links[i] carries messages from rank i to rank i + 1, acks[i] the notifications back. */
  datatype State = State(ranks: seq<Rank>, links: seq<seq<Message>>, acks: seq<seq<nat>>)

  datatype Step =
    | Fill
    | Expose(i: nat, key: nat)
    | TakeAck(i: nat)
    | BeginRead(i: nat)
    | CopyByte(i: nat)
    | CopyDone(i: nat)
    | TakeBucket(i: nat)
    | YieldChunk(i: nat)
    | YieldEnd(i: nat)

  ghost predicate Buffers(r: Rank, size: nat) {
    |r.bufs| == 2 && |r.bufs[0]| == size && |r.bufs[1]| == size && r.cur < 2
    && (r.xfer.Some? ==> r.xfer.value.src < 2 && r.xfer.value.dst < 2)
  }

  ghost predicate WF(s: State, size: nat) {
    && |s.ranks| >= 2 && |s.links| == |s.acks| == |s.ranks| - 1
    && forall i :: 0 <= i < |s.ranks| ==> Buffers(s.ranks[i], size)
  }

  // ------------------------------------------------------------------- transitions

  predicate ChunkFits(r: Rank, size: nat) {
    r.todo != [] && r.offset + r.todo[0].meta.chunkSize <= size
  }

  function Target(st: Step): nat {
    if st.Fill? then 0 else st.i
  }

  predicate WaitsForAck(i: nat, r: Rank, size: nat) {
    r.pc == LastAck || if i == 0 then r.pc == Filling && !ChunkFits(r, size) && r.op.Some? else r.pc == AwaitAck
  }

  predicate Yields(pc: Pc) {
    pc.Yielding? || pc.LastYield?
  }

  ghost predicate Enabled(s: State, size: nat, st: Step)
    requires WF(s, size)
  {
    Target(st) < |s.ranks| &&
    var r := s.ranks[Target(st)];
    match st
    case Fill => r.pc == Placing || (r.pc == Filling && ChunkFits(r, size))
    case Expose(i, _) => if i == 0 then r.pc == Filling && !ChunkFits(r, size) && r.op.None? else r.pc == Top
    case TakeAck(i) => WaitsForAck(i, r, size) && (r.op.Some? ==> i < |s.acks| && s.acks[i] != [])
    case BeginRead(i) => i > 0 && (r.pc == AwaitFirst || r.pc == AwaitMeta) && s.links[i - 1] != []
    case CopyByte(i) => i > 0 && r.xfer.Some? && r.xfer.value.pos < size
    case CopyDone(i) => i > 0 && r.xfer.Some? && r.xfer.value.pos == size
    case TakeBucket(i) => i > 0 && (r.pc == FirstXfer || r.pc == AwaitXfer) && r.xfer.None?
    case YieldChunk(i) => i > 0 && Yields(r.pc) && r.pc.j < |r.metas|
    case YieldEnd(i) => i > 0 && Yields(r.pc) && r.pc.j >= |r.metas|
  }

  function FillRank(r: Rank, size: nat): Rank
    requires |r.bufs| == 2 && r.cur < 2 && |r.bufs[r.cur]| == size && r.todo != []
  {
    var c := r.todo[0];
    if r.offset + c.meta.chunkSize > size || NameIn(c.meta.name, r.metas) || |c.data| != c.meta.chunkSize then
      r.(pc := Failed)
    else
      var buf := r.bufs[r.cur];
      r.(pc := Filling,
         bufs := r.bufs[r.cur := Overwrite(buf, r.offset, c.data)],
         metas := r.metas + [c.meta.(offset := Some(r.offset))],
         offset := r.offset + c.meta.chunkSize,
         todo := r.todo[1..])
  }

  /** Rank 0 after it has sent a bucket's metadata; it does not swap after the last one. */
  function ExposeSender(r: Rank, key: nat): Rank
    requires r.cur < 2
  {
    var r' := r.(op := Some(Exposure(key, r.cur)), posted := r.posted + 1);
    if r.todo == [] then r'.(pc := LastAck) else r'.(pc := Placing, cur := 1 - r.cur, metas := [], offset := 0)
  }

  /** The head of the loop of any other rank; the last rank has nobody to expose its bucket to. */
  function ExposeRelay(r: Rank, key: nat, hasNext: bool): Rank {
    var r' := r.(pc := if r.isLast then LastYield(0) else AwaitMeta);
    if hasNext then r'.(op := Some(Exposure(key, r.cur)), posted := r.posted + 1) else r'
  }

  function AckRank(i: nat, r: Rank): Rank {
    r.(op := None, pc := if r.pc == LastAck then Done else if i == 0 then Filling else AwaitXfer)
  }

  function BeginReadRank(r: Rank, m: Message): Rank
    requires r.cur < 2
  {
    r.(pc := if r.pc == AwaitFirst then FirstXfer else Yielding(0),
       nextMetas := m.metas, nextLast := m.isLast,
       xfer := Some(Xfer(m.key, m.src, 1 - r.cur, 0)), got := r.got + 1)
  }

  function CopyByteRank(r: Rank, b: Byte): Rank
    requires r.xfer.Some? && |r.bufs| == 2 && r.xfer.value.dst < 2 && r.xfer.value.pos < |r.bufs[r.xfer.value.dst]|
  {
    var x, buf := r.xfer.value, r.bufs[r.xfer.value.dst];
    r.(bufs := r.bufs[x.dst := Overwrite(buf, x.pos, [b])], xfer := Some(x.(pos := x.pos + 1)))
  }

  function TakeBucketRank(r: Rank): Rank
    requires r.cur < 2
  {
    r.(pc := Top, metas := r.nextMetas, isLast := r.nextLast, cur := 1 - r.cur)
  }

  function YieldRank(r: Rank): Rank
    requires Yields(r.pc) && r.pc.j < |r.metas| && r.cur < |r.bufs|
  {
    var j := r.pc.j;
    r.(pc := if r.pc.Yielding? then Yielding(j + 1) else LastYield(j + 1),
       out := r.out + [UnpackOne(r.metas[j], r.bufs[r.cur])])
  }

  ghost function Apply(s: State, size: nat, st: Step): State
    requires WF(s, size) && Enabled(s, size, st)
  {
    var t := Target(st);
    var r := s.ranks[t];
    match st
    case Fill => s.(ranks := s.ranks[0 := if r.todo == [] then r.(pc := Failed) else FillRank(r, size)])
    case Expose(i, key) =>
      var r' := if i == 0 then ExposeSender(r, key) else ExposeRelay(r, key, i + 1 < |s.ranks|);
      var s' := s.(ranks := s.ranks[i := r']);
      if i + 1 < |s.ranks| then
        var last := if i == 0 then r.todo == [] else r.isLast;
        s'.(links := s.links[i := s.links[i] + [Message(key, r.cur, r.metas, last)]])
      else s'
    case TakeAck(i) =>
      if r.op.None? then s.(ranks := s.ranks[i := AckRank(i, r)])
      else if s.acks[i][0] != r.op.value.key then s.(ranks := s.ranks[i := r.(pc := Failed)])
      else s.(ranks := s.ranks[i := AckRank(i, r)], acks := s.acks[i := s.acks[i][1..]])
    case BeginRead(i) =>
      var m := s.links[i - 1][0];
      s.(ranks := s.ranks[i := if m.src < 2 then BeginReadRank(r, m) else r.(pc := Failed)],
         links := s.links[i - 1 := s.links[i - 1][1..]])
    case CopyByte(i) =>
      s.(ranks := s.ranks[i := CopyByteRank(r, s.ranks[i - 1].bufs[r.xfer.value.src][r.xfer.value.pos])])
    case CopyDone(i) =>
      s.(ranks := s.ranks[i := r.(xfer := None)], acks := s.acks[i - 1 := s.acks[i - 1] + [r.xfer.value.key]])
    case TakeBucket(i) => s.(ranks := s.ranks[i := TakeBucketRank(r)])
    case YieldChunk(i) => s.(ranks := s.ranks[i := YieldRank(r)])
    case YieldEnd(i) => s.(ranks := s.ranks[i := r.(pc := if r.pc.Yielding? then AwaitAck else LastAck)])
  }

  ghost predicate Init(s: State, size: nat, chunks: seq<Chunk>) {
    && WF(s, size)
    && (forall i :: 0 <= i < |s.links| ==> s.links[i] == [] && s.acks[i] == [])
    && (forall i :: 0 <= i < |s.ranks| ==>
          var r := s.ranks[i];
          && r.op == None && r.xfer == None && r.out == [] && r.posted == 0 && r.got == 0
          && if i == 0 then r.pc == Filling && r.todo == chunks && r.metas == [] && r.offset == 0
             else r.pc == AwaitFirst)
  }

  /** t is reached from s by the given steps, in any order the program allows. */
  ghost predicate Reaches(s: State, size: nat, steps: seq<Step>, t: State)
    decreases |steps|
  {
    if steps == [] then s == t
    else WF(s, size) && Enabled(s, size, steps[0]) && Reaches(Apply(s, size, steps[0]), size, steps[1..], t)
  }

  // --------------------------------------------------------------------- invariant

  predicate Reading(pc: Pc) {
    pc == FirstXfer || pc.Yielding? || pc == AwaitAck || pc == AwaitXfer
  }

  /** How many buckets have arrived in send_buf: the last one read is still in recv_buf while Reading. */
  function Held(r: Rank): int {
    if Reading(r.pc) then r.got - 1 else r.got
  }

  ghost predicate SenderInv(size: nat, sched: seq<Bucket>, r: Rank) {
    && Buffers(r, size) && r.xfer == None && r.out == [] && r.got == 0
    && (r.pc == Filling || r.pc == Placing || r.pc == LastAck || r.pc == Done)
    && r.offset <= size
    && (r.pc == Filling || r.pc == Placing ==>
          var b := Bucket(r.metas, r.bufs[r.cur][..r.offset]);
          && r.posted < |sched| && sched[r.posted..] == Pack(r.todo, b, size) && PacksCleanly(r.todo, b, size))
    && (r.pc == Placing ==> r.todo != [] && r.offset == 0 && r.metas == [])
    && (r.pc == LastAck || r.pc == Done ==> r.posted == |sched|)
    && (r.pc == LastAck ==> r.op.Some?) && (r.pc == Done ==> r.op.None?)
    && (r.op.Some? ==>
          && 1 <= r.posted <= |sched|
          && r.op.value.buf == (if r.pc == LastAck then r.cur else 1 - r.cur)
          && sched[r.posted - 1].data <= r.bufs[r.op.value.buf])
  }

  /** How many of the n chunks of the bucket in send_buf have been yielded. */
  function YieldCount(pc: Pc, n: nat): nat {
    match pc
    case Top => 0
    case AwaitMeta => 0
    case Yielding(j) => if j <= n then j else n
    case LastYield(j) => if j <= n then j else n
    case _ => n
  }

  function YieldedBy(pc: Pc, sched: seq<Bucket>, h: nat): seq<Chunk>
    requires h <= |sched|
  {
    if h == 0 then [] else Yielded(sched, h - 1, YieldCount(pc, |sched[h - 1].metas|))
  }

  ghost predicate RelayInv(size: nat, sched: seq<Bucket>, hasNext: bool, r: Rank) {
    var h := Held(r);
    && Buffers(r, size) && 0 <= h <= r.got <= |sched|
    && !(r.pc == Filling || r.pc == Placing || r.pc == Failed)
    && (if Reading(r.pc) then
          && r.got >= 1 && r.nextMetas == sched[r.got - 1].metas && r.nextLast == (r.got == |sched|)
          && (r.xfer.Some? ==> r.xfer.value.dst == 1 - r.cur && r.xfer.value.pos <= size)
          && (r.xfer.None? ==> sched[r.got - 1].data <= r.bufs[1 - r.cur])
        else r.xfer.None?)
    && (h >= 1 ==>
          && r.metas == sched[h - 1].metas && r.isLast == (h == |sched|) && sched[h - 1].data <= r.bufs[r.cur])
    && (h == 0 <==> r.pc == AwaitFirst || r.pc == FirstXfer)
    && (r.pc == AwaitMeta ==> h < |sched|)
    && (r.pc.LastYield? || r.pc == LastAck || r.pc == Done ==> h == |sched|)
    && (Yields(r.pc) ==> r.pc.j <= |r.metas|)
    && r.posted == (if !hasNext || h == 0 then 0 else if r.pc == Top then h - 1 else h)
    && (r.op.Some? <==> hasNext && (r.pc == AwaitMeta || Yields(r.pc) || r.pc == AwaitAck || r.pc == LastAck))
    && (r.op.Some? ==> r.op.value.buf == r.cur)
    && r.out == YieldedBy(r.pc, sched, h)
  }

  /** What a link may hold: nothing; or exactly one exposed bucket, whose message is under way, or
      being read, or read and not yet acknowledged. */
  ghost predicate LinkInv(size: nat, sched: seq<Bucket>, u: Rank, d: Rank, link: seq<Message>, acks: seq<nat>) {
    if u.op.None? then link == [] && acks == [] && d.xfer.None? && d.got == u.posted
    else
      var e := u.op.value;
      && 1 <= u.posted <= |sched| && e.buf < 2
      && if |link| > 0 then
           && link == [Message(e.key, e.buf, sched[u.posted - 1].metas, u.posted == |sched|)]
           && acks == [] && d.xfer.None? && d.got == u.posted - 1
         else if d.xfer.Some? then
           var x := d.xfer.value;
           && acks == [] && d.got == u.posted && x.key == e.key && x.src == e.buf && x.dst < 2
           && |d.bufs| == 2 && |u.bufs| == 2 && x.pos <= size == |d.bufs[x.dst]| == |u.bufs[x.src]|
           && d.bufs[x.dst][..x.pos] == u.bufs[x.src][..x.pos]
         else acks == [e.key] && d.got == u.posted
  }

  ghost predicate RankInv(size: nat, sched: seq<Bucket>, s: State, i: nat)
    requires i < |s.ranks|
  {
    if i == 0 then SenderInv(size, sched, s.ranks[0]) else RelayInv(size, sched, i + 1 < |s.ranks|, s.ranks[i])
  }

  ghost predicate Inv(s: State, size: nat, sched: seq<Bucket>) {
    && WF(s, size) && |sched| > 0
    && (forall i :: 0 <= i < |s.ranks| ==> RankInv(size, sched, s, i))
    && (forall i :: 0 <= i < |s.links| ==> LinkInv(size, sched, s.ranks[i], s.ranks[i + 1], s.links[i], s.acks[i]))
  }

  ghost predicate Schedule(sched: seq<Bucket>, size: nat, chunks: seq<Chunk>) {
    && 0 < size && PacksCleanly(chunks, EMPTY, size)
    && sched == Pack(chunks, EMPTY, size)
    && WellPacked(sched, size)
  }

  lemma ScheduleOf(chunks: seq<Chunk>, size: nat)
    requires 0 < size && PacksCleanly(chunks, EMPTY, size)
    ensures Schedule(Pack(chunks, EMPTY, size), size, chunks)
  {
    PackIsWellPacked(chunks, EMPTY, size);
  }

  lemma InitInv(s: State, size: nat, sched: seq<Bucket>, chunks: seq<Chunk>)
    requires Init(s, size, chunks) && Schedule(sched, size, chunks)
    ensures Inv(s, size, sched)
  {
    assert Buffers(s.ranks[0], size) && s.ranks[0].bufs[s.ranks[0].cur][..0] == [];
  }

  // --------------------------------------------------- every step keeps the invariant

  /** A step that changes one rank and the two links beside it. */
  lemma Frame(s: State, s': State, size: nat, sched: seq<Bucket>, i: nat)
    requires Inv(s, size, sched) && i < |s.ranks| == |s'.ranks|
    requires |s'.links| == |s.links| && |s'.acks| == |s.acks|
    requires forall k :: 0 <= k < |s.ranks| && k != i ==> s'.ranks[k] == s.ranks[k]
    requires forall k :: 0 <= k < |s.links| && k != i && k != i - 1 ==> s'.links[k] == s.links[k]
    requires forall k :: 0 <= k < |s.links| && k != i && k != i - 1 ==> s'.acks[k] == s.acks[k]
    requires RankInv(size, sched, s', i)
    requires i > 0 ==> LinkInv(size, sched, s'.ranks[i - 1], s'.ranks[i], s'.links[i - 1], s'.acks[i - 1])
    requires i < |s.links| ==> LinkInv(size, sched, s'.ranks[i], s'.ranks[i + 1], s'.links[i], s'.acks[i])
    ensures Inv(s', size, sched)
  {
    hide SenderInv, RelayInv, LinkInv;
    forall k | 0 <= k < |s'.ranks|
      ensures RankInv(size, sched, s', k) && Buffers(s'.ranks[k], size)
    {
      assert RankInv(size, sched, s, k);
      RankHasBuffers(s', size, sched, k);
    }
    forall k | 0 <= k < |s'.links|
      ensures LinkInv(size, sched, s'.ranks[k], s'.ranks[k + 1], s'.links[k], s'.acks[k])
    {
      assert LinkInv(size, sched, s.ranks[k], s.ranks[k + 1], s.links[k], s.acks[k]);
    }
  }

  lemma RankHasBuffers(s: State, size: nat, sched: seq<Bucket>, i: nat)
    requires i < |s.ranks| && RankInv(size, sched, s, i)
    ensures Buffers(s.ranks[i], size)
  {
  }

  /** What the predecessor's side of a link depends on. */
  predicate SameUp(u: Rank, u': Rank) {
    && u'.op == u.op && u'.posted == u.posted && |u.bufs| == |u'.bufs| == 2
    && (u.op.Some? && u.op.value.buf < 2 ==> u'.bufs[u.op.value.buf] == u.bufs[u.op.value.buf])
  }

  lemma LinkSameUp(size: nat, sched: seq<Bucket>, u: Rank, u': Rank, d: Rank, link: seq<Message>, acks: seq<nat>)
    requires LinkInv(size, sched, u, d, link, acks) && SameUp(u, u')
    ensures LinkInv(size, sched, u', d, link, acks)
  {
  }

  /** What the successor's side of a link depends on. */
  predicate SameDown(d: Rank, d': Rank) {
    && d'.xfer == d.xfer && d'.got == d.got && |d.bufs| == |d'.bufs| == 2
    && (d.xfer.Some? && d.xfer.value.dst < 2 ==> d'.bufs[d.xfer.value.dst] == d.bufs[d.xfer.value.dst])
  }

  lemma LinkSameDown(size: nat, sched: seq<Bucket>, u: Rank, d: Rank, d': Rank, link: seq<Message>, acks: seq<nat>)
    requires LinkInv(size, sched, u, d, link, acks) && SameDown(d, d')
    ensures LinkInv(size, sched, u, d', link, acks)
  {
  }

  /** A step of rank i that neither link notices. */
  lemma LocalStep(s: State, s': State, size: nat, sched: seq<Bucket>, i: nat)
    requires Inv(s, size, sched) && i < |s.ranks|
    requires |s'.ranks| == |s.ranks| && s' == s.(ranks := s.ranks[i := s'.ranks[i]])
    requires RankInv(size, sched, s', i)
    requires SameUp(s.ranks[i], s'.ranks[i]) && SameDown(s.ranks[i], s'.ranks[i])
    ensures Inv(s', size, sched)
  {
    hide SenderInv, RelayInv, LinkInv, SameUp, SameDown;
    if i > 0 {
      LinkSameDown(size, sched, s.ranks[i - 1], s.ranks[i], s'.ranks[i], s.links[i - 1], s.acks[i - 1]);
    }
    if i < |s.links| {
      LinkSameUp(size, sched, s.ranks[i], s'.ranks[i], s.ranks[i + 1], s.links[i], s.acks[i]);
    }
    Frame(s, s', size, sched, i);
  }

  lemma FillKeeps(r: Rank, size: nat, sched: seq<Bucket>)
    requires SenderInv(size, sched, r) && (r.pc == Placing || (r.pc == Filling && ChunkFits(r, size)))
    ensures r.todo != [] && SenderInv(size, sched, FillRank(r, size))
    ensures SameUp(r, FillRank(r, size)) && SameDown(r, FillRank(r, size))
  {
    var c, buf := r.todo[0], r.bufs[r.cur];
    var b, r' := Bucket(r.metas, buf[..r.offset]), FillRank(r, size);
    hide Overwrite;
    assert c.Valid() && r.offset + c.meta.chunkSize <= size && !NameIn(c.meta.name, r.metas);
    assert Bucket(r'.metas, r'.bufs[r'.cur][..r'.offset]) == Place(b, c);
  }

  lemma FillInv(s: State, size: nat, sched: seq<Bucket>)
    requires Inv(s, size, sched) && Enabled(s, size, Fill)
    ensures Inv(Apply(s, size, Fill), size, sched)
  {
    hide SenderInv, RelayInv, LinkInv, FillRank, SameUp, SameDown, ChunkFits;
    var s' := Apply(s, size, Fill);
    assert RankInv(size, sched, s, 0);
    FillKeeps(s.ranks[0], size, sched);
    LocalStep(s, s', size, sched, 0);
  }

  lemma ExposeSenderKeeps(r: Rank, size: nat, sched: seq<Bucket>, key: nat)
    requires SenderInv(size, sched, r) && r.pc == Filling && !ChunkFits(r, size) && r.op.None?
    ensures SenderInv(size, sched, ExposeSender(r, key))
    ensures r.posted < |sched| && r.metas == sched[r.posted].metas && (r.todo == [] <==> r.posted + 1 == |sched|)
  {
    var b, r' := Bucket(r.metas, r.bufs[r.cur][..r.offset]), ExposeSender(r, key);
    if r.todo == [] {
      assert |sched[r.posted..]| == 1 && sched[r.posted..][0] == b;
    } else {
      FlushStep(sched, r.posted, r.todo, b, size);
      assert r'.bufs[r'.cur][..0] == [];
    }
  }

  lemma ExposeRelayKeeps(r: Rank, size: nat, sched: seq<Bucket>, hasNext: bool, key: nat)
    requires RelayInv(size, sched, hasNext, r) && r.pc == Top
    ensures RelayInv(size, sched, hasNext, ExposeRelay(r, key, hasNext))
    ensures hasNext ==> r.posted < |sched| && r.metas == sched[r.posted].metas
    ensures hasNext ==> (r.isLast <==> r.posted + 1 == |sched|)
    ensures r.op.None?
  {
    hide Yielded;
  }

  lemma LinkAfterExpose(size: nat, sched: seq<Bucket>, u: Rank, u': Rank, d: Rank,
                        link: seq<Message>, acks: seq<nat>, key: nat, last: bool)
    requires LinkInv(size, sched, u, d, link, acks) && u.op.None? && u.cur < 2
    requires u.posted < |sched| && u.metas == sched[u.posted].metas && (last <==> u.posted + 1 == |sched|)
    requires u'.op == Some(Exposure(key, u.cur)) && u'.posted == u.posted + 1
    ensures LinkInv(size, sched, u', d, link + [Message(key, u.cur, u.metas, last)], acks)
  {
  }

  lemma ExposeInv(s: State, size: nat, sched: seq<Bucket>, i: nat, key: nat)
    requires Inv(s, size, sched) && Enabled(s, size, Expose(i, key))
    ensures Inv(Apply(s, size, Expose(i, key)), size, sched)
  {
    hide SenderInv, RelayInv, LinkInv, ChunkFits;
    var r, s' := s.ranks[i], Apply(s, size, Expose(i, key));
    assert RankInv(size, sched, s, i);
    if i == 0 {
      ExposeSenderKeeps(r, size, sched, key);
    } else {
      ExposeRelayKeeps(r, size, sched, i + 1 < |s.ranks|, key);
      LinkSameDown(size, sched, s.ranks[i - 1], r, s'.ranks[i], s.links[i - 1], s.acks[i - 1]);
    }
    if i < |s.links| {
      LinkAfterExpose(size, sched, r, s'.ranks[i], s.ranks[i + 1], s.links[i], s.acks[i], key,
                      if i == 0 then r.todo == [] else r.isLast);
    }
    Frame(s, s', size, sched, i);
  }

  lemma AckSenderKeeps(r: Rank, size: nat, sched: seq<Bucket>)
    requires SenderInv(size, sched, r) && (r.pc == LastAck || (r.pc == Filling && r.op.Some?))
    ensures SenderInv(size, sched, AckRank(0, r))
  {
    hide Pack, PacksCleanly;
  }

  lemma AckRelayKeeps(r: Rank, size: nat, sched: seq<Bucket>, hasNext: bool, i: nat)
    requires RelayInv(size, sched, hasNext, r) && i > 0 && WaitsForAck(i, r, size)
    ensures RelayInv(size, sched, hasNext, AckRank(i, r))
    ensures !hasNext ==> r.op.None?
  {
    hide Yielded;
  }

  lemma AckKeeps(s: State, size: nat, sched: seq<Bucket>, i: nat)
    requires i < |s.ranks| && RankInv(size, sched, s, i) && WaitsForAck(i, s.ranks[i], size)
    ensures var s' := s.(ranks := s.ranks[i := AckRank(i, s.ranks[i])]); RankInv(size, sched, s', i)
    ensures i + 1 == |s.ranks| && i > 0 ==> s.ranks[i].op.None?
  {
    hide SenderInv, RelayInv, AckRank, ChunkFits;
    if i == 0 {
      AckSenderKeeps(s.ranks[0], size, sched);
    } else {
      AckRelayKeeps(s.ranks[i], size, sched, i + 1 < |s.ranks|, i);
    }
  }

  /** The notification that arrives carries the key of the exposure that is waited for. */
  lemma LinkAck(size: nat, sched: seq<Bucket>, u: Rank, u': Rank, d: Rank, link: seq<Message>, acks: seq<nat>)
    requires LinkInv(size, sched, u, d, link, acks) && u.op.Some? && acks != []
    requires u'.op.None? && u'.posted == u.posted
    ensures acks[0] == u.op.value.key
    ensures LinkInv(size, sched, u', d, link, acks[1..])
  {
  }

  lemma TakeAckInv(s: State, size: nat, sched: seq<Bucket>, i: nat)
    requires Inv(s, size, sched) && Enabled(s, size, TakeAck(i))
    ensures Inv(Apply(s, size, TakeAck(i)), size, sched)
  {
    hide SenderInv, RelayInv, LinkInv, WaitsForAck;
    var r, s' := s.ranks[i], Apply(s, size, TakeAck(i));
    AckKeeps(s, size, sched, i);
    if r.op.None? {
      LocalStep(s, s', size, sched, i);
    } else {
      LinkAck(size, sched, r, AckRank(i, r), s.ranks[i + 1], s.links[i], s.acks[i]);
      if i > 0 {
        LinkSameDown(size, sched, s.ranks[i - 1], r, s'.ranks[i], s.links[i - 1], s.acks[i - 1]);
      }
      assert RankInv(size, sched, s.(ranks := s.ranks[i := AckRank(i, r)]), i);
      Frame(s, s', size, sched, i);
    }
  }

  lemma BeginReadKeeps(r: Rank, size: nat, sched: seq<Bucket>, hasNext: bool, m: Message)
    requires RelayInv(size, sched, hasNext, r) && (r.pc == AwaitFirst || r.pc == AwaitMeta) && m.src < 2
    requires r.got < |sched| && m.metas == sched[r.got].metas && (m.isLast <==> r.got + 1 == |sched|)
    ensures RelayInv(size, sched, hasNext, BeginReadRank(r, m))
  {
    hide Yielded;
  }

  lemma LinkBeginRead(size: nat, sched: seq<Bucket>, u: Rank, d: Rank, link: seq<Message>, acks: seq<nat>)
    requires LinkInv(size, sched, u, d, link, acks) && link != [] && Buffers(u, size) && Buffers(d, size)
    ensures var m := link[0];
            && m.src < 2 && d.got < |sched| && m.metas == sched[d.got].metas && (m.isLast <==> d.got + 1 == |sched|)
            && LinkInv(size, sched, u, BeginReadRank(d, m), link[1..], acks)
  {
    assert u.bufs[link[0].src][..0] == [] == d.bufs[1 - d.cur][..0];
  }

  lemma BeginReadInv(s: State, size: nat, sched: seq<Bucket>, i: nat)
    requires Inv(s, size, sched) && Enabled(s, size, BeginRead(i))
    ensures Inv(Apply(s, size, BeginRead(i)), size, sched)
  {
    hide SenderInv, RelayInv, LinkInv;
    var r, s' := s.ranks[i], Apply(s, size, BeginRead(i));
    var m := s.links[i - 1][0];
    assert RankInv(size, sched, s, i);
    LinkBeginRead(size, sched, s.ranks[i - 1], r, s.links[i - 1], s.acks[i - 1]);
    BeginReadKeeps(r, size, sched, i + 1 < |s.ranks|, m);
    if i < |s.links| {
      LinkSameUp(size, sched, r, s'.ranks[i], s.ranks[i + 1], s.links[i], s.acks[i]);
    }
    Frame(s, s', size, sched, i);
  }

  lemma CopyByteKeeps(r: Rank, size: nat, sched: seq<Bucket>, hasNext: bool, b: Byte)
    requires RelayInv(size, sched, hasNext, r) && r.xfer.Some? && r.xfer.value.pos < size
    ensures RelayInv(size, sched, hasNext, CopyByteRank(r, b))
    ensures SameUp(r, CopyByteRank(r, b))
  {
  }

  lemma LinkCopyByte(size: nat, sched: seq<Bucket>, u: Rank, d: Rank, link: seq<Message>, acks: seq<nat>)
    requires LinkInv(size, sched, u, d, link, acks) && d.xfer.Some? && d.xfer.value.pos < size
    requires Buffers(u, size) && Buffers(d, size)
    ensures var x := d.xfer.value;
            LinkInv(size, sched, u, CopyByteRank(d, u.bufs[x.src][x.pos]), link, acks)
  {
    var x := d.xfer.value;
    var b := u.bufs[x.src][x.pos];
    var d' := CopyByteRank(d, b);
    assert d'.bufs[x.dst][..x.pos + 1] == d.bufs[x.dst][..x.pos] + [b];
    TakeOneMore(u.bufs[x.src], x.pos);
  }

  lemma CopyByteInv(s: State, size: nat, sched: seq<Bucket>, i: nat)
    requires Inv(s, size, sched) && Enabled(s, size, CopyByte(i))
    ensures Inv(Apply(s, size, CopyByte(i)), size, sched)
  {
    hide SenderInv, RelayInv, LinkInv, SameUp;
    var u, r, s' := s.ranks[i - 1], s.ranks[i], Apply(s, size, CopyByte(i));
    assert RankInv(size, sched, s, i) && Buffers(u, size);
    CopyByteKeeps(r, size, sched, i + 1 < |s.ranks|, u.bufs[r.xfer.value.src][r.xfer.value.pos]);
    LinkCopyByte(size, sched, u, r, s.links[i - 1], s.acks[i - 1]);
    if i < |s.links| {
      LinkSameUp(size, sched, r, s'.ranks[i], s.ranks[i + 1], s.links[i], s.acks[i]);
    }
    Frame(s, s', size, sched, i);
  }

  /** When a read is complete, recv_buf holds the bucket that the predecessor still exposes. */
  lemma LinkCopyDone(size: nat, sched: seq<Bucket>, u: Rank, d: Rank, link: seq<Message>, acks: seq<nat>)
    requires LinkInv(size, sched, u, d, link, acks) && d.xfer.Some? && d.xfer.value.pos == size
    requires u.op.Some? ==> u.op.value.buf < |u.bufs| && 1 <= u.posted <= |sched|
    requires u.op.Some? ==> sched[u.posted - 1].data <= u.bufs[u.op.value.buf]
    ensures LinkInv(size, sched, u, d.(xfer := None), link, acks + [d.xfer.value.key])
    ensures 1 <= d.got <= |sched| && d.xfer.value.dst < |d.bufs| && sched[d.got - 1].data <= d.bufs[d.xfer.value.dst]
  {
    var x := d.xfer.value;
    assert d.bufs[x.dst][..x.pos] == d.bufs[x.dst] && u.bufs[x.src][..x.pos] == u.bufs[x.src];
  }

  lemma ExposedHoldsBucket(s: State, size: nat, sched: seq<Bucket>, i: nat)
    requires i < |s.ranks| && RankInv(size, sched, s, i) && s.ranks[i].op.Some?
    ensures var r := s.ranks[i];
            && r.op.value.buf < |r.bufs| && 1 <= r.posted <= |sched|
            && sched[r.posted - 1].data <= r.bufs[r.op.value.buf]
  {
  }

  lemma CopyDoneKeeps(r: Rank, size: nat, sched: seq<Bucket>, hasNext: bool)
    requires RelayInv(size, sched, hasNext, r) && r.xfer.Some?
    requires 1 <= r.got <= |sched| && r.xfer.value.dst < |r.bufs| && sched[r.got - 1].data <= r.bufs[r.xfer.value.dst]
    ensures RelayInv(size, sched, hasNext, r.(xfer := None))
    ensures SameUp(r, r.(xfer := None))
  {
    hide Yielded;
  }

  lemma CopyDoneInv(s: State, size: nat, sched: seq<Bucket>, i: nat)
    requires Inv(s, size, sched) && Enabled(s, size, CopyDone(i))
    ensures Inv(Apply(s, size, CopyDone(i)), size, sched)
  {
    hide SenderInv, RelayInv, LinkInv, SameUp;
    hide FillRank, ExposeSender, ExposeRelay, AckRank, BeginReadRank, CopyByteRank, TakeBucketRank, YieldRank;
    var u, r, s' := s.ranks[i - 1], s.ranks[i], Apply(s, size, CopyDone(i));
    assert RankInv(size, sched, s, i) && RankInv(size, sched, s, i - 1);
    if u.op.Some? {
      ExposedHoldsBucket(s, size, sched, i - 1);
    }
    LinkCopyDone(size, sched, u, r, s.links[i - 1], s.acks[i - 1]);
    CopyDoneKeeps(r, size, sched, i + 1 < |s.ranks|);
    if i < |s.links| {
      LinkSameUp(size, sched, r, s'.ranks[i], s.ranks[i + 1], s.links[i], s.acks[i]);
    }
    Frame(s, s', size, sched, i);
  }

  lemma TakeBucketKeeps(r: Rank, size: nat, sched: seq<Bucket>, hasNext: bool)
    requires RelayInv(size, sched, hasNext, r) && (r.pc == FirstXfer || r.pc == AwaitXfer) && r.xfer.None?
    ensures RelayInv(size, sched, hasNext, TakeBucketRank(r)) && r.op.None?
  {
    hide Yielded, UnpackAll;
    if r.pc == FirstXfer {
      YieldedAtStart(sched);
    } else {
      YieldedWhole(sched, Held(r) - 1);
    }
  }

  lemma TakeBucketInv(s: State, size: nat, sched: seq<Bucket>, i: nat)
    requires Inv(s, size, sched) && Enabled(s, size, TakeBucket(i))
    ensures Inv(Apply(s, size, TakeBucket(i)), size, sched)
  {
    hide SenderInv, RelayInv, LinkInv;
    assert RankInv(size, sched, s, i);
    TakeBucketKeeps(s.ranks[i], size, sched, i + 1 < |s.ranks|);
    LocalStep(s, Apply(s, size, TakeBucket(i)), size, sched, i);
  }

  lemma YieldKeeps(r: Rank, size: nat, sched: seq<Bucket>, hasNext: bool)
    requires RelayInv(size, sched, hasNext, r) && WellPacked(sched, size) && Yields(r.pc) && r.pc.j < |r.metas|
    ensures RelayInv(size, sched, hasNext, YieldRank(r))
  {
    hide Yielded, Unpack, UnpackOne, Tiled, NamesDistinct;
    var j, h := r.pc.j, Held(r);
    var b := sched[h - 1];
    assert b in sched;
    UnpackLooksAtPrefix(b, r.bufs[r.cur], j);
    YieldedOneMore(sched, h - 1, j);
  }

  lemma YieldChunkInv(s: State, size: nat, sched: seq<Bucket>, i: nat)
    requires Inv(s, size, sched) && WellPacked(sched, size) && Enabled(s, size, YieldChunk(i))
    ensures Inv(Apply(s, size, YieldChunk(i)), size, sched)
  {
    hide SenderInv, RelayInv, LinkInv, WellPacked;
    assert RankInv(size, sched, s, i);
    YieldKeeps(s.ranks[i], size, sched, i + 1 < |s.ranks|);
    LocalStep(s, Apply(s, size, YieldChunk(i)), size, sched, i);
  }

  lemma YieldEndKeeps(r: Rank, size: nat, sched: seq<Bucket>, hasNext: bool)
    requires RelayInv(size, sched, hasNext, r) && Yields(r.pc) && r.pc.j >= |r.metas|
    ensures RelayInv(size, sched, hasNext, r.(pc := if r.pc.Yielding? then AwaitAck else LastAck))
  {
    hide Yielded;
  }

  lemma YieldEndInv(s: State, size: nat, sched: seq<Bucket>, i: nat)
    requires Inv(s, size, sched) && Enabled(s, size, YieldEnd(i))
    ensures Inv(Apply(s, size, YieldEnd(i)), size, sched)
  {
    hide SenderInv, RelayInv, LinkInv;
    assert RankInv(size, sched, s, i);
    YieldEndKeeps(s.ranks[i], size, sched, i + 1 < |s.ranks|);
    LocalStep(s, Apply(s, size, YieldEnd(i)), size, sched, i);
  }

  lemma StepInv(s: State, size: nat, sched: seq<Bucket>, st: Step)
    requires Inv(s, size, sched) && WellPacked(sched, size) && Enabled(s, size, st)
    ensures Inv(Apply(s, size, st), size, sched)
  {
    hide Inv, WellPacked, Enabled, Apply;
    match st
    case Fill => FillInv(s, size, sched);
    case Expose(i, key) => ExposeInv(s, size, sched, i, key);
    case TakeAck(i) => TakeAckInv(s, size, sched, i);
    case BeginRead(i) => BeginReadInv(s, size, sched, i);
    case CopyByte(i) => CopyByteInv(s, size, sched, i);
    case CopyDone(i) => CopyDoneInv(s, size, sched, i);
    case TakeBucket(i) => TakeBucketInv(s, size, sched, i);
    case YieldChunk(i) => YieldChunkInv(s, size, sched, i);
    case YieldEnd(i) => YieldEndInv(s, size, sched, i);
  }
}
