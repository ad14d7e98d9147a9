/**
 The hot weight sync as two processes: the sender and the receiver of the student's weights, one buffer
 that both can reach, and a REQ/REP pair of sockets. The receiver reads the entries of a message one at a
 time out of the live buffer, so a write between a message and its acknowledgement would show in what it
 hands over.
 */
module HotSync {
  import opened Options
  import opened Seqs
  import opened Chunks
  import opened BucketedTransfer

  /** Where the sender is: at the head of its loop, at one of its three socket.recv() calls, or finished. */
  datatype SenderPc = Ready | AwaitFlush | AwaitDirect | AwaitLast | SenderDone | Refused

  datatype Sender = Sender(
    pc: SenderPc, todo: seq<Weight>, offset: nat, entries: seq<Entry>,
    // history
    cur: seq<Weight>,              // the weights that were put in the bucket being filled
    groups: seq<seq<Weight>>,      // the weights of every message that was sent,
    messages: seq<Message>)        // and the messages

  datatype ReceiverPc = AwaitMessage | Reading(i: nat) | MustReply | ReceiverDone

  datatype Receiver = Receiver(pc: ReceiverPc, msg: Message, weights: seq<Weight>, delivered: seq<seq<Weight>>)

  /** request and reply: what is under way on the sockets. */
  datatype State = State(sender: Sender, receiver: Receiver, buffer: seq<Byte>, request: Option<Message>, reply: bool)

  datatype Step = Fill | Flush | Direct | Refuse | SendLast | TakeReply | TakeRequest | Read | Deliver | Reply

  // ------------------------------------------------------------------- transitions

  predicate Fits(s: Sender, size: nat) {
    s.todo != [] && s.offset + |s.todo[0].bytes| <= size
  }

  predicate Awaits(pc: SenderPc) {
    pc == AwaitFlush || pc == AwaitDirect || pc == AwaitLast
  }

  predicate Enabled(s: State, useShm: bool, st: Step) {
    var c, r, size := s.sender, s.receiver, |s.buffer|;
    match st
    case Fill => c.pc == Ready && Fits(c, size)
    case Flush => c.pc == Ready && c.todo != [] && !Fits(c, size) && c.entries != []
    case Direct => c.pc == Ready && c.todo != [] && !Fits(c, size) && c.entries == [] && !useShm
    case Refuse => c.pc == Ready && c.todo != [] && !Fits(c, size) && c.entries == [] && useShm
    case SendLast => c.pc == Ready && c.todo == []
    case TakeReply => Awaits(c.pc) && s.reply
    case TakeRequest => r.pc == AwaitMessage && s.request.Some?
    case Read => r.pc.Reading? && r.pc.i < |r.msg.entries|
    case Deliver => r.pc.Reading? && r.pc.i >= |r.msg.entries|
    case Reply => r.pc == MustReply
  }

  function Send(s: State, pc: SenderPc, todo: seq<Weight>, group: seq<Weight>, msg: Message): State {
    var c := s.sender;
    s.(sender := c.(pc := pc, todo := todo, groups := c.groups + [group], messages := c.messages + [msg]),
       request := Some(msg))
  }

  function FillState(s: State): State
    requires Fits(s.sender, |s.buffer|)
  {
    var c, w := s.sender, s.sender.todo[0];
    var e := Entry(w.name, w.shape, w.dtype, c.offset, None);
    s.(sender := c.(todo := c.todo[1..], offset := c.offset + |w.bytes|, cur := c.cur + [w],
                    entries := Put(c.entries, Find(EntryNames(c.entries), w.name), e)),
       buffer := Overwrite(s.buffer, c.offset, w.bytes))
  }

  function Apply(s: State, useShm: bool, st: Step): State
    requires Enabled(s, useShm, st)
  {
    var c, r := s.sender, s.receiver;
    match st
    case Fill => FillState(s)
    case Flush => Send(s, AwaitFlush, c.todo, c.cur, Message(c.entries, false))
    case Direct =>
      var w := c.todo[0];
      Send(s, AwaitDirect, c.todo[1..], [w], Message([Entry(w.name, w.shape, w.dtype, 0, Some(w.bytes))], false))
    case Refuse => s.(sender := c.(pc := Refused))
    case SendLast => Send(s, AwaitLast, [], c.cur, Message(c.entries, true))
    case TakeReply =>
      if c.pc == AwaitFlush then s.(sender := c.(pc := Ready, entries := [], offset := 0, cur := []), reply := false)
      else s.(sender := c.(pc := if c.pc == AwaitLast then SenderDone else Ready), reply := false)
    case TakeRequest => s.(receiver := r.(pc := Reading(0), msg := s.request.value, weights := []), request := None)
    case Read =>
      s.(receiver := r.(pc := Reading(r.pc.i + 1), weights := r.weights + [ReadEntry(r.msg.entries[r.pc.i], s.buffer)]))
    case Deliver => s.(receiver := r.(pc := MustReply, delivered := r.delivered + [r.weights]))
    case Reply => s.(receiver := r.(pc := if r.msg.isLast then ReceiverDone else AwaitMessage), reply := true)
  }

  ghost predicate Init(s: State, ws: seq<Weight>) {
    && s.sender == Sender(Ready, ws, 0, [], [], [], []) && (forall w :: w in ws ==> w.Valid())
    && s.receiver.pc == AwaitMessage && s.receiver.delivered == [] && s.request == None && !s.reply
  }

  ghost predicate Reaches(s: State, useShm: bool, steps: seq<Step>, t: State)
    decreases |steps|
  {
    if steps == [] then s == t
    else Enabled(s, useShm, steps[0]) && Reaches(Apply(s, useShm, steps[0]), useShm, steps[1..], t)
  }

  // --------------------------------------------------------------------- invariant

  /** Nothing is under way, and what was sent has been handed over. */
  ghost predicate Quiet(s: State) {
    s.request == None && !s.reply && s.receiver.delivered == Dicts(s.sender.groups)
  }

  /** The last message is at one place: on its way, being read, handed over, or acknowledged. Until it is
      handed over, the buffer holds what the message says it holds. */
  ghost predicate Flying(s: State) {
    var groups, n, r := s.sender.groups, |s.sender.groups|, s.receiver;
    && n > 0 && |s.sender.messages| == n &&
    var m := s.sender.messages[n - 1];
    && ReadEntries(m.entries, s.buffer) == DictOf(groups[n - 1])
    && match r.pc
       case AwaitMessage =>
         if s.request.Some? then s.request.value == m && !s.reply && r.delivered == Dicts(groups[..n - 1])
         else s.reply && !m.isLast && r.delivered == Dicts(groups)
       case Reading(i) =>
         && s.request.None? && !s.reply && r.msg == m && r.delivered == Dicts(groups[..n - 1])
         && i <= |m.entries| && r.weights == ReadEntries(m.entries, s.buffer)[..i]
       case MustReply => s.request.None? && !s.reply && r.msg == m && r.delivered == Dicts(groups)
       case ReceiverDone => s.request.None? && s.reply && m.isLast && r.delivered == Dicts(groups)
  }

  /** The bucket being filled. */
  ghost predicate BucketInv(s: State) {
    var c := s.sender;
    && c.offset == SizeOf(c.cur) <= |s.buffer| && (c.entries == [] <==> c.cur == [])
    && Below(c.entries, c.offset) && ReadEntries(c.entries, s.buffer) == DictOf(c.cur)
  }

  /** A message is marked last if and only if it is the last one of a sender that has sent all. */
  ghost predicate Marked(c: Sender) {
    && |c.messages| == |c.groups|
    && (forall k :: 0 <= k < |c.messages| ==>
          (c.messages[k].isLast <==> k == |c.messages| - 1 && (c.pc == AwaitLast || c.pc == SenderDone)))
  }

  ghost predicate Inv(s: State, useShm: bool, plan: Plan) {
    var c, size := s.sender, |s.buffer|;
    && (forall w :: w in c.todo ==> w.Valid()) && Marked(c)
    && match c.pc
       case Ready =>
         && BucketInv(s) && Quiet(s) && s.receiver.pc == AwaitMessage
         && Remains(plan, c.groups, c.todo, c.cur, size, useShm)
       case AwaitFlush => Flying(s) && Remains(plan, c.groups, c.todo, [], size, useShm)
       case AwaitDirect =>
         Flying(s) && c.cur == [] && BucketInv(s) && Remains(plan, c.groups, c.todo, [], size, useShm)
       case AwaitLast => Flying(s) && plan == Plan(c.groups, None)
       case SenderDone => Quiet(s) && s.receiver.pc == ReceiverDone && plan == Plan(c.groups, None) && c.groups != []
       case Refused =>
         && Quiet(s) && s.receiver.pc == AwaitMessage
         && c.todo != [] && plan == Plan(c.groups, Some(TooLarge(c.todo[0].name)))
  }

  lemma InitInv(s: State, useShm: bool, ws: seq<Weight>)
    requires Init(s, ws)
    ensures Inv(s, useShm, PlanFrom(ws, [], |s.buffer|, useShm))
  {
    EmptyBucket(s.buffer);
    RemainsAtStart(ws, |s.buffer|, useShm);
  }

  lemma FillInv(s: State, useShm: bool, plan: Plan)
    requires Inv(s, useShm, plan) && Enabled(s, useShm, Fill)
    ensures Inv(Apply(s, useShm, Fill), useShm, plan)
  {
    hide Remains, ReadEntries, DictOf, Dicts, SizeOf, Below, Overwrite, Put;
    var c := s.sender;
    Uncons(c.todo, 0);
    assert c.todo[0..] == c.todo && c.todo[0] in c.todo;
    WriteEntry(c.entries, s.buffer, c.offset, c.todo[0], c.cur);
    RemainsAfterFill(plan, c.groups, c.todo, c.cur, |s.buffer|, useShm);
  }

  lemma SendFlies(s: State, pc: SenderPc, todo: seq<Weight>, group: seq<Weight>, msg: Message)
    requires Quiet(s) && s.receiver.pc == AwaitMessage && Marked(s.sender) && s.sender.pc == Ready
    requires ReadEntries(msg.entries, s.buffer) == DictOf(group) && (msg.isLast <==> pc == AwaitLast) && Awaits(pc)
    ensures Flying(Send(s, pc, todo, group, msg)) && Marked(Send(s, pc, todo, group, msg).sender)
  {
    hide ReadEntries, Dicts, DictOf;
    var t := Send(s, pc, todo, group, msg);
    assert t.sender.groups[..|t.sender.groups| - 1] == s.sender.groups;
  }

  lemma FlushInv(s: State, useShm: bool, plan: Plan)
    requires Inv(s, useShm, plan) && Enabled(s, useShm, Flush)
    ensures Inv(Apply(s, useShm, Flush), useShm, plan)
  {
    hide Remains, ReadEntries, DictOf, Dicts, SizeOf, Below, Marked, Flying;
    var c := s.sender;
    SendFlies(s, AwaitFlush, c.todo, c.cur, Message(c.entries, false));
    RemainsAfterFlush(plan, c.groups, c.todo, c.cur, |s.buffer|, useShm);
  }

  lemma DirectInv(s: State, useShm: bool, plan: Plan)
    requires Inv(s, useShm, plan) && Enabled(s, useShm, Direct)
    ensures Inv(Apply(s, useShm, Direct), useShm, plan)
  {
    hide Remains, DictOf, Dicts, Below, Marked, Flying;
    var c, w := s.sender, s.sender.todo[0];
    EmptyBucket(s.buffer);
    DictOfOne(w);
    var msg := Message([Entry(w.name, w.shape, w.dtype, 0, Some(w.bytes))], false);
    assert ReadEntries(msg.entries, s.buffer) == [w];
    SendFlies(s, AwaitDirect, c.todo[1..], [w], msg);
    RemainsAfterDirect(plan, c.groups, c.todo, |s.buffer|);
  }

  lemma EndInv(s: State, useShm: bool, plan: Plan, st: Step)
    requires Inv(s, useShm, plan) && Enabled(s, useShm, st) && (st.Refuse? || st.SendLast?)
    ensures Inv(Apply(s, useShm, st), useShm, plan)
  {
    hide Remains, ReadEntries, DictOf, Dicts, Below, Flying;
    var c := s.sender;
    EmptyBucket(s.buffer);
    RemainsAtEnd(plan, c.groups, c.todo, c.cur, |s.buffer|, useShm);
    if st.SendLast? {
      SendFlies(s, AwaitLast, [], c.cur, Message(c.entries, true));
    }
  }

  lemma TakeReplyInv(s: State, useShm: bool, plan: Plan)
    requires Inv(s, useShm, plan) && Enabled(s, useShm, TakeReply)
    ensures Inv(Apply(s, useShm, TakeReply), useShm, plan)
  {
    hide Remains, ReadEntries, DictOf, Dicts, Below, SizeOf;
    EmptyBucket(s.buffer);
  }

  lemma ReceiverFlies(s: State, useShm: bool, st: Step)
    requires Flying(s) && Enabled(s, useShm, st) && (st.TakeRequest? || st.Read? || st.Deliver? || st.Reply?)
    ensures Flying(Apply(s, useShm, st))
  {
    hide DictOf, Dicts, ReadEntry;
    var groups, r := s.sender.groups, s.receiver;
    var n := |groups|;
    var m := s.sender.messages[n - 1];
    if st.Read? {
      TakeOneMore(ReadEntries(m.entries, s.buffer), r.pc.i);
    } else if st.Deliver? {
      DictsAdd(groups[..n - 1], groups[n - 1]);
      assert groups[..n - 1] + [groups[n - 1]] == groups;
      assert r.weights == ReadEntries(m.entries, s.buffer);
    }
  }

  lemma ReceiverInv(s: State, useShm: bool, plan: Plan, st: Step)
    requires Inv(s, useShm, plan) && Enabled(s, useShm, st) && (st.TakeRequest? || st.Read? || st.Deliver? || st.Reply?)
    ensures Inv(Apply(s, useShm, st), useShm, plan)
  {
    hide Remains, ReadEntries, DictOf, Dicts, Below, SizeOf, Flying;
    ReceiverFlies(s, useShm, st);
  }

  lemma StepInv(s: State, useShm: bool, plan: Plan, st: Step)
    requires Inv(s, useShm, plan) && Enabled(s, useShm, st)
    ensures Inv(Apply(s, useShm, st), useShm, plan)
  {
    hide Inv, Enabled, Apply;
    match st
    case Fill => FillInv(s, useShm, plan);
    case Flush => FlushInv(s, useShm, plan);
    case Direct => DirectInv(s, useShm, plan);
    case Refuse => EndInv(s, useShm, plan, st);
    case SendLast => EndInv(s, useShm, plan, st);
    case TakeReply => TakeReplyInv(s, useShm, plan);
    case _ => ReceiverInv(s, useShm, plan, st);
  }

  lemma {:induction false} RunInv(s: State, useShm: bool, plan: Plan, steps: seq<Step>, t: State)
    requires Inv(s, useShm, plan) && Reaches(s, useShm, steps, t)
    ensures Inv(t, useShm, plan)
    decreases |steps|
  {
    hide Inv, Enabled, Apply;
    if steps != [] {
      StepInv(s, useShm, plan, steps[0]);
      RunInv(Apply(s, useShm, steps[0]), useShm, plan, steps[1..], t);
    }
  }

  // -------------------------------------------------------------------- main results

  /** From when a message is sent until its acknowledgement has arrived, no step of either process writes to
      the buffer; and the receiver reads only then. */
  lemma BufferIsKeptUntilAcknowledged(s: State, useShm: bool, plan: Plan, st: Step)
    requires Inv(s, useShm, plan) && Enabled(s, useShm, st)
    ensures s.request.Some? || s.reply || s.receiver.pc.Reading? || s.receiver.pc == MustReply ==>
              Awaits(s.sender.pc) && Apply(s, useShm, st).buffer == s.buffer
    ensures st.Read? ==> Awaits(s.sender.pc) && s.request.None? && !s.reply
  {
    hide Remains, ReadEntries, DictOf, Dicts, Below, SizeOf, Marked, FillState;
  }

  lemma DictsPrefix(a: seq<seq<Weight>>, b: seq<seq<Weight>>)
    ensures Dicts(a) <= Dicts(a + b)
  {
  }

  /** Whatever the interleaving, what the receiver has handed over is a prefix of the planned groups, message
      by message. A receiver that is done has handed over all of them; and if the sender refuses a weight,
      the receiver has been given exactly the groups before it. */
  lemma SyncDelivers(s: State, useShm: bool, plan: Plan)
    requires Inv(s, useShm, plan)
    ensures s.receiver.delivered <= Dicts(plan.groups)
    ensures s.receiver.pc == ReceiverDone ==> s.receiver.delivered == Dicts(plan.groups) && plan.error == None
    ensures s.sender.pc == Refused ==> s.receiver.delivered == Dicts(plan.groups) && plan.error.Some?
  {
    hide ReadEntries, DictOf, Below, SizeOf, PlanFrom, Dicts;
    var c := s.sender;
    var n := |c.groups|;
    if n > 0 {
      assert c.groups[..n - 1] + [c.groups[n - 1]] == c.groups;
      DictsPrefix(c.groups[..n - 1], [c.groups[n - 1]]);
    }
    assert c.groups <= plan.groups;
    assert c.groups + plan.groups[n..] == plan.groups;
    DictsPrefix(c.groups, plan.groups[n..]);
  }

  /** Exactly one message is marked last, and it is the last: none while weights remain or when one was
      refused, and the final one of a sender that is done. */
  lemma OneLastMessage(s: State, useShm: bool, plan: Plan)
    requires Inv(s, useShm, plan)
    ensures var c := s.sender;
            forall k :: 0 <= k < |c.messages| ==>
              (c.messages[k].isLast <==> k == |c.messages| - 1 && (c.pc == AwaitLast || c.pc == SenderDone))
    ensures s.sender.pc == SenderDone ==> s.sender.messages != []
  {
    hide Remains, ReadEntries, DictOf, Dicts, Below, SizeOf;
  }

  predicate BothDone(s: State) {
    s.sender.pc == SenderDone && s.receiver.pc == ReceiverDone
  }

  /** The two processes get stuck if and only if both are done or the sender has refused a weight, which
      leaves the receiver waiting for a message that is never sent. */
  lemma StuckIff(s: State, useShm: bool, plan: Plan)
    requires Inv(s, useShm, plan)
    ensures (forall st :: !Enabled(s, useShm, st)) <==> BothDone(s) || s.sender.pc == Refused
    ensures s.sender.pc == Refused ==> s.receiver.pc == AwaitMessage
  {
    hide Remains, ReadEntries, DictOf, Dicts, Below, SizeOf, Marked;
    var c, r := s.sender, s.receiver;
    if BothDone(s) || c.pc == Refused {
      forall st ensures !Enabled(s, useShm, st) {
      }
    } else {
      var st :=
        if c.pc == Ready then
          (if c.todo == [] then SendLast else if Fits(c, |s.buffer|) then Fill
           else if c.entries != [] then Flush else if useShm then Refuse else Direct)
        else if s.reply then TakeReply
        else if r.pc == AwaitMessage then TakeRequest
        else if r.pc == MustReply then Reply
        else if r.pc.Reading? && r.pc.i < |r.msg.entries| then Read else Deliver;
      assert Enabled(s, useShm, st);
    }
  }

  // --------------------------------------------------------------------- termination

  /** What is left to do for the message that is under way. */
  function MessageLeft(s: State): int {
    match s.receiver.pc
    case AwaitMessage => if s.request.Some? then |s.request.value.entries| + 4 else 1
    case Reading(i) => |s.receiver.msg.entries| - i + 3
    case MustReply => 2
    case ReceiverDone => 1
  }

  function Measure(s: State): int {
    var c := s.sender;
    match c.pc
    case Ready => 12 * |c.todo| + 6 * |c.entries| + 6
    case AwaitFlush => 12 * |c.todo| + 6 + MessageLeft(s)
    case AwaitDirect => 12 * |c.todo| + 6 + MessageLeft(s)
    case AwaitLast => MessageLeft(s)
    case _ => 0
  }

  lemma StepDecreases(s: State, useShm: bool, plan: Plan, st: Step)
    requires Inv(s, useShm, plan) && Enabled(s, useShm, st)
    ensures 0 <= Measure(Apply(s, useShm, st)) < Measure(s)
  {
    hide Inv, Apply, Enabled, Measure;
    StepInv(s, useShm, plan, st);
    MeasureIsNatural(Apply(s, useShm, st), useShm, plan);
    if st.TakeRequest? || st.Read? || st.Deliver? || st.Reply? {
      ReceiverDecreases(s, useShm, plan, st);
    } else {
      SenderDecreases(s, useShm, plan, st);
    }
  }

  lemma ReceiverDecreases(s: State, useShm: bool, plan: Plan, st: Step)
    requires Inv(s, useShm, plan) && Enabled(s, useShm, st) && (st.TakeRequest? || st.Read? || st.Deliver? || st.Reply?)
    ensures Measure(Apply(s, useShm, st)) < Measure(s)
  {
    hide Remains, ReadEntries, DictOf, Dicts, Below, SizeOf, Marked, ReadEntry, BucketInv;
  }

  lemma SenderDecreases(s: State, useShm: bool, plan: Plan, st: Step)
    requires Inv(s, useShm, plan) && Enabled(s, useShm, st)
    requires !(st.TakeRequest? || st.Read? || st.Deliver? || st.Reply?)
    ensures Measure(Apply(s, useShm, st)) < Measure(s)
  {
    hide Remains, ReadEntries, DictOf, Dicts, Below, SizeOf, Marked, Overwrite;
    EmptyBucket(s.buffer);
  }

  lemma {:induction false} RunIsBounded(s: State, useShm: bool, plan: Plan, steps: seq<Step>, t: State)
    requires Inv(s, useShm, plan) && Reaches(s, useShm, steps, t)
    ensures |steps| <= Measure(s)
    decreases |steps|
  {
    hide Inv, Enabled, Apply, Measure;
    if steps == [] {
      MeasureIsNatural(s, useShm, plan);
    } else {
      StepInv(s, useShm, plan, steps[0]);
      StepDecreases(s, useShm, plan, steps[0]);
      RunIsBounded(Apply(s, useShm, steps[0]), useShm, plan, steps[1..], t);
    }
  }

  lemma MeasureIsNatural(s: State, useShm: bool, plan: Plan)
    requires Inv(s, useShm, plan)
    ensures Measure(s) >= 0
  {
    hide Remains, ReadEntries, DictOf, Dicts, Below, SizeOf, Marked;
  }

  /** The sync as a whole, for any weights and any interleaving of the two processes: runs have a bounded
      length, and in one that cannot go on either no weight was refused, both processes are done and the
      receiver has handed over every group, or the sender has stopped at the first weight that is too
      large for shared memory and the receiver waits with the groups before it. */
  lemma EveryRunDelivers(s0: State, useShm: bool, ws: seq<Weight>, steps: seq<Step>, t: State)
    requires Init(s0, ws) && Reaches(s0, useShm, steps, t)
    ensures var plan := PlanFrom(ws, [], |s0.buffer|, useShm);
            && |steps| <= 12 * |ws| + 6
            && t.receiver.delivered <= Dicts(plan.groups)
            && (t.receiver.pc == ReceiverDone ==> t.receiver.delivered == Dicts(plan.groups) && plan.error == None)
            && ((forall st :: !Enabled(t, useShm, st)) ==>
                  && t.receiver.delivered == Dicts(plan.groups)
                  && if plan.error.None? then BothDone(t) else t.sender.pc == Refused && t.receiver.pc == AwaitMessage)
  {
    hide Inv, Reaches, Enabled, PlanFrom, Dicts;
    var plan := PlanFrom(ws, [], |s0.buffer|, useShm);
    InitInv(s0, useShm, ws);
    RunInv(s0, useShm, plan, steps, t);
    RunIsBounded(s0, useShm, plan, steps, t);
    SyncDelivers(t, useShm, plan);
    StuckIff(t, useShm, plan);
  }
}
