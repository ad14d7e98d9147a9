/**
 The sender and the receiver of the student's hot weight sync: what is sent in which message, and what
 the receiver makes of it. They share one buffer; a weight that does not fit it travels by itself, through
 a handle to its own memory.

 Sending a message and receiving its acknowledgement is one call of the receiver's loop body here. The
 two as processes that run beside one another are in HotSync.
 */
module BucketedTransfer {
  import opened Options
  import opened Seqs
  import opened Chunks
  import opened Buckets

  /** An entry of bucket_meta. A handle stands for the memory of the weight itself. */
  datatype Entry = Entry(name: string, shape: seq<nat>, dtype: DType, offset: nat, handle: Option<seq<Byte>>)

  /** bucket_meta is a dict: its entries are in insertion order and have distinct names. */
  datatype Message = Message(entries: seq<Entry>, isLast: bool)

  datatype SendError = TooLarge(name: string)

  // --------------------------------------------------------- what should be delivered

  function SizeOf(ws: seq<Weight>): nat {
    if ws == [] then 0 else SizeOf(ws[..|ws| - 1]) + |ws[|ws| - 1].bytes|
  }

  /** The weights grouped by message, in the order they were given, and the weight that stopped the
      sender, if any. A group that is not last is followed by a message, even if it is empty. */
  datatype Plan = Plan(groups: seq<seq<Weight>>, error: Option<SendError>)

  function After(group: seq<Weight>, rest: Plan): Plan {
    Plan([group] + rest.groups, rest.error)
  }

  function PlanFrom(ws: seq<Weight>, cur: seq<Weight>, size: nat, useShm: bool): Plan
    decreases |ws|, |cur|
  {
    if ws == [] then Plan([cur], None)
    else if SizeOf(cur) + |ws[0].bytes| <= size then PlanFrom(ws[1..], cur + [ws[0]], size, useShm)
    else if cur != [] then After(cur, PlanFrom(ws, [], size, useShm))
    else if useShm then Plan([], Some(TooLarge(ws[0].name)))
    else After([ws[0]], PlanFrom(ws[1..], [], size, useShm))
  }

  /** How many weights come before the first that the sender refuses: over shared memory, one that is
      larger than the buffer. */
  function Deliverable(ws: seq<Weight>, size: nat, useShm: bool): (n: nat)
    ensures n <= |ws|
    ensures n == |ws| <==> !useShm || forall w :: w in ws ==> |w.bytes| <= size
    ensures n < |ws| ==> |ws[n].bytes| > size
    ensures useShm ==> forall k :: 0 <= k < n ==> |ws[k].bytes| <= size
  {
    if ws == [] then 0
    else if useShm && |ws[0].bytes| > size then 0
    else
      assert ws == [ws[0]] + ws[1..];
      1 + Deliverable(ws[1..], size, useShm)
  }

  /** Nothing is lost, added or reordered: the groups are the weights that come before the first one
      that is refused, and the error is about that one. */
  lemma {:induction false} PlanConserves(ws: seq<Weight>, cur: seq<Weight>, size: nat, useShm: bool)
    ensures var p, n := PlanFrom(ws, cur, size, useShm), Deliverable(ws, size, useShm);
            && Flatten(p.groups) == cur + ws[..n]
            && p.error == if n == |ws| then None else Some(TooLarge(ws[n].name))
    decreases |ws|, |cur|
  {
    if ws == [] {
      FlattenCons(cur, []);
      AppendNothing([cur]);
    } else if SizeOf(cur) + |ws[0].bytes| <= size {
      PlanConserves(ws[1..], cur + [ws[0]], size, useShm);
      FirstAndMore(ws, Deliverable(ws, size, useShm));
      Assoc(cur, [ws[0]], ws[1..][..Deliverable(ws[1..], size, useShm)]);
    } else if cur != [] {
      PlanConserves(ws, [], size, useShm);
      FlattenCons(cur, PlanFrom(ws, [], size, useShm).groups);
      AppendNothing(ws[..Deliverable(ws, size, useShm)]);
    } else if !useShm {
      PlanConserves(ws[1..], [], size, useShm);
      FirstAndMore(ws, Deliverable(ws, size, useShm));
      FlattenCons([ws[0]], PlanFrom(ws[1..], [], size, useShm).groups);
      AppendNothing(ws[1..][..Deliverable(ws[1..], size, useShm)]);
      AppendNothing(ws[..Deliverable(ws, size, useShm)]);
    }
  }

  predicate NoneEmpty(groups: seq<seq<Weight>>) {
    [] !in groups
  }

  /** No message is empty but the last, and that as said. */
  predicate Proper(p: Plan, lastEmpty: bool) {
    if p.error.Some? then NoneEmpty(p.groups)
    else
      && p.groups != [] && NoneEmpty(p.groups[..|p.groups| - 1])
      && (p.groups[|p.groups| - 1] == [] <==> lastEmpty)
  }

  lemma AfterIsProper(g: seq<Weight>, rest: Plan, lastEmpty: bool)
    requires g != [] && Proper(rest, lastEmpty)
    ensures Proper(After(g, rest), lastEmpty)
  {
    var gs := rest.groups;
    if rest.error.None? {
      assert ([g] + gs)[..|gs|] == [g] + gs[..|gs| - 1];
    }
  }

  /** Every message but the last has a weight, and the last one of a sender that refuses none is empty only if
      there was nothing to put in it: no weight at all, or one that had to travel alone at the end. */
  lemma {:induction false} MessagesHaveWeights(ws: seq<Weight>, cur: seq<Weight>, size: nat, useShm: bool)
    ensures Proper(PlanFrom(ws, cur, size, useShm), if ws == [] then cur == [] else |ws[|ws| - 1].bytes| > size)
    decreases |ws|, |cur|
  {
    if ws != [] {
      hide Proper, SizeOf;
      var lastEmpty := |ws[|ws| - 1].bytes| > size;
      if SizeOf(cur) + |ws[0].bytes| <= size {
        MessagesHaveWeights(ws[1..], cur + [ws[0]], size, useShm);
      } else if cur != [] {
        MessagesHaveWeights(ws, [], size, useShm);
        AfterIsProper(cur, PlanFrom(ws, [], size, useShm), lastEmpty);
      } else if !useShm {
        NothingIsSmall();
        MessagesHaveWeights(ws[1..], [], size, useShm);
        AfterIsProper([ws[0]], PlanFrom(ws[1..], [], size, useShm), lastEmpty);
      } else {
        RefusedIsProper(ws[0].name, lastEmpty);
      }
    }
  }

  lemma NothingIsSmall()
    ensures SizeOf([]) == 0
  {
  }

  lemma RefusedIsProper(name: string, lastEmpty: bool)
    ensures Proper(Plan([], Some(TooLarge(name))), lastEmpty)
  {
  }

  lemma FirstAndMore(ws: seq<Weight>, n: nat)
    requires 0 < n <= |ws|
    ensures ws[..n] == [ws[0]] + ws[1..][..n - 1]
    ensures n < |ws| ==> ws[n] == ws[1..][n - 1]
  {
  }

  // --------------------------------------------------------------- the dict of a bucket

  function Find(names: seq<string>, name: string): (i: nat)
    ensures i <= |names|
    ensures i < |names| ==> names[i] == name
    ensures i == |names| <==> name !in names
  {
    if names == [] then 0 else if names[0] == name then 0 else 1 + Find(names[1..], name)
  }

  function Names(ws: seq<Weight>): (r: seq<string>)
    ensures |r| == |ws| && forall i :: 0 <= i < |r| ==> r[i] == ws[i].name
  {
    seq(|ws|, i requires 0 <= i < |ws| => ws[i].name)
  }

  function EntryNames(es: seq<Entry>): (r: seq<string>)
    ensures |r| == |es| && forall i :: 0 <= i < |r| ==> r[i] == es[i].name
  {
    seq(|es|, i requires 0 <= i < |es| => es[i].name)
  }

  /** d[key] = x: an assignment to a key that is present keeps the position of the key. */
  function Put<T>(d: seq<T>, at: nat, x: T): seq<T>
    requires at <= |d|
  {
    if at < |d| then d[at := x] else d + [x]
  }

  /** What a dict holds after the weights of a group have been assigned to their names. */
  function DictOf(ws: seq<Weight>): seq<Weight> {
    if ws == [] then []
    else
      var d, w := DictOf(ws[..|ws| - 1]), ws[|ws| - 1];
      Put(d, Find(Names(d), w.name), w)
  }

  /** The i-th key is there and has not come before. */
  predicate IsFirst(keys: seq<Option<string>>, i: nat)
    requires i < |keys|
  {
    keys[i].Some? && keys[i] !in keys[..i]
  }

  /** How many different keys there are among the first n. */
  function Firsts(keys: seq<Option<string>>, n: nat): (r: nat)
    requires n <= |keys|
    ensures r <= n
  {
    if n == 0 then 0 else Firsts(keys, n - 1) + if IsFirst(keys, n - 1) then 1 else 0
  }

  /** The k-th of the values belongs to the k-th different one of the first n keys. */
  ghost predicate InOrder<T>(keys: seq<Option<string>>, n: nat, all: seq<Option<T>>, vals: seq<T>)
    requires n <= |keys| == |all|
  {
    && |vals| == Firsts(keys, n)
    && forall i :: 0 <= i < n && IsFirst(keys, i) ==>
         Firsts(keys, i) < |vals| && all[i] == Some(vals[Firsts(keys, i)])
  }

  lemma NextInOrder<T>(keys: seq<Option<string>>, n: nat, all: seq<Option<T>>, vals: seq<T>)
    requires n < |keys| == |all| && InOrder(keys, n, all, vals)
    ensures !IsFirst(keys, n) ==> InOrder(keys, n + 1, all, vals)
    ensures IsFirst(keys, n) && all[n].Some? ==> InOrder(keys, n + 1, all, vals + [all[n].value])
  {
  }

  function Keys(ws: seq<Weight>): (keys: seq<Option<string>>)
    ensures |keys| == |ws| && forall i :: 0 <= i < |keys| ==> keys[i] == Some(ws[i].name)
  {
    seq(|ws|, i requires 0 <= i < |ws| => Some(ws[i].name))
  }

  /** No later weight has the name of the i-th. */
  predicate IsLast(ws: seq<Weight>, i: nat)
    requires i < |ws|
  {
    forall j :: i < j < |ws| ==> ws[j].name != ws[i].name
  }

  lemma PutNames(d: seq<Weight>, w: Weight)
    ensures var at := Find(Names(d), w.name);
            Names(Put(d, at, w)) == if w.name in Names(d) then Names(d) else Names(d) + [w.name]
  {
  }

  lemma {:induction false} DictNames(ws: seq<Weight>, n: nat)
    requires n <= |ws|
    ensures forall name :: name in Names(DictOf(ws[..n])) <==> Some(name) in Keys(ws)[..n]
  {
    if n > 0 {
      NextDict(ws, n - 1);
      DictNames(ws, n - 1);
      TakeOneMore(Keys(ws), n - 1);
    }
  }

  lemma DictHasName(ws: seq<Weight>, n: nat, name: string)
    requires n <= |ws|
    ensures name in Names(DictOf(ws[..n])) <==> Some(name) in Keys(ws)[..n]
  {
    DictNames(ws, n);
  }

  lemma NextDict(ws: seq<Weight>, n: nat)
    requires n < |ws|
    ensures var before := Names(DictOf(ws[..n]));
            Names(DictOf(ws[..n + 1])) == if ws[n].name in before then before else before + [ws[n].name]
  {
    assert ws[..n + 1][..n] == ws[..n] && ws[..n + 1][n] == ws[n];
    PutNames(DictOf(ws[..n]), ws[n]);
  }

  /** The k-th different name is the k-th key. */
  lemma {:induction false} DictOrder(ws: seq<Weight>, n: nat)
    requires n <= |ws|
    ensures InOrder(Keys(ws), n, Keys(ws), Names(DictOf(ws[..n])))
  {
    if n > 0 {
      var before, after := Names(DictOf(ws[..n - 1])), Names(DictOf(ws[..n]));
      NextDict(ws, n - 1);
      DictHasName(ws, n - 1, ws[n - 1].name);
      DictOrder(ws, n - 1);
      hide DictOf, InOrder, Names;
      NextName(Keys(ws), n - 1, ws[n - 1].name, before, after);
    }
  }

  lemma NextName(keys: seq<Option<string>>, n: nat, name: string, before: seq<string>, after: seq<string>)
    requires n < |keys| && keys[n] == Some(name) && InOrder(keys, n, keys, before)
    requires name in before <==> keys[n] in keys[..n]
    requires after == if name in before then before else before + [name]
    ensures InOrder(keys, n + 1, keys, after)
  {
    hide InOrder;
    FirstIff(keys, n);
    NextInOrder(keys, n, keys, before);
  }

  lemma FirstIff(keys: seq<Option<string>>, i: nat)
    requires i < |keys|
    ensures IsFirst(keys, i) <==> keys[i].Some? && keys[i] !in keys[..i]
  {
  }

  /** Every key holds the last weight of its name. */
  lemma {:induction false} DictHoldsLast(ws: seq<Weight>, i: nat)
    requires i < |ws| && IsLast(ws, i)
    ensures ws[i] in DictOf(ws)
  {
    var m := |ws| - 1;
    var d := DictOf(ws[..m]);
    var at := Find(Names(d), ws[m].name);
    assert Put(d, at, ws[m])[at] == ws[m];
    if i < m {
      assert IsLast(ws[..m], i) && ws[i].name != ws[m].name;
      DictHoldsLast(ws[..m], i);
      var k :| 0 <= k < |d| && d[k] == ws[i];
      assert Names(d)[k] == ws[i].name;
      assert Put(d, at, ws[m])[k] == ws[i];
    }
  }

  lemma {:induction false} DictIsDistinct(ws: seq<Weight>)
    ensures DistinctNames(DictOf(ws))
  {
    if ws != [] {
      var m := |ws| - 1;
      DictIsDistinct(ws[..m]);
      PutDistinct(DictOf(ws[..m]), ws[m]);
    }
  }

  lemma PutDistinct(d: seq<Weight>, w: Weight)
    requires DistinctNames(d)
    ensures DistinctNames(Put(d, Find(Names(d), w.name), w))
  {
    var at := Find(Names(d), w.name);
    assert forall i :: 0 <= i < |d| ==> Names(d)[i] == d[i].name;
    assert forall i :: 0 <= i < |d| && i != at ==> d[i].name != w.name;
  }

  /** Assigning to names in order leaves the last weight of every name, at the place where its name came first. */
  lemma DictMeans(ws: seq<Weight>)
    ensures var d, keys := DictOf(ws), Keys(ws);
            && DistinctNames(d) && |d| == Firsts(keys, |ws|)
            && (forall i :: 0 <= i < |ws| && IsFirst(keys, i) ==>
                  Firsts(keys, i) < |d| && d[Firsts(keys, i)].name == ws[i].name)
            && (forall i :: 0 <= i < |ws| && IsLast(ws, i) ==> ws[i] in d)
  {
    hide DictOf, IsFirst, Firsts, IsLast, DistinctNames;
    DictIsDistinct(ws);
    DictOrder(ws, |ws|);
    assert ws[..|ws|] == ws;
    forall i | 0 <= i < |ws| && IsLast(ws, i) ensures ws[i] in DictOf(ws) {
      DictHoldsLast(ws, i);
    }
    var d, keys := DictOf(ws), Keys(ws);
    forall i | 0 <= i < |ws| && IsFirst(keys, i)
      ensures Firsts(keys, i) < |d| && d[Firsts(keys, i)].name == ws[i].name
    {
      assert Names(d)[Firsts(keys, i)] == ws[i].name;
    }
  }

  function Dicts(groups: seq<seq<Weight>>): (r: seq<seq<Weight>>)
    ensures |r| == |groups| && forall i :: 0 <= i < |r| ==> r[i] == DictOf(groups[i])
  {
    seq(|groups|, i requires 0 <= i < |groups| => DictOf(groups[i]))
  }

  lemma DistinctSnoc(ws: seq<Weight>, w: Weight)
    ensures DistinctNames(ws + [w]) <==> DistinctNames(ws) && w.name !in Names(ws)
  {
    var all := ws + [w];
    if DistinctNames(all) {
      assert forall i :: 0 <= i < |ws| ==> all[i] == ws[i];
      assert forall i :: 0 <= i < |ws| ==> all[i].name != all[|ws|].name;
    }
    if DistinctNames(ws) && w.name !in Names(ws) {
      assert forall i :: 0 <= i < |ws| ==> Names(ws)[i] == all[i].name;
    }
  }

  lemma {:induction false} DictKeepsDistinct(ws: seq<Weight>)
    ensures |DictOf(ws)| <= |ws|
    ensures |DictOf(ws)| == |ws| ==> DictOf(ws) == ws && DistinctNames(ws)
    ensures DistinctNames(ws) ==> DictOf(ws) == ws
  {
    if ws != [] {
      var init, w := ws[..|ws| - 1], ws[|ws| - 1];
      assert ws == init + [w];
      DictKeepsDistinct(init);
      DistinctSnoc(init, w);
      hide DistinctNames, Names;
    }
  }

  lemma {:induction false} DictsLoseNothing(groups: seq<seq<Weight>>)
    ensures |Flatten(Dicts(groups))| <= |Flatten(groups)|
    ensures Flatten(Dicts(groups)) == Flatten(groups) <==> forall g :: g in groups ==> DistinctNames(g)
  {
    if groups != [] {
      var rest := groups[1..];
      DictKeepsDistinct(groups[0]);
      DictsLoseNothing(rest);
      assert Dicts(groups)[1..] == Dicts(rest);
      assert groups == [groups[0]] + rest;
      var a, b, a', b' := DictOf(groups[0]), Flatten(Dicts(rest)), groups[0], Flatten(rest);
      assert a + b == a' + b' <==> a == a' && b == b' by {
        if a + b == a' + b' {
          assert |a| == |a'| && |b| == |b'|;
          assert a == (a + b)[..|a|] && a' == (a' + b')[..|a'|];
          assert b == (a + b)[|a|..] && b' == (a' + b')[|a'|..];
        }
      }
    }
  }

  // ------------------------------------------------------------------------- receiver

  /** The tensor behind an entry; a slice of the buffer stops at the end of the buffer. */
  function ReadEntry(e: Entry, buffer: seq<Byte>): Weight {
    Weight(e.name, e.shape, e.dtype,
           if e.handle.Some? then e.handle.value else Slice(buffer, e.offset, NBytes(e.shape, e.dtype)))
  }

  function ReadEntries(es: seq<Entry>, buffer: seq<Byte>): (r: seq<Weight>)
    ensures |r| == |es| && forall i :: 0 <= i < |r| ==> r[i] == ReadEntry(es[i], buffer)
  {
    seq(|es|, i requires 0 <= i < |es| => ReadEntry(es[i], buffer))
  }

  class BucketedWeightReceiver {
    const buffer: array<Byte>              // shared with the sender
    var delivered: seq<seq<Weight>>        // the argument of each call of on_bucket_received
    var messages: seq<Message>
    var finished: bool

    constructor (buffer: array<Byte>)
      ensures this.buffer == buffer && delivered == [] && messages == [] && !finished
    {
      this.buffer := buffer;
      delivered, messages, finished := [], [], false;
    }

    /** The body of the receive loop; it returns when it has sent the acknowledgement. */
    method Receive(msg: Message)
      requires !finished
      modifies this
      ensures delivered == old(delivered) + [ReadEntries(msg.entries, buffer[..])]
      ensures messages == old(messages) + [msg] && finished == msg.isLast
    {
      var weights: seq<Weight> := [];
      var i := 0;
      while i < |msg.entries|
        invariant 0 <= i <= |msg.entries|
        invariant weights == ReadEntries(msg.entries, buffer[..])[..i]
      {
        weights := weights + [ReadEntry(msg.entries[i], buffer[..])];
        i := i + 1;
      }
      assert weights == ReadEntries(msg.entries, buffer[..]);
      delivered := delivered + [weights];
      messages := messages + [msg];
      finished := msg.isLast;
    }
  }

  // --------------------------------------------------------------------------- sender

  predicate NoLastMessage(messages: seq<Message>) {
    forall k :: 0 <= k < |messages| ==> !messages[k].isLast
  }

  lemma NoLastMessageGrows(messages: seq<Message>, msg: Message)
    requires NoLastMessage(messages)
    ensures !msg.isLast ==> NoLastMessage(messages + [msg])
  {
  }

  /** Every entry lies in the part of the buffer that has been filled. */
  predicate Below(es: seq<Entry>, offset: nat) {
    forall e :: e in es ==> e.handle.None? && e.offset + NBytes(e.shape, e.dtype) <= offset
  }

  lemma OverwriteKeepsSlice(buffer: seq<Byte>, offset: nat, data: seq<Byte>, lo: nat, hi: nat)
    requires lo <= hi <= offset && offset + |data| <= |buffer|
    ensures Overwrite(buffer, offset, data)[lo..hi] == buffer[lo..hi]
  {
    assert forall k :: lo <= k < hi ==> Overwrite(buffer, offset, data)[k] == buffer[k];
  }

  lemma OverwriteKeepsEntries(es: seq<Entry>, buffer: seq<Byte>, offset: nat, data: seq<Byte>)
    requires offset + |data| <= |buffer| && Below(es, offset)
    ensures ReadEntries(es, Overwrite(buffer, offset, data)) == ReadEntries(es, buffer)
  {
    hide Overwrite, NBytes;
    var after := Overwrite(buffer, offset, data);
    forall i | 0 <= i < |es|
      ensures ReadEntry(es[i], after) == ReadEntry(es[i], buffer)
    {
      var e := es[i];
      assert e in es;
      OverwriteKeepsSlice(buffer, offset, data, e.offset, e.offset + NBytes(e.shape, e.dtype));
    }
  }

  lemma WriteEntry(es: seq<Entry>, buffer: seq<Byte>, offset: nat, w: Weight, cur: seq<Weight>)
    requires w.Valid() && offset + |w.bytes| <= |buffer| && Below(es, offset)
    requires ReadEntries(es, buffer) == DictOf(cur)
    ensures var e := Entry(w.name, w.shape, w.dtype, offset, None);
            var es' := Put(es, Find(EntryNames(es), w.name), e);
            && Below(es', offset + |w.bytes|) && es' != []
            && ReadEntries(es', Overwrite(buffer, offset, w.bytes)) == DictOf(cur + [w])
  {
    var e, after := Entry(w.name, w.shape, w.dtype, offset, None), Overwrite(buffer, offset, w.bytes);
    OverwriteKeepsEntries(es, buffer, offset, w.bytes);
    assert EntryNames(es) == Names(DictOf(cur));
    assert (cur + [w])[..|cur|] == cur;
    assert after[offset..offset + |w.bytes|] == after[..offset + |w.bytes|][offset..] == w.bytes;
    assert ReadEntry(e, after) == w;
  }

  /** What the groups that were sent and the group being filled are to the whole plan. */
  ghost predicate Remains(plan: Plan, sent: seq<seq<Weight>>, ws: seq<Weight>, cur: seq<Weight>, size: nat,
                          useShm: bool) {
    var rest := PlanFrom(ws, cur, size, useShm);
    plan.groups == sent + rest.groups && plan.error == rest.error
  }

  lemma RemainsAfterFlush(plan: Plan, sent: seq<seq<Weight>>, ws: seq<Weight>, cur: seq<Weight>, size: nat,
                          useShm: bool)
    requires Remains(plan, sent, ws, cur, size, useShm) && ws != [] && cur != []
    requires SizeOf(cur) + |ws[0].bytes| > size
    ensures Remains(plan, sent + [cur], ws, [], size, useShm)
  {
    Assoc(sent, [cur], PlanFrom(ws, [], size, useShm).groups);
  }

  lemma RemainsAfterDirect(plan: Plan, sent: seq<seq<Weight>>, ws: seq<Weight>, size: nat)
    requires Remains(plan, sent, ws, [], size, false) && ws != [] && |ws[0].bytes| > size
    ensures Remains(plan, sent + [[ws[0]]], ws[1..], [], size, false)
  {
    Assoc(sent, [[ws[0]]], PlanFrom(ws[1..], [], size, false).groups);
  }

  lemma RemainsAfterFill(plan: Plan, sent: seq<seq<Weight>>, ws: seq<Weight>, cur: seq<Weight>, size: nat, useShm: bool)
    requires Remains(plan, sent, ws, cur, size, useShm) && ws != [] && SizeOf(cur) + |ws[0].bytes| <= size
    ensures Remains(plan, sent, ws[1..], cur + [ws[0]], size, useShm)
    ensures SizeOf(cur + [ws[0]]) == SizeOf(cur) + |ws[0].bytes|
  {
    assert (cur + [ws[0]])[..|cur|] == cur;
  }

  lemma RemainsAtEnd(plan: Plan, sent: seq<seq<Weight>>, ws: seq<Weight>, cur: seq<Weight>, size: nat, useShm: bool)
    requires Remains(plan, sent, ws, cur, size, useShm)
    ensures ws == [] ==> plan == Plan(sent + [cur], None)
    ensures ws != [] && cur == [] && |ws[0].bytes| > size && useShm ==> plan == Plan(sent, Some(TooLarge(ws[0].name)))
  {
    AppendNothing(sent);
  }

  lemma RemainsAtStart(ws: seq<Weight>, size: nat, useShm: bool)
    ensures Remains(PlanFrom(ws, [], size, useShm), [], ws, [], size, useShm)
  {
    AppendNothing(PlanFrom(ws, [], size, useShm).groups);
  }

  lemma DictsAdd(sent: seq<seq<Weight>>, g: seq<Weight>)
    ensures Dicts(sent + [g]) == Dicts(sent) + [DictOf(g)]
  {
  }

  lemma DictOfOne(w: Weight)
    ensures DictOf([w]) == [w]
  {
    assert [w][..0] == [];
  }

  class BucketedWeightSender {
    const buffer: array<Byte>
    const bucketSize: nat
    const useShm: bool

    constructor (buffer: array<Byte>, useShm: bool)
      ensures this.buffer == buffer && bucketSize == buffer.Length && this.useShm == useShm
    {
      this.buffer, this.bucketSize, this.useShm := buffer, buffer.Length, useShm;
    }

    /** _direct_send_large_weight */
    method DirectSend(w: Weight, receiver: BucketedWeightReceiver)
      requires receiver.buffer == buffer && !receiver.finished
      modifies receiver
      ensures receiver.delivered == old(receiver.delivered) + [[w]]
      ensures NoLastMessage(old(receiver.messages)) ==> NoLastMessage(receiver.messages)
      ensures !receiver.finished
    {
      var msg := Message([Entry(w.name, w.shape, w.dtype, 0, Some(w.bytes))], false);
      receiver.Receive(msg);
      assert ReadEntries(msg.entries, buffer[..]) == [w];
    }

    /** async_send_weights, for any mix of small and oversize weights. */
    method SendWeights(weights: seq<Weight>, receiver: BucketedWeightReceiver) returns (error: Option<SendError>)
      requires buffer.Length == bucketSize && receiver.buffer == buffer && !receiver.finished
      requires receiver.delivered == [] && receiver.messages == []
      requires forall w :: w in weights ==> w.Valid()
      modifies buffer, receiver
      ensures var plan := PlanFrom(weights, [], bucketSize, useShm);
              error == plan.error && receiver.delivered == Dicts(plan.groups)
      ensures receiver.finished == error.None?
      ensures forall k :: 0 <= k < |receiver.messages| ==>
                (receiver.messages[k].isLast <==> error.None? && k == |receiver.messages| - 1)
    {
      hide PlanFrom, Remains, ReadEntries, DictOf, Dicts, SizeOf, Slice, NoLastMessage, Below;
      var offset, entries: seq<Entry> := 0, [];
      ghost var cur: seq<Weight>, sent: seq<seq<Weight>> := [], [];
      ghost var plan := PlanFrom(weights, [], bucketSize, useShm);
      EmptyBucket(buffer[..]);
      RemainsAtStart(weights, bucketSize, useShm);
      assert weights[0..] == weights;
      var i := 0;
      while i < |weights|
        invariant 0 <= i <= |weights| && 0 <= offset <= bucketSize && offset == SizeOf(cur)
        invariant entries == [] <==> cur == []
        invariant Below(entries, offset) && ReadEntries(entries, buffer[..]) == DictOf(cur)
        invariant receiver.delivered == Dicts(sent) && !receiver.finished
        invariant Remains(plan, sent, weights[i..], cur, bucketSize, useShm)
        invariant NoLastMessage(receiver.messages)
      {
        var w := weights[i];
        Uncons(weights, i);
        assert w in weights;
        if offset + |w.bytes| > bucketSize && entries != [] {
          NoLastMessageGrows(receiver.messages, Message(entries, false));
          receiver.Receive(Message(entries, false));
          RemainsAfterFlush(plan, sent, weights[i..], cur, bucketSize, useShm);
          DictsAdd(sent, cur);
          sent, cur, offset, entries := sent + [cur], [], 0, [];
          EmptyBucket(buffer[..]);
        }
        if offset + |w.bytes| > bucketSize {
          EmptyBucket(buffer[..]);
          if useShm {
            RemainsAtEnd(plan, sent, weights[i..], cur, bucketSize, useShm);
            NoneOfThem(receiver.messages);
            return Some(TooLarge(w.name));
          }
          DirectSend(w, receiver);
          RemainsAfterDirect(plan, sent, weights[i..], bucketSize);
          DictsAdd(sent, [w]);
          DictOfOne(w);
          sent := sent + [[w]];
        } else {
          WriteEntry(entries, buffer[..], offset, w, cur);
          entries := Put(entries, Find(EntryNames(entries), w.name), Entry(w.name, w.shape, w.dtype, offset, None));
          WriteSlice(buffer, offset, w.bytes);
          RemainsAfterFill(plan, sent, weights[i..], cur, bucketSize, useShm);
          offset := offset + |w.bytes|;
          cur := cur + [w];
        }
        i := i + 1;
      }
      RemainsAtEnd(plan, sent, weights[i..], cur, bucketSize, useShm);
      DictsAdd(sent, cur);
      ghost var before := receiver.messages;
      receiver.Receive(Message(entries, true));
      error := None;
      assert receiver.messages[..|receiver.messages| - 1] == before;
      MessagesEnd(receiver.messages);
    }
  }

  lemma MessagesEnd(messages: seq<Message>)
    requires |messages| > 0 && NoLastMessage(messages[..|messages| - 1]) && messages[|messages| - 1].isLast
    ensures forall k :: 0 <= k < |messages| ==> (messages[k].isLast <==> k == |messages| - 1)
  {
    assert forall k :: 0 <= k < |messages| - 1 ==> messages[k] == messages[..|messages| - 1][k];
  }

  lemma NoneOfThem(messages: seq<Message>)
    requires NoLastMessage(messages)
    ensures forall k :: 0 <= k < |messages| ==> !messages[k].isLast
  {
  }

  lemma EmptyBucket(buffer: seq<Byte>)
    ensures ReadEntries([], buffer) == [] == DictOf([]) && SizeOf([]) == 0 && Dicts([]) == [] && Below([], 0)
    ensures NoLastMessage([])
  {
  }

  // --------------------------------------------------------------- exactness, end to end

  lemma {:induction false} GroupsOfDistinct(groups: seq<seq<Weight>>)
    requires DistinctNames(Flatten(groups))
    ensures forall g :: g in groups ==> DistinctNames(g)
  {
    if groups != [] {
      var g, rest := groups[0], Flatten(groups[1..]);
      assert forall i :: 0 <= i < |g| ==> (g + rest)[i] == g[i];
      assert forall i :: 0 <= i < |rest| ==> (g + rest)[|g| + i] == rest[i];
      assert DistinctNames(g);
      forall i, j | 0 <= i < j < |rest|
        ensures rest[i].name != rest[j].name
      {
        assert (g + rest)[|g| + i].name != (g + rest)[|g| + j].name;
      }
      GroupsOfDistinct(groups[1..]);
      assert groups == [g] + groups[1..];
    }
  }

  /** How full the buffer is when the sender comes to the i-th weight. */
  function Level(ws: seq<Weight>, size: nat, i: nat): nat
    requires i <= |ws|
  {
    if i == 0 then 0
    else
      var before, n := Level(ws, size, i - 1), |ws[i - 1].bytes|;
      if before + n <= size then before + n else if n <= size then n else 0
  }

  /** Two weights travel in the same message: the first goes into the buffer, and from then up to the second
      nothing overflows it. */
  predicate Meet(ws: seq<Weight>, size: nat, i: nat, j: nat)
    requires i < j < |ws|
  {
    |ws[i].bytes| <= size && forall k :: i < k <= j ==> Level(ws, size, k) + |ws[k].bytes| <= size
  }

  /** From a position on, no two weights of the same name meet. */
  ghost predicate NamesakesApart(ws: seq<Weight>, size: nat, lo: nat) {
    forall i, j :: lo <= i < j < |ws| && Meet(ws, size, i, j) ==> ws[i].name != ws[j].name
  }

  ghost predicate AllDistinct(groups: seq<seq<Weight>>) {
    forall g :: g in groups ==> DistinctNames(g)
  }

  lemma AllDistinctCons(g: seq<Weight>, rest: seq<seq<Weight>>)
    ensures AllDistinct([g] + rest) <==> DistinctNames(g) && AllDistinct(rest)
  {
    assert g in [g] + rest && forall x :: x in rest ==> x in [g] + rest;
  }

  /** The weights lo, ..., p - 1 are in the bucket that is being filled. */
  ghost predicate InBucket(ws: seq<Weight>, size: nat, lo: nat, p: nat) {
    && lo <= p <= |ws| && (forall i :: lo <= i < p ==> |ws[i].bytes| <= size)
    && (forall k :: lo < k < p ==> Level(ws, size, k) + |ws[k].bytes| <= size)
  }

  lemma MeetsInBucket(ws: seq<Weight>, size: nat, lo: nat, p: nat)
    requires InBucket(ws, size, lo, p)
    ensures p == |ws| ==> (NamesakesApart(ws, size, lo) <==> DistinctNames(ws[lo..p]))
    ensures p < |ws| && Level(ws, size, p) + |ws[p].bytes| > size ==>
              (NamesakesApart(ws, size, lo) <==> DistinctNames(ws[lo..p]) && NamesakesApart(ws, size, p))
  {
    var cur := ws[lo..p];
    assert forall i, j :: lo <= i < j < p ==> Meet(ws, size, i, j);
    assert forall i :: 0 <= i < |cur| ==> cur[i] == ws[lo + i];
    if NamesakesApart(ws, size, lo) {
      forall i, j | 0 <= i < j < |cur| ensures cur[i].name != cur[j].name {
        assert Meet(ws, size, lo + i, lo + j);
      }
    }
    if DistinctNames(cur) {
      forall i, j | lo <= i < j < p ensures ws[i].name != ws[j].name {
        assert cur[i - lo].name != cur[j - lo].name;
      }
    }
  }

  lemma OversizeIsAlone(ws: seq<Weight>, size: nat, p: nat)
    requires p < |ws| && |ws[p].bytes| > size
    ensures NamesakesApart(ws, size, p) <==> NamesakesApart(ws, size, p + 1)
  {
  }

  /** One weight of the plan: it joins the bucket, starts a new one, or travels alone. */
  lemma PlanStep(ws: seq<Weight>, size: nat, useShm: bool, lo: nat, p: nat)
    requires lo <= p < |ws| && (!useShm || |ws[p].bytes| <= size)
    ensures var n, rest := |ws[p].bytes|, ws[p + 1..];
            AllDistinct(PlanFrom(ws[p..], ws[lo..p], size, useShm).groups)
            <==> if SizeOf(ws[lo..p]) + n <= size then AllDistinct(PlanFrom(rest, ws[lo..p + 1], size, useShm).groups)
                 else
                   && DistinctNames(ws[lo..p])
                   && var next := if n <= size then ws[p..p + 1] else ws[p + 1..p + 1];
                      AllDistinct(PlanFrom(rest, next, size, useShm).groups)
  {
    hide AllDistinct, DistinctNames, SizeOf;
    var cur, w := ws[lo..p], ws[p];
    Uncons(ws, p);
    NothingDistinct(w);
    EmptyBucket([]);
    assert cur + [w] == ws[lo..p + 1] && [] + [w] == ws[p..p + 1] && ws[p + 1..p + 1] == [];
    AllDistinctCons(cur, PlanFrom(ws[p..], [], size, useShm).groups);
    AllDistinctCons([w], PlanFrom(ws[p + 1..], [], size, useShm).groups);
  }

  lemma PlanEnd(ws: seq<Weight>, size: nat, useShm: bool, cur: seq<Weight>)
    ensures AllDistinct(PlanFrom([], cur, size, useShm).groups) <==> DistinctNames(cur)
  {
  }

  lemma NothingDistinct(w: Weight)
    ensures DistinctNames([]) && DistinctNames([w])
  {
  }

  /** The groups that are still to come hold distinct names if and only if no two weights of the same name
      meet from the bucket being filled on. */
  lemma {:induction false} GroupsAreApart(ws: seq<Weight>, size: nat, useShm: bool, lo: nat, p: nat)
    requires InBucket(ws, size, lo, p) && SizeOf(ws[lo..p]) == Level(ws, size, p)
    requires !useShm || forall w :: w in ws ==> |w.bytes| <= size
    ensures AllDistinct(PlanFrom(ws[p..], ws[lo..p], size, useShm).groups) <==> NamesakesApart(ws, size, lo)
    decreases |ws| - p
  {
    hide NamesakesApart, DistinctNames, Meet, AllDistinct, SizeOf, PlanFrom, InBucket, Level;
    InBucketRange(ws, size, lo, p);
    MeetsInBucket(ws, size, lo, p);
    if p == |ws| {
      assert ws[p..] == [];
      PlanEnd(ws, size, useShm, ws[lo..p]);
    } else {
      assert ws[p] in ws;
      PlanStep(ws, size, useShm, lo, p);
      OneSize(ws, lo, p);
      BucketStep(ws, size, lo, p);
      if Level(ws, size, p) + |ws[p].bytes| <= size {
        GroupsAreApart(ws, size, useShm, lo, p + 1);
      } else if |ws[p].bytes| <= size {
        OneSize(ws, p, p);
        EmptyRange(ws, p);
        GroupsAreApart(ws, size, useShm, p, p + 1);
      } else {
        EmptyRange(ws, p + 1);
        OversizeIsAlone(ws, size, p);
        GroupsAreApart(ws, size, useShm, p + 1, p + 1);
      }
    }
  }

  lemma InBucketRange(ws: seq<Weight>, size: nat, lo: nat, p: nat)
    requires InBucket(ws, size, lo, p)
    ensures lo <= p <= |ws|
  {
  }

  lemma BucketStep(ws: seq<Weight>, size: nat, lo: nat, p: nat)
    requires InBucket(ws, size, lo, p) && p < |ws|
    ensures var before, after, n := Level(ws, size, p), Level(ws, size, p + 1), |ws[p].bytes|;
            if before + n <= size then InBucket(ws, size, lo, p + 1) && after == before + n
            else if n <= size then InBucket(ws, size, p, p + 1) && after == n
            else InBucket(ws, size, p + 1, p + 1) && after == 0
  {
  }

  lemma EmptyRange(ws: seq<Weight>, p: nat)
    requires p <= |ws|
    ensures ws[p..p] == [] && SizeOf(ws[p..p]) == 0
  {
  }

  lemma OneSize(ws: seq<Weight>, lo: nat, p: nat)
    requires lo <= p < |ws|
    ensures SizeOf(ws[lo..p + 1]) == SizeOf(ws[lo..p]) + |ws[p].bytes|
  {
    assert ws[lo..p + 1][..p - lo] == ws[lo..p];
  }

  /** The receiver is handed exactly the weight list, in order, if and only if no weight is refused and
      no two weights of the same name meet in a message. */
  lemma DeliveryIsExactIff(ws: seq<Weight>, size: nat, useShm: bool)
    ensures Flatten(Dicts(PlanFrom(ws, [], size, useShm).groups)) == ws
            <==> (!useShm || forall w :: w in ws ==> |w.bytes| <= size) && NamesakesApart(ws, size, 0)
  {
    hide PlanFrom, Dicts, Flatten, DistinctNames, NamesakesApart;
    var plan, n := PlanFrom(ws, [], size, useShm), Deliverable(ws, size, useShm);
    PlanConserves(ws, [], size, useShm);
    AppendNothing(ws[..n]);
    DictsLoseNothing(plan.groups);
    if n == |ws| {
      assert ws[..n] == ws && ws[0..] == ws && ws[0..0] == [];
      GroupsAreApart(ws, size, useShm, 0, 0);
    }
  }

  function NormalizedKeys(params: seq<Option<Weight>>, normalize: string -> string): (keys: seq<Option<string>>)
    ensures |keys| == |params|
    ensures forall i :: 0 <= i < |keys| ==>
              keys[i] == if params[i].Some? then Some(normalize(params[i].value.name)) else None
  {
    seq(|params|, i requires 0 <= i < |params| =>
      if params[i].Some? then Some(normalize(params[i].value.name)) else None)
  }

  /** _student_model_weight_items; what is not a tensor is None. The k-th different normalized name has as k-th
      item the first parameter of that name, under that name and otherwise as it is. */
  method StudentModelWeightItems(params: seq<Option<Weight>>, normalize: string -> string)
    returns (weights: seq<Weight>)
    ensures DistinctNames(weights)
    ensures var keys := NormalizedKeys(params, normalize);
            && |weights| == Firsts(keys, |params|)
            && forall i :: 0 <= i < |params| && IsFirst(keys, i) ==>
                 && params[i].Some? && Firsts(keys, i) < |weights|
                 && weights[Firsts(keys, i)] == params[i].value.(name := normalize(params[i].value.name))
    ensures forall i :: 0 <= i < |params| && params[i].Some? ==> normalize(params[i].value.name) in Names(weights)
  {
    weights := [];
    var seen: set<string> := {};
    ghost var keys, all := NormalizedKeys(params, normalize), Renamed(params, normalize);
    hide DistinctNames, ItemsInv, InOrder, IsFirst, Names;
    var i := 0;
    NoItems(keys, all);
    while i < |params|
      invariant 0 <= i <= |params| && ItemsInv(keys, i, all, weights, seen)
    {
      if params[i].Some? {
        var normalized := normalize(params[i].value.name);
        NextItem(keys, i, all, weights, seen);
        if normalized !in seen {
          seen := seen + {normalized};
          weights := weights + [params[i].value.(name := normalized)];
        }
      } else {
        NoItem(keys, i, all, weights, seen);
      }
      i := i + 1;
    }
    ItemsDone(keys, all, weights, seen);
  }

  /** After the first n parameters. */
  ghost predicate ItemsInv(keys: seq<Option<string>>, n: nat, all: seq<Option<Weight>>, weights: seq<Weight>,
                           seen: set<string>)
    requires n <= |keys| == |all|
  {
    && InOrder(keys, n, all, weights) && DistinctNames(weights)
    && (forall name :: name in seen <==> name in Names(weights))
    && (forall name :: name in seen <==> Some(name) in keys[..n])
  }

  lemma ItemsDone(keys: seq<Option<string>>, all: seq<Option<Weight>>, weights: seq<Weight>, seen: set<string>)
    requires |keys| == |all| && ItemsInv(keys, |keys|, all, weights, seen)
    ensures DistinctNames(weights) && |weights| == Firsts(keys, |keys|)
    ensures forall i :: 0 <= i < |keys| && IsFirst(keys, i) ==>
              keys[i].Some? && Firsts(keys, i) < |weights| && all[i] == Some(weights[Firsts(keys, i)])
    ensures forall i :: 0 <= i < |keys| && keys[i].Some? ==> keys[i].value in Names(weights)
  {
    hide DistinctNames, Names;
    assert keys[..|keys|] == keys;
    forall i | 0 <= i < |keys| && keys[i].Some? ensures keys[i].value in Names(weights) {
      assert keys[i] == Some(keys[i].value) && keys[i] in keys;
    }
  }

  lemma NoItems(keys: seq<Option<string>>, all: seq<Option<Weight>>)
    requires |keys| == |all|
    ensures ItemsInv(keys, 0, all, [], {})
  {
  }

  lemma NoItem(keys: seq<Option<string>>, n: nat, all: seq<Option<Weight>>, weights: seq<Weight>, seen: set<string>)
    requires n < |keys| == |all| && ItemsInv(keys, n, all, weights, seen) && keys[n].None?
    ensures ItemsInv(keys, n + 1, all, weights, seen)
  {
    hide InOrder, DistinctNames, Names;
    NextInOrder(keys, n, all, weights);
    TakeOneMore(keys, n);
  }

  lemma NextItem(keys: seq<Option<string>>, n: nat, all: seq<Option<Weight>>, weights: seq<Weight>, seen: set<string>)
    requires n < |keys| == |all| && ItemsInv(keys, n, all, weights, seen)
    requires all[n].Some? && keys[n] == Some(all[n].value.name)
    ensures var w := all[n].value;
            if w.name in seen then ItemsInv(keys, n + 1, all, weights, seen)
            else ItemsInv(keys, n + 1, all, weights + [w], seen + {w.name})
  {
    hide InOrder, DistinctNames, Names, IsFirst;
    NextInOrder(keys, n, all, weights);
    FirstIff(keys, n);
    TakeOneMore(keys, n);
    AddName(weights, all[n].value);
  }

  function Renamed(params: seq<Option<Weight>>, normalize: string -> string): (all: seq<Option<Weight>>)
    ensures |all| == |params|
    ensures forall i :: 0 <= i < |all| ==>
              all[i] == if params[i].None? then None
                        else Some(params[i].value.(name := normalize(params[i].value.name)))
  {
    seq(|params|, i requires 0 <= i < |params| =>
      if params[i].Some? then Some(params[i].value.(name := normalize(params[i].value.name))) else None)
  }

  lemma AddName(ws: seq<Weight>, w: Weight)
    ensures forall n :: n in Names(ws + [w]) <==> n in Names(ws) || n == w.name
    ensures DistinctNames(ws) && w.name !in Names(ws) ==> DistinctNames(ws + [w])
  {
    assert Names(ws + [w]) == Names(ws) + [w.name];
    assert forall k :: 0 <= k < |ws| ==> Names(ws)[k] == ws[k].name;
  }

  /** The names that the trainer sends are distinct (StudentModelWeightItems), so the delivery is exact unless a
      weight is refused; then it is exactly the weights before that one. */
  lemma DistinctNamesAreDelivered(ws: seq<Weight>, size: nat, useShm: bool)
    requires DistinctNames(ws)
    ensures var plan, n := PlanFrom(ws, [], size, useShm), Deliverable(ws, size, useShm);
            && Flatten(Dicts(plan.groups)) == ws[..n]
            && (plan.error.None? <==> !useShm || forall w :: w in ws ==> |w.bytes| <= size)
  {
    hide PlanFrom, Dicts, Flatten;
    var plan, n := PlanFrom(ws, [], size, useShm), Deliverable(ws, size, useShm);
    PlanConserves(ws, [], size, useShm);
    AppendNothing(ws[..n]);
    assert DistinctNames(ws[..n]);
    GroupsOfDistinct(plan.groups);
    DictsLoseNothing(plan.groups);
  }

  // --------------------------------------------------------------- the size pre-check

  /** An item of the weight list, before it is cast; what is not a tensor is skipped. */
  datatype Item = Tensor(weight: Weight, floating: bool) | NotATensor

  /** The k-th byte of a tensor that is converted to a dtype. */
  type Conversion = (Weight, DType, nat) -> Byte

  /** value.to(dtype) */
  function To(w: Weight, dtype: DType, convert: Conversion): (r: Weight)
    ensures r.Valid() && r.name == w.name
  {
    w.(dtype := dtype, bytes := seq(NBytes(w.shape, dtype), k requires 0 <= k => convert(w, dtype, k)))
  }

  /** What the sender is given for a tensor. */
  function Prepared(t: Item, syncDType: Option<DType>, convert: Conversion): Weight
    requires t.Tensor?
  {
    if syncDType.Some? && t.floating then To(t.weight, syncDType.value, convert) else t.weight
  }

  function PreparedUpTo(items: seq<Item>, n: nat, syncDType: Option<DType>, convert: Conversion): seq<Weight>
    requires n <= |items|
  {
    if n == 0 then []
    else
      PreparedUpTo(items, n - 1, syncDType, convert)
      + if items[n - 1].Tensor? then [Prepared(items[n - 1], syncDType, convert)] else []
  }

  function AllPrepared(items: seq<Item>, syncDType: Option<DType>, convert: Conversion): seq<Weight> {
    PreparedUpTo(items, |items|, syncDType, convert)
  }

  /** How many of the first n items are tensors. */
  function TensorsBefore(items: seq<Item>, n: nat): nat
    requires n <= |items|
  {
    if n == 0 then 0 else TensorsBefore(items, n - 1) + if items[n - 1].Tensor? then 1 else 0
  }

  /** What is sent for the items: a weight for every tensor among them, in their order. A tensor that is not
      floating, or any if no dtype is asked for, is sent as it is; another keeps its name and shape, and has
      the dtype that is asked for and the converted bytes. */
  ghost predicate SentFor(items: seq<Item>, syncDType: Option<DType>, convert: Conversion, ws: seq<Weight>) {
    && |ws| == TensorsBefore(items, |items|)
    && forall i :: 0 <= i < |items| && items[i].Tensor? ==>
         && TensorsBefore(items, i) < |ws|
         && var w, t := ws[TensorsBefore(items, i)], items[i].weight;
            if syncDType.None? || !items[i].floating then w == t
            else
              && w.name == t.name && w.shape == t.shape && w.dtype == syncDType.value
              && |w.bytes| == NBytes(t.shape, syncDType.value)
              && forall k :: 0 <= k < |w.bytes| ==> w.bytes[k] == convert(t, syncDType.value, k)
  }

  lemma {:induction false} PreparedCount(items: seq<Item>, n: nat, syncDType: Option<DType>, convert: Conversion)
    requires n <= |items|
    ensures |PreparedUpTo(items, n, syncDType, convert)| == TensorsBefore(items, n)
  {
    if n > 0 {
      PreparedCount(items, n - 1, syncDType, convert);
    }
  }

  lemma {:induction false} PreparedAt(items: seq<Item>, n: nat, i: nat, syncDType: Option<DType>, convert: Conversion)
    requires i < n <= |items| && items[i].Tensor?
    ensures var ws, k := PreparedUpTo(items, n, syncDType, convert), TensorsBefore(items, i);
            k < |ws| && ws[k] == Prepared(items[i], syncDType, convert)
  {
    hide Prepared;
    PreparedCount(items, n - 1, syncDType, convert);
    if i < n - 1 {
      PreparedAt(items, n - 1, i, syncDType, convert);
    }
  }

  lemma {:induction false} PreparedFrom(items: seq<Item>, n: nat, syncDType: Option<DType>, convert: Conversion,
                                        w: Weight)
    returns (i: nat)
    requires n <= |items| && w in PreparedUpTo(items, n, syncDType, convert)
    ensures i < n && items[i].Tensor? && w == Prepared(items[i], syncDType, convert)
  {
    hide Prepared;
    if w in PreparedUpTo(items, n - 1, syncDType, convert) {
      i := PreparedFrom(items, n - 1, syncDType, convert, w);
    } else {
      i := n - 1;
    }
  }

  lemma PreparedIsSentFor(items: seq<Item>, syncDType: Option<DType>, convert: Conversion)
    ensures SentFor(items, syncDType, convert, AllPrepared(items, syncDType, convert))
  {
    hide PreparedUpTo, TensorsBefore, NBytes;
    PreparedCount(items, |items|, syncDType, convert);
    forall i | 0 <= i < |items| && items[i].Tensor?
      ensures var ws, k := AllPrepared(items, syncDType, convert), TensorsBefore(items, i);
              k < |ws| && ws[k] == Prepared(items[i], syncDType, convert)
    {
      PreparedAt(items, |items|, i, syncDType, convert);
    }
  }

  ghost predicate AllValid(items: seq<Item>) {
    forall t :: t in items && t.Tensor? ==> t.weight.Valid()
  }

  /** _iter_prepared_weight_items_for_ipc */
  method PrepareItems(items: seq<Item>, syncDType: Option<DType>, convert: Conversion) returns (ws: seq<Weight>)
    ensures ws == AllPrepared(items, syncDType, convert) && SentFor(items, syncDType, convert, ws)
  {
    PreparedIsSentFor(items, syncDType, convert);
    hide SentFor, To;
    ws := [];
    var i := 0;
    while i < |items|
      invariant 0 <= i <= |items| && ws == PreparedUpTo(items, i, syncDType, convert)
    {
      if items[i].Tensor? {
        var value := items[i].weight;
        if syncDType.Some? && items[i].floating {
          value := To(value, syncDType.value, convert);
        }
        ws := ws + [value];
      } else {
        AppendNothing(ws);
      }
      i := i + 1;
    }
  }

  /** _estimated_ipc_nbytes: the size without the cast. */
  function EstimatedNBytes(t: Item, syncDType: Option<DType>): nat
    requires t.Tensor?
  {
    var dtype := if syncDType.Some? && t.floating then syncDType.value else t.weight.dtype;
    Numel(t.weight.shape) * dtype.itemsize
  }

  /** _largest_weight_item_for_ipc: the first of the largest tensors. */
  method LargestItem(items: seq<Item>, syncDType: Option<DType>) returns (largest: Option<nat>)
    ensures largest.None? <==> forall i :: 0 <= i < |items| ==> items[i].NotATensor?
    ensures largest.Some? ==>
              && 0 <= largest.value < |items| && items[largest.value].Tensor?
              && forall i :: 0 <= i < |items| && items[i].Tensor? ==>
                   && EstimatedNBytes(items[i], syncDType) <= EstimatedNBytes(items[largest.value], syncDType)
                   && (i < largest.value ==>
                         EstimatedNBytes(items[i], syncDType) < EstimatedNBytes(items[largest.value], syncDType))
  {
    largest := None;
    var n := 0;
    while n < |items|
      invariant 0 <= n <= |items|
      invariant largest.None? <==> forall i :: 0 <= i < n ==> items[i].NotATensor?
      invariant largest.Some? ==>
                  && 0 <= largest.value < n && items[largest.value].Tensor?
                  && forall i :: 0 <= i < n && items[i].Tensor? ==>
                       && EstimatedNBytes(items[i], syncDType) <= EstimatedNBytes(items[largest.value], syncDType)
                       && (i < largest.value ==>
                             EstimatedNBytes(items[i], syncDType) < EstimatedNBytes(items[largest.value], syncDType))
    {
      if items[n].Tensor? {
        if largest.None? || EstimatedNBytes(items[n], syncDType) > EstimatedNBytes(items[largest.value], syncDType) {
          largest := Some(n);
        }
      }
      n := n + 1;
    }
  }

  /** Item by item the estimate is the size of what the sender is given; so the estimates stay within a bound
      exactly when the sizes do. */
  lemma EstimateIsExact(items: seq<Item>, syncDType: Option<DType>, convert: Conversion, size: nat)
    requires AllValid(items)
    ensures var ws := AllPrepared(items, syncDType, convert);
            && (forall i :: 0 <= i < |items| && items[i].Tensor? ==>
                  && TensorsBefore(items, i) < |ws|
                  && |ws[TensorsBefore(items, i)].bytes| == EstimatedNBytes(items[i], syncDType))
            && ((forall w :: w in ws ==> |w.bytes| <= size)
                <==> forall t :: t in items && t.Tensor? ==> EstimatedNBytes(t, syncDType) <= size)
            && forall w :: w in ws ==> w.Valid()
  {
    hide Numel, PreparedUpTo, TensorsBefore, Prepared, EstimatedNBytes;
    var ws := AllPrepared(items, syncDType, convert);
    forall i | 0 <= i < |items| && items[i].Tensor?
      ensures TensorsBefore(items, i) < |ws| && ws[TensorsBefore(items, i)] in ws
      ensures |ws[TensorsBefore(items, i)].bytes| == EstimatedNBytes(items[i], syncDType)
    {
      PreparedAt(items, |items|, i, syncDType, convert);
      PreparedSize(items, i, syncDType, convert);
    }
    forall w | w in ws
      ensures w.Valid() && exists t :: t in items && t.Tensor? && |w.bytes| == EstimatedNBytes(t, syncDType)
    {
      var i := PreparedFrom(items, |items|, syncDType, convert, w);
      PreparedSize(items, i, syncDType, convert);
      assert items[i] in items;
    }
  }

  lemma PreparedSize(items: seq<Item>, i: nat, syncDType: Option<DType>, convert: Conversion)
    requires AllValid(items) && i < |items| && items[i].Tensor?
    ensures var w := Prepared(items[i], syncDType, convert);
            w.Valid() && |w.bytes| == EstimatedNBytes(items[i], syncDType)
  {
    hide Numel;
    assert items[i] in items;
  }

  /** send_weight_items_ipc on a list of weights. The pre-check refuses, before anything is sent, exactly
      the lists that the sender would fail on in the middle of the stream, so that failure is never seen. */
  method SendWeightItems(items: seq<Item>, syncDType: Option<DType>, convert: Conversion,
                         sender: BucketedWeightSender, receiver: BucketedWeightReceiver)
    returns (refused: bool, error: Option<SendError>)
    requires AllValid(items)
    requires sender.buffer.Length == sender.bucketSize && receiver.buffer == sender.buffer && !receiver.finished
    requires receiver.delivered == [] && receiver.messages == []
    modifies sender.buffer, receiver
    ensures var ws := AllPrepared(items, syncDType, convert);
            && SentFor(items, syncDType, convert, ws)
            && (refused <==> sender.useShm && exists w :: w in ws && |w.bytes| > sender.bucketSize)
            && (!refused ==>
                  && receiver.finished
                  && (Flatten(receiver.delivered) == ws <==> NamesakesApart(ws, sender.bucketSize, 0)))
    ensures refused ==> receiver.messages == [] && !receiver.finished && sender.buffer[..] == old(sender.buffer[..])
    ensures error.None?
  {
    hide Flatten, NamesakesApart, AllPrepared, Prepared, SentFor;
    PreparedIsSentFor(items, syncDType, convert);
    refused, error := false, None;
    ghost var all := AllPrepared(items, syncDType, convert);
    EstimateIsExact(items, syncDType, convert, sender.bucketSize);
    if sender.useShm {
      var largest := LargestItem(items, syncDType);
      if largest.Some? {
        if EstimatedNBytes(items[largest.value], syncDType) > sender.bucketSize {
          refused := true;
          return;
        }
      }
    }
    PlanConserves(all, [], sender.bucketSize, sender.useShm);
    DeliveryIsExactIff(all, sender.bucketSize, sender.useShm);
    var ws := PrepareItems(items, syncDType, convert);
    error := sender.SendWeights(ws, receiver);
  }
}
