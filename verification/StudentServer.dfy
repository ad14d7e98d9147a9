/**
 The student server: weight sync sessions, the receiver thread each of them starts, and generation.

 Requests run one at a time under the server's lock; receiver threads run freely beside them and are
 what changes the engine's weights. Waiting for a thread to end (thread.join) only lets that thread take
 steps, so finishing or aborting is one event at the point where its outcome is decided. Generating is
 two events and so is starting a session, with the lock held between them.
 */
module StudentServer {
  import opened Options
  import opened Seqs
  import opened Chunks
  import opened BucketedTransfer
  import HotSync

  type Engine = map<string, seq<Byte>>

  function Load(engine: Engine, ws: seq<Weight>): Engine {
    if ws == [] then engine else Load(engine, ws[..|ws| - 1])[ws[|ws| - 1].name := ws[|ws| - 1].bytes]
  }

  /** A receiver thread: the ok field of its result box, and whether it is alive. */
  datatype Thread = Thread(ok: Option<bool>, alive: bool)

  /** Who holds the lock: nobody, the start request of a session, or a generate request. */
  datatype Lock = Free | Starting(id: nat) | Generating

  datatype State = State(
    threads: map<nat, Thread>,      // by session id
    active: Option<nat>,            // active_sync_session
    lock: Lock,
    version: nat,                   // weight_version
    engine: Engine,
    // history
    current: seq<Weight>,           // loaded by the thread of the active session
    completed: seq<Weight>,         // loaded by sessions that were finished, in order
    discards: seq<seq<Weight>>,     // loaded by each session that was aborted or failed
    dirty: set<string>)             // names those loaded and no finished session has loaded since

  datatype Event =
    // the receiver thread of a session
    | LoadBucket(id: nat, ws: seq<Weight>)
    | EndOk(id: nat)
    | EndFailed(id: nat, partial: seq<Weight>)
    | Die(id: nat)                  // ends without a result
    | Exit(id: nat)
    // requests
    | GenerateBegin
    | GenerateEnd
    | StartBegin(id: nat)
    | StartCheck
    | Finish(id: nat)
    | Abort(id: nat)

  datatype Response =
    | Silent
    | Generated(weights: Engine, version: nat)
    | SessionStarted(id: nat)
    | SessionFinished(version: nat)
    | SessionAborted
    | NoSession                     // abort without a session is not an error
    | Error(error: RequestError)

  datatype RequestError = SyncIsActive | AlreadyActive | NotActive | SessionMismatch | StillRunning | ReceiverFailed

  function NamesOf(ws: seq<Weight>): set<string> {
    set w | w in ws :: w.name
  }

  predicate Running(s: State, id: nat) {
    id in s.threads && s.threads[id].alive && s.threads[id].ok.None?
  }

  predicate IsRequest(e: Event) {
    !(e.LoadBucket? || e.EndOk? || e.EndFailed? || e.Die? || e.Exit?)
  }

  /** A session id is fresh; requests wait for the lock. */
  predicate Enabled(s: State, e: Event) {
    match e
    case LoadBucket(id, _) => Running(s, id)
    case EndOk(id) => Running(s, id)
    case EndFailed(id, _) => Running(s, id)
    case Die(id) => Running(s, id)
    case Exit(id) => id in s.threads && s.threads[id].alive && s.threads[id].ok.Some?
    case StartBegin(id) => s.lock.Free? && id !in s.threads
    case StartCheck => s.lock.Starting? && s.lock.id in s.threads
    case GenerateEnd => s.lock.Generating?
    case _ => s.lock.Free?
  }

  function LoadInto(s: State, ws: seq<Weight>): State {
    s.(engine := Load(s.engine, ws), current := s.current + ws)
  }

  /** Gives up the active session without counting it. */
  function Discard(s: State): State {
    s.(active := None, current := [], discards := s.discards + [s.current],
       dirty := s.dirty + NamesOf(s.current))
  }

  function Complete(s: State): State {
    s.(active := None, version := s.version + 1, current := [],
       completed := s.completed + s.current, dirty := s.dirty - NamesOf(s.current))
  }

  /** The receiver thread has been started; its session is active. */
  function Started(s: State, id: nat): State {
    s.(threads := s.threads[id := Thread(None, true)], active := Some(id), lock := Starting(id), current := [])
  }

  function Step(s: State, e: Event): (State, Response)
    requires Enabled(s, e)
  {
    match e
    case LoadBucket(id, ws) => (LoadInto(s, ws), Silent)
    case EndOk(id) => (s.(threads := s.threads[id := Thread(Some(true), true)]), Silent)
    case EndFailed(id, partial) =>
      (LoadInto(s, partial).(threads := s.threads[id := Thread(Some(false), true)]), Silent)
    case Die(id) => (s.(threads := s.threads[id := Thread(None, false)]), Silent)
    case Exit(id) => (s.(threads := s.threads[id := s.threads[id].(alive := false)]), Silent)
    case GenerateBegin => if s.active.Some? then (s, Error(SyncIsActive)) else (s.(lock := Generating), Silent)
    case GenerateEnd => (s.(lock := Free), Generated(s.engine, s.version))
    case StartBegin(id) =>
      if s.active.Some? then (s, Error(AlreadyActive))
      else (Started(s, id), Silent)
    case StartCheck =>
      var id := s.lock.id;
      if s.threads[id].ok == Some(false) then (Discard(s).(lock := Free), Error(ReceiverFailed))
      else (s.(lock := Free), SessionStarted(id))
    case Finish(id) =>
      if s.active.None? then (s, Error(NotActive))
      else if s.active.value != id then (s, Error(SessionMismatch))
      else if id !in s.threads || s.threads[id].alive then (s, Error(StillRunning))
      else if s.threads[id].ok != Some(true) then (Discard(s), Error(ReceiverFailed))
      else (Complete(s), SessionFinished(s.version + 1))
    case Abort(id) =>
      if s.active.None? then (s, NoSession)
      else if s.active.value != id then (s, Error(SessionMismatch))
      else if id !in s.threads || s.threads[id].alive then (s, Error(StillRunning))
      else (Discard(s), SessionAborted)
  }

  predicate Init(s: State) {
    s.threads == map[] && s.active == None && s.lock == Free && s.version == 0
    && s.current == [] && s.completed == [] && s.discards == [] && s.dirty == {}
  }

  /** The responses along a run, and where it ends. */
  function Responses(s: State, es: seq<Event>): seq<Response>
    requires Legal(s, es)
    decreases |es|
  {
    if es == [] then [] else [Step(s, es[0]).1] + Responses(Step(s, es[0]).0, es[1..])
  }

  predicate Legal(s: State, es: seq<Event>)
    decreases |es|
  {
    es == [] || (Enabled(s, es[0]) && Legal(Step(s, es[0]).0, es[1..]))
  }

  function Run(s: State, es: seq<Event>): State
    requires Legal(s, es)
    decreases |es|
  {
    if es == [] then s else Run(Step(s, es[0]).0, es[1..])
  }

  // --------------------------------------------------------------------- invariant

  /** Names outside the set have the same weights in both engines. */
  ghost predicate AgreeOutside(a: Engine, b: Engine, names: set<string>) {
    forall n :: (n in a || n in b) && n !in names ==> n in a && n in b && a[n] == b[n]
  }

  /** Only the thread of the active session can be running. */
  ghost predicate ThreadsInv(s: State) {
    && (forall id: nat :: Running(s, id) ==> s.active == Some(id))
    && (s.lock.Starting? ==> s.active == Some(s.lock.id))
    && (s.lock.Generating? ==> s.active.None?)
    && (s.active.Some? ==> s.active.value in s.threads)
    && (s.active.None? ==> s.current == [])
  }

  /** engine0 is what the engine held when the server came up. */
  ghost predicate Inv(s: State, engine0: Engine) {
    && ThreadsInv(s)
    && AgreeOutside(s.engine, Load(Load(engine0, s.completed), s.current), s.dirty - NamesOf(s.current))
  }

  lemma {:induction false} LoadAdds(engine: Engine, a: seq<Weight>, b: seq<Weight>)
    ensures Load(engine, a + b) == Load(Load(engine, a), b)
    decreases |b|
  {
    if b == [] {
      AppendNothing(a);
    } else {
      var n := |b| - 1;
      assert (a + b)[..|a + b| - 1] == a + b[..n];
      LoadAdds(engine, a, b[..n]);
    }
  }

  lemma {:induction false} LoadTouches(engine: Engine, ws: seq<Weight>)
    ensures Load(engine, ws).Keys == engine.Keys + NamesOf(ws)
    ensures AgreeOutside(Load(engine, ws), engine, NamesOf(ws))
  {
    if ws != [] {
      var init, w := ws[..|ws| - 1], ws[|ws| - 1];
      LoadTouches(engine, init);
      assert ws == init + [w];
      assert NamesOf(ws) == NamesOf(init) + {w.name};
    }
  }

  /** Loading the same weights makes two engines agree on their names, whatever they held. */
  lemma {:induction false} LoadOverrides(a: Engine, b: Engine, ws: seq<Weight>, names: set<string>)
    requires AgreeOutside(a, b, names)
    ensures AgreeOutside(Load(a, ws), Load(b, ws), names - NamesOf(ws))
  {
    if ws != [] {
      var init, w := ws[..|ws| - 1], ws[|ws| - 1];
      LoadOverrides(a, b, init, names);
      assert ws == init + [w];
      assert NamesOf(ws) == NamesOf(init) + {w.name};
    }
  }

  /** Under every name the engine has the last weight of that name. */
  lemma {:induction false} LoadIsLast(engine: Engine, ws: seq<Weight>, k: nat)
    requires k < |ws| && forall j :: k < j < |ws| ==> ws[j].name != ws[k].name
    ensures ws[k].name in Load(engine, ws) && Load(engine, ws)[ws[k].name] == ws[k].bytes
  {
    if k < |ws| - 1 {
      LoadIsLast(engine, ws[..|ws| - 1], k);
    }
  }

  lemma NamesAdd(a: seq<Weight>, b: seq<Weight>)
    ensures NamesOf(a + b) == NamesOf(a) + NamesOf(b)
  {
  }

  lemma SetThreadKeeps(s: State, id: nat, thread: Thread)
    requires ThreadsInv(s) && id in s.threads && (thread.ok.Some? || !thread.alive)
    ensures ThreadsInv(s.(threads := s.threads[id := thread]))
  {
  }

  lemma LeaveThreads(s: State, t: State)
    requires ThreadsInv(s) && (s.active.Some? ==> !Running(s, s.active.value))
    requires t.threads == s.threads && t.active.None? && !t.lock.Starting? && t.current == []
    ensures ThreadsInv(t)
  {
  }

  lemma StartThread(s: State, id: nat)
    requires ThreadsInv(s) && s.active.None?
    ensures ThreadsInv(Started(s, id))
  {
  }

  lemma LoadThreads(s: State, ws: seq<Weight>, id: nat)
    requires ThreadsInv(s) && Running(s, id)
    ensures ThreadsInv(LoadInto(s, ws))
  {
    assert forall k: nat :: Running(LoadInto(s, ws), k) <==> Running(s, k);
  }

  lemma StepThreads(s: State, e: Event, engine0: Engine)
    requires Inv(s, engine0) && Enabled(s, e)
    ensures ThreadsInv(Step(s, e).0)
  {
    hide AgreeOutside, Load, NamesOf, ThreadsInv, LoadInto;
    var t := Step(s, e).0;
    match e
    case LoadBucket(id, ws) => LoadThreads(s, ws, id);
    case EndOk(id) => SetThreadKeeps(s, id, Thread(Some(true), true));
    case EndFailed(id, ws) =>
      LoadThreads(s, ws, id);
      SameThreads(s, ws);
      SetThreadKeeps(LoadInto(s, ws), id, Thread(Some(false), true));
    case Die(id) => SetThreadKeeps(s, id, Thread(None, false));
    case Exit(id) => SetThreadKeeps(s, id, s.threads[id].(alive := false));
    case StartBegin(id) => if s.active.None? { StartThread(s, id); }
    case StartCheck => HolderIsActive(s); if t.active.None? { LeaveThreads(s, t); } else { HoldLock(s, Free); }
    case Finish(_) => if t.active != s.active { LeaveThreads(s, t); }
    case Abort(_) => if t.active != s.active { LeaveThreads(s, t); }
    case GenerateBegin => if s.active.None? { HoldLock(s, Generating); }
    case GenerateEnd => HoldLock(s, Free);
  }

  lemma SameThreads(s: State, ws: seq<Weight>)
    ensures LoadInto(s, ws).threads == s.threads
  {
  }

  lemma HolderIsActive(s: State)
    requires ThreadsInv(s)
    ensures s.lock.Starting? ==> s.active == Some(s.lock.id)
  {
  }

  lemma HoldLock(s: State, lock: Lock)
    requires ThreadsInv(s) && !lock.Starting? && (lock.Generating? ==> s.active.None?)
    ensures ThreadsInv(s.(lock := lock))
  {
    assert forall k: nat :: Running(s.(lock := lock), k) <==> Running(s, k);
  }

  lemma StepInv(s: State, e: Event, engine0: Engine)
    requires Inv(s, engine0) && Enabled(s, e)
    ensures Inv(Step(s, e).0, engine0)
  {
    hide AgreeOutside, ThreadsInv, NamesOf, Load;
    StepThreads(s, e, engine0);
    var base := Load(engine0, s.completed);
    match e
    case LoadBucket(id, ws) => LoadKeepsInv(s, ws, base);
    case EndFailed(id, ws) => LoadKeepsInv(s, ws, base);
    case Finish(_) => LoadAdds(engine0, s.completed, s.current); FinishKeepsInv(s, base);
    case Abort(_) => LeaveKeepsInv(s, base);
    case StartCheck => LeaveKeepsInv(s, base);
    case StartBegin(_) => NothingRunning(s);
    case _ =>
  }

  lemma NothingRunning(s: State)
    requires ThreadsInv(s)
    ensures s.active.None? ==> s.current == []
  {
  }

  lemma FinishKeepsInv(s: State, base: Engine)
    requires AgreeOutside(s.engine, Load(base, s.current), s.dirty - NamesOf(s.current))
    ensures AgreeOutside(Complete(s).engine, Load(Load(base, s.current), []), Complete(s).dirty - NamesOf([]))
    ensures AgreeOutside(Discard(s).engine, Load(base, []), Discard(s).dirty - NamesOf([]))
  {
    LeaveKeepsInv(s, base);
  }

  lemma LoadKeepsInv(s: State, ws: seq<Weight>, base: Engine)
    requires AgreeOutside(s.engine, Load(base, s.current), s.dirty - NamesOf(s.current))
    ensures var t := LoadInto(s, ws); AgreeOutside(t.engine, Load(base, t.current), t.dirty - NamesOf(t.current))
  {
    LoadOverrides(s.engine, Load(base, s.current), ws, s.dirty - NamesOf(s.current));
    LoadAdds(base, s.current, ws);
    NamesAdd(s.current, ws);
  }

  lemma LeaveKeepsInv(s: State, base: Engine)
    requires AgreeOutside(s.engine, Load(base, s.current), s.dirty - NamesOf(s.current))
    ensures AgreeOutside(Discard(s).engine, Load(base, []), Discard(s).dirty - NamesOf([]))
  {
    LoadTouches(base, s.current);
  }

  lemma {:induction false} RunInv(s: State, es: seq<Event>, engine0: Engine)
    requires Inv(s, engine0) && Legal(s, es)
    ensures Inv(Run(s, es), engine0)
    decreases |es|
  {
    hide Inv, Enabled;
    if es != [] {
      StepInv(s, es[0], engine0);
      RunInv(Step(s, es[0]).0, es[1..], engine0);
    }
  }

  // -------------------------------------------------------------------- main results

  /** Between the two events of a generation nothing can change but threads that exit. */
  lemma {:induction false} OnlyExits(s: State, es: seq<Event>)
    requires ThreadsInv(s) && s.lock.Generating? && Legal(s, es) && GenerateEnd !in es
    ensures Run(s, es) == s.(threads := Run(s, es).threads) && ThreadsInv(Run(s, es))
    decreases |es|
  {
    if es != [] {
      var e := es[0];
      assert e in es && e.Exit?;
      SetThreadKeeps(s, e.id, s.threads[e.id].(alive := false));
      OnlyExits(Step(s, e).0, es[1..]);
    }
  }

  /** A generation that has begun, which it does exactly when no session is active, sees one model: up to
      its end no event of any request or thread changes the engine or the version, no session begins, and
      its response reports the weights and the version it began with. */
  lemma GenerationNeverOverlapsSync(s0: State, es: seq<Event>, during: seq<Event>)
    requires Init(s0) && Legal(s0, es) && Enabled(Run(s0, es), GenerateBegin)
    ensures var s := Run(s0, es);
            Step(s, GenerateBegin).0.lock.Generating? <==> s.active.None?
    ensures var s := Run(s0, es);
            s.active.None? && Legal(Step(s, GenerateBegin).0, during) && GenerateEnd !in during ==>
              var t := Run(Step(s, GenerateBegin).0, during);
              && t.lock.Generating? && t.active.None? && t.engine == s.engine
              && Step(t, GenerateEnd).1 == Generated(s.engine, s.version)
              && forall e :: Enabled(t, e) ==> Step(t, e).0.engine == s.engine
  {
    RunInv(s0, es, s0.engine) by { InitInv(s0); }
    var s := Run(s0, es);
    if s.active.None? && Legal(Step(s, GenerateBegin).0, during) && GenerateEnd !in during {
      StepInv(s, GenerateBegin, s0.engine);
      OnlyExits(Step(s, GenerateBegin).0, during);
      var t := Run(Step(s, GenerateBegin).0, during);
      forall e | Enabled(t, e)
        ensures Step(t, e).0.engine == s.engine
      {
        EngineIsStill(t, e);
      }
    }
  }

  function Successes(rs: seq<Response>): nat {
    if rs == [] then 0 else (if rs[0].SessionFinished? then 1 else 0) + Successes(rs[1..])
  }

  lemma EngineIsStill(s: State, e: Event)
    requires ThreadsInv(s) && s.active.None? && Enabled(s, e)
    ensures Step(s, e).0.engine == s.engine
  {
    hide NamesOf, Load;
  }

  /** What one event does to the counts. */
  lemma StepCounts(s: State, e: Event)
    requires Enabled(s, e)
    ensures var (t, r) := Step(s, e);
            && t.version == s.version + (if r.SessionFinished? then 1 else 0)
            && s.discards <= t.discards
            && (t.discards == s.discards ==> t.dirty <= s.dirty)
  {
    hide NamesOf, Load, Enabled;
    match e
    case StartCheck =>
    case Finish(_) =>
    case Abort(_) =>
    case _ =>
  }

  /** The weight version counts the requests that were answered with a finished session. */
  lemma {:induction false} VersionCountsFinishes(s: State, es: seq<Event>)
    requires Legal(s, es)
    ensures Run(s, es).version == s.version + Successes(Responses(s, es))
    decreases |es|
  {
    hide Step, Enabled;
    if es != [] {
      var (t, r) := Step(s, es[0]);
      StepCounts(s, es[0]);
      VersionCountsFinishes(t, es[1..]);
      TailOfCons(r, Responses(t, es[1..]));
    }
  }

  /** Between sessions the engine holds what it held at the start, overwritten by the payloads of the
      finished sessions in order, except on names that a discarded session loaded and no finished
      session has loaded since. */
  lemma EngineHoldsFinishedPayloads(s0: State, es: seq<Event>)
    requires Init(s0) && Legal(s0, es) && Run(s0, es).active.None?
    ensures var s := Run(s0, es);
            && AgreeOutside(s.engine, Load(s0.engine, s.completed), s.dirty)
            && (s.dirty == {} ==> s.engine == Load(s0.engine, s.completed))
  {
    RunInv(s0, es, s0.engine);
    IdleEngine(Run(s0, es), s0.engine);
  }

  lemma {:induction false} NothingDiscarded(s: State, es: seq<Event>)
    requires Legal(s, es)
    ensures s.discards <= Run(s, es).discards && s.version <= Run(s, es).version
    ensures Run(s, es).discards == s.discards ==> Run(s, es).dirty <= s.dirty
    decreases |es|
  {
    hide Step, Enabled;
    if es != [] {
      StepCounts(s, es[0]);
      NothingDiscarded(Step(s, es[0]).0, es[1..]);
    }
  }

  /** In particular, if no session was ever aborted or failed, the engine is the finished payloads. */
  lemma WithoutFailuresEngineIsExact(s0: State, es: seq<Event>)
    requires Init(s0) && Legal(s0, es) && Run(s0, es).active.None? && Run(s0, es).discards == []
    ensures Run(s0, es).engine == Load(s0.engine, Run(s0, es).completed)
  {
    NothingDiscarded(s0, es);
    EngineHoldsFinishedPayloads(s0, es);
  }

  /** A finished session repairs what discarded ones left behind, on the names it loads: if it covers them
      all, as a sync of the whole model does, the engine is exact again. */
  lemma FullSyncRepairs(s0: State, es: seq<Event>, id: nat)
    requires Init(s0) && Legal(s0, es) && Enabled(Run(s0, es), Finish(id))
    requires Step(Run(s0, es), Finish(id)).1.SessionFinished?
    requires Run(s0, es).dirty <= NamesOf(Run(s0, es).current)
    ensures var t := Step(Run(s0, es), Finish(id)).0;
            t.dirty == {} && t.engine == Load(s0.engine, t.completed)
  {
    var s := Run(s0, es);
    RunInv(s0, es, s0.engine);
    StepInv(s, Finish(id), s0.engine);
    var t := Step(s, Finish(id)).0;
    assert t.dirty == {};
    var want := Load(s0.engine, t.completed);
    assert forall n :: n in t.engine <==> n in want;
  }

  // ------------------------------------------------------------ which weights a version has

  /** Loading these weights leaves an engine as it is: the last weight of every name is there already. */
  ghost predicate Harmless(engine: Engine, ws: seq<Weight>) {
    forall n :: n in NamesOf(ws) ==> n in engine && n in Load(map[], ws) && engine[n] == Load(map[], ws)[n]
  }

  lemma LoadIsHarmlessIff(engine: Engine, ws: seq<Weight>)
    ensures Load(engine, ws) == engine <==> Harmless(engine, ws)
  {
    hide Load, NamesOf;
    var after, last := Load(engine, ws), Load(map[], ws);
    LoadTouches(engine, ws);
    LoadTouches(map[], ws);
    LoadOverrides(engine, map[], ws, engine.Keys);
    assert forall n :: n in NamesOf(ws) ==> n in after && n in last && after[n] == last[n];
    if Harmless(engine, ws) {
      assert forall n :: n in after <==> n in engine;
      assert forall n :: n in after ==> after[n] == engine[n];
    }
  }

  function LoadsOf(e: Event): seq<Weight> {
    match e
    case LoadBucket(_, ws) => ws
    case EndFailed(_, partial) => partial
    case _ => []
  }

  /** Everything that is loaded along a run, in order. */
  function Loads(es: seq<Event>): seq<Weight> {
    if es == [] then [] else LoadsOf(es[0]) + Loads(es[1..])
  }

  lemma StepLoads(s: State, e: Event)
    requires Enabled(s, e)
    ensures Step(s, e).0.engine == Load(s.engine, LoadsOf(e))
  {
    hide NamesOf, Enabled;
  }

  lemma {:induction false} EngineIsLoads(s: State, es: seq<Event>)
    requires Legal(s, es)
    ensures Run(s, es).engine == Load(s.engine, Loads(es))
    decreases |es|
  {
    hide Step, Enabled, Load;
    if es == [] {
      LoadNothing(s.engine);
    } else {
      StepLoads(s, es[0]);
      EngineIsLoads(Step(s, es[0]).0, es[1..]);
      LoadAdds(s.engine, LoadsOf(es[0]), Loads(es[1..]));
    }
  }

  lemma LoadNothing(engine: Engine)
    ensures Load(engine, []) == engine
  {
  }

  /** A run ends with the weights it began with if and only if what was loaded along it was harmless. */
  lemma SameWeightsIff(s: State, es: seq<Event>)
    requires Legal(s, es)
    ensures Run(s, es).engine == s.engine <==> Harmless(s.engine, Loads(es))
  {
    EngineIsLoads(s, es);
    LoadIsHarmlessIff(s.engine, Loads(es));
  }

  lemma StepDiscards(s: State, e: Event)
    requires ThreadsInv(s) && Enabled(s, e) && Step(s, e).0.version == s.version
    ensures var t := Step(s, e).0;
            || (t.discards == s.discards && t.current == s.current + LoadsOf(e))
            || (t.discards == s.discards + [s.current] && t.current == [] && LoadsOf(e) == [])
  {
    hide NamesOf, Load, Enabled;
    AppendNothing(s.current);
  }

  /** While the version stays the same, everything that is loaded is loaded by a session that is discarded
      or by the one that is still active. */
  lemma {:induction false} LoadsAreDiscarded(s: State, es: seq<Event>, engine0: Engine)
    requires Inv(s, engine0) && Legal(s, es) && Run(s, es).version == s.version
    ensures var t := Run(s, es);
            s.discards <= t.discards && s.current + Loads(es) == Flatten(t.discards[|s.discards|..]) + t.current
    decreases |es|
  {
    hide Step, Enabled, Inv, ThreadsInv;
    var t := Run(s, es);
    if es == [] {
      assert t.discards[|s.discards|..] == [];
      AppendNothing(s.current);
    } else {
      var s', e := Step(s, es[0]).0, es[0];
      StepInv(s, e, engine0);
      StepCounts(s, e);
      NothingDiscarded(s', es[1..]);
      StepDiscards(s, e) by { InvThreads(s, engine0); }
      LoadsAreDiscarded(s', es[1..], engine0);
      Assoc(s.current, LoadsOf(e), Loads(es[1..]));
      if s'.discards != s.discards {
        AppendNothing(Loads(es[1..]));
        Uncons(t.discards, |s.discards|);
        assert t.discards[|s.discards|] == s.current;
        Assoc(s.current, Flatten(t.discards[|s'.discards|..]), t.current);
      }
    }
  }

  /** Two idle states of the same version hold the same weights if and only if what the sessions that were
      discarded between them loaded was harmless; in particular, if none was discarded. */
  lemma SameVersionSameWeightsIff(s: State, es: seq<Event>, engine0: Engine)
    requires Inv(s, engine0) && Legal(s, es) && s.active.None? && Run(s, es).active.None?
    requires Run(s, es).version == s.version
    ensures var t := Run(s, es);
            && s.discards <= t.discards
            && (t.engine == s.engine <==> Harmless(s.engine, Flatten(t.discards[|s.discards|..])))
            && (t.discards == s.discards ==> t.engine == s.engine)
  {
    hide Inv, Harmless;
    var t := Run(s, es);
    RunInv(s, es, engine0);
    NothingLoaded(s, engine0);
    NothingLoaded(t, engine0);
    LoadsAreDiscarded(s, es, engine0);
    AppendNothing(Loads(es));
    AppendNothing(Flatten(t.discards[|s.discards|..]));
    SameWeightsIff(s, es);
    NothingIsHarmless(s.engine);
  }

  lemma NothingIsHarmless(engine: Engine)
    ensures Harmless(engine, [])
  {
  }

  lemma NothingLoaded(s: State, engine0: Engine)
    requires Inv(s, engine0) && s.active.None?
    ensures s.current == []
  {
  }

  /** Aborting the one session since an idle state restores nothing: the weights are the same afterwards if
      and only if what the session had loaded by then was harmless. */
  lemma AbortKeepsWeightsIff(s: State, es: seq<Event>, id: nat, engine0: Engine)
    requires Inv(s, engine0) && Legal(s, es) && s.active.None?
    requires Run(s, es).version == s.version && Run(s, es).discards == s.discards
    requires Enabled(Run(s, es), Abort(id)) && Step(Run(s, es), Abort(id)).1 == SessionAborted
    ensures var t := Step(Run(s, es), Abort(id)).0;
            && t.version == s.version
            && (t.engine == s.engine <==> Harmless(s.engine, Run(s, es).current))
  {
    hide Inv, Harmless;
    var t := Run(s, es);
    NothingLoaded(s, engine0);
    LoadsAreDiscarded(s, es, engine0);
    AppendNothing(Loads(es));
    AppendNothing(t.current);
    assert t.discards[|s.discards|..] == [];
    SameWeightsIff(s, es);
  }

  lemma InvThreads(s: State, engine0: Engine)
    requires Inv(s, engine0)
    ensures ThreadsInv(s)
  {
  }

  /** A run on which they are not: aborting a session after its receiver has loaded everything leaves the new
      weights in the engine under the old version. */
  lemma AbortCanChangeWeightsUnderTheSameVersion(s0: State, w: Weight)
    requires Init(s0) && (w.name in s0.engine ==> s0.engine[w.name] != w.bytes)
    ensures var es := [StartBegin(0), StartCheck, LoadBucket(0, [w]), EndOk(0), Exit(0), Abort(0)];
            && Legal(s0, es) && Run(s0, es).active.None?
            && Run(s0, es).version == s0.version && Run(s0, es).engine != s0.engine
  {
    hide NamesOf, Load;
    var s1 := Step(s0, StartBegin(0)).0;
    var s2 := Step(s1, StartCheck).0;
    assert Enabled(s0, StartBegin(0)) && Enabled(s1, StartCheck) && Enabled(s2, LoadBucket(0, [w]));
    var s3 := Step(s2, LoadBucket(0, [w])).0;
    LoadedOne(s0.engine, w);
    assert s3.engine == s0.engine[w.name := w.bytes];
    var s4 := Step(s3, EndOk(0)).0;
    var s5 := Step(s4, Exit(0)).0;
    assert Enabled(s3, EndOk(0)) && Enabled(s4, Exit(0)) && Enabled(s5, Abort(0));
    var s6 := Step(s5, Abort(0)).0;
    assert s6.active.None? && s6.version == s0.version && s6.engine == s3.engine;
    hide Step, Enabled;
    RunCons(s5, Abort(0), []);
    RunCons(s4, Exit(0), [Abort(0)]);
    RunCons(s3, EndOk(0), [Exit(0), Abort(0)]);
    RunCons(s2, LoadBucket(0, [w]), [EndOk(0), Exit(0), Abort(0)]);
    RunCons(s1, StartCheck, [LoadBucket(0, [w]), EndOk(0), Exit(0), Abort(0)]);
    RunCons(s0, StartBegin(0), [StartCheck, LoadBucket(0, [w]), EndOk(0), Exit(0), Abort(0)]);
  }

  lemma LoadedOne(engine: Engine, w: Weight)
    ensures Load(engine, [w]) == engine[w.name := w.bytes]
  {
    assert [w][..0] == [];
  }

  lemma RunCons(s: State, e: Event, rest: seq<Event>)
    requires Enabled(s, e) && Legal(Step(s, e).0, rest)
    ensures Legal(s, [e] + rest) && Run(s, [e] + rest) == Run(Step(s, e).0, rest)
  {
    TailOfCons(e, rest);
  }

  // ------------------------------------------------------- what a finished session holds

  lemma LoadedNamesHold(engine: Engine, ws: seq<Weight>)
    requires DistinctNames(ws)
    ensures forall w :: w in ws ==> w.name in Load(engine, ws) && Load(engine, ws)[w.name] == w.bytes
  {
    forall w | w in ws
      ensures w.name in Load(engine, ws) && Load(engine, ws)[w.name] == w.bytes
    {
      var k :| 0 <= k < |ws| && ws[k] == w;
      LoadIsLast(engine, ws, k);
    }
  }

  /** The buckets that the thread of a session has loaded. */
  function BucketsOf(es: seq<Event>, id: nat): seq<seq<Weight>> {
    if es == [] then []
    else
      var before, e := BucketsOf(es[..|es| - 1], id), es[|es| - 1];
      if e.LoadBucket? && e.id == id then before + [e.ws] else before
  }

  lemma {:induction false} RunSnoc(s: State, es: seq<Event>)
    requires es != [] && Legal(s, es)
    ensures var init, e := es[..|es| - 1], es[|es| - 1];
            Legal(s, init) && Enabled(Run(s, init), e) && Run(s, es) == Step(Run(s, init), e).0
    decreases |es|
  {
    hide Step, Enabled;
    var n := |es| - 1;
    if n > 0 {
      RunSnoc(Step(s, es[0]).0, es[1..]);
      assert es[1..][..n - 1] == es[..n][1..];
    }
  }

  ghost predicate EndedOkAt(es: seq<Event>, id: nat, k: nat) {
    k < |es| && es[k] == EndOk(id) && BucketsOf(es[..k], id) == BucketsOf(es, id)
  }

  /** What has happened to a session along a run: what it has loaded are its thread's buckets, and once the
      thread has ended well there are no more of them. */
  ghost predicate SessionLog(s: State, es: seq<Event>, id: nat) {
    && (id !in s.threads ==> BucketsOf(es, id) == [])
    && (id in s.threads && s.active == Some(id) && s.threads[id].ok != Some(false) ==>
          s.current == Flatten(BucketsOf(es, id)))
    && (id in s.threads && s.threads[id].ok == Some(true) ==> exists k: nat :: EndedOkAt(es, id, k))
  }

  lemma EndedOkStays(es: seq<Event>, id: nat, k: nat)
    requires es != [] && EndedOkAt(es[..|es| - 1], id, k)
    requires !(es[|es| - 1].LoadBucket? && es[|es| - 1].id == id)
    ensures EndedOkAt(es, id, k)
  {
    assert es[..|es| - 1][..k] == es[..k];
  }

  lemma StepLog(s: State, es: seq<Event>, id: nat)
    requires es != [] && SessionLog(s, es[..|es| - 1], id) && ThreadsInv(s) && Enabled(s, es[|es| - 1])
    ensures SessionLog(Step(s, es[|es| - 1]).0, es, id)
  {
    hide Load, NamesOf, EndedOkAt;
    var init, e := es[..|es| - 1], es[|es| - 1];
    var t := Step(s, e).0;
    if e.LoadBucket? && e.id == id {
      FlattenSnoc(BucketsOf(init, id), e.ws);
    } else if id in s.threads && s.threads[id].ok == Some(true) {
      var k: nat :| EndedOkAt(init, id, k);
      EndedOkStays(es, id, k);
    } else if e == EndOk(id) {
      assert EndedOkAt(es, id, |es| - 1) by { EndsHere(es, id); }
    }
  }

  lemma EndsHere(es: seq<Event>, id: nat)
    requires es != [] && es[|es| - 1] == EndOk(id)
    ensures EndedOkAt(es, id, |es| - 1)
  {
  }

  lemma {:induction false} RunLog(s0: State, es: seq<Event>, id: nat)
    requires Init(s0) && Legal(s0, es)
    ensures SessionLog(Run(s0, es), es, id)
    decreases |es|
  {
    hide SessionLog, Step, Enabled, ThreadsInv, Init;
    if es == [] {
      assert SessionLog(s0, [], id) by { NoLog(s0, id); }
    } else {
      var init := es[..|es| - 1];
      RunSnoc(s0, es);
      RunLog(s0, init, id);
      InitInv(s0);
      RunInv(s0, init, s0.engine);
      StepLog(Run(s0, init), es, id);
    }
  }

  lemma NoLog(s0: State, id: nat)
    requires Init(s0)
    ensures SessionLog(s0, [], id)
  {
  }

  /** The thread of a session runs a receiver of the given sync, loads every bucket that is handed over, and
      ends well only when the receiver is done. */
  ghost predicate RunsReceiver(es: seq<Event>, id: nat, sync: HotSync.State, useShm: bool) {
    forall k :: 0 <= k < |es| && es[k] == EndOk(id) ==> ReceiverIsDone(es[..k], id, sync, useShm)
  }

  ghost predicate ReceiverIsDone(es: seq<Event>, id: nat, sync: HotSync.State, useShm: bool) {
    exists steps, t: HotSync.State ::
      HotSync.Reaches(sync, useShm, steps, t) && t.receiver.pc == HotSync.ReceiverDone
      && t.receiver.delivered == BucketsOf(es, id)
  }

  /** A session that is finished with success has loaded exactly what its sender sent. */
  lemma FinishedSessionLoadedAll(s0: State, es: seq<Event>, id: nat, sync: HotSync.State, ws: seq<Weight>, useShm: bool)
    requires Init(s0) && Legal(s0, es) && Enabled(Run(s0, es), Finish(id))
    requires Step(Run(s0, es), Finish(id)).1.SessionFinished?
    requires HotSync.Init(sync, ws) && RunsReceiver(es, id, sync, useShm)
    ensures var plan := PlanFrom(ws, [], |sync.buffer|, useShm);
            plan.error == None && Run(s0, es).current == Flatten(Dicts(plan.groups))
  {
    hide Legal, Init, PlanFrom, Dicts, Flatten, Run;
    RunLog(s0, es, id);
    var k: nat :| EndedOkAt(es, id, k);
    assert ReceiverIsDone(es[..k], id, sync, useShm);
    var steps, t :| HotSync.Reaches(sync, useShm, steps, t) && t.receiver.pc == HotSync.ReceiverDone
                    && t.receiver.delivered == BucketsOf(es[..k], id);
    HotSync.EveryRunDelivers(sync, useShm, ws, steps, t);
  }

  /** From the trainer to the engine: once the finish request of a session is answered with success, whatever
      happened before, the engine holds every weight that was sent under its name, and these weights are
      what the session is counted for. */
  lemma FinishedSessionHoldsPayload(s0: State, es: seq<Event>, id: nat, sync: HotSync.State, ws: seq<Weight>,
                                    useShm: bool)
    requires Init(s0) && Legal(s0, es) && Enabled(Run(s0, es), Finish(id))
    requires Step(Run(s0, es), Finish(id)).1.SessionFinished?
    requires HotSync.Init(sync, ws) && RunsReceiver(es, id, sync, useShm) && DistinctNames(ws)
    ensures var s, t := Run(s0, es), Step(Run(s0, es), Finish(id)).0;
            && s.current == ws
            && (forall w :: w in ws ==> w.name in t.engine && t.engine[w.name] == w.bytes)
            && t.completed == s.completed + ws && t.version == s.version + 1
            && AgreeOutside(t.engine, Load(s0.engine, s.completed), s.dirty + NamesOf(ws))
  {
    hide PlanFrom, Dicts, Flatten, Load, Legal, Init, RunsReceiver, Step, Enabled, Inv, AgreeOutside, NamesOf;
    FinishedSessionLoadedAll(s0, es, id, sync, ws, useShm);
    DistinctNamesAreDelivered(ws, |sync.buffer|, useShm);
    assert ws[..|ws|] == ws;
    InitInv(s0);
    RunInv(s0, es, s0.engine);
    FinishKeepsPayload(Run(s0, es), id, s0.engine);
    var base := Load(s0.engine, Run(s0, es).completed);
    HeldThrough(Step(Run(s0, es), Finish(id)).0.engine, base, ws, Run(s0, es).dirty);
  }

  lemma FinishKeepsPayload(s: State, id: nat, engine0: Engine)
    requires Inv(s, engine0) && Enabled(s, Finish(id)) && Step(s, Finish(id)).1.SessionFinished?
    ensures var t := Step(s, Finish(id)).0;
            && t.completed == s.completed + s.current && t.version == s.version + 1
            && AgreeOutside(t.engine, Load(Load(engine0, s.completed), s.current), s.dirty - NamesOf(s.current))
  {
    hide AgreeOutside, NamesOf, Load;
  }

  lemma HeldThrough(engine: Engine, base: Engine, ws: seq<Weight>, dirty: set<string>)
    requires DistinctNames(ws) && AgreeOutside(engine, Load(base, ws), dirty - NamesOf(ws))
    ensures forall w :: w in ws ==> w.name in engine && engine[w.name] == w.bytes
    ensures AgreeOutside(engine, base, dirty + NamesOf(ws))
  {
    hide Load;
    LoadedNamesHold(base, ws);
    LoadTouches(base, ws);
  }

  lemma InitInv(s0: State)
    requires Init(s0)
    ensures Inv(s0, s0.engine)
  {
  }

  // ------------------------------------------------------------------ loading by parts

  function Params(ws: seq<Weight>, shapes: map<string, seq<nat>>): seq<Weight> {
    if ws == [] then []
    else
      var before, w := Params(ws[..|ws| - 1], shapes), ws[|ws| - 1];
      if w.name in shapes then before else before + [w]
  }

  function Buffers(ws: seq<Weight>, shapes: map<string, seq<nat>>): (bs: seq<Weight>)
    ensures forall w :: w in bs <==> w in ws && w.name in shapes
  {
    if ws == [] then []
    else
      var before, w := Buffers(ws[..|ws| - 1], shapes), ws[|ws| - 1];
      assert ws == ws[..|ws| - 1] + [w];
      if w.name in shapes then before + [w] else before
  }

  /** Every weight goes to one of the two lists, by its name alone, in the order in which they came. */
  lemma KindsAdd(a: seq<Weight>, b: seq<Weight>, shapes: map<string, seq<nat>>)
    ensures Params(a + b, shapes) == Params(a, shapes) + Params(b, shapes)
    ensures Buffers(a + b, shapes) == Buffers(a, shapes) + Buffers(b, shapes)
    ensures |b| == 1 ==> Params(b, shapes) == (if b[0].name in shapes then [] else b)
    ensures |b| == 1 ==> Buffers(b, shapes) == (if b[0].name in shapes then b else [])
  {
    ParamsAdd(a, b, shapes);
    BuffersAdd(a, b, shapes);
    if |b| == 1 {
      assert b == [b[0]] && b[..0] == [];
    }
  }

  lemma {:induction false} ParamsAdd(a: seq<Weight>, b: seq<Weight>, shapes: map<string, seq<nat>>)
    ensures Params(a + b, shapes) == Params(a, shapes) + Params(b, shapes)
    decreases |b|
  {
    if b == [] {
      AppendNothing(a);
      AppendNothing(Params(a, shapes));
    } else {
      var n := |b| - 1;
      InitOfSum(a, b);
      ParamsAdd(a, b[..n], shapes);
      Assoc(Params(a, shapes), Params(b[..n], shapes), [b[n]]);
    }
  }

  lemma {:induction false} BuffersAdd(a: seq<Weight>, b: seq<Weight>, shapes: map<string, seq<nat>>)
    ensures Buffers(a + b, shapes) == Buffers(a, shapes) + Buffers(b, shapes)
    decreases |b|
  {
    if b == [] {
      AppendNothing(a);
      AppendNothing(Buffers(a, shapes));
    } else {
      var n := |b| - 1;
      InitOfSum(a, b);
      BuffersAdd(a, b[..n], shapes);
      Assoc(Buffers(a, shapes), Buffers(b[..n], shapes), [b[n]]);
    }
  }

  /** The index of the first buffer of another shape than the model's. */
  function FirstMisfit(bs: seq<Weight>, shapes: map<string, seq<nat>>): (i: nat)
    requires forall w :: w in bs ==> w.name in shapes
    ensures i <= |bs| && (forall k :: 0 <= k < i ==> bs[k].shape == shapes[bs[k].name])
    ensures i < |bs| ==> bs[i].shape != shapes[bs[i].name]
  {
    if bs == [] || bs[0].shape != shapes[bs[0].name] then 0 else 1 + FirstMisfit(bs[1..], shapes)
  }

  method SplitByKind(ws: seq<Weight>, shapes: map<string, seq<nat>>) returns (params: seq<Weight>, buffers: seq<Weight>)
    ensures params == Params(ws, shapes) && buffers == Buffers(ws, shapes)
  {
    params, buffers := [], [];
    var i := 0;
    while i < |ws|
      invariant 0 <= i <= |ws| && params == Params(ws[..i], shapes) && buffers == Buffers(ws[..i], shapes)
    {
      assert ws[..i + 1][..i] == ws[..i];
      if ws[i].name in shapes {
        buffers := buffers + [ws[i]];
      } else {
        params := params + [ws[i]];
      }
      i := i + 1;
    }
    assert ws[..i] == ws;
  }

  lemma MisfitIff(ws: seq<Weight>, shapes: map<string, seq<nat>>)
    ensures var bs := Buffers(ws, shapes);
            FirstMisfit(bs, shapes) == |bs| <==> forall w :: w in ws && w.name in shapes ==> w.shape == shapes[w.name]
  {
    var bs := Buffers(ws, shapes);
    var i := FirstMisfit(bs, shapes);
    if i < |bs| {
      assert bs[i] in bs;
    }
  }

  lemma LoadSnoc(engine: Engine, ws: seq<Weight>, i: nat)
    requires i < |ws|
    ensures Load(engine, ws[..i + 1]) == Load(engine, ws[..i])[ws[i].name := ws[i].bytes]
  {
    assert ws[..i + 1][..i] == ws[..i];
  }

  lemma {:induction false} LoadCommutes(engine: Engine, w: Weight, ws: seq<Weight>)
    requires forall x :: x in ws ==> x.name != w.name
    ensures Load(engine[w.name := w.bytes], ws) == Load(engine, ws)[w.name := w.bytes]
  {
    if ws != [] {
      LoadCommutes(engine, w, ws[..|ws| - 1]);
    }
  }

  /** Loading the parameters and then the buffers does what loading in the given order does. */
  lemma {:induction false} LoadByParts(engine: Engine, ws: seq<Weight>, shapes: map<string, seq<nat>>)
    ensures Load(engine, Params(ws, shapes) + Buffers(ws, shapes)) == Load(engine, ws)
  {
    if ws != [] {
      var init, w := ws[..|ws| - 1], ws[|ws| - 1];
      var ps, bs := Params(init, shapes), Buffers(init, shapes);
      LoadByParts(engine, init, shapes);
      LoadAdds(engine, ps, bs);
      if w.name in shapes {
        Assoc(ps, bs, [w]);
        LoadAdds(engine, ps + bs, [w]);
        LoadedOne(Load(engine, ps + bs), w);
      } else {
        LoadAdds(engine, ps + [w], bs);
        LoadAdds(engine, ps, [w]);
        LoadedOne(Load(engine, ps), w);
        LoadCommutes(Load(engine, ps), w, bs);
      }
    }
  }

  // -------------------------------------------------------------------- a thread that never ends

  /** The thread of a session does not end by itself. */
  predicate NeverFails(es: seq<Event>, id: nat) {
    forall k :: 0 <= k < |es| ==> es[k] != Die(id) && !(es[k].EndFailed? && es[k].id == id)
  }

  lemma {:induction false} ThreadStays(s0: State, es: seq<Event>, id: nat)
    requires Init(s0) && Legal(s0, es) && EndOk(id) !in es && NeverFails(es, id)
    ensures id in Run(s0, es).threads ==> Running(Run(s0, es), id)
    decreases |es|
  {
    hide Init, Load, NamesOf;
    if es == [] {
      assert id !in s0.threads by { NoThreads(s0); }
    } else {
      RunSnoc(s0, es);
      ThreadStays(s0, es[..|es| - 1], id);
    }
  }

  lemma NoThreads(s0: State)
    requires Init(s0)
    ensures s0.threads == map[]
  {
  }

  /** While the thread of a session runs, its session stays active, and no request gets anything but a refusal
      (the start request that is waiting for the thread, if it still is, gets its answer). */
  lemma RunningBlocks(s: State, e: Event, id: nat)
    requires ThreadsInv(s) && Running(s, id) && IsRequest(e) && Enabled(s, e)
    ensures var (t, r) := Step(s, e);
            && t.active == Some(id) && t.threads == s.threads && t.engine == s.engine && t.version == s.version
            && if e.StartCheck? then r == SessionStarted(id) else r.Error?
  {
    assert s.active == Some(id);
  }

  /** A weight that is too large for shared memory wedges the server: its session can never be finished, and
      unless the receiver thread fails by itself, from then on every request of any client is refused. */
  lemma RefusedWeightWedgesTheServer(s0: State, es: seq<Event>, id: nat, sync: HotSync.State, ws: seq<Weight>)
    requires Init(s0) && Legal(s0, es) && HotSync.Init(sync, ws) && RunsReceiver(es, id, sync, true)
    requires exists w :: w in ws && |w.bytes| > |sync.buffer|
    ensures EndOk(id) !in es
    ensures Enabled(Run(s0, es), Finish(id)) ==> !Step(Run(s0, es), Finish(id)).1.SessionFinished?
    ensures var s := Run(s0, es);
            NeverFails(es, id) && id in s.threads ==>
              && s.active == Some(id)
              && forall e :: IsRequest(e) && Enabled(s, e) ==>
                   && Step(s, e).0.active == Some(id) && Step(s, e).0.version == s.version
                   && if e.StartCheck? then Step(s, e).1 == SessionStarted(id) else Step(s, e).1.Error?
  {
    hide Step, Enabled, Init, Legal, PlanFrom, ThreadsInv, Inv;
    PlanConserves(ws, [], |sync.buffer|, true);
    forall k | 0 <= k < |es| ensures es[k] != EndOk(id) {
      if es[k] == EndOk(id) {
        NeverDone(es[..k], id, sync, ws);
      }
    }
    var s := Run(s0, es);
    if Enabled(s, Finish(id)) && Step(s, Finish(id)).1.SessionFinished? {
      FinishedSessionLoadedAll(s0, es, id, sync, ws, true);
    }
    InitInv(s0);
    RunInv(s0, es, s0.engine);
    InvThreads(s, s0.engine);
    if NeverFails(es, id) && id in s.threads {
      ThreadStays(s0, es, id);
      OnlyActiveRuns(s, id);
      forall e | IsRequest(e) && Enabled(s, e)
        ensures Step(s, e).0.active == Some(id) && Step(s, e).0.version == s.version
        ensures if e.StartCheck? then Step(s, e).1 == SessionStarted(id) else Step(s, e).1.Error?
      {
        RunningBlocks(s, e, id);
      }
    }
  }

  lemma OnlyActiveRuns(s: State, id: nat)
    requires ThreadsInv(s) && Running(s, id)
    ensures s.active == Some(id)
  {
  }

  lemma NeverDone(es: seq<Event>, id: nat, sync: HotSync.State, ws: seq<Weight>)
    requires HotSync.Init(sync, ws) && ReceiverIsDone(es, id, sync, true)
    ensures PlanFrom(ws, [], |sync.buffer|, true).error == None
  {
    hide PlanFrom, Dicts;
    var steps, t :| HotSync.Reaches(sync, true, steps, t) && t.receiver.pc == HotSync.ReceiverDone
                    && t.receiver.delivered == BucketsOf(es, id);
    HotSync.EveryRunDelivers(sync, true, ws, steps, t);
  }

  // -------------------------------------------------------------------------- the server

  /** StudentState, its requests under the lock, and the receiver threads they start. Every method is a step
      of the machine above, so what is proved of runs holds for the object (Serve). */
  class StudentState {
    var weightVersion: nat
    var activeSyncSession: Option<nat>
    var lock: Lock
    var threads: map<nat, Thread>
    var engine: Engine
    const bufferShapes: map<string, seq<nat>>  // named_buffers of the model
    ghost const engine0: Engine
    ghost var current: seq<Weight>
    ghost var completed: seq<Weight>
    ghost var discards: seq<seq<Weight>>
    ghost var dirty: set<string>

    ghost function View(): State
      reads this
    {
      State(threads, activeSyncSession, lock, weightVersion, engine, current, completed, discards, dirty)
    }

    ghost predicate Valid()
      reads this
    {
      Inv(View(), engine0)
    }

    constructor (engine: Engine, bufferShapes: map<string, seq<nat>>)
      ensures Valid() && Init(View()) && this.engine == engine && engine0 == engine && this.bufferShapes == bufferShapes
    {
      this.engine, this.bufferShapes, engine0 := engine, bufferShapes, engine;
      weightVersion, activeSyncSession, lock, threads := 0, None, Free, map[];
      current, completed, discards, dirty := [], [], [], {};
      new;
      InitInv(View());
    }

    /** The thread of a session, which is alive: until it has set its result it can load, set it, or die without
        one; afterwards it can only exit. It changes the engine only by loading, leaves version and session
        alone, and cannot be running at all unless its session is the active one. */
    method ThreadStep(e: Event)
      requires Valid() && !IsRequest(e) && e.id in threads && threads[e.id].alive
      requires threads[e.id].ok.Some? <==> e.Exit?
      modifies this
      ensures Valid() && View() == Step(old(View()), e).0
      ensures engine == Load(old(engine), LoadsOf(e)) && current == old(current) + LoadsOf(e)
      ensures weightVersion == old(weightVersion) && activeSyncSession == old(activeSyncSession) && lock == old(lock)
      ensures completed == old(completed) && discards == old(discards) && dirty == old(dirty)
      ensures !e.Exit? ==> activeSyncSession == Some(e.id)
      ensures var before := old(threads[e.id]);
              threads == old(threads)[e.id := match e
                                              case EndOk(_) => Thread(Some(true), true)
                                              case EndFailed(_, _) => Thread(Some(false), true)
                                              case Die(_) => Thread(None, false)
                                              case Exit(_) => Thread(before.ok, false)
                                              case _ => before]
    {
      StepInv(View(), e, engine0);
      StepLoads(View(), e);
      match e {
        case LoadBucket(id, ws) => LoadWeights(ws);
        case EndOk(id) => threads := threads[id := Thread(Some(true), true)];
        case EndFailed(id, partial) =>
          LoadWeights(partial);
          threads := threads[id := Thread(Some(false), true)];
        case Die(id) => threads := threads[id := Thread(None, false)];
        case Exit(id) => threads := threads[id := threads[id].(alive := false)];
      }
    }

    /** The effect of a load, by name. */
    method LoadWeights(ws: seq<Weight>)
      modifies this
      ensures View() == LoadInto(old(View()), ws)
    {
      SetWeights(ws);
      current := current + ws;
    }

    method SetWeights(ws: seq<Weight>)
      modifies this`engine
      ensures engine == Load(old(engine), ws)
    {
      var i := 0;
      while i < |ws|
        invariant 0 <= i <= |ws|
        invariant engine == Load(old(engine), ws[..i])
      {
        assert ws[..i + 1][..i] == ws[..i];
        engine := engine[ws[i].name := ws[i].bytes];
        i := i + 1;
      }
      assert ws[..|ws|] == ws;
    }

    /** The loop over the buffers of the model: how many of them were loaded before one of another shape. */
    method SetBuffers(bs: seq<Weight>) returns (n: nat)
      requires forall w :: w in bs ==> w.name in bufferShapes
      modifies this`engine
      ensures n == FirstMisfit(bs, bufferShapes) && engine == Load(old(engine), bs[..n])
    {
      hide Load, FirstMisfit;
      n := 0;
      assert bs[..0] == [];
      LoadNothing(engine);
      assert forall k :: 0 <= k < |bs| ==> bs[k] in bs;
      while n < |bs| && bs[n].shape == bufferShapes[bs[n].name]
        invariant 0 <= n <= FirstMisfit(bs, bufferShapes) <= |bs|
        invariant engine == Load(old(engine), bs[..n])
      {
        LoadSnoc(old(engine), bs, n);
        engine := engine[bs[n].name := bs[n].bytes];
        n := n + 1;
      }
    }

    /** _load_weights_into_model: the parameters first and then the buffers of the model one by one, up to one
        of another shape. If there is none, the order in which they came makes no difference. */
    method LoadWeightsIntoModel(ws: seq<Weight>) returns (ghost loaded: seq<Weight>, ok: bool)
      modifies this`engine
      ensures engine == Load(old(engine), loaded)
      ensures ok <==> forall w :: w in ws && w.name in bufferShapes ==> w.shape == bufferShapes[w.name]
      ensures loaded == Params(ws, bufferShapes)
                        + Buffers(ws, bufferShapes)[..FirstMisfit(Buffers(ws, bufferShapes), bufferShapes)]
      ensures ok ==> engine == Load(old(engine), ws)
    {
      hide Load, FirstMisfit, Params, Buffers;
      var params, buffers := SplitByKind(ws, bufferShapes);
      SetWeights(params);
      var n := SetBuffers(buffers);
      loaded, ok := params + buffers[..n], n == |buffers|;
      LoadAdds(old(engine), params, buffers[..n]);
      MisfitIff(ws, bufferShapes);
      assert ok ==> buffers[..n] == buffers;
      LoadByParts(old(engine), ws, bufferShapes);
    }

    /** What the receiver thread does with a bucket: it loads it, or it ends with an error, having loaded the
        part before the buffer that does not fit. */
    method OnBucketReceived(id: nat, ws: seq<Weight>) returns (ok: bool)
      requires Valid() && Running(View(), id)
      modifies this
      ensures Valid()
      ensures ok <==> forall w :: w in ws && w.name in bufferShapes ==> w.shape == bufferShapes[w.name]
      ensures var buffers := Buffers(ws, bufferShapes);
              var partial := Params(ws, bufferShapes) + buffers[..FirstMisfit(buffers, bufferShapes)];
              View() == Step(old(View()), if ok then LoadBucket(id, ws) else EndFailed(id, partial)).0
    {
      hide Load, NamesOf, AgreeOutside, FirstMisfit, Params, Buffers, ThreadsInv;
      ghost var loaded: seq<Weight>;
      ghost var s := View();
      loaded, ok := LoadWeightsIntoModel(ws);
      StepInv(s, if ok then LoadBucket(id, ws) else EndFailed(id, loaded), engine0);
      if ok {
        current := current + ws;
      } else {
        threads := threads[id := Thread(Some(false), true)];
        current := current + loaded;
      }
    }

    /** generate, up to where sampling begins: refused exactly while a session is active. */
    method HandleGenerateBegin() returns (response: Response)
      requires Valid() && lock.Free?
      modifies this
      ensures Valid() && (View(), response) == Step(old(View()), GenerateBegin)
      ensures if old(activeSyncSession).Some? then response == Error(SyncIsActive) && View() == old(View())
              else response == Silent && View() == old(View()).(lock := Generating)
    {
      StepInv(View(), GenerateBegin, engine0);
      if activeSyncSession.Some? {
        return Error(SyncIsActive);
      }
      lock := Generating;
      response := Silent;
    }

    /** generate, from where sampling ends: the weights stand for the sequences sampled with them. They are
        those of the finished sessions wherever no discarded session has been. */
    method HandleGenerateEnd() returns (response: Response)
      requires Valid() && lock.Generating?
      modifies this
      ensures Valid() && (View(), response) == Step(old(View()), GenerateEnd)
      ensures response == Generated(old(engine), old(weightVersion)) && View() == old(View()).(lock := Free)
      ensures AgreeOutside(engine, Load(engine0, completed), dirty)
    {
      StepInv(View(), GenerateEnd, engine0);
      lock := Free;
      response := Generated(engine, weightVersion);
    }

    /** start_weight_sync, up to the pause after the receiver thread was started. */
    method HandleStart(id: nat) returns (response: Response)
      requires Valid() && lock.Free? && id !in threads
      modifies this
      ensures Valid() && (View(), response) == Step(old(View()), StartBegin(id))
      ensures if old(activeSyncSession).Some? then response == Error(AlreadyActive) && View() == old(View())
              else
                && response == Silent && activeSyncSession == Some(id) && lock == Starting(id) && current == []
                && threads == old(threads)[id := Thread(None, true)]
                && engine == old(engine) && weightVersion == old(weightVersion)
                && completed == old(completed) && discards == old(discards) && dirty == old(dirty)
    {
      StepInv(View(), StartBegin(id), engine0);
      if activeSyncSession.Some? {
        return Error(AlreadyActive);
      }
      threads := threads[id := Thread(None, true)];
      activeSyncSession, lock, current := Some(id), Starting(id), [];
      response := Silent;
    }

    /** start_weight_sync, after the pause: a receiver that has failed already ends its session. */
    method HandleStarted() returns (response: Response)
      requires Valid() && lock.Starting? && lock.id in threads
      modifies this
      ensures Valid() && (View(), response) == Step(old(View()), StartCheck)
      ensures engine == old(engine) && weightVersion == old(weightVersion) && threads == old(threads) && lock.Free?
      ensures completed == old(completed)
      ensures if threads[old(lock).id].ok == Some(false) then
                && response == Error(ReceiverFailed) && activeSyncSession.None? && current == []
                && discards == old(discards) + [old(current)] && dirty == old(dirty) + NamesOf(old(current))
              else
                && response == SessionStarted(old(lock).id) && activeSyncSession == Some(old(lock).id)
                && View() == old(View()).(lock := Free)
    {
      StepInv(View(), StartCheck, engine0);
      var id := lock.id;
      if threads[id].ok == Some(false) {
        GiveUp();
        response := Error(ReceiverFailed);
      } else {
        response := SessionStarted(id);
      }
      lock := Free;
    }

    /** Gives up the active session: its weights stay in the engine, and the version stays. */
    method GiveUp()
      modifies this
      ensures View() == Discard(old(View()))
    {
      activeSyncSession := None;
      discards, dirty, current := discards + [current], dirty + NamesOf(current), [];
    }

    /** finish_weight_sync: once the receiver of the active session has ended, the session is over whatever the
        outcome. If the receiver ended well there is one version more, and else the session is discarded; any
        other answer changes nothing. */
    method HandleFinish(id: nat) returns (response: Response)
      requires Valid() && lock.Free?
      modifies this
      ensures Valid() && (View(), response) == Step(old(View()), Finish(id))
      ensures engine == old(engine) && threads == old(threads) && lock.Free?
      ensures response == Error(NotActive) <==> old(activeSyncSession).None?
      ensures response == Error(SessionMismatch) <==> old(activeSyncSession).Some? && old(activeSyncSession) != Some(id)
      ensures response == Error(StillRunning)
              <==> old(activeSyncSession) == Some(id) && (id !in threads || threads[id].alive)
      ensures old(activeSyncSession) == Some(id) && id in threads && !threads[id].alive ==>
                && activeSyncSession.None? && current == []
                && if threads[id].ok == Some(true) then
                     && response == SessionFinished(old(weightVersion) + 1) && weightVersion == old(weightVersion) + 1
                     && completed == old(completed) + old(current) && discards == old(discards)
                     && dirty == old(dirty) - NamesOf(old(current))
                     && AgreeOutside(engine, Load(Load(engine0, old(completed)), old(current)), dirty)
                   else
                     && response == Error(ReceiverFailed) && weightVersion == old(weightVersion)
                     && completed == old(completed) && discards == old(discards) + [old(current)]
                     && dirty == old(dirty) + NamesOf(old(current))
      ensures !(old(activeSyncSession) == Some(id) && id in threads && !threads[id].alive) ==> View() == old(View())
    {
      StepInv(View(), Finish(id), engine0);
      LoadAdds(engine0, completed, current);
      if activeSyncSession.None? {
        return Error(NotActive);
      }
      if activeSyncSession.value != id {
        return Error(SessionMismatch);
      }
      if id !in threads || threads[id].alive {
        return Error(StillRunning);
      }
      if threads[id].ok != Some(true) {
        GiveUp();
        return Error(ReceiverFailed);
      }
      activeSyncSession := None;
      weightVersion := weightVersion + 1;
      completed, dirty, current := completed + current, dirty - NamesOf(current), [];
      response := SessionFinished(weightVersion);
    }

    /** abort_weight_sync: ends the active session once its receiver has ended in any way, without a new
        version and without touching the engine; an error, or no session, changes nothing. */
    method HandleAbort(id: nat) returns (response: Response)
      requires Valid() && lock.Free?
      modifies this
      ensures Valid() && (View(), response) == Step(old(View()), Abort(id))
      ensures response == NoSession <==> old(activeSyncSession).None?
      ensures response == Error(SessionMismatch) <==> old(activeSyncSession).Some? && old(activeSyncSession) != Some(id)
      ensures response == Error(StillRunning)
              <==> old(activeSyncSession) == Some(id) && (id !in threads || threads[id].alive)
      ensures old(activeSyncSession) == Some(id) && id in threads && !threads[id].alive ==>
                && response == SessionAborted && activeSyncSession.None? && current == []
                && engine == old(engine) && weightVersion == old(weightVersion) && threads == old(threads) && lock.Free?
                && completed == old(completed) && discards == old(discards) + [old(current)]
                && dirty == old(dirty) + NamesOf(old(current))
      ensures !(old(activeSyncSession) == Some(id) && id in old(threads) && !old(threads)[id].alive) ==>
                View() == old(View())
    {
      StepInv(View(), Abort(id), engine0);
      if activeSyncSession.None? {
        return NoSession;
      }
      if activeSyncSession.value != id {
        return Error(SessionMismatch);
      }
      if id !in threads || threads[id].alive {
        return Error(StillRunning);
      }
      GiveUp();
      response := SessionAborted;
    }

    /** One event, dispatched the way the request handler does. */
    method Handle(e: Event) returns (response: Response)
      requires Valid() && Enabled(View(), e)
      modifies this
      ensures Valid() && (View(), response) == Step(old(View()), e)
    {
      match e {
        case GenerateBegin => response := HandleGenerateBegin();
        case GenerateEnd => response := HandleGenerateEnd();
        case StartBegin(id) => response := HandleStart(id);
        case StartCheck => response := HandleStarted();
        case Finish(id) => response := HandleFinish(id);
        case Abort(id) => response := HandleAbort(id);
        case _ =>
          ThreadStep(e);
          response := Silent;
      }
    }

    /** The server over a whole run: it goes through the states of the machine and gives its responses, the
        version has grown by the number of finished sessions, and whenever no session is active the engine
        is the finished payloads outside the names that discarded sessions have left. */
    method Serve(es: seq<Event>) returns (responses: seq<Response>)
      requires Valid() && Legal(View(), es)
      modifies this
      ensures Valid() && View() == Run(old(View()), es) && responses == Responses(old(View()), es)
      ensures weightVersion == old(weightVersion) + Successes(responses)
      ensures activeSyncSession.None? ==> AgreeOutside(engine, Load(engine0, completed), dirty)
      ensures dirty == {} && activeSyncSession.None? ==> engine == Load(engine0, completed)
    {
      hide Step, Enabled, AgreeOutside, Successes;
      ghost var s0 := View();
      responses := [];
      assert es[0..] == es;
      AppendNothing(Responses(s0, es));
      VersionCountsFinishes(s0, es);
      var i := 0;
      while i < |es|
        invariant 0 <= i <= |es|
        invariant Valid() && Legal(View(), es[i..]) && Run(View(), es[i..]) == Run(s0, es)
        invariant responses + Responses(View(), es[i..]) == Responses(s0, es)
      {
        Uncons(es, i);
        ghost var rest := Responses(Step(View(), es[i]).0, es[i + 1..]);
        var response := Handle(es[i]);
        Assoc(responses, [response], rest);
        responses := responses + [response];
        i := i + 1;
      }
      AppendNothing(responses);
      IdleEngine(View(), engine0);
    }
  }

  lemma IdleEngine(s: State, engine0: Engine)
    requires Inv(s, engine0)
    ensures s.active.None? ==> AgreeOutside(s.engine, Load(engine0, s.completed), s.dirty)
    ensures s.active.None? && s.dirty == {} ==> s.engine == Load(engine0, s.completed)
  {
    var want := Load(engine0, s.completed);
    if s.active.None? && s.dirty == {} {
      assert forall n :: n in s.engine <==> n in want;
    }
  }
}
