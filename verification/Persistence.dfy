/** How the view state gets to disk: a main thread, a debounce timer and background
    writers that share three generation counters.  The main thread's waits, the
    timer's firing and the single file operations of a writer are the steps between
    which the threads may interleave. */
module Persistence {
  import opened Wrappers

  type Gen = nat
  type HInvoke = nat
  type Ptr = nat

  /** A reference-counted snapshot: where it lives and what is there. */
  datatype Snapshot<V> = Snapshot(wnd: Ptr, value: V)

  /** How far a writer has come with the file and the temporary file. */
  datatype Phase = Queued | TmpWritten | Renamed | Failed

  datatype Job<V> = Job(gen: Gen, json: V, phase: Phase)

  /** Contents of a file; a write that failed may leave anything behind. */
  datatype Contents<V> = Saved(gen: Gen, json: V) | Garbage

  /** Where the main thread is: `flush` blocks twice, for a generation each time. */
  datatype Main = Idle | Waiting(previous: Gen) | Flushing(latest: Gen)

  datatype State<V> = State(
    // PersistenceScheduler and PersistenceSchedulerShared
    persisted: Snapshot<V>,
    timer: Option<HInvoke>,
    mtGen: Gen,
    reqGen: Gen,
    persistentGen: Gen,
    // The event loop: the timers that have yet to fire, with what their handlers
    // own, and the number of handles given out.
    live: map<HInvoke, V>,
    issued: nat,
    main: Main,
    // The background queue and the disk; `None` is what was there at the start.
    jobs: seq<Job<V>>,
    tmp: Option<Contents<V>>,
    file: Option<Contents<V>>,
    // History: the state of each generation, and how its write ended.
    log: seq<V>,
    outcome: map<Gen, bool>)

  // ----- the main thread ----------------------------------------------------------

  function Init<V>(app: Snapshot<V>): State<V> {
    State(app, None, 0, 0, 0, map[], 0, Idle, [], None, None, [app.value], map[])
  }

  /** `is_gen_persisted` */
  predicate IsGenPersisted<V>(s: State<V>, gen: Gen) {
    s.persistentGen >= gen
  }

  /** Cancels the last timer; a handle of a timer that has fired is of no effect. */
  function CancelTimer<V>(s: State<V>): State<V> {
    match s.timer
    case None => s
    case Some(h) => s.(timer := None, live := s.live - {h})
  }

  /** A new generation, of state `p`. */
  function Commit<V>(s: State<V>, p: Snapshot<V>): State<V> {
    CancelTimer(s).(mtGen := s.mtGen + 1, persisted := p, log := s.log + [p.value])
  }

  function SchedulePersistTimer<V>(s: State<V>, json: V): State<V> {
    s.(live := s.live[s.issued := json], timer := Some(s.issued), issued := s.issued + 1)
  }

  function StartPersistLatestGen<V>(s: State<V>, json: V): State<V> {
    s.(reqGen := s.mtGen, jobs := s.jobs + [Job(s.mtGen, json, Queued)])
  }

  /** `handle_update` */
  function HandleUpdate<V>(s: State<V>, app: Snapshot<V>): State<V> {
    if s.persisted.wnd != app.wnd then SchedulePersistTimer(Commit(s, app), app.value) else s
  }

  /** The timer fires and `persist_timer_handler` runs. */
  function FireTimer<V>(s: State<V>, h: HInvoke): State<V>
    requires h in s.live
  {
    var fired := s.(live := s.live - {h});
    if !IsGenPersisted(s, s.reqGen)
    then SchedulePersistTimer(fired, s.live[h])
    else StartPersistLatestGen(fired, s.live[h])
  }

  /** `flush` up to its first wait */
  function FlushBegin<V>(s: State<V>, app: Snapshot<V>): State<V> {
    var p := if s.persisted.wnd != app.wnd then app else s.persisted;
    Commit(s, p).(main := Waiting(s.reqGen))
  }

  /** `flush` between its waits */
  function FlushProceed<V>(s: State<V>): State<V> {
    StartPersistLatestGen(s, s.persisted.value).(main := Flushing(s.mtGen))
  }

  function FlushDone<V>(s: State<V>): State<V> {
    s.(main := Idle)
  }

  // ----- the writers --------------------------------------------------------------

  function SetPhase<V>(s: State<V>, i: nat, phase: Phase): State<V>
    requires i < |s.jobs|
  {
    s.(jobs := s.jobs[i := s.jobs[i].(phase := phase)])
  }

  /** Writes the temporary file. */
  function WriteTmp<V>(s: State<V>, i: nat, ok: bool): State<V>
    requires i < |s.jobs|
  {
    if ok then SetPhase(s, i, TmpWritten).(tmp := Some(Saved(s.jobs[i].gen, s.jobs[i].json)))
    else SetPhase(s, i, Failed).(tmp := Some(Garbage))
  }

  /** Moves the temporary file, whatever it holds, over the file. */
  function Rename<V>(s: State<V>, i: nat, ok: bool): State<V>
    requires i < |s.jobs|
  {
    if ok && s.tmp.Some? then SetPhase(s, i, Renamed).(file := s.tmp, tmp := None)
    else SetPhase(s, i, Failed)
  }

  /** Logs the generation as persisted, even if it could not be written. */
  function Publish<V>(s: State<V>, i: nat): State<V>
    requires i < |s.jobs|
  {
    s.(persistentGen := s.jobs[i].gen, jobs := s.jobs[..i] + s.jobs[i + 1..],
       outcome := s.outcome[s.jobs[i].gen := s.jobs[i].phase == Renamed])
  }

  // ----- runs -----------------------------------------------------------------------

  datatype Event<V> =
    | Update(app: Snapshot<V>)
    | Fire(h: HInvoke)
    | BeginFlush(app: Snapshot<V>)
    | ProceedFlush
    | EndFlush
    | Write(i: nat, ok: bool)
    | Move(i: nat, ok: bool)
    | Finish(i: nat)

  /** The same pointer means the same contents: the app state is copied before it is
      changed. */
  predicate Shared<V(==)>(s: State<V>, app: Snapshot<V>) {
    app.wnd == s.persisted.wnd ==> app.value == s.persisted.value
  }

  predicate Enabled<V(==)>(s: State<V>, e: Event<V>) {
    match e
    case Update(app) => s.main.Idle? && Shared(s, app)
    case Fire(h) => s.main.Idle? && h in s.live
    case BeginFlush(app) => s.main.Idle? && Shared(s, app)
    case ProceedFlush => s.main.Waiting? && IsGenPersisted(s, s.main.previous)
    case EndFlush => s.main.Flushing? && IsGenPersisted(s, s.main.latest)
    case Write(i, _) => i < |s.jobs| && s.jobs[i].phase == Queued
    case Move(i, _) => i < |s.jobs| && s.jobs[i].phase == TmpWritten
    case Finish(i) => i < |s.jobs| && (s.jobs[i].phase == Renamed || s.jobs[i].phase == Failed)
  }

  function Step<V>(s: State<V>, e: Event<V>): State<V>
    requires Enabled(s, e)
  {
    match e
    case Update(app) => HandleUpdate(s, app)
    case Fire(h) => FireTimer(s, h)
    case BeginFlush(app) => FlushBegin(s, app)
    case ProceedFlush => FlushProceed(s)
    case EndFlush => FlushDone(s)
    case Write(i, ok) => WriteTmp(s, i, ok)
    case Move(i, ok) => Rename(s, i, ok)
    case Finish(i) => Publish(s, i)
  }

  /** `events` can happen one after the other, starting from `s`. */
  predicate Run<V(==)>(s: State<V>, events: seq<Event<V>>)
    decreases |events|
  {
    events == [] || (Enabled(s, events[0]) && Run(Step(s, events[0]), events[1..]))
  }

  function After<V>(s: State<V>, events: seq<Event<V>>): State<V>
    requires Run(s, events)
    decreases |events|
  {
    if events == [] then s else After(Step(s, events[0]), events[1..])
  }

  // ----- what every step keeps ------------------------------------------------------

  /** Generations are in order, and there is a writer at work exactly if the latest
      generation sent to one has not been logged yet. */
  predicate GensOk<V(==)>(s: State<V>) {
    && s.persistentGen <= s.reqGen <= s.mtGen && |s.log| == s.mtGen + 1
    && s.persisted.value == s.log[s.mtGen]
    && |s.jobs| == (if s.persistentGen == s.reqGen then 0 else 1)
  }

  /** The one writer has the state of its generation, and nobody else touches the
      temporary file. */
  predicate WriterOk<V(==)>(s: State<V>)
    requires GensOk(s)
  {
    s.jobs != [] ==>
      var job := s.jobs[0];
      && job.gen == s.reqGen && job.json == s.log[s.reqGen]
      && (job.phase == TmpWritten ==> s.tmp == Some(Saved(job.gen, job.json)))
      && (job.phase == Renamed ==> s.file == Some(Saved(job.gen, job.json)))
  }

  /** The file holds the state of a generation that was sent to a writer. */
  predicate DiskOk<V(==)>(s: State<V>)
    requires GensOk(s)
  {
    && (s.file.Some? ==>
          && s.file.value.Saved?
          && s.file.value.gen <= (if s.jobs != [] && s.jobs[0].phase == Renamed then s.reqGen else s.persistentGen)
          && s.file.value.json == s.log[s.file.value.gen])
    && (forall g :: g in s.outcome ==> g <= s.persistentGen)
    && (forall g :: g in s.outcome && s.outcome[g] ==> s.file.Some? && s.file.value.Saved? && s.file.value.gen >= g)
    && (s.persistentGen > 0 ==> s.persistentGen in s.outcome)
    && (s.file.Some? && s.file.value.Saved? && s.file.value.gen <= s.persistentGen ==>
          s.file.value.gen in s.outcome && s.outcome[s.file.value.gen])
  }

  /** Only the last timer can be live; it carries the state of the latest generation. */
  predicate TimerOk<V(==)>(s: State<V>)
    requires GensOk(s)
  {
    && (s.timer.Some? ==> s.timer.value < s.issued)
    && forall h :: h in s.live ==> s.timer == Some(h) && s.live[h] == s.log[s.mtGen]
  }

  /** No update is lost: the latest generation has been sent to a writer, or there is a
      timer, or the main thread is about to send it. */
  predicate MainOk<V>(s: State<V>) {
    match s.main
    case Idle => if s.reqGen == s.mtGen then s.live == map[] else s.timer.Some? && s.timer.value in s.live
    case Waiting(previous) => s.live == map[] && previous == s.reqGen < s.mtGen
    case Flushing(latest) => s.live == map[] && 0 < latest == s.reqGen == s.mtGen
  }

  predicate Inv<V(==)>(s: State<V>) {
    GensOk(s) && WriterOk(s) && DiskOk(s) && TimerOk(s) && MainOk(s)
  }

  lemma {:induction false} InitInv<V>(app: Snapshot<V>)
    ensures Inv(Init(app))
  {
  }

  lemma {:induction false} UpdateInv<V>(s: State<V>, app: Snapshot<V>)
    requires Inv(s) && s.main.Idle? && Shared(s, app)
    ensures Inv(HandleUpdate(s, app)) && HandleUpdate(s, app).persisted == app
  {
  }

  /** An update to the window state that is known already does nothing; any other is a
      new generation, with a timer of its own in place of every other. */
  lemma {:induction false} UpdateIs<V>(s: State<V>, app: Snapshot<V>)
    requires Inv(s) && Enabled(s, Update(app))
    ensures app.wnd == s.persisted.wnd ==> Step(s, Update(app)) == s
    ensures app.wnd != s.persisted.wnd ==>
              Step(s, Update(app)) == s.(persisted := app, mtGen := s.mtGen + 1, log := s.log + [app.value],
                                         timer := Some(s.issued), live := map[s.issued := app.value],
                                         issued := s.issued + 1)
  {
    hide WriterOk, DiskOk, MainOk;
    assert CancelTimer(s).live == map[];
  }

  lemma {:induction false} FireInv<V>(s: State<V>, h: HInvoke)
    requires Inv(s) && s.main.Idle? && h in s.live
    ensures Inv(FireTimer(s, h))
  {
  }

  lemma {:induction false} FlushInv<V>(s: State<V>, app: Snapshot<V>)
    requires Inv(s)
    ensures s.main.Idle? && Shared(s, app) ==> Inv(FlushBegin(s, app)) && FlushBegin(s, app).persisted == app
    ensures s.main.Waiting? && IsGenPersisted(s, s.main.previous) ==> Inv(FlushProceed(s))
    ensures s.main.Flushing? && IsGenPersisted(s, s.main.latest) ==> Inv(FlushDone(s))
  {
  }

  lemma {:induction false} WriterInv<V>(s: State<V>, i: nat, ok: bool)
    requires Inv(s) && i < |s.jobs|
    ensures s.jobs[i].phase == Queued ==> Inv(WriteTmp(s, i, ok))
    ensures s.jobs[i].phase == TmpWritten ==> Inv(Rename(s, i, ok))
    ensures s.jobs[i].phase == Renamed || s.jobs[i].phase == Failed ==> Inv(Publish(s, i))
  {
  }

  lemma {:induction false} StepInv<V>(s: State<V>, e: Event<V>)
    requires Inv(s) && Enabled(s, e)
    ensures Inv(Step(s, e))
  {
    hide Inv;
    match e {
      case Update(app) => UpdateInv(s, app);
      case Fire(h) => FireInv(s, h);
      case BeginFlush(app) => FlushInv(s, app);
      case ProceedFlush => FlushInv(s, s.persisted);
      case EndFlush => FlushInv(s, s.persisted);
      case Write(i, ok) => WriterInv(s, i, ok);
      case Move(i, ok) => WriterInv(s, i, ok);
      case Finish(i) => WriterInv(s, i, true);
    }
  }

  /** The invariant holds throughout every run. */
  lemma {:induction false} RunInv<V>(s: State<V>, events: seq<Event<V>>)
    requires Inv(s) && Run(s, events)
    ensures Inv(After(s, events))
    decreases |events|
  {
    hide Inv, Enabled, Step;
    if events != [] {
      StepInv(s, events[0]);
      RunInv(Step(s, events[0]), events[1..]);
    }
  }

  // ----- safety of single steps -----------------------------------------------------

  /** The assertions of the code hold at every step of every run: nothing is being
      written when a writer is started, which gets the state of the latest
      generation, and a writer logs a newer generation than the last. */
  lemma {:induction false} AssertionsHold<V>(s: State<V>, e: Event<V>)
    requires Inv(s) && Enabled(s, e)
    ensures |Step(s, e).jobs| > |s.jobs| ==>
              && IsGenPersisted(s, s.reqGen) && Step(s, e).reqGen > s.reqGen
              && Step(s, e).jobs == [Job(s.mtGen, s.persisted.value, Queued)]
    ensures e.Finish? ==> e.i == 0 && s.persistentGen < s.jobs[e.i].gen
  {
    hide DiskOk;
  }

  function DiskGen<V>(s: State<V>): Gen {
    if s.file.Some? && s.file.value.Saved? then s.file.value.gen else 0
  }

  lemma {:induction false} GensStep<V>(s: State<V>, e: Event<V>)
    requires Inv(s) && Enabled(s, e)
    ensures DiskGen(s) <= DiskGen(Step(s, e)) && s.persistentGen <= Step(s, e).persistentGen
    ensures s.mtGen <= Step(s, e).mtGen && s.log <= Step(s, e).log && s.reqGen <= Step(s, e).reqGen
  {
  }

  /** The generation on disk never decreases, nor do the counters, and what is on disk
      is the state of its generation, even if writes fail. */
  lemma {:induction false} DiskMonotone<V>(s: State<V>, events: seq<Event<V>>)
    requires Inv(s) && Run(s, events)
    ensures var t := After(s, events);
            && DiskGen(s) <= DiskGen(t) <= t.reqGen && s.persistentGen <= t.persistentGen <= t.reqGen <= t.mtGen
            && |t.log| == t.mtGen + 1 && (t.file.Some? ==> t.file == Some(Saved(DiskGen(t), t.log[DiskGen(t)])))
    decreases |events|
  {
    if events != [] {
      StepInv(s, events[0]);
      GensStep(s, events[0]);
      DiskMonotone(Step(s, events[0]), events[1..]);
    }
  }

  // ----- no update is lost ----------------------------------------------------------

  /** The last contents of the app state that the scheduler has been told of. */
  function Latest<V>(app: V, events: seq<Event<V>>): V
    decreases |events|
  {
    if events == [] then app
    else match events[0]
      case Update(a) => Latest(a.value, events[1..])
      case BeginFlush(a) => Latest(a.value, events[1..])
      case _ => Latest(app, events[1..])
  }

  lemma {:induction false} PersistedIsLatest<V>(s: State<V>, events: seq<Event<V>>)
    requires Inv(s) && Run(s, events)
    ensures After(s, events).persisted.value == Latest(s.persisted.value, events)
    decreases |events|
  {
    if events != [] {
      var t := Step(s, events[0]);
      StepInv(s, events[0]);
      PersistedIsLatest(t, events[1..]);
      match events[0] {
        case Update(a) => UpdateInv(s, a);
        case BeginFlush(a) => FlushInv(s, a);
        case _ => assert t.persisted == s.persisted;
      }
    }
  }

  /** Where the latest state is while the main thread is idle: in the hands of one
      timer, of a writer, or dealt with. */
  lemma {:induction false} IdleState<V>(s: State<V>)
    requires Inv(s) && s.main.Idle?
    ensures if s.reqGen == s.mtGen then s.live == map[]
            else s.reqGen < s.mtGen && s.timer.Some? && s.live == map[s.timer.value := s.persisted.value]
    ensures s.persistentGen < s.reqGen == s.mtGen ==> s.jobs == [Job(s.mtGen, s.persisted.value, s.jobs[0].phase)]
    ensures 0 < s.persistentGen == s.mtGen ==>
              s.mtGen in s.outcome && (s.file == Some(Saved(s.mtGen, s.persisted.value)) <==> s.outcome[s.mtGen])
  {
  }

  /** Whenever the main thread is idle, either the latest app state has been handed to
      a writer and no timer is live, or it has not and exactly one timer is live,
      which carries it. */
  lemma {:induction false} NoUpdateLost<V>(app: Snapshot<V>, events: seq<Event<V>>)
    requires Run(Init(app), events) && After(Init(app), events).main.Idle?
    ensures var s, latest := After(Init(app), events), Latest(app.value, events);
            && |s.log| == s.mtGen + 1 && s.log[s.mtGen] == latest
            && if s.reqGen == s.mtGen then s.live == map[]
               else s.reqGen < s.mtGen && s.timer.Some? && s.live == map[s.timer.value := latest]
  {
    InitInv(app);
    RunInv(Init(app), events);
    PersistedIsLatest(Init(app), events);
    IdleState(After(Init(app), events));
  }

  /** Once nothing is left to happen, the latest state is on disk if and only if the
      last write went well: it is not tried again otherwise. */
  lemma {:induction false} Settled<V>(app: Snapshot<V>, events: seq<Event<V>>)
    requires Run(Init(app), events)
    requires var s := After(Init(app), events); s.main.Idle? && s.jobs == [] && s.live == map[]
    ensures var s := After(Init(app), events);
            && s.persistentGen == s.reqGen == s.mtGen
            && (s.mtGen > 0 ==>
                  && s.mtGen in s.outcome
                  && (s.file == Some(Saved(s.mtGen, Latest(app.value, events))) <==> s.outcome[s.mtGen]))
  {
    InitInv(app);
    RunInv(Init(app), events);
    PersistedIsLatest(Init(app), events);
    IdleState(After(Init(app), events));
  }

  /** An update whose write fails is not on disk when everything has come to rest. */
  lemma {:induction false} FailedWriteIsDropped()
    ensures var a, b: Snapshot<int> := Snapshot(0, 0), Snapshot(1, 1);
            var events := [Update(b), Fire(0), Write(0, false), Finish(0)];
            && Run(Init(a), events)
            && var s := After(Init(a), events);
               s.main.Idle? && s.jobs == [] && s.live == map[] && s.file == None
  {
    var a, b: Snapshot<int> := Snapshot(0, 0), Snapshot(1, 1);
    var e3: seq<Event<int>> := [Finish(0)];
    var e2, e1 := [Write(0, false)] + e3, [Fire(0)] + ([Write(0, false)] + e3);
    var events := [Update(b)] + e1;
    var s0 := Init(a);
    var s1 := Step(s0, Update(b));
    var s2 := Step(s1, Fire(0));
    var s3 := Step(s2, Write(0, false));
    assert events == [Update(b), Fire(0), Write(0, false), Finish(0)];
    assert events[1..] == e1 && e1[1..] == e2 && e2[1..] == e3 && e3[1..] == [];
    assert Run(s3, e3) && Run(s2, e2) && Run(s1, e1) && Run(s0, events);
    assert After(s0, events) == After(s1, e1) == After(s2, e2) == After(s3, e3);
  }

  // ----- flush ----------------------------------------------------------------------

  predicate GoesWell<V>(e: Event<V>) {
    match e
    case Write(_, ok) => ok
    case Move(_, ok) => ok
    case _ => true
  }

  predicate AllGoWell<V>(events: seq<Event<V>>) {
    forall i :: 0 <= i < |events| ==> GoesWell(events[i])
  }

  /** While `flush` runs with `app`, and file operations succeed. */
  predicate FlushOk<V(==)>(s: State<V>, app: V) {
    && s.persisted.value == app
    && match s.main
       case Idle => false
       case Waiting(_) => true
       case Flushing(latest) => if s.jobs == [] then latest in s.outcome
           && s.outcome[latest] else s.jobs[0].phase != Failed
  }

  lemma {:induction false} FlushStep<V>(s: State<V>, e: Event<V>, app: V)
    requires Inv(s) && Enabled(s, e) && FlushOk(s, app) && GoesWell(e) && e != EndFlush
    ensures FlushOk(Step(s, e), app)
  {
  }

  lemma {:induction false} FlushRun<V>(s: State<V>, events: seq<Event<V>>, app: V)
    requires Inv(s) && Run(s, events + [EndFlush]) && FlushOk(s, app) && AllGoWell(events) && EndFlush !in events
    ensures var t := After(s, events + [EndFlush]);
            t.main.Idle? && t.persisted.value == app && t.file == Some(Saved(t.mtGen, app))
    decreases |events|
  {
    var all := events + [EndFlush];
    if events == [] {
      assert all[0] == EndFlush && all[1..] == [];
    } else {
      assert all[0] == events[0] && all[1..] == events[1..] + [EndFlush];
      StepInv(s, events[0]);
      assert GoesWell(events[0]);
      FlushStep(s, events[0], app);
      assert forall i :: 0 <= i < |events| - 1 ==> events[1..][i] == events[i + 1];
      FlushRun(Step(s, events[0]), events[1..], app);
    }
  }

  /** When `flush` returns, the disk holds the state that was passed to it, unless a
      file operation failed meanwhile. */
  lemma {:induction false} FlushSaves<V>(s: State<V>, app: Snapshot<V>, events: seq<Event<V>>)
    requires Inv(s) && Run(s, [BeginFlush(app)] + events + [EndFlush]) && AllGoWell(events) && EndFlush !in events
    ensures var t := After(s, [BeginFlush(app)] + events + [EndFlush]);
            t.main.Idle? && t.persisted.value == app.value && t.file == Some(Saved(t.mtGen, app.value))
                && t.mtGen == s.mtGen + 1
  {
    var all := [BeginFlush(app)] + events + [EndFlush];
    assert all[0] == BeginFlush(app) && all[1..] == events + [EndFlush];
    FlushInv(s, app);
    FlushRun(FlushBegin(s, app), events, app.value);
    FlushedGen(s, app, events);
  }

  lemma {:induction false} FlushKeeps<V>(s: State<V>, e: Event<V>)
    requires !s.main.Idle? && Enabled(s, e) && e != EndFlush
    ensures !Step(s, e).main.Idle? && Step(s, e).persisted == s.persisted
  {
  }

  lemma {:induction false} EndOfFlush<V>(s: State<V>, events: seq<Event<V>>, app: V)
    requires Inv(s) && !s.main.Idle? && s.persisted.value == app && Run(s, events + [EndFlush]) && EndFlush !in events
    ensures var t := After(s, events + [EndFlush]);
            t.mtGen in t.outcome && (t.file == Some(Saved(t.mtGen, app)) <==> t.outcome[t.mtGen])
    decreases |events|
  {
    var all := events + [EndFlush];
    if events == [] {
      assert all[0] == EndFlush && all[1..] == [];
    } else {
      assert all[0] == events[0] && all[1..] == events[1..] + [EndFlush];
      hide Inv, Enabled, Step;
      StepInv(s, events[0]);
      FlushKeeps(s, events[0]);
      EndOfFlush(Step(s, events[0]), events[1..], app);
    }
  }

  /** In any case, it holds it if and only if the write of that state was logged as a
      success. */
  lemma {:induction false} FlushOutcome<V>(s: State<V>, app: Snapshot<V>, events: seq<Event<V>>)
    requires Inv(s) && Run(s, [BeginFlush(app)] + events + [EndFlush]) && EndFlush !in events
    ensures var t := After(s, [BeginFlush(app)] + events + [EndFlush]);
            t.mtGen in t.outcome && (t.file == Some(Saved(t.mtGen, app.value)) <==> t.outcome[t.mtGen])
  {
    var all := [BeginFlush(app)] + events + [EndFlush];
    assert all[0] == BeginFlush(app) && all[1..] == events + [EndFlush];
    FlushInv(s, app);
    EndOfFlush(FlushBegin(s, app), events, app.value);
  }

  lemma {:induction false} FlushedGen<V>(s: State<V>, app: Snapshot<V>, events: seq<Event<V>>)
    requires Run(s, [BeginFlush(app)] + events + [EndFlush]) && EndFlush !in events
    ensures After(s, [BeginFlush(app)] + events + [EndFlush]).mtGen == s.mtGen + 1
  {
    var all := [BeginFlush(app)] + events + [EndFlush];
    assert all[0] == BeginFlush(app) && all[1..] == events + [EndFlush];
    FlushGen(FlushBegin(s, app), events + [EndFlush]);
  }

  lemma {:induction false} FlushGen<V>(s: State<V>, events: seq<Event<V>>)
    requires Run(s, events) && (s.main.Idle? ==> events == [])
             && forall i :: 0 <= i < |events| - 1 ==> events[i] != EndFlush
    ensures After(s, events).mtGen == s.mtGen
    decreases |events|
  {
    if events != [] {
      FlushGen(Step(s, events[0]), events[1..]);
    }
  }

  /** How much is left to do for the writer, and until `flush` returns. */
  function Work<V>(s: State<V>): nat {
    if s.jobs == [] then 0
    else match s.jobs[0].phase
      case Queued => 3
      case TmpWritten => 2
      case _ => 1
  }

  function FlushWork<V>(s: State<V>): nat {
    Work(s) + if s.main.Waiting? then 4 else 0
  }

  /** A wait of `flush` is over, or a writer can take a step. */
  lemma {:induction false} WaitHasWaker<V>(s: State<V>)
    requires Inv(s) && !s.main.Idle?
    ensures Enabled(s, ProceedFlush) || Enabled(s, EndFlush) || Enabled(s, Write(0, true)) || Enabled(s, Move(0, true))
            || Enabled(s, Finish(0))
  {
  }

  lemma {:induction false} WorkStep<V>(s: State<V>, e: Event<V>)
    requires Inv(s) && !s.main.Idle? && Enabled(s, e) && e != EndFlush
    ensures !Step(s, e).main.Idle? && FlushWork(Step(s, e)) < FlushWork(s)
  {
    hide DiskOk;
  }

  /** And `flush` returns after a few steps, however the threads are scheduled. */
  lemma {:induction false} FlushEnds<V>(s: State<V>, events: seq<Event<V>>)
    requires Inv(s) && !s.main.Idle? && Run(s, events) && EndFlush !in events
    ensures |events| <= FlushWork(s)
    decreases |events|
  {
    if events != [] {
      hide Inv, Enabled, Step, FlushWork;
      StepInv(s, events[0]);
      WorkStep(s, events[0]);
      FlushEnds(Step(s, events[0]), events[1..]);
    }
  }

  // ----- coming to rest ---------------------------------------------------------------

  /** Events other than updates and flushes. */
  predicate Quiet<V>(e: Event<V>) {
    e.Fire? || e.Write? || e.Move? || e.Finish?
  }

  predicate AllQuiet<V>(events: seq<Event<V>>) {
    forall i :: 0 <= i < |events| ==> Quiet(events[i])
  }

  /** The timer fires while a writer is at work, and is set again. */
  predicate Postpones<V>(s: State<V>, e: Event<V>) {
    e.Fire? && !IsGenPersisted(s, s.reqGen)
  }

  predicate AtRest<V>(s: State<V>) {
    s.main.Idle? && s.jobs == [] && s.live == map[]
  }

  /** How much is left to do without further updates. */
  function Left<V>(s: State<V>): nat {
    Work(s) + if s.reqGen < s.mtGen then 4 else 0
  }

  lemma {:induction false} QuietStep<V>(s: State<V>, e: Event<V>)
    requires Inv(s) && s.main.Idle? && Enabled(s, e) && Quiet(e)
    ensures Step(s, e).main.Idle?
    ensures if Postpones(s, e) then Left(Step(s, e)) == Left(s) else Left(Step(s, e)) < Left(s)
  {
    hide DiskOk;
  }

  /** The number of events in a run that are not mere postponements. */
  function Progress<V>(s: State<V>, events: seq<Event<V>>): nat
    requires Run(s, events)
    decreases |events|
  {
    if events == [] then 0
    else (if Postpones(s, events[0]) then 0 else 1) + Progress(Step(s, events[0]), events[1..])
  }

  /** Without further updates, the timer can only be postponed and a few more things can
      happen, however the threads are scheduled. */
  lemma {:induction false} QuietBound<V>(s: State<V>, events: seq<Event<V>>)
    requires Inv(s) && s.main.Idle? && Run(s, events) && AllQuiet(events)
    ensures Inv(After(s, events)) && After(s, events).main.Idle?
    ensures Progress(s, events) + Left(After(s, events)) <= Left(s)
    decreases |events|
  {
    if events != [] {
      hide Inv, Enabled, Step, Left, Postpones, Quiet;
      assert Quiet(events[0]);
      assert forall i :: 0 <= i < |events| - 1 ==> events[1..][i] == events[i + 1];
      StepInv(s, events[0]);
      QuietStep(s, events[0]);
      QuietBound(Step(s, events[0]), events[1..]);
    }
  }

  /** Everything is at rest if and only if nothing is left to do; until then, a writer
      can take a step, or the timer can start one. */
  lemma {:induction false} RestIs<V>(s: State<V>)
    requires Inv(s) && s.main.Idle?
    ensures AtRest(s) <==> Left(s) == 0
    ensures AtRest(s) <==> !exists e: Event<V> :: Quiet(e) && Enabled(s, e) && !Postpones(s, e)
  {
    if s.jobs != [] {
      var e: Event<V> := match s.jobs[0].phase case Queued => Write(0, true) case TmpWritten => Move(0,
          true) case _ => Finish(0);
      assert Quiet(e) && Enabled(s, e) && !Postpones(s, e);
    } else if s.live != map[] {
      var e: Event<V> := Fire(s.timer.value);
      assert Quiet(e) && Enabled(s, e) && !Postpones(s, e);
    }
  }

  /** A schedule that gives writers and timers their turn: it goes on until nothing but
      postponing is possible.  Without further updates it ends at rest, with the latest
      state dealt with, after a bounded number of steps that matter. */
  lemma {:induction false} ComesToRest<V>(app: Snapshot<V>, events: seq<Event<V>>, quiet: seq<Event<V>>)
    requires Run(Init(app), events) && After(Init(app), events).main.Idle?
    requires Run(After(Init(app), events), quiet) && AllQuiet(quiet)
    requires var t := After(After(Init(app), events), quiet);
             !exists e: Event<V> :: Quiet(e) && Enabled(t, e) && !Postpones(t, e)
    ensures Progress(After(Init(app), events), quiet) <= Left(After(Init(app), events)) <= 7
    ensures var t := After(After(Init(app), events), quiet);
            && AtRest(t) && t.persistentGen == t.reqGen == t.mtGen && t.persisted.value == Latest(app.value, events)
            && (t.mtGen > 0 ==>
                  t.mtGen in t.outcome && (t.file == Some(Saved(t.mtGen, Latest(app.value, events))) <==>
                      t.outcome[t.mtGen]))
  {
    hide Inv, Enabled, Step, Quiet, Postpones;
    var s := After(Init(app), events);
    InitInv(app);
    RunInv(Init(app), events);
    QuietBound(s, quiet);
    var t := After(s, quiet);
    RestIs(t);
    AtRestGens(t);
    PersistedIsLatest(Init(app), events);
    QuietKeeps(s, quiet);
    IdleState(t);
  }

  lemma {:induction false} AtRestGens<V>(s: State<V>)
    requires Inv(s) && AtRest(s)
    ensures s.persistentGen == s.reqGen == s.mtGen
  {
  }

  lemma {:induction false} QuietKeeps<V>(s: State<V>, events: seq<Event<V>>)
    requires Run(s, events) && AllQuiet(events)
    ensures After(s, events).persisted == s.persisted
    decreases |events|
  {
    if events != [] {
      assert Quiet(events[0]);
      assert forall i :: 0 <= i < |events| - 1 ==> events[1..][i] == events[i + 1];
      QuietKeeps(Step(s, events[0]), events[1..]);
    }
  }

  /** Updates on their own start no writer: a stream of them that never lets the timer
      fire postpones writing for ever. */
  lemma {:induction false} UpdatesPostpone<V>(s: State<V>, events: seq<Event<V>>)
    requires Run(s, events) && forall i :: 0 <= i < |events| ==> events[i].Update?
    ensures var t := After(s, events);
            t.reqGen == s.reqGen && t.jobs == s.jobs && t.file == s.file && |t.log| >= |s.log|
    decreases |events|
  {
    if events != [] {
      assert events[0].Update?;
      assert forall i :: 0 <= i < |events| - 1 ==> events[1..][i] == events[i + 1];
      UpdatesPostpone(Step(s, events[0]), events[1..]);
    }
  }

  // ----- runs, one after the other ----------------------------------------------------

  lemma {:induction false} RunConcat<V>(s: State<V>, a: seq<Event<V>>, b: seq<Event<V>>)
    requires Run(s, a) && Run(After(s, a), b)
    ensures Run(s, a + b) && After(s, a + b) == After(After(s, a), b)
    decreases |a|
  {
    if a == [] {
      assert a + b == b;
    } else {
      assert (a + b)[0] == a[0] && (a + b)[1..] == a[1..] + b;
      RunConcat(Step(s, a[0]), a[1..], b);
    }
  }

  lemma {:induction false} RunOne<V>(s: State<V>, e: Event<V>)
    requires Enabled(s, e)
    ensures Run(s, [e]) && After(s, [e]) == Step(s, e)
  {
    var t := Step(s, e);
    assert [e][1..] == [] && Run(t, []) && After(t, []) == t;
  }
}
