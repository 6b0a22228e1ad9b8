/** The scheduler itself, whose methods are the steps of the protocol. */
module PersistenceScheduler {
  import opened Wrappers
  import opened P = Persistence

  /** Steps of the writers. */
  predicate WriterEvent<V>(e: Event<V>) {
    e.Write? || e.Move? || e.Finish?
  }

  /** A step of a writer leaves the main thread's part alone. */
  lemma {:induction false} WriterFrame<V>(s: State<V>, e: Event<V>)
    requires Inv(s) && Enabled(s, e) && WriterEvent(e)
    ensures var t := Step(s, e);
            && t.main == s.main && t.persisted == s.persisted && t.mtGen == s.mtGen && t.reqGen == s.reqGen
            && Work(t) < Work(s)
  {
    hide WriterOk, DiskOk, TimerOk, MainOk;
  }

  /** The writer that the main thread waits for is there. */
  lemma {:induction false} WriterThere<V>(s: State<V>, gen: Gen)
    requires Inv(s) && gen <= s.reqGen && !IsGenPersisted(s, gen)
    ensures |s.jobs| == 1
  {
  }

  /** `PersistenceScheduler` with the state it shares with the timer and the writers,
      in an environment of an event loop, a background queue and a disk. */
  class PersistenceScheduler<V(==)> {
    var persisted: Snapshot<V>
    var timer: Option<HInvoke>
    var mtGen: Gen
    var persistentReqGen: Gen
    var persistentGen: Gen

    var live: map<HInvoke, V>
    var issued: nat
    var jobs: seq<Job<V>>
    var tmp: Option<Contents<V>>
    var file: Option<Contents<V>>
    ghost var main: Main
    ghost var log: seq<V>
    ghost var outcome: map<Gen, bool>

    ghost function View(): State<V>
      reads this
    {
      State(persisted, timer, mtGen, persistentReqGen, persistentGen, live, issued, main, jobs, tmp, file, log, outcome)
    }

    ghost predicate Valid()
      reads this
    {
      Inv(View())
    }

    /** The initial app state is not going to be written. */
    constructor (app: Snapshot<V>)
      ensures Valid() && View() == Init(app)
    {
      persisted, timer, mtGen, persistentReqGen, persistentGen := app, None, 0, 0, 0;
      live, issued, jobs, tmp, file := map[], 0, [], None, None;
      main, log, outcome := Idle, [app.value], map[];
      new;
      InitInv(app);
    }

    // ----- the event loop and the background queue --------------------------------

    method InvokeAfter(json: V) returns (h: HInvoke)
      modifies this
      ensures h == old(issued)
      ensures View() == old(View()).(live := old(live)[h := json], issued := h + 1)
    {
      h := issued;
      live, issued := live[h := json], issued + 1;
    }

    method CancelInvoke(h: HInvoke)
      modifies this
      ensures View() == old(View()).(live := old(live) - {h})
    {
      live := live - {h};
    }

    /** Writes the temporary file. */
    method WriteTmp(i: nat, ok: bool)
      requires i < |jobs|
      modifies this
      ensures View() == P.WriteTmp(old(View()), i, ok)
    {
      tmp := if ok then Some(Saved(jobs[i].gen, jobs[i].json)) else Some(Garbage);
      jobs := jobs[i := jobs[i].(phase := if ok then TmpWritten else Failed)];
    }

    /** Moves the temporary file over the file. */
    method Rename(i: nat, ok: bool)
      requires i < |jobs|
      modifies this
      ensures View() == P.Rename(old(View()), i, ok)
    {
      var moved := ok && tmp.Some?;
      jobs := jobs[i := jobs[i].(phase := if moved then Renamed else Failed)];
      if moved {
        file, tmp := tmp, None;
      }
    }

    /** Logs the generation as persisted. */
    method Publish(i: nat)
      requires i < |jobs|
      modifies this
      ensures View() == P.Publish(old(View()), i)
    {
      persistentGen, outcome := jobs[i].gen, outcome[jobs[i].gen := jobs[i].phase == Renamed];
      jobs := jobs[..i] + jobs[i + 1..];
    }

    /** A writer takes a step; file operations may succeed or not. */
    method WriterStep(i: nat, ok: bool) returns (ghost e: Event<V>)
      requires Valid() && i < |jobs|
      modifies this
      ensures Valid() && WriterEvent(e) && Enabled(old(View()), e) && View() == Step(old(View()), e)
      ensures (e.Write? ==> e.ok == ok) && (e.Move? ==> e.ok == ok)
    {
      WriterInv(View(), i, ok);
      hide Inv, P.WriteTmp, P.Rename, P.Publish;
      match jobs[i].phase {
        case Queued =>
          WriteTmp(i, ok);
          e := Write(i, ok);
        case TmpWritten =>
          Rename(i, ok);
          e := Move(i, ok);
        case _ =>
          Publish(i);
          e := Finish(i);
      }
    }

    // ----- the scheduler ------------------------------------------------------------

    /** Cancels the timer, whose state is not the latest any more, and counts up. */
    method CommitNewGeneration(ps: Snapshot<V>)
      modifies this
      ensures View() == Commit(old(View()), ps)
    {
      if timer.Some? {
        var h := timer.value;
        timer := None;
        CancelInvoke(h);
      }
      mtGen, persisted, log := mtGen + 1, ps, log + [ps.value];
    }

    method SchedulePersistTimer(json: V)
      modifies this
      ensures View() == P.SchedulePersistTimer(old(View()), json)
    {
      var h := InvokeAfter(json);
      timer := Some(h);
    }

    /** Sends the latest state, `json`, to a writer; none may be at work. */
    method StartPersistLatestGen(json: V)
      requires IsGenPersisted(View(), persistentReqGen)
      modifies this
      ensures View() == P.StartPersistLatestGen(old(View()), json)
    {
      persistentReqGen := mtGen;
      jobs := jobs + [Job(mtGen, json, Queued)];
    }

    /** What the event loop does when the timer `h` is due. */
    method PersistTimerHandler(h: HInvoke)
      requires Valid() && main.Idle? && h in live
      modifies this
      ensures Valid() && View() == FireTimer(old(View()), h)
    {
      hide Inv;
      FireInv(View(), h);
      var ps := live[h];
      live := live - {h};
      if !(persistentGen >= persistentReqGen) {
        SchedulePersistTimer(ps);
      } else {
        StartPersistLatestGen(ps);
      }
    }

    /** Schedules the persistence of the app state if it has changed. */
    method HandleUpdate(app: Snapshot<V>)
      requires Valid() && main.Idle? && Shared(View(), app)
      modifies this
      ensures Valid() && View() == P.HandleUpdate(old(View()), app) && persisted == app
      ensures app.wnd == old(persisted).wnd ==> View() == old(View())
      ensures app.wnd != old(persisted).wnd ==>
                && mtGen == old(mtGen) + 1 && log == old(log) + [app.value]
                && timer == Some(old(issued)) && live == map[old(issued) := app.value] && issued == old(issued) + 1
                && View() == old(View()).(persisted := app, mtGen := mtGen, log := log, timer := timer, live := live,
                                          issued := issued)
    {
      UpdateIs(View(), app);
      hide Inv;
      UpdateInv(View(), app);
      if persisted.wnd != app.wnd {
        CommitNewGeneration(app);
        SchedulePersistTimer(app.value);
      }
    }

    /** Blocks until the generation is persisted; writers go on meanwhile. */
    method BlockUntilGenPersisted(gen: Gen) returns (ghost events: seq<Event<V>>)
      requires Valid() && gen <= persistentReqGen
      modifies this
      ensures Valid() && IsGenPersisted(View(), gen)
      ensures Run(old(View()), events) && After(old(View()), events) == View() && EndFlush !in events
      ensures main == old(main) && persisted == old(persisted) && mtGen == old(mtGen)
              && persistentReqGen == old(persistentReqGen)
    {
      hide Inv, Enabled, Step, Work;
      events := [];
      while persistentGen < gen
        invariant Valid() && gen <= persistentReqGen
        invariant Run(old(View()), events) && After(old(View()), events) == View() && EndFlush !in events
        invariant main == old(main) && persisted == old(persisted) && mtGen == old(mtGen)
                  && persistentReqGen == old(persistentReqGen)
        decreases Work(View())
      {
        WriterThere(View(), gen);
        var ok: bool := *;
        ghost var was := View();
        ghost var e := WriterStep(0, ok);
        WriterFrame(was, e);
        RunOne(was, e);
        RunConcat(old(View()), events, [e]);
        events := events + [e];
      }
    }

    /** Writes the app state to disk and blocks until that is done. */
    method Flush(app: Snapshot<V>) returns (ghost events: seq<Event<V>>)
      requires Valid() && main.Idle? && Shared(View(), app)
      modifies this
      ensures Valid() && main.Idle? && persisted == app && mtGen == old(mtGen) + 1
      ensures EndFlush !in events
      ensures var all := [BeginFlush(app)] + events + [EndFlush];
              Run(old(View()), all) && View() == After(old(View()), all)
      ensures mtGen in outcome && (file == Some(Saved(mtGen, app.value)) <==> outcome[mtGen])
      ensures AllGoWell(events) ==> file == Some(Saved(mtGen, app.value))
    {
      hide Inv, AllGoWell, Work;
      ghost var s0 := View();
      FlushInv(s0, app);
      CommitNewGeneration(if persisted.wnd != app.wnd then app else persisted);
      main := Waiting(persistentReqGen);
      ghost var s1 := View();
      ghost var first := BlockUntilGenPersisted(persistentReqGen);
      ghost var s2 := View();
      FlushInv(s2, app);
      StartPersistLatestGen(persisted.value);
      main := Flushing(mtGen);
      ghost var s3 := View();
      ghost var second := BlockUntilGenPersisted(mtGen);
      ghost var s4 := View();
      FlushInv(s4, app);
      main := Idle;
      events := first + [ProceedFlush] + second;
      FlushTrace(s0, app, s1, first, s2, s3, second, s4);
    }
  }

  /** The parts of `flush` put together. */
  lemma {:induction false} FlushTrace<V>(s0: State<V>, app: Snapshot<V>, s1: State<V>, first: seq<Event<V>>,
                                         s2: State<V>,
                                         s3: State<V>, second: seq<Event<V>>, s4: State<V>)
    requires Inv(s0) && Enabled(s0, BeginFlush(app)) && s1 == Step(s0, BeginFlush(app))
    requires Run(s1, first) && s2 == After(s1, first) && EndFlush !in first
    requires Enabled(s2, ProceedFlush) && s3 == Step(s2, ProceedFlush)
    requires Run(s3, second) && s4 == After(s3, second) && EndFlush !in second
    requires Enabled(s4, EndFlush)
    ensures var events := first + [ProceedFlush] + second;
            var all := [BeginFlush(app)] + events + [EndFlush];
            var t := Step(s4, EndFlush);
            && EndFlush !in events && Run(s0, all) && t == After(s0, all) && t.mtGen == s0.mtGen + 1
            && t.mtGen in t.outcome && (t.file == Some(Saved(t.mtGen, app.value)) <==> t.outcome[t.mtGen])
            && (AllGoWell(events) ==> t.file == Some(Saved(t.mtGen, app.value)))
  {
    hide Inv, Enabled, Step;
    var events := first + [ProceedFlush] + second;
    var all := [BeginFlush(app)] + events + [EndFlush];
    RunOne(s0, BeginFlush(app));
    RunOne(s2, ProceedFlush);
    RunOne(s4, EndFlush);
    RunConcat(s0, [BeginFlush(app)], first);
    RunConcat(s0, [BeginFlush(app)] + first, [ProceedFlush]);
    RunConcat(s0, [BeginFlush(app)] + first + [ProceedFlush], second);
    RunConcat(s0, [BeginFlush(app)] + first + [ProceedFlush] + second, [EndFlush]);
    assert [BeginFlush(app)] + first + [ProceedFlush] + second + [EndFlush] == all;
    FlushOutcome(s0, app, events);
    FlushedGen(s0, app, events);
    if AllGoWell(events) {
      FlushSaves(s0, app, events);
    }
  }
}
