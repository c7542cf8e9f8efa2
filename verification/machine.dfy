/** The controller as an event-driven state machine: each event is a callback
    of one screen and takes effect only while that screen is mounted. */
module Machine {
  import opened Types
  import opened Access
  import opened Metric
  import opened Session
  import opened Controller
  import opened View

  /** The callbacks the screens invoke. An unlock carries the submitted
      password together with what the log fetch and the clock answer. */
  datatype Event =
    | Unlock(password: string, logs: seq<LogEntry>, today: Day)
    | IntroComplete
    | BeginFarewell
    | CancelFarewellRequest

  /** Which callback each screen is given. */
  predicate Listens(scr: Screen, e: Event)
  {
    match e
    case Unlock(_, _, _) => scr.GateScreen?
    case IntroComplete => scr.IntroScreen?
    case BeginFarewell => scr.SanctuaryScreen?
    case CancelFarewellRequest => scr.FarewellScreen?
  }

  /** An event can happen only through a mounted screen that owns it. */
  predicate Delivered(s: State, e: Event)
  {
    exists scr :: scr in Mounted(s) && Listens(scr, e)
  }

  /** One event, handled atomically (the handler's awaits run in sequence).
      An event takes effect only after the startup check and from the stage
      whose screen owns its callback; there an unlock moves by the resolved
      role, and each callback moves the stage alone. */
  function Step(s: State, e: Event): (r: State)
    ensures !(!s.checking && s.stage == OwningStage(e)) ==> r == s
    ensures !s.checking && s.stage == OwningStage(e) ==>
              if e.Unlock? then
                (Resolve(e.password) == None ==> r == s) &&
                (Resolve(e.password) == Some(Aliya) ==>
                   r.stage == Intro && r.mode == Known(Aliya) &&
                   r.heartCount == HeartCount(e.logs, e.today)) &&
                (Resolve(e.password) == Some(Admin) ==>
                   r.stage == Sanctuary && r.mode == Known(Admin) && r.heartCount == s.heartCount) &&
                (Resolve(e.password).Some? ==>
                   GetItem(r.storage, SessionKey) == Some(Serialize(Resolve(e.password).value)) &&
                   (forall k :: k != SessionKey ==> GetItem(r.storage, k) == GetItem(s.storage, k)) &&
                   r.checking == s.checking)
              else if e.BeginFarewell? then r == s.(stage := Farewell)
              else r == s.(stage := Sanctuary)
  {
    DeliveredExactlyInOwningStage(s, e);
    if !Delivered(s, e) then s
    else match e
      case Unlock(p, logs, today) => HandleUnlock(s, p, logs, today)
      case IntroComplete => CompleteIntro(s)
      case BeginFarewell => StartFarewell(s)
      case CancelFarewellRequest => CancelFarewell(s)
  }

  /** A sequence of events, in order. */
  function Run(s: State, events: seq<Event>): State
    decreases |events|
  {
    if events == [] then s else Run(Step(s, events[0]), events[1..])
  }

  /** The stage whose screen owns each event's callback. */
  function OwningStage(e: Event): Stage
  {
    match e
    case Unlock(_, _, _) => Gate
    case IntroComplete => Intro
    case BeginFarewell => Sanctuary
    case CancelFarewellRequest => Farewell
  }

  /** The mounted screens accept an event exactly when the startup check is
      over and the current stage is the one whose screen owns its callback. */
  lemma DeliveredExactlyInOwningStage(s: State, e: Event)
    ensures Delivered(s, e) <==> !s.checking && s.stage == OwningStage(e)
  {
    RenderMountsStageScreen(s);
    if !s.checking && s.stage == OwningStage(e) {
      assert StageScreen(s) in Mounted(s);
    }
  }

  /** Every event received while checking, or from another stage, is ignored. */
  lemma IgnoredOutsideItsStage(s: State, e: Event)
    requires s.checking || s.stage != OwningStage(e)
    ensures Step(s, e) == s
  {
    DeliveredExactlyInOwningStage(s, e);
  }

  /** The invariant of every state after startup. At the gate nothing has
      been unlocked yet; the introduction is only ever entered as Aliya, with
      the record already saved. */
  predicate Inv(s: State)
  {
    && !s.checking
    && (s.stage == Gate ==> s.mode == Known(Aliya) && s.heartCount == 0)
    && (s.stage == Intro ==>
          s.mode == Known(Aliya) && GetItem(s.storage, SessionKey) == Some(Serialize(Aliya)))
  }

  /** Startup establishes the invariant. */
  lemma StartupEstablishesInv(storage: Storage, parse: string -> ParseOutcome)
    ensures Inv(Startup(storage, parse))
  {
  }

  /** Each event preserves the invariant, and the gate is never re-entered. */
  lemma StepPreservesInv(s: State, e: Event)
    requires Inv(s)
    ensures Inv(Step(s, e))
    ensures s.stage != Gate ==> Step(s, e).stage != Gate
  {
    DeliveredExactlyInOwningStage(s, e);
    if Delivered(s, e) && e.Unlock? {
      var r := Resolve(e.password);
      if r == Some(Aliya) {
        assert Step(s, e).stage == Intro;
      }
    }
  }

  /** Any run of events preserves the invariant and never returns to the gate. */
  lemma {:induction false} RunPreservesInv(s: State, events: seq<Event>)
    requires Inv(s)
    ensures Inv(Run(s, events))
    ensures s.stage != Gate ==> Run(s, events).stage != Gate
    decreases |events|
  {
    if events != [] {
      StepPreservesInv(s, events[0]);
      RunPreservesInv(Step(s, events[0]), events[1..]);
    }
  }

  /** After startup and any events, exactly one screen is mounted: the
      current stage's. */
  lemma ReachableMountsOneScreen(storage: Storage, parse: string -> ParseOutcome, events: seq<Event>)
    ensures var s := Run(Startup(storage, parse), events);
            Mounted(s) == [StageScreen(s)]
  {
    StartupEstablishesInv(storage, parse);
    RunPreservesInv(Startup(storage, parse), events);
    RenderMountsStageScreen(Run(Startup(storage, parse), events));
  }

  /** A password matching neither key, submitted at the gate, changes nothing. */
  lemma RejectedUnlockChangesNothing(s: State, p: string, logs: seq<LogEntry>, today: Day)
    requires Resolve(p) == None
    ensures Step(s, Unlock(p, logs, today)) == s
  {
  }

  /** A session saved by an unlock restores the same role after a reload,
      straight into the sanctuary, without a password and without a count.
      This holds for Aliya too: a returning Aliya skips the introduction. */
  lemma SessionSurvivesReload(s: State, p: string, logs: seq<LogEntry>, today: Day,
                              parse: string -> ParseOutcome)
    requires ReadsBackRecords(parse)
    requires !s.checking && s.stage == Gate
    requires Resolve(p).Some?
    ensures var reloaded := Startup(Step(s, Unlock(p, logs, today)).storage, parse);
            reloaded.stage == Sanctuary && reloaded.mode == Known(Resolve(p).value) &&
            reloaded.heartCount == 0
  {
    DeliveredExactlyInOwningStage(s, Unlock(p, logs, today));
  }

  /** A reload after the startup check finds what that check left behind and
      repeats its outcome: a dropped payload stays dropped. */
  lemma StartupIdempotent(storage: Storage, parse: string -> ParseOutcome)
    ensures Startup(Startup(storage, parse).storage, parse) == Startup(storage, parse)
  {
  }

  /** The Aliya journey from a start that stays at the gate (nothing saved,
      a record without a mode, or a corrupt payload): gate, then the
      introduction with today's count, then the sanctuary. */
  lemma AliyaJourney(storage: Storage, parse: string -> ParseOutcome, p: string,
                     logs: seq<LogEntry>, today: Day)
    requires Startup(storage, parse).stage == Gate
    requires Resolve(p) == Some(Aliya)
    ensures var s0 := Startup(storage, parse);
            var s1 := Step(s0, Unlock(p, logs, today));
            var s2 := Step(s1, IntroComplete);
            && s0.stage == Gate
            && s1.stage == Intro && s1.heartCount == HeartCount(logs, today)
            && s2.stage == Sanctuary && s2.mode == Known(Aliya)
  {
    var s0 := Startup(storage, parse);
    DeliveredExactlyInOwningStage(s0, Unlock(p, logs, today));
    var s1 := Step(s0, Unlock(p, logs, today));
    DeliveredExactlyInOwningStage(s1, IntroComplete);
  }

  /** From the sanctuary, beginning the farewell and cancelling it returns
      to the sanctuary with nothing else changed. */
  lemma FarewellThenCancel(s: State)
    requires !s.checking && s.stage == Sanctuary
    ensures Run(s, [BeginFarewell, CancelFarewellRequest]) == s
  {
    DeliveredExactlyInOwningStage(s, BeginFarewell);
    var s1 := Step(s, BeginFarewell);
    DeliveredExactlyInOwningStage(s1, CancelFarewellRequest);
    FarewellCancelRoundTrip(s);
    assert [BeginFarewell, CancelFarewellRequest][1..] == [CancelFarewellRequest];
  }
}
