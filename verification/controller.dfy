/** The stage controller's state and its handlers: the startup session
    restore, the unlock handler, and the callbacks the screens invoke. */
module Controller {
  import opened Types
  import opened Access
  import opened Metric
  import opened Session

  /** The four stages of the experience. */
  datatype Stage = Gate | Intro | Sanctuary | Farewell

  /** Everything the controller owns, plus the storage it reads and writes. */
  datatype State = State(
    stage: Stage,
    mode: ModeValue,
    checking: bool,       // true until the startup session check has run
    heartCount: nat,
    storage: Storage)

  /** The state before the startup check: at the gate, Aliya mode by
      default, still checking, no hearts counted. */
  function Init(storage: Storage): State
  {
    State(Gate, Known(Aliya), true, 0, storage)
  }

  /** The startup effect: look at the stored session, restore a mode found
      there, drop a payload that fails to parse, and end the check. */
  function Restore(s: State, parse: string -> ParseOutcome): State
  {
    var saved := GetItem(s.storage, SessionKey);
    var restored :=
      if !Truthy(saved) then s
      else match parse(saved.value)
        case WithMode(v) => s.(mode := v, stage := Sanctuary)
        case WithoutMode => s
        case ParseError => s.(storage := RemoveItem(s.storage, SessionKey));
    restored.(checking := false)
  }

  /** The controller as it stands after the startup check on `storage`. */
  function Startup(storage: Storage, parse: string -> ParseOutcome): (r: State)
    ensures !r.checking && r.heartCount == 0
    ensures r.stage == Sanctuary <==>
              Truthy(GetItem(storage, SessionKey)) &&
              parse(GetItem(storage, SessionKey).value).WithMode?
    ensures r.stage == Sanctuary ==>
              r.mode == parse(GetItem(storage, SessionKey).value).mode && r.storage == storage
    ensures r.stage != Sanctuary ==> r.stage == Gate && r.mode == Known(Aliya)
    ensures r.storage != storage <==>
              Truthy(GetItem(storage, SessionKey)) &&
              parse(GetItem(storage, SessionKey).value).ParseError?
    ensures r.storage != storage ==> GetItem(r.storage, SessionKey) == None
    ensures forall k :: k != SessionKey ==> GetItem(r.storage, k) == GetItem(storage, k)
  {
    Restore(Init(storage), parse)
  }

  /** The unlock handler as one atomic step: a rejected password changes
      nothing; an accepted one sets the mode, counts today's hearts and
      enters the introduction (Aliya) or goes straight to the sanctuary
      (Admin), and writes the session record. */
  function HandleUnlock(s: State, password: string, logs: seq<LogEntry>, today: Day): (r: State)
    ensures Resolve(password) == None ==> r == s
    ensures Resolve(password) == Some(Aliya) ==>
              r.stage == Intro && r.mode == Known(Aliya) &&
              r.heartCount == HeartCount(logs, today)
    ensures Resolve(password) == Some(Admin) ==>
              r.stage == Sanctuary && r.mode == Known(Admin) && r.heartCount == s.heartCount
    ensures Resolve(password).Some? ==>
              GetItem(r.storage, SessionKey) == Some(Serialize(Resolve(password).value))
    ensures forall k :: k != SessionKey ==> GetItem(r.storage, k) == GetItem(s.storage, k)
    ensures r.checking == s.checking
  {
    match Resolve(password)
    case None => s
    case Some(m) =>
      var entered :=
        if m == Aliya then State(Intro, Known(m), s.checking, HeartCount(logs, today), s.storage)
        else State(Sanctuary, Known(m), s.checking, s.heartCount, s.storage);
      entered.(storage := SetItem(s.storage, SessionKey, Serialize(m)))
  }

  /** The unlock handler statement by statement: the state after each update
      it makes, in order (empty for a rejected password). */
  function UnlockTrace(s: State, password: string, logs: seq<LogEntry>, today: Day): (t: seq<State>)
    ensures t == [] <==> Resolve(password) == None
    // the session record is written by the last update and by no earlier one
    ensures forall i :: 0 <= i < |t| - 1 ==> t[i].storage == s.storage
    // ... and by then the stage already has its final value
    ensures |t| >= 2 ==> t[|t| - 2].stage == t[|t| - 1].stage
    // no stage is shown in between: only the starting stage and the final one
    ensures forall i :: 0 <= i < |t| ==> t[i].stage == s.stage || t[i].stage == t[|t| - 1].stage
    // the introduction is never entered before the count is known
    ensures forall i :: 0 <= i < |t| && t[i].stage == Intro && s.stage != Intro ==>
              t[i].heartCount == HeartCount(logs, today)
    // only the Aliya path touches the count
    ensures forall i :: 0 <= i < |t| && t[i].heartCount != s.heartCount ==>
              Resolve(password) == Some(Aliya)
  {
    match Resolve(password)
    case None => []
    case Some(m) =>
      var s1 := s.(mode := Known(m));
      var entered :=
        if m == Aliya then
          var s2 := s1.(heartCount := HeartCount(logs, today));
          [s1, s2, s2.(stage := Intro)]
        else [s1, s1.(stage := Sanctuary)];
      var last := entered[|entered| - 1];
      entered + [last.(storage := SetItem(last.storage, SessionKey, Serialize(m)))]
  }

  /** The step-by-step trace ends in the state the atomic handler produces. */
  lemma UnlockTraceEndsInUnlock(s: State, password: string, logs: seq<LogEntry>, today: Day)
    ensures var t := UnlockTrace(s, password, logs, today);
            HandleUnlock(s, password, logs, today) == if t == [] then s else t[|t| - 1]
  {
  }

  /** The introduction screen's completion callback. */
  function CompleteIntro(s: State): State
  {
    s.(stage := Sanctuary)
  }

  /** The sanctuary screen's request to begin the farewell. */
  function StartFarewell(s: State): State
  {
    s.(stage := Farewell)
  }

  /** The farewell screen's cancellation callback. */
  function CancelFarewell(s: State): State
  {
    s.(stage := Sanctuary)
  }

  /** The three callbacks move the stage and nothing else. */
  lemma CallbacksOnlyMoveStage(s: State)
    ensures var r := CompleteIntro(s);
            r.stage == Sanctuary && r.mode == s.mode && r.heartCount == s.heartCount &&
            r.storage == s.storage && r.checking == s.checking
    ensures var r := StartFarewell(s);
            r.stage == Farewell && r.mode == s.mode && r.heartCount == s.heartCount &&
            r.storage == s.storage && r.checking == s.checking
    ensures var r := CancelFarewell(s);
            r.stage == Sanctuary && r.mode == s.mode && r.heartCount == s.heartCount &&
            r.storage == s.storage && r.checking == s.checking
  {
  }

  /** Beginning the farewell and cancelling it returns to the sanctuary
      exactly as it was. */
  lemma FarewellCancelRoundTrip(s: State)
    requires s.stage == Sanctuary
    ensures CancelFarewell(StartFarewell(s)) == s
  {
  }
}
