/** The render-time dispatch: nothing while the startup check runs, then a
    fragment of four conditional slots, one per stage. */
module View {
  import opened Types
  import opened Controller

  /** The screens the controller can mount, with the inputs each receives. */
  datatype Screen =
    | GateScreen
    | IntroScreen(heartCount: nat)
    | SanctuaryScreen(mode: ModeValue)
    | FarewellScreen

  /** What the controller renders: None while checking, otherwise the four
      slots of the fragment, each holding its screen only when its stage is
      the current one. */
  function Render(s: State): Option<seq<Option<Screen>>>
  {
    if s.checking then None
    else Some([
      if s.stage == Gate then Some(GateScreen) else None,
      if s.stage == Intro then Some(IntroScreen(s.heartCount)) else None,
      if s.stage == Sanctuary then Some(SanctuaryScreen(s.mode)) else None,
      if s.stage == Farewell then Some(FarewellScreen) else None])
  }

  /** The occupied slots, in order. */
  function Present(slots: seq<Option<Screen>>): (r: seq<Screen>)
    ensures |r| <= |slots|
    ensures forall scr :: scr in r <==> Some(scr) in slots
  {
    if slots == [] then []
    else
      var rest := Present(slots[1..]);
      assert forall x :: x in slots <==> x == slots[0] || x in slots[1..];
      if slots[0].Some? then [slots[0].value] + rest else rest
  }

  /** The screens mounted in state `s`. */
  function Mounted(s: State): seq<Screen>
  {
    match Render(s)
    case None => []
    case Some(slots) => Present(slots)
  }

  /** The screen that belongs to the current stage. */
  function StageScreen(s: State): Screen
  {
    match s.stage
    case Gate => GateScreen
    case Intro => IntroScreen(s.heartCount)
    case Sanctuary => SanctuaryScreen(s.mode)
    case Farewell => FarewellScreen
  }

  /** The slot of each stage in the fragment. */
  function StageIndex(st: Stage): nat
  {
    match st
    case Gate => 0
    case Intro => 1
    case Sanctuary => 2
    case Farewell => 3
  }

  /** While the startup check runs nothing is mounted; afterwards exactly one
      screen is, the one of the current stage. */
  lemma {:induction false} RenderMountsStageScreen(s: State)
    ensures s.checking ==> Mounted(s) == []
    ensures !s.checking ==> Mounted(s) == [StageScreen(s)]
  {
    if !s.checking {
      var slots := Render(s).value;
      assert slots[3..][1..] == [];
      assert slots[2..][1..] == slots[3..];
      assert slots[1..][1..] == slots[2..];
      assert Present(slots[3..]) == if s.stage == Farewell then [FarewellScreen] else [];
      assert Present(slots[2..]) == if StageIndex(s.stage) >= 2 then [StageScreen(s)] else [];
      assert Present(slots[1..]) == if StageIndex(s.stage) >= 1 then [StageScreen(s)] else [];
    }
  }
}
