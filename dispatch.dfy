/** GuiHandler.cs as a state machine on values: one Step per frame over the touch-slot table, the touched-mask,
    the active-mode mask and the touch count, driving the system menu and the swipe tracker and recording the
    calls it makes into components outside the model (the joystick, the player object, the application) in an
    event log. Menus.SystemMenu-level state is a Panels.Panel and the swipe tracker's a Swipes.Stroke; the
    class Handler.GuiHandler is proved against the functions here. */
module Dispatch {
  import opened Vectors
  import opened Buttons
  import opened Panels
  import opened Swipes

  // ENUMguiIndex
  const NoTag: bv32 := 0
  const JoystickTag: bv32 := 1
  const SwipeTag: bv32 := 2
  const SystemMenuTag: bv32 := 4
  const GameMenuTag: bv32 := 8
  const MainGameMode: bv32 := 3

  /** m_maxTouchCount, the length of m_touchIndex. */
  const MaxTouchCount := 10

  /** One touch of a frame: its screen position and which regions (by Rect.Contains) hold it. */
  datatype Touch = Touch(pos: Vec2, inJoystick: bool, inSwipe: bool, inMenu: bool, inContinue: bool, inQuit: bool)

  /** What Update reads from the engine in one frame: the touches (Input.touchCount and Input.GetTouch), the
      Escape key, and the distance and Atan2 angle (in degrees) of the tracked swipe stroke. */
  datatype Frame = Frame(touches: seq<Touch>, escape: bool, swipeDistance: Float, swipeAngle: Float)

  /** Calls into components outside the model and engine effects, in the order the handler makes them. */
  datatype Event =
    | JoystickPress(pos: Vec2)   // u_joystick.onPress
    | JoystickHold(pos: Vec2)    // u_joystick.onHold and the player translation it drives
    | JoystickRelease            // u_joystick.onRelease
    | Swiped(dir: Direction)     // the output u_swipe.onRelease handed to the swipe action switch
    | PlayerToOrigin             // u_player.transform.position = Vector3.zero
    | MenuMoved                  // u_systemMenu.setPosition(new Vector2(10, 10))
    | QuitApp                    // Application.Quit

  /** The handler's fields, the state of the system menu and swipe tracker it owns and the event log. */
  datatype State = State(
    slots: seq<bv32>,       // m_touchIndex
    touchMask: bv32,        // m_guiTouchStateMask
    activeMask: bv32,       // m_guiActiveUIStateMask
    numTouches: nat,        // m_numTouches
    menu: Panel,            // u_systemMenu
    stroke: Stroke,         // u_swipe
    tapDistance: real,      // u_swipe.u_tapDistance
    log: seq<Event>)

  /** The guards `(tag & mask) == tag` of the source. */
  predicate HasBit(mask: bv32, tag: bv32)
  {
    tag & mask == tag
  }

  /** The int `|=` with which the handler adds tags to the touched-mask. */
  function Or(a: bv32, b: bv32): bv32
  {
    a | b
  }

  /** The OR of a sequence of tags. */
  function OrAll(xs: seq<bv32>): bv32
  {
    if xs == [] then 0 else Or(OrAll(xs[..|xs| - 1]), xs[|xs| - 1])
  }

  /** The touch count Update uses: Input.touchCount capped at m_maxTouchCount. */
  function Clamp(n: nat): (r: nat)
    ensures r <= MaxTouchCount
    ensures r <= n
    ensures r == n || r == MaxTouchCount
  {
    if n > MaxTouchCount then MaxTouchCount else n
  }

  /** The shape every state of the handler has: ten slots and a touch count that fits them. */
  predicate WellFormed(s: State)
  {
    |s.slots| == MaxTouchCount && s.numTouches <= MaxTouchCount
  }

  const EmptySlots: seq<bv32> := [NoTag, NoTag, NoTag, NoTag, NoTag, NoTag, NoTag, NoTag, NoTag, NoTag]

  /** interfaceSystemMenuOpen: zero the touch count, then close the menu (back to MainGame) when the menu's flag
      is in the active mask and open it (the active mask becomes the flag) otherwise; the touched-mask is
      cleared either way. The loop that would clear the slots runs up to the count it has just set to zero, so it
      does nothing. */
  function Toggle(s: State): (r: State)
    ensures r.slots == s.slots && r.numTouches == 0 && r.touchMask == NoTag
  {
    var flag := s.menu.componentId;
    var s1 := s.(numTouches := 0);
    if HasBit(s.activeMask, flag) then
      s1.(menu := s.menu.SetActive(false), touchMask := NoTag, activeMask := MainGameMode)
    else
      s1.(menu := s.menu.SetActive(true), touchMask := NoTag, activeMask := flag)
  }

  /** The first half of updateTouchIndex: store the count, clear the touched-mask and all ten slots. */
  function Reset(s: State, count: nat): State
  {
    s.(numTouches := count, touchMask := NoTag, slots := EmptySlots)
  }

  /** One pass of the updateTouchIndex loop, for touch t at index i. In MainGame mode the joystick region comes
      first: a touch in it claims the Joystick tag if no touch holds it yet (and is otherwise left unbound),
      and only a touch outside it may claim the Swipe tag. In SystemMenu mode a touch in the menu presses the
      menu, and the slot gets the ids of the menu buttons that are then Down. */
  function AssignTouch(s: State, i: nat, t: Touch): (r: State)
    requires i < |s.slots|
    ensures |r.slots| == |s.slots| && r.numTouches == s.numTouches && r.activeMask == s.activeMask
  {
    if s.activeMask == MainGameMode then
      if t.inJoystick then
        if !HasBit(s.touchMask, JoystickTag) then
          s.(slots := s.slots[i := JoystickTag], touchMask := Or(s.touchMask, JoystickTag),
             log := s.log + [JoystickPress(t.pos)])
        else s
      else if t.inSwipe then
        if !HasBit(s.touchMask, SwipeTag) then
          s.(slots := s.slots[i := SwipeTag], touchMask := Or(s.touchMask, SwipeTag),
             stroke := s.stroke.Press(t.pos))
        else s
      else s
    else if s.activeMask == SystemMenuTag then
      if t.inMenu then
        var m := s.menu.OnPress(t.inContinue, t.inQuit);
        var pressed := m.PressedButtons(AllIds);
        s.(menu := m, slots := s.slots[i := pressed], touchMask := Or(s.touchMask, pressed))
      else s
    else s
  }

  /** The updateTouchIndex loop after n passes. */
  function AssignUpTo(s: State, touches: seq<Touch>, n: nat): (r: State)
    requires n <= |touches| && n <= |s.slots|
    ensures |r.slots| == |s.slots| && r.numTouches == s.numTouches && r.activeMask == s.activeMask
  {
    if n == 0 then s else AssignTouch(AssignUpTo(s, touches, n - 1), n - 1, touches[n - 1])
  }

  /** updateTouchIndex(count). */
  function UpdateTouchIndex(s: State, touches: seq<Touch>, count: nat): (r: State)
    requires count <= MaxTouchCount && count <= |touches|
    ensures WellFormed(r) && r.numTouches == count && r.activeMask == s.activeMask
  {
    AssignUpTo(Reset(s, count), touches, count)
  }

  /** One pass of the updateTouchOnHold loop: in MainGame mode a slot tagged Joystick or Swipe is held, but only
      while its tag is still in the touched-mask. The system menu's hold does nothing. */
  function HoldTouch(s: State, i: nat, t: Touch): (r: State)
    requires i < |s.slots|
    ensures r == s.(log := r.log, stroke := r.stroke)
  {
    if s.activeMask == MainGameMode then
      if s.slots[i] == JoystickTag then
        if !HasBit(s.touchMask, JoystickTag) then s else s.(log := s.log + [JoystickHold(t.pos)])
      else if s.slots[i] == SwipeTag then
        if !HasBit(s.touchMask, SwipeTag) then s else s.(stroke := s.stroke.Hold(t.pos))
      else s
    else s
  }

  /** The updateTouchOnHold loop after n passes. */
  function HoldUpTo(s: State, touches: seq<Touch>, n: nat): (r: State)
    requires n <= |touches| && n <= |s.slots|
    ensures r == s.(log := r.log, stroke := r.stroke)
  {
    if n == 0 then s else HoldTouch(HoldUpTo(s, touches, n - 1), n - 1, touches[n - 1])
  }

  /** updateTouchOnHold: one pass per counted touch. */
  function HoldPass(s: State, touches: seq<Touch>): (r: State)
    requires s.numTouches <= |touches| && s.numTouches <= |s.slots|
    ensures r == s.(log := r.log, stroke := r.stroke)
  {
    HoldUpTo(s, touches, s.numTouches)
  }

  /** The effect the swipe action switch takes for each output (Right, Up and None do nothing). */
  function SwipeAction(dir: Direction): seq<Event>
  {
    match dir
    case Tap => [PlayerToOrigin]
    case Left => [MenuMoved]
    case Down => [QuitApp]
    case _ => []
  }

  /** interfaceSwipeOnRelease: release the swipe tracker and act on its output. */
  function SwipeRelease(s: State, distance: Float, angle: Float): (r: State)
    ensures r == s.(stroke := Cleared, log := r.log)
  {
    var (st, dir) := s.stroke.Release(s.tapDistance, distance, angle);
    s.(stroke := st, log := s.log + [Swiped(dir)] + SwipeAction(dir))
  }

  /** interfaceSystemMenuOnRelease(buttonFlag): release the menu's buttons, then toggle the menu for Continue and
      quit the application for Quit. */
  function MenuRelease(s: State, buttonFlag: bv32): (r: State)
    ensures r.slots == s.slots && (r.numTouches == s.numTouches || r.numTouches == 0)
  {
    var s1 := s.(menu := s.menu.OnRelease().0);
    if buttonFlag == ContinueId then Toggle(s1)
    else if buttonFlag == QuitId then s1.(log := s1.log + [QuitApp])
    else s1
  }

  /** A tag that was in the previous mask and is not in the current one. */
  predicate Released(prev: bv32, mask: bv32, tag: bv32)
  {
    HasBit(prev, tag) && !HasBit(mask, tag)
  }

  /** The guard `m_guiTouchStateMask < prev` of updateTouchOnRelease: the touched-mask went numerically down. */
  predicate Dropped(prev: bv32, mask: bv32)
  {
    mask < prev
  }

  /** updateTouchOnRelease(prev): nothing unless the touched-mask went numerically down. In MainGame mode the
      joystick and then the swipe are released if their tag went away; in SystemMenu mode a Continue that went
      away is handed to interfaceSystemMenuOnRelease, and one for Quit does nothing (its call is commented out). */
  function ReleasePass(s: State, prev: bv32, distance: Float, angle: Float): (r: State)
    ensures r.slots == s.slots && (r.numTouches == s.numTouches || r.numTouches == 0)
  {
    if !Dropped(prev, s.touchMask) then s
    else if s.activeMask == MainGameMode then
      var s1 := if Released(prev, s.touchMask, JoystickTag) then s.(log := s.log + [JoystickRelease]) else s;
      if Released(prev, s.touchMask, SwipeTag) then SwipeRelease(s1, distance, angle) else s1
    else if s.activeMask == SystemMenuTag then
      if Released(prev, s.touchMask, ContinueId) then MenuRelease(s, ContinueId) else s
    else s
  }

  /** Update: Escape toggles the menu and nothing else runs; otherwise the slots are reassigned when the clamped
      count changed, then the hold pass and the release pass run against the mask the frame started with. */
  function Step(s: State, f: Frame): (r: State)
    requires WellFormed(s)
    ensures WellFormed(r)
  {
    var prev := s.touchMask;
    var count := Clamp(|f.touches|);
    if f.escape then Toggle(s)
    else
      var s1 := if count != s.numTouches then UpdateTouchIndex(s, f.touches, count) else s;
      var s2 := HoldPass(s1, f.touches);
      ReleasePass(s2, prev, f.swipeDistance, f.swipeAngle)
  }

  /** The handler as its field initialisers leave it: no mode, no touch, ten empty slots, the menu object not
      yet initialised and the swipe tracker cleared. */
  function Initial(tapDistance: real): State
  {
    State(EmptySlots, NoTag, NoTag, 0, Panel(NoId, Button(0, Hidden), Button(0, Hidden)), Cleared, tapDistance, [])
  }

  /** Start: MainGame mode, the player placed at the origin, the system menu initialised hidden with id
      SystemMenu. */
  function Start(s: State): State
  {
    s.(activeMask := MainGameMode, menu := s.menu.(componentId := SystemMenuTag).SetActive(false),
       log := s.log + [PlayerToOrigin])
  }
}
