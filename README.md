# Touch-UI layer of a Unity game, modelled in Dafny

This project models the touch-input layer of a small Unity game and proves properties of the model:

- the static 32-bit mask helpers (`BitMask`);
- the edge-inclusive rectangle of `ClickableRegion`;
- the `GuiButton` state machine (Hidden, Up, Down, Disabled), whose `press` and `release` are guarded by an
  id bitmask;
- the two near-identical two-button aggregates `SystemMenu` and `GameWindow` (Continue = 1, Quit = 16);
- the `SimpleSwipe` tracker, with its zero-vector "no stroke" sentinel and its tap/angle classifier;
- the multi-touch dispatcher `GuiHandler`. It keeps a 10-slot table of region tags, a touched-mask, an
  active-mode mask and a touch count. Each frame it clamps the count, toggles the system menu on Escape, and
  otherwise reassigns the slots when the count changes, runs a hold pass and detects releases by comparing
  masks.

Engine calls enter as inputs:

- Each `Touch` carries its position and the `Rect.Contains` answers for every region.
- Each `Frame` carries the touches, the Escape key, and the `Vector2.Distance` and `Atan2` values of the
  swipe stroke. These are `Float`s, so NaN is included.

Calls into the joystick, the player object and the application are recorded, in order, in an event log.

Form of the model:

- Pure code is written as functions and lemmas: `BitMask`, the `Panel` aggregate in `Panels`, the swipe
  classifier, and the dispatcher state machine in `Dispatch`.
- Code that updates fields is written as classes: `Regions.ClickableRegion`, `Buttons.GuiButton`,
  `Menus.SystemMenu`, `Windows.GameWindow`, `Swipes.SimpleSwipe` and `Handler.GuiHandler`.
- Each class method is proved to move the object's `Value()` exactly as the matching function moves its
  argument. `GuiHandler`'s two loops are `while` loops whose invariant is "the first k passes of the function
  model".
- `DispatchProofs` proves the handler invariant and the frame-level properties.

The handler invariant (`DispatchProofs.Inv`) says:

- the touched-mask is the OR of the bound slots;
- in MainGame mode every slot below the touch count is None, Joystick or Swipe, with no region bound twice, and
  the menu is hidden;
- in SystemMenu mode every slot below the touch count is a sum of menu ids and the menu is shown.

Slots from the touch count on are not constrained: toggling the menu zeroes the count but keeps the old slots.

`Start` establishes the invariant and every `Update` frame keeps it.

The model also exhibits two behaviours of the source as written:

- The release guard compares the masks as numbers. So when the joystick is let go and, in the same frame, a
  new touch claims the swipe, the joystick is never released (`MissedJoystickRelease`).
- Escape clears the touched-mask without releasing anything. A held joystick stays held (`EscapeDropsHeldJoystick`).

A third behaviour: the menu's Quit button never quits, because its release call is commented out
(`MenuModeIsSilent`).

## Model

| member | source | states |
|---|---|---|
| BitMask.GetBitsNotSet | Assets/script/core/BitMask.cs:19-22 | the result shares no bit with value and together with value covers all 32 bits: it is the complement |
| BitMask.GetBitsNotSetMasked | Assets/script/core/BitMask.cs:24-31 | the two-argument overload as written answers mask, whatever value is |
| BitMask.MaskBitsNotSet | Assets/script/core/BitMask.cs:24-31 | the documented meaning: the bits of mask not set in value, disjoint from value and completing mask & value to mask |
| BitMask.GetBitsNotSetMaskedDiffers | Assets/script/core/BitMask.cs:24-31 | value 1, mask 1: the overload answers 1 where its description calls for 0 |
| BitMask.GetBitsNotSetMaskedAgreesIffDisjoint | Assets/script/core/BitMask.cs:24-31 | the overload agrees with its description exactly when value and mask share no bit |
| BitMask.SetBits | Assets/script/core/BitMask.cs:36-39 | every bit of value and every bit of mask is set in the result |
| BitMask.SetBitsAddsNothingElse | Assets/script/core/BitMask.cs:36-39 | the result has no bit outside value and mask |
| BitMask.SetBitsIdempotent | Assets/script/core/BitMask.cs:36-39 | setting the same mask twice is setting it once |
| BitMask.ClearBits | Assets/script/core/BitMask.cs:44-47 | the wrapping subtraction value - (value & mask) equals value with the mask bits cleared |
| BitMask.ClearBitsClearsOnlyMask | Assets/script/core/BitMask.cs:44-47 | no mask bit survives, and every bit outside mask is as it was |
| BitMask.ClearBitsNoUnderflow | Assets/script/core/BitMask.cs:44-47 | the subtracted bits are a subset of value, so the subtraction never wraps |
| BitMask.ContainsBits | Assets/script/core/BitMask.cs:61-64 | true exactly when no bit of mask is missing from value |
| BitMask.ContainsSetBits | Assets/script/core/BitMask.cs:61-64 | a value with mask set always contains mask |
| BitMask.ContainsClearedBitsIffEmpty | Assets/script/core/BitMask.cs:61-64 | a value with mask cleared contains mask only when mask is empty |
| BitMask.GetIsBitSet | Assets/script/core/BitMask.cs:53-59 | false for every position below 1 or above 32 |
| BitMask.GetIsBitSetReadsZeroBasedBit | Assets/script/core/BitMask.cs:53-59 | for positions 1..31 it tests the 0-based bit of that number, which is the one-based bit one higher |
| BitMask.GetIsBitSetPosition32ReadsBitZero | Assets/script/core/BitMask.cs:53-59 | position 32 passes the range check and, the shift count being taken mod 32, tests bit 0 |
| BitMask.GetIsBitSetOffByOne | Assets/script/core/BitMask.cs:53-59 | on value 1 position 1 answers false and position 32 answers true, the opposite of a one-based index |
| BitMask.IsBitSetOneBased | Assets/script/core/BitMask.cs:53-59 | the one-based test the range check describes, `value & (1 << (position - 1))`: false out of range, and at position 1 it reads bit 0 |
| BitMask.IsBitSetOneBasedShiftsAsWritten | Assets/script/core/BitMask.cs:53-59 | from position 2 to 32 the corrected test answers what the as-written test answers one position lower |
| BitMask.IsBitSetOneBasedSingleBit | Assets/script/core/BitMask.cs:53-59 | on the single-bit mask of one-based bit p the corrected test is true exactly at position p |
| Regions.InRectIsClosedRectangle | Assets/script/widgets/ClickableRegion.cs:50-61 | contains is the closed rectangle [x, x + w] x [y, y + h], edges included |
| Regions.InRect | Assets/script/widgets/ClickableRegion.cs:50-61 | no ensures; the two rejection tests of contains, characterised by InRectIsClosedRectangle and the three lemmas below it |
| Regions.InRectRejectsBeforeOrigin | Assets/script/widgets/ClickableRegion.cs:52-54 | a point left of or below the origin is rejected |
| Regions.InRectRejectsPastFarEdge | Assets/script/widgets/ClickableRegion.cs:56-58 | a point past the far edge on either axis is rejected |
| Regions.InRectContainsCorners | Assets/script/widgets/ClickableRegion.cs:52-60 | with non-negative size all four corners are inside |
| Regions.InRectNegativeSizeIsEmpty | Assets/script/widgets/ClickableRegion.cs:52-60 | a negative width or height leaves no point inside |
| Regions.ClickableRegion.constructor | Assets/script/widgets/ClickableRegion.cs:10-12 | a new region has zero position and size and id 0 |
| Regions.ClickableRegion.Initialize | Assets/script/widgets/ClickableRegion.cs:14-19 | stores position, size and id |
| Regions.ClickableRegion.SetSize | Assets/script/widgets/ClickableRegion.cs:21-24 | changes the size and nothing else |
| Regions.ClickableRegion.SetPosition | Assets/script/widgets/ClickableRegion.cs:25-28 | changes the position and nothing else |
| Regions.ClickableRegion.GetId | Assets/script/widgets/ClickableRegion.cs:35-38 | answers the stored id |
| Regions.ClickableRegion.GetSize | Assets/script/widgets/ClickableRegion.cs:40-43 | answers the stored size |
| Regions.ClickableRegion.GetPosition | Assets/script/widgets/ClickableRegion.cs:45-48 | answers the stored position |
| Regions.ClickableRegion.Contains | Assets/script/widgets/ClickableRegion.cs:50-61 | contains holds exactly for the points of the closed rectangle spanned by the stored position and size, edges included |
| Buttons.PressChangesOnlyUpAndCovered | Assets/script/interface/GuiButton.cs:168-190 | press changes the button exactly when it is Up and the flags cover its id; it then becomes Down and answers the id, otherwise answers 0; the id never changes |
| Buttons.PressIsNoOpUnlessUp | Assets/script/interface/GuiButton.cs:175-176 | pressing a Down, Hidden or Disabled button changes nothing and answers 0 |
| Buttons.ReleaseChangesOnlyDownAndCovered | Assets/script/interface/GuiButton.cs:202-225 | release is the mirror of press: Down -> Up under the same guard, answering the id, otherwise no change and 0 |
| Buttons.PressThenReleaseRestores | Assets/script/interface/GuiButton.cs:168-225 | from Up, a covered press then release restores the button, both answering its id |
| Buttons.ReleaseThenPressRestores | Assets/script/interface/GuiButton.cs:168-225 | from Down, a covered release then press restores the button |
| Buttons.IsPressedTracksPressAndRelease | Assets/script/interface/GuiButton.cs:228-247 | getIsPressed answers 0 or the id, the id only for a Down button; it answers the id after a successful press and 0 after any release |
| Buttons.ZeroIdAnswersZero | Assets/script/interface/GuiButton.cs:168-225 | with id 0 the guard always passes and success and failure both answer 0 |
| Buttons.PressReleaseStayWithinUpDown | Assets/script/interface/GuiButton.cs:168-225 | press and release only move between Up and Down; a Hidden or Disabled button is untouched by them |
| Buttons.Button.Press | Assets/script/interface/GuiButton.cs:168-190 | press keeps the id, answers 0 or the id, and changes the state only from Up to Down; PressChangesOnlyUpAndCovered states exactly when |
| Buttons.Button.Release | Assets/script/interface/GuiButton.cs:202-225 | release keeps the id, answers 0 or the id, and changes the state only from Down to Up; ReleaseChangesOnlyDownAndCovered states exactly when |
| Buttons.Button.IsPressed | Assets/script/interface/GuiButton.cs:228-247 | getIsPressed answers 0 or the id, and the id only for a Down button |
| Buttons.GuiButton.constructor | Assets/script/interface/GuiButton.cs:32-33 | a new button has id 0 and state Hidden |
| Buttons.GuiButton.Init | Assets/script/interface/GuiButton.cs:53-86 | stores the id and the state |
| Buttons.GuiButton.SetState | Assets/script/interface/GuiButton.cs:88-108 | changes the state and keeps the id |
| Buttons.GuiButton.Press | Assets/script/interface/GuiButton.cs:168-190 | the new button and the answer are those of the press function |
| Buttons.GuiButton.Release | Assets/script/interface/GuiButton.cs:202-225 | the new button and the answer are those of the release function |
| Buttons.GuiButton.GetIsPressed | Assets/script/interface/GuiButton.cs:228-247 | answers the getIsPressed function of the current button, changing nothing |
| Buttons.GuiButton.GetId | Assets/script/interface/GuiButton.cs:250-253 | answers the id stored by init |
| Panels.SetActiveLeavesNoneDown | Assets/script/interface/SystemMenu.cs:113-125 | after setActive the buttons carry ids 1 and 16 and are both Up (active) or both Hidden (inactive), none Down, so nothing reads as pressed |
| Panels.OnPressIsPerButton | Assets/script/interface/SystemMenu.cs:170-182 | each button's fate depends only on whether it contains the touch: a containing Up button goes Down, a non-containing Down button goes Up |
| Panels.PressedButtonsIsDisjointOr | Assets/script/interface/SystemMenu.cs:204-215 | the sum of pressed ids is their bitwise OR, lies in {0, 1, 16, 17}, and has a button's bit exactly when that button is Down and covered |
| Panels.OnReleaseReportsPressedAndClears | Assets/script/interface/SystemMenu.cs:185-196 | onRelease answers what getPressedButtons(All) answered before it, and leaves no button Down |
| Panels.ButtonTouchedKeepsUnselected | Assets/script/interface/GameWindow.cs:196-211 | a button whose bit is not in the flags keeps its state |
| Panels.TouchOneAnswer | Assets/script/interface/GameWindow.cs:196-209 | one block of getButtonTouched answers 0 or its button's bit, the bit only when the flags select it |
| Panels.TouchOnePress | Assets/script/interface/GameWindow.cs:196-206 | when touched, a block changes its button exactly when selected, containing the touch and Up; the button goes Down and the block answers its bit |
| Panels.TouchOneRelease | Assets/script/interface/GameWindow.cs:196-209 | when not touched, a selected button is released wherever the touch is, and the block answers its bit exactly when it was Down |
| Panels.ButtonTouchedStaysWithinSelection | Assets/script/interface/GameWindow.cs:189-226 | the answer has no bit outside flags & (Continue or Quit) |
| Panels.ButtonTouchedPress | Assets/script/interface/GameWindow.cs:199-219 | when touched, exactly the selected buttons that contain the touch and are Up go Down, and the answer is the sum of their ids |
| Panels.ButtonTouchedRelease | Assets/script/interface/GameWindow.cs:207-223 | when not touched, no selected button stays Down and the answer is the ids of the selected buttons that were Down |
| Panels.Panel.SetActive | Assets/script/interface/SystemMenu.cs:113-125 | both buttons get their ids 1 and 16 and the same state, Up exactly when active and Hidden otherwise; the panel id is kept |
| Panels.Panel.OnPress | Assets/script/interface/SystemMenu.cs:170-182 | the panel id and both button ids are kept; OnPressIsPerButton states the button states |
| Panels.Panel.OnRelease | Assets/script/interface/SystemMenu.cs:185-196 | the ids are kept and neither button is left Down; OnReleaseReportsPressedAndClears states the answer |
| Panels.Panel.PressedButtons | Assets/script/interface/SystemMenu.cs:204-215 | no ensures; PressedButtonsIsDisjointOr states its values and what each bit means |
| Panels.Panel.ButtonTouched | Assets/script/interface/GameWindow.cs:189-226 | the panel id and both button ids are kept; ButtonTouchedPress and ButtonTouchedRelease state the rest |
| Panels.TouchOne | Assets/script/interface/GameWindow.cs:196-209 | one block keeps the button id, answers 0 or that id, and leaves an unselected button alone with answer 0 |
| Menus.SystemMenu.constructor | Assets/script/interface/SystemMenu.cs:36 | a new menu has id 0 and two distinct Hidden buttons with id 0 |
| Menus.SystemMenu.Init | Assets/script/interface/SystemMenu.cs:77-81 | stores the component id, then does setActive |
| Menus.SystemMenu.SetActive | Assets/script/interface/SystemMenu.cs:84-149 | the buttons become those of the setActive function: ids 1 and 16, both Up or both Hidden |
| Menus.SystemMenu.GetId | Assets/script/interface/SystemMenu.cs:164-167 | answers the id stored by init |
| Menus.SystemMenu.OnPress | Assets/script/interface/SystemMenu.cs:170-182 | the buttons become those of the onPress function |
| Menus.SystemMenu.OnRelease | Assets/script/interface/SystemMenu.cs:185-196 | the buttons and the answer are those of the onRelease function |
| Menus.SystemMenu.GetPressedButtons | Assets/script/interface/SystemMenu.cs:204-215 | answers the pressed-ids sum of the current buttons, changing nothing |
| Windows.GameWindow.constructor | Assets/script/interface/GameWindow.cs:36 | a new window has id 0 and two distinct Hidden buttons with id 0 |
| Windows.GameWindow.Init | Assets/script/interface/GameWindow.cs:77-81 | stores the component id, then does setActive |
| Windows.GameWindow.SetActive | Assets/script/interface/GameWindow.cs:84-149 | the buttons become those of the setActive function |
| Windows.GameWindow.GetId | Assets/script/interface/GameWindow.cs:164-167 | answers the id stored by init |
| Windows.GameWindow.OnPress | Assets/script/interface/GameWindow.cs:170-183 | the buttons become those of the onPress function |
| Windows.GameWindow.GetButtonTouched | Assets/script/interface/GameWindow.cs:189-226 | the buttons and the answer are those of the getButtonTouched function |
| Windows.GameWindow.OnRelease | Assets/script/interface/GameWindow.cs:229-240 | the buttons and the answer are those of the onRelease function |
| Windows.GameWindow.GetPressedButtons | Assets/script/interface/GameWindow.cs:248-259 | answers the pressed-ids sum of the current buttons, changing nothing |
| Swipes.Normalize | Assets/script/interface/SimpleSwipe.cs:135-136 | NaN stays NaN, an Atan2 angle in [-180, 180] lands in [0, 360], and a value is moved by 0 or a full turn |
| Swipes.Bucket | Assets/script/interface/SimpleSwipe.cs:139-148 | the buckets never give Tap, and give None exactly for NaN |
| Swipes.Classify | Assets/script/interface/SimpleSwipe.cs:119-151 | Tap exactly when the distance is strictly below the tap distance; None exactly when it is not and the angle is NaN |
| Swipes.BucketsAreExact | Assets/script/interface/SimpleSwipe.cs:139-146 | on [0, 360] each direction is exactly its interval: Right at most 45 or above 315, Up (45, 135], Left (135, 225], Down (225, 315] |
| Swipes.ClassifyInTurn | Assets/script/interface/SimpleSwipe.cs:135-146 | on an angle already in [0, 360] a non-tap is classified by that angle's bucket |
| Swipes.AtanRangeIsAlwaysClassified | Assets/script/interface/SimpleSwipe.cs:125-148 | every Atan2 angle of a non-tap gives one of the four directions, a negative one the same as a full turn above it |
| Swipes.ClassifyExamples | Assets/script/interface/SimpleSwipe.cs:125-148 | up, down, left and right strokes, the boundary diagonals, a short stroke and a NaN angle get the expected outputs |
| Swipes.TapIffWithinRadius | Assets/script/interface/SimpleSwipe.cs:125-126 | with the Euclidean distance as input, Tap exactly when the end lies strictly inside the tap circle around the start |
| Swipes.PressStartsOnlyWhenIdle | Assets/script/interface/SimpleSwipe.cs:64-81 | a press on an idle tracker starts the stroke at the touch; a press while tracking, or any later press, changes nothing |
| Swipes.PressAtOriginIsForgotten | Assets/script/interface/SimpleSwipe.cs:68-73 | a stroke started at the origin is indistinguishable from no stroke, so the next press restarts it |
| Swipes.HoldAndRelease | Assets/script/interface/SimpleSwipe.cs:87-116 | hold overwrites only the end; release answers the classification and leaves the tracker cleared, so the next press starts afresh |
| Swipes.HoldAllKeepsStart | Assets/script/interface/SimpleSwipe.cs:87-99 | any run of holds keeps the start and leaves the end at the last touch |
| Swipes.Stroke.Press | Assets/script/interface/SimpleSwipe.cs:64-81 | no ensures; PressStartsOnlyWhenIdle and PressAtOriginIsForgotten state it |
| Swipes.Stroke.Hold | Assets/script/interface/SimpleSwipe.cs:87-99 | no ensures; HoldAndRelease states that only the end point changes |
| Swipes.Stroke.Release | Assets/script/interface/SimpleSwipe.cs:105-116 | no ensures; HoldAndRelease states the cleared tracker and the Classify answer |
| Swipes.HoldAll | Assets/script/interface/SimpleSwipe.cs:87-99 | no ensures; one onHold per frame, characterised by HoldAllKeepsStart |
| Swipes.SimpleSwipe.constructor | Assets/script/interface/SimpleSwipe.cs:28-29 | both points start at the origin |
| Swipes.SimpleSwipe.OnPress | Assets/script/interface/SimpleSwipe.cs:64-81 | the points become those of the press function |
| Swipes.SimpleSwipe.OnHold | Assets/script/interface/SimpleSwipe.cs:87-99 | the points become those of the hold function |
| Swipes.SimpleSwipe.OnRelease | Assets/script/interface/SimpleSwipe.cs:105-116 | answers the classification and clears both points |
| Swipes.SimpleSwipe.CalcSwipeDirection | Assets/script/interface/SimpleSwipe.cs:119-151 | the step-by-step classifier answers Classify of its inputs |
| Dispatch.Clamp | Assets/script/interface/GuiHandler.cs:297-299 | the frame's count is at most 10 and at most the touch count, and is one of the two |
| Dispatch.Toggle | Assets/script/interface/GuiHandler.cs:186-220 | the slots are not cleared (the loop runs zero times), and the count and touched-mask become 0 |
| Dispatch.Reset | Assets/script/interface/GuiHandler.cs:345-353 | no ensures; the count stored and the mask and all ten slots cleared, which ReassignClearsBeyondCount and MainAssignment build on |
| Dispatch.AssignTouch | Assets/script/interface/GuiHandler.cs:365-437 | one assignment pass keeps the slot count, the touch count and the mode |
| Dispatch.AssignUpTo | Assets/script/interface/GuiHandler.cs:357-442 | n passes of the loop keep the ten slots, the count and the mode; MainAssignUpTo, MenuAssignUpTo and the press lemmas state the rest |
| Dispatch.UpdateTouchIndex | Assets/script/interface/GuiHandler.cs:339-443 | after reassignment the state is well formed, stores the new count and keeps the mode |
| Dispatch.HoldTouch | Assets/script/interface/GuiHandler.cs:455-510 | one hold pass changes only the log and the stroke |
| Dispatch.HoldUpTo | Assets/script/interface/GuiHandler.cs:446-514 | n passes of the hold loop change only the log and the stroke; HoldPassMain and HoldUpToIdle state which calls they make |
| Dispatch.HoldPass | Assets/script/interface/GuiHandler.cs:446-514 | the hold pass never changes slots, masks, count, mode or menu |
| Dispatch.SwipeAction | Assets/script/interface/GuiHandler.cs:130-175 | no ensures; the swipe action switch, whose events SwipeReleaseEvents states |
| Dispatch.SwipeRelease | Assets/script/interface/GuiHandler.cs:126-177 | the swipe release clears the stroke and changes nothing but the stroke and the log |
| Dispatch.MenuRelease | Assets/script/interface/GuiHandler.cs:233-257 | the menu release keeps the slots and keeps the count or zeroes it |
| Dispatch.ReleasePass | Assets/script/interface/GuiHandler.cs:517-579 | the release pass keeps the slots and keeps the count or zeroes it |
| Dispatch.Step | Assets/script/interface/GuiHandler.cs:291-316 | a frame keeps the state well formed |
| Dispatch.Initial | Assets/script/interface/GuiHandler.cs:69-73 | no ensures; the field initialisers, which the GuiHandler constructor establishes and StartSatisfiesInv starts from |
| Dispatch.Start | Assets/script/interface/GuiHandler.cs:271-289 | no ensures; StartSatisfiesInv states the mode, the hidden menu, the player at the origin and the invariant |
| DispatchProofs.ExpectedTag | Assets/script/interface/GuiHandler.cs:365-411 | the priority reference: a touch's MainGame tag is Joystick, Swipe or None |
| DispatchProofs.MainMaskBits | Assets/script/interface/GuiHandler.cs:378-400 | the OR of MainGame tags is 0..3 and has a region's bit exactly when some slot holds it |
| DispatchProofs.MenuMaskValues | Assets/script/interface/GuiHandler.cs:425-428 | the OR of menu slots is again a sum of menu ids |
| DispatchProofs.JoystickClaimedIffAny | Assets/script/interface/GuiHandler.cs:369-385 | some touch gets the joystick exactly when some touch lies in the joystick region |
| DispatchProofs.SwipeClaimedIffAny | Assets/script/interface/GuiHandler.cs:387-407 | some touch gets the swipe exactly when some touch lies in the swipe region and outside the joystick region |
| DispatchProofs.MainAssignUpTo | Assets/script/interface/GuiHandler.cs:357-442 | after k MainGame passes each of the first k slots holds its reference tag, the rest are None, and the mask is their OR |
| DispatchProofs.MenuPressStaysShown | Assets/script/interface/GuiHandler.cs:412-430 | a menu press keeps the menu shown and answers a sum of menu ids |
| DispatchProofs.MenuAssignUpTo | Assets/script/interface/GuiHandler.cs:412-437 | after k SystemMenu passes the menu is shown, the slots are sums of menu ids, the mask is their OR, and the log and stroke are unchanged |
| DispatchProofs.ExpectedTagsUnique | Assets/script/interface/GuiHandler.cs:373-392 | no two touches get the same region |
| DispatchProofs.AssignUpToKeepsLaterSlots | Assets/script/interface/GuiHandler.cs:357-442 | the assignment loop never writes a slot at or beyond its index |
| DispatchProofs.ReassignClearsBeyondCount | Assets/script/interface/GuiHandler.cs:343-352 | reassignment stores the count and leaves every slot from the count on None |
| DispatchProofs.MainJoystickPressUpTo | Assets/script/interface/GuiHandler.cs:365-392 | after k MainGame passes the log holds one joystick press, at the position of the touch that claimed the joystick, or nothing new when no touch lay in its region |
| DispatchProofs.MainSwipePressUpTo | Assets/script/interface/GuiHandler.cs:365-411 | after k MainGame passes the stroke was pressed once, at the position of the touch that claimed the swipe, or is unchanged when no touch could take the swipe |
| DispatchProofs.MainAssignment | Assets/script/interface/GuiHandler.cs:339-443 | MainGame reassignment binds each touch to its reference tag (joystick first, a joystick touch never to swipe), leaves the rest None, makes the mask the OR of the slots with the bits of the claimed regions, and leaves the menu alone; the touch that claims the joystick presses it once at its position, the touch that claims the swipe starts the stroke at its position, and an unclaimed region is not pressed |
| DispatchProofs.MainAssignmentBindsEachRegionOnce | Assets/script/interface/GuiHandler.cs:365-411 | at most one slot holds each of Joystick and Swipe |
| DispatchProofs.UpdateTouchIndexKeepsInv | Assets/script/interface/GuiHandler.cs:339-443 | reassignment keeps the handler invariant |
| DispatchProofs.HoldPassMain | Assets/script/interface/GuiHandler.cs:446-514 | in MainGame mode the hold pass logs exactly one joystick hold at the joystick touch if one is bound, moves the stroke end to the swipe touch if one is bound, and changes nothing else |
| DispatchProofs.HoldUpToIdle | Assets/script/interface/GuiHandler.cs:502-506 | outside MainGame mode the hold pass does nothing |
| DispatchProofs.ToggleAlternates | Assets/script/interface/GuiHandler.cs:186-220 | a toggle keeps the invariant, alternates MainGame and SystemMenu (so two restore the mode), clears mask and count, and keeps slots, log and stroke |
| DispatchProofs.SwipeReleaseEvents | Assets/script/interface/GuiHandler.cs:126-177 | a swipe release records one output and quits exactly on Down and resets the player exactly on Tap |
| DispatchProofs.MainReleaseShape | Assets/script/interface/GuiHandler.cs:517-554 | the MainGame release pass appends the joystick release and then the swipe release, each exactly when its bit went away from a mask that went numerically down |
| DispatchProofs.MainReleaseEvents | Assets/script/interface/GuiHandler.cs:517-554 | joystick and swipe are each released at most once per frame, exactly on a set->clear transition with the mask going down; the swipe release clears the stroke and quits only on Down; the log only grows |
| DispatchProofs.ContinueReleaseClosesMenu | Assets/script/interface/GuiHandler.cs:555-567 | a Continue release in menu mode releases the menu and toggles back to MainGame with the menu hidden, logging nothing |
| DispatchProofs.OtherMenuReleasesAreIdle | Assets/script/interface/GuiHandler.cs:555-576 | every other menu-mode release, Quit included, does nothing |
| DispatchProofs.ReleasePassKeepsInv | Assets/script/interface/GuiHandler.cs:517-579 | the release pass keeps the handler invariant |
| DispatchProofs.StartSatisfiesInv | Assets/script/interface/GuiHandler.cs:271-289 | Start leaves MainGame mode, the menu hidden, no touch bound, the player at the origin, and the invariant true |
| DispatchProofs.StepPreservesInv | Assets/script/interface/GuiHandler.cs:291-316 | every frame keeps the handler invariant |
| DispatchProofs.EscapeOnlyToggles | Assets/script/interface/GuiHandler.cs:300-304 | an Escape frame only toggles: slots, log and stroke are kept, mask and count cleared |
| DispatchProofs.SameCountOnlyHolds | Assets/script/interface/GuiHandler.cs:306-313 | a frame whose clamped count is unchanged is the hold pass alone: no reassignment and no release |
| DispatchProofs.MenuModeIsSilent | Assets/script/interface/GuiHandler.cs:555-576 | a SystemMenu frame logs nothing and leaves the stroke alone, so the menu's Quit never quits |
| DispatchProofs.MissedJoystickRelease | Assets/script/interface/GuiHandler.cs:519-540 | a joystick let go while a new touch claims the swipe in the same frame is never released, since the mask 2 is not below 1 |
| DispatchProofs.EscapeDropsHeldJoystick | Assets/script/interface/GuiHandler.cs:186-220 | Escape with the joystick held and then an empty menu frame release nothing: the joystick stays held |
| Handler.GuiHandler.constructor | Assets/script/interface/GuiHandler.cs:69-73 | a new handler has ten None slots, both masks 0, count 0 and a cleared tracker |
| Handler.GuiHandler.Start | Assets/script/interface/GuiHandler.cs:271-289 | the handler becomes Start of its old state |
| Handler.GuiHandler.SystemMenuOpen | Assets/script/interface/GuiHandler.cs:186-220 | the handler becomes Toggle of its old state |
| Handler.GuiHandler.SystemMenuOnRelease | Assets/script/interface/GuiHandler.cs:233-257 | the handler becomes MenuRelease of its old state |
| Handler.GuiHandler.SwipeOnRelease | Assets/script/interface/GuiHandler.cs:126-177 | the handler becomes SwipeRelease of its old state |
| Handler.GuiHandler.AssignTouch | Assets/script/interface/GuiHandler.cs:361-440 | the handler becomes AssignTouch of its old state |
| Handler.GuiHandler.UpdateTouchIndex | Assets/script/interface/GuiHandler.cs:339-443 | the array loop and the while loop together make the handler UpdateTouchIndex of its old state |
| Handler.GuiHandler.HoldTouch | Assets/script/interface/GuiHandler.cs:450-510 | the handler becomes HoldTouch of its old state |
| Handler.GuiHandler.UpdateTouchOnHold | Assets/script/interface/GuiHandler.cs:446-514 | the while loop makes the handler HoldPass of its old state |
| Handler.GuiHandler.UpdateTouchOnRelease | Assets/script/interface/GuiHandler.cs:517-579 | the handler becomes ReleasePass of its old state |
| Handler.GuiHandler.Update | Assets/script/interface/GuiHandler.cs:291-316 | the handler becomes Step of its old state and the frame |

## Left out

- TouchJoystick.cs and ProgressBar.cs are not part of this model: the joystick's output is float vector math and sprite placement, and the progress bar is pixel blending. The handler's joystick calls are log events.
- Unity's `Rect.Contains` is an engine call; each region's answer for each touch is an input of the `Touch`.
- Screen, camera and sprite geometry in every `init`, `setActive`, `setPosition`, `setVisible`, `resizeImage` and `Start` of the widgets is graphics and is not modelled.
- SimpleSwipe's `init`, `setActive` and `contains`, and its `m_isActive` and `m_componentFlag` fields, only place its screen region, and are not modelled; nor are the `u_joystick.init` and `u_swipe.init` calls of GuiHandler's `Start` and its screen-size fields.
- `Vector2.Distance`, `.normalized` and the `Atan2` angle of the swipe stroke are float computations; their values are inputs, and NaN is modelled, but float infinities are not.
- Regions.InRect: coordinates are exact reals; the single-precision rounding of the far edge `x + width` (which can let a point in through a negative width when x is large) and NaN coordinates (which fail every comparison and so are contained) are not modelled, so `InRectNegativeSizeIsEmpty` and `InRectIsClosedRectangle` hold of the real-valued model only.
- Unity's `Vector2 ==` is approximate; the zero sentinel of SimpleSwipe is modelled with exact equality.
- `interfaceJoystickOnHold`'s player movement (`Mathf.Clamp`, `Time.deltaTime`, `Translate`) is float engine code; it is the `JoystickHold` event.
- The effects of the swipe actions (player to the origin, the menu moved to (10, 10), `Application.Quit`) and `Debug.Log` are recorded as events or dropped; nothing after `Application.Quit` stops.
- The clearing loop of `interfaceSystemMenuOpen` (GuiHandler.cs:195) runs up to a count it has just set to 0; it is left out of the class, and `Toggle` states that the slots are kept.
- ClickableRegion's private `setId` is never called and is not modelled.
- SystemMenu and GuiHandler keep ids and masks in `int` and GuiButton in `uint`; all are `bv32` here, which agrees because every value stays below 32.
- The commented-out legacy code at the end of GuiHandler.cs is not modelled.
- Dispatch.Toggle, Dispatch.AssignTouch, Dispatch.UpdateTouchIndex, Dispatch.HoldPass, Dispatch.MenuRelease, Dispatch.ReleasePass and Dispatch.Step: their own ensures state only frame facts; what they do is stated by the DispatchProofs lemmas about them.

## Findings

| source | as written | input that shows it | evidently intended | confidence | as-written member | corrected member |
|---|---|---|---|---|---|---|
| Assets/script/core/BitMask.cs:24-31 | `(mask & value) \| mask`, which is always mask | value 1, mask 1 answers 1 | the 1 bits of mask that are 0 in value, `mask & ~value` (answers 0 here) | high, not executed | BitMask.GetBitsNotSetMasked (BitMask.GetBitsNotSetMaskedDiffers) | BitMask.MaskBitsNotSet (BitMask.GetBitsNotSetMaskedAgreesIffDisjoint) |
| Assets/script/core/BitMask.cs:53-59 | `value & (1 << position)` after a 1..32 range check tests 0-based bit position, and bit 0 for 32 | value 1: position 1 answers false, position 32 answers true | a 1-based bit index, `value & (1 << (position - 1))` | medium, not executed | BitMask.GetIsBitSet (BitMask.GetIsBitSetOffByOne, BitMask.GetIsBitSetPosition32ReadsBitZero) | BitMask.IsBitSetOneBased (BitMask.IsBitSetOneBasedSingleBit) |
