/** GuiHandler.cs as a class: the touch-slot array, the touched-mask, the active-mode mask, the touch count, the
    system menu and swipe tracker objects it owns, and the log of calls into components outside the model. Each
    method is proved to move the handler's Value() exactly as the matching Dispatch function does, so the
    invariant and the properties proved in DispatchProofs hold of the class. */
module Handler {
  import opened Vectors
  import opened Buttons
  import opened Panels
  import opened Menus
  import opened Swipes
  import opened Dispatch

  class GuiHandler {
    const slots: array<bv32>     // m_touchIndex
    const menu: SystemMenu       // u_systemMenu
    const swipe: SimpleSwipe     // u_swipe
    var touchMask: bv32          // m_guiTouchStateMask
    var activeMask: bv32         // m_guiActiveUIStateMask
    var numTouches: nat          // m_numTouches
    var log: seq<Event>

    predicate Valid()
      reads this, menu
    {
      slots.Length == MaxTouchCount && numTouches <= MaxTouchCount && menu.Valid()
    }

    function Value(): State
      reads this, slots, menu, menu.cont, menu.quit, swipe
    {
      State(slots[..], touchMask, activeMask, numTouches, menu.Value(), swipe.Value(), swipe.tapDistance, log)
    }

    /** The field initialisers: ten None slots, both masks and the count zero. */
    constructor (tapDistance: real)
      ensures Valid() && Value() == Initial(tapDistance)
      ensures fresh(slots) && fresh(menu) && fresh(menu.cont) && fresh(menu.quit) && fresh(swipe)
    {
      slots := new bv32[] [NoTag, NoTag, NoTag, NoTag, NoTag, NoTag, NoTag, NoTag, NoTag, NoTag];
      menu := new SystemMenu();
      swipe := new SimpleSwipe(tapDistance);
      touchMask, activeMask, numTouches := NoTag, NoTag, 0;
      log := [];
    }

    method Start()
      requires Valid()
      modifies this, menu, menu.cont, menu.quit
      ensures Valid() && Value() == Dispatch.Start(old(Value()))
    {
      activeMask := MainGameMode;
      log := log + [PlayerToOrigin];
      menu.Init(false, SystemMenuTag);
    }

    /** interfaceSystemMenuOpen. */
    method SystemMenuOpen()
      requires Valid()
      modifies this, menu.cont, menu.quit
      ensures Valid() && Value() == Toggle(old(Value()))
    {
      var flag := menu.GetId();
      numTouches := 0;
      if HasBit(activeMask, flag) {
        menu.SetActive(false);
        touchMask := NoTag;
        activeMask := MainGameMode;
      } else {
        menu.SetActive(true);
        touchMask := NoTag;
        activeMask := flag;
      }
    }

    /** interfaceSystemMenuOnRelease(buttonFlag). */
    method SystemMenuOnRelease(buttonFlag: bv32)
      requires Valid()
      modifies this, menu.cont, menu.quit
      ensures Valid() && Value() == MenuRelease(old(Value()), buttonFlag)
    {
      var _ := menu.OnRelease();
      if buttonFlag == ContinueId {
        SystemMenuOpen();
      } else if buttonFlag == QuitId {
        log := log + [QuitApp];
      }
    }

    /** interfaceSwipeOnRelease and the swipe action it selects. */
    method SwipeOnRelease(distance: Float, angle: Float)
      requires Valid()
      modifies this, swipe
      ensures Valid() && Value() == SwipeRelease(old(Value()), distance, angle)
    {
      var output := swipe.OnRelease(distance, angle);
      log := log + [Swiped(output)];
      if output == Tap {
        log := log + [PlayerToOrigin];
      } else if output == Left {
        log := log + [MenuMoved];
      } else if output == Down {
        log := log + [QuitApp];
      }
    }

    /** One pass of the updateTouchIndex loop, for touch t at index touchId. */
    method AssignTouch(touchId: nat, t: Touch)
      requires Valid() && touchId < MaxTouchCount
      modifies this, slots, menu.cont, menu.quit, swipe
      ensures Valid() && Value() == Dispatch.AssignTouch(old(Value()), touchId, t)
    {
      if activeMask == MainGameMode {
        if t.inJoystick {
          if !HasBit(touchMask, JoystickTag) {
            slots[touchId] := JoystickTag;
            touchMask := Or(touchMask, JoystickTag);
            log := log + [JoystickPress(t.pos)];
          }
        } else if t.inSwipe {
          if !HasBit(touchMask, SwipeTag) {
            slots[touchId] := SwipeTag;
            touchMask := Or(touchMask, SwipeTag);
            swipe.OnPress(t.pos);
          }
        }
      } else if activeMask == SystemMenuTag {
        if t.inMenu {
          menu.OnPress(t.inContinue, t.inQuit);
          var pressed := menu.GetPressedButtons(AllIds);
          slots[touchId] := pressed;
          touchMask := Or(touchMask, pressed);
        }
      }
    }

    /** updateTouchIndex(touchCount): store the count, clear the mask and the slots, then bind each touch. */
    method UpdateTouchIndex(touches: seq<Touch>, touchCount: nat)
      requires Valid() && touchCount <= MaxTouchCount && touchCount <= |touches|
      modifies this, slots, menu.cont, menu.quit, swipe
      ensures Valid() && Value() == Dispatch.UpdateTouchIndex(old(Value()), touches, touchCount)
    {
      numTouches := touchCount;
      touchMask := NoTag;
      for i := 0 to MaxTouchCount
        modifies slots
        invariant forall j | 0 <= j < i :: slots[j] == NoTag
      {
        slots[i] := NoTag;
      }
      assert slots[..] == EmptySlots;
      var touchId := 0;
      while touchId < touchCount
        invariant touchId <= touchCount && Valid()
        invariant Value() == AssignUpTo(Reset(old(Value()), touchCount), touches, touchId)
      {
        AssignTouch(touchId, touches[touchId]);
        touchId := touchId + 1;
      }
    }

    /** One pass of the updateTouchOnHold loop. */
    method HoldTouch(touchId: nat, t: Touch)
      requires Valid() && touchId < MaxTouchCount
      modifies this, swipe
      ensures Valid() && Value() == Dispatch.HoldTouch(old(Value()), touchId, t)
    {
      if activeMask == MainGameMode {
        if slots[touchId] == JoystickTag {
          if HasBit(touchMask, JoystickTag) {
            log := log + [JoystickHold(t.pos)];
          }
        } else if slots[touchId] == SwipeTag {
          if HasBit(touchMask, SwipeTag) {
            swipe.OnHold(t.pos);
          }
        }
      }
    }

    /** updateTouchOnHold. */
    method UpdateTouchOnHold(touches: seq<Touch>)
      requires Valid() && numTouches <= |touches|
      modifies this, swipe
      ensures Valid() && Value() == HoldPass(old(Value()), touches)
    {
      var touchId := 0;
      while touchId < numTouches
        invariant numTouches == old(numTouches) && touchId <= numTouches && Valid()
        invariant touchId <= |old(Value()).slots|
        invariant Value() == HoldUpTo(old(Value()), touches, touchId)
      {
        HoldTouch(touchId, touches[touchId]);
        touchId := touchId + 1;
      }
    }

    /** updateTouchOnRelease(guiTouchStatePrev). */
    method UpdateTouchOnRelease(prev: bv32, distance: Float, angle: Float)
      requires Valid()
      modifies this, menu.cont, menu.quit, swipe
      ensures Valid() && Value() == ReleasePass(old(Value()), prev, distance, angle)
    {
      if !Dropped(prev, touchMask) {
        return;
      }
      if activeMask == MainGameMode {
        if Released(prev, touchMask, JoystickTag) {
          log := log + [JoystickRelease];
        }
        if Released(prev, touchMask, SwipeTag) {
          SwipeOnRelease(distance, angle);
        }
      } else if activeMask == SystemMenuTag {
        if Released(prev, touchMask, ContinueId) {
          SystemMenuOnRelease(ContinueId);
        }
      }
    }

    /** Update, given what the engine reports for the frame. */
    method Update(f: Frame)
      requires Valid()
      modifies this, slots, menu.cont, menu.quit, swipe
      ensures Valid() && Value() == Step(old(Value()), f)
    {
      var prev := touchMask;
      var touchCount := |f.touches|;
      if touchCount > MaxTouchCount {
        touchCount := MaxTouchCount;
      }
      if f.escape {
        SystemMenuOpen();
      } else {
        if touchCount != numTouches {
          UpdateTouchIndex(f.touches, touchCount);
        }
        UpdateTouchOnHold(f.touches);
        UpdateTouchOnRelease(prev, f.swipeDistance, f.swipeAngle);
      }
    }
  }
}
