/** GameWindow.cs: the game window, which has the same component id and Continue/Quit GuiButtons as the system
    menu and in addition getButtonTouched. Sprite, region placement and scaling are graphics and are not
    modelled; which button a touch lies in is passed in. */
module Windows {
  import opened Buttons
  import opened Panels

  class GameWindow {
    var componentId: bv32
    const cont: GuiButton
    const quit: GuiButton

    /** The two buttons are distinct objects, so updating one leaves the other alone. */
    predicate Valid()
    {
      cont != quit
    }

    function Value(): Panel
      reads this, cont, quit
    {
      Panel(componentId, cont.Value(), quit.Value())
    }

    /** The Unity object before init: id 0 and two fresh (Hidden) buttons. */
    constructor ()
      ensures Valid()
      ensures Value() == Panel(NoId, Button(0, Hidden), Button(0, Hidden))
      ensures fresh(cont) && fresh(quit)
    {
      componentId := NoId;
      cont := new GuiButton();
      quit := new GuiButton();
    }

    /** init: store the component id, then setActive. */
    method Init(isActive: bool, id: bv32)
      requires Valid()
      modifies this, cont, quit
      ensures Value() == old(Value()).(componentId := id).SetActive(isActive)
    {
      componentId := id;
      SetActive(isActive);
    }

    /** setActive: both buttons are initialised Up with their ids, then set Up or Hidden. */
    method SetActive(isActive: bool)
      requires Valid()
      modifies cont, quit
      ensures Value() == old(Value()).SetActive(isActive)
    {
      cont.Init(ContinueId, Up);
      quit.Init(QuitId, Up);
      if isActive {
        cont.SetState(Up);
        quit.SetState(Up);
      } else {
        cont.SetState(Hidden);
        quit.SetState(Hidden);
      }
    }

    method GetId() returns (r: bv32)
      ensures r == componentId
    {
      r := componentId;
    }

    /** onPress, with inContinue and inQuit saying which button regions contain the touch. */
    method OnPress(inContinue: bool, inQuit: bool)
      requires Valid()
      modifies cont, quit
      ensures Value() == old(Value()).OnPress(inContinue, inQuit)
    {
      var c := cont.GetId();
      if inContinue {
        var _ := cont.Press(c);
      } else {
        var _ := cont.Release(c);
      }
      var q := quit.GetId();
      if inQuit {
        var _ := quit.Press(q);
      } else {
        var _ := quit.Release(q);
      }
    }

    /** getButtonTouched: drive only the buttons whose enum bit is in flags; press one containing the touch when
        isTouched, release it otherwise; answer the sum of what was answered. */
    method GetButtonTouched(flags: bv32, isTouched: bool, inContinue: bool, inQuit: bool) returns (r: bv32)
      requires Valid()
      modifies cont, quit
      ensures (Value(), r) == old(Value()).ButtonTouched(flags, isTouched, inContinue, inQuit)
    {
      var a: bv32 := NoId;
      if flags & ContinueId == ContinueId {
        var c := cont.GetId();
        if isTouched {
          if inContinue {
            a := cont.Press(c);
          }
        } else {
          a := cont.Release(c);
        }
      }
      var b: bv32 := NoId;
      if flags & QuitId == QuitId {
        var q := quit.GetId();
        if isTouched {
          if inQuit {
            b := quit.Press(q);
          }
        } else {
          b := quit.Release(q);
        }
      }
      r := Add(a, b);
    }

    method OnRelease() returns (r: bv32)
      requires Valid()
      modifies cont, quit
      ensures (Value(), r) == old(Value()).OnRelease()
    {
      var c := cont.GetId();
      var a := cont.Release(c);
      var q := quit.GetId();
      var b := quit.Release(q);
      r := Add(a, b);
    }

    method GetPressedButtons(flags: bv32) returns (r: bv32)
      ensures r == Value().PressedButtons(flags)
    {
      var a := cont.GetIsPressed(flags);
      var b := quit.GetIsPressed(flags);
      r := Add(a, b);
    }
  }
}
