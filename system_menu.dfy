/** SystemMenu.cs: the in-game system menu, a component id and two GuiButtons (Continue and Quit). Its sprite,
    region placement and scaling are graphics and are not modelled; which button a touch lies in is passed in. */
module Menus {
  import opened Buttons
  import opened Panels

  class SystemMenu {
    var componentId: bv32
    const cont: GuiButton
    const quit: GuiButton

    /** The two buttons are distinct objects, so updating one leaves the other alone. */
    predicate Valid()
    {
      cont != quit
    }

    function Value(): Panel
      reads this, cont, quit
    {
      Panel(componentId, cont.Value(), quit.Value())
    }

    /** The Unity object before init: id 0 and two fresh (Hidden) buttons. */
    constructor ()
      ensures Valid() && fresh(cont) && fresh(quit)
      ensures Value() == Panel(NoId, Button(0, Hidden), Button(0, Hidden))
    {
      componentId := NoId;
      cont := new GuiButton();
      quit := new GuiButton();
    }

    /** init: store the component id, then setActive. */
    method Init(isActive: bool, id: bv32)
      requires Valid()
      modifies this, cont, quit
      ensures Value() == old(Value()).(componentId := id).SetActive(isActive)
    {
      componentId := id;
      SetActive(isActive);
    }

    /** setActive: both buttons are initialised Up with their ids, then set Up or Hidden. */
    method SetActive(isActive: bool)
      requires Valid()
      modifies cont, quit
      ensures Value() == old(Value()).SetActive(isActive)
    {
      cont.Init(ContinueId, Up);
      quit.Init(QuitId, Up);
      if isActive {
        cont.SetState(Up);
        quit.SetState(Up);
      } else {
        cont.SetState(Hidden);
        quit.SetState(Hidden);
      }
    }

    method GetId() returns (r: bv32)
      ensures r == componentId
    {
      r := componentId;
    }

    /** onPress, with inContinue and inQuit saying which button regions contain the touch. */
    method OnPress(inContinue: bool, inQuit: bool)
      requires Valid()
      modifies cont, quit
      ensures Value() == old(Value()).OnPress(inContinue, inQuit)
    {
      var c := cont.GetId();
      if inContinue {
        var _ := cont.Press(c);
      } else {
        var _ := cont.Release(c);
      }
      var q := quit.GetId();
      if inQuit {
        var _ := quit.Press(q);
      } else {
        var _ := quit.Release(q);
      }
    }

    method OnRelease() returns (r: bv32)
      requires Valid()
      modifies cont, quit
      ensures (Value(), r) == old(Value()).OnRelease()
    {
      var c := cont.GetId();
      var a := cont.Release(c);
      var q := quit.GetId();
      var b := quit.Release(q);
      r := Add(a, b);
    }

    method GetPressedButtons(flags: bv32) returns (r: bv32)
      ensures r == Value().PressedButtons(flags)
    {
      var a := cont.GetIsPressed(flags);
      var b := quit.GetIsPressed(flags);
      r := Add(a, b);
    }
  }
}
