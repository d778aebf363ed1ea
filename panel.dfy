/** The two-button aggregate that SystemMenu.cs and GameWindow.cs both implement, line for line: a component id,
    a Continue button (id 1) and a Quit button (id 16). The classes Menus.SystemMenu and Windows.GameWindow are
    proved against the functions here. */
module Panels {
  import opened Buttons

  // ENUMsysButtonId / ENUMwindowObjectId
  const NoId: bv32 := 0
  const ContinueId: bv32 := 1
  const SaveId: bv32 := 2
  const LoadId: bv32 := 4
  const OptionsId: bv32 := 8
  const QuitId: bv32 := 16
  const AllIds: bv32 := ContinueId + SaveId + LoadId + OptionsId + QuitId
  const IdCount := 5

  /** The uint `+=` with which the source accumulates the ids its buttons answer. */
  function Add(a: bv32, b: bv32): bv32
  {
    a + b
  }

  datatype Panel = Panel(componentId: bv32, cont: Button, quit: Button)
  {
    /** The buttons carry the ids that setActive gives them. */
    predicate Ready()
    {
      cont.id == ContinueId && quit.id == QuitId
    }

    /** The button-state part of setActive: init both buttons Up with their ids, then setState Up when active
        and Hidden when not. */
    function SetActive(isActive: bool): (r: Panel)
      ensures r.Ready() && r.componentId == componentId
      ensures r.cont.state == r.quit.state && (r.cont.state == Up <==> isActive)
      ensures r.cont.state == Up || r.cont.state == Hidden
    {
      var s := if isActive then Up else Hidden;
      this.(cont := Button(ContinueId, Up).(state := s), quit := Button(QuitId, Up).(state := s))
    }

    /** onPress: each button containing the touch is pressed and each other button is released, both with the
        button's own id. */
    function OnPress(inContinue: bool, inQuit: bool): (r: Panel)
      ensures r.componentId == componentId && r.cont.id == cont.id && r.quit.id == quit.id
    {
      var c := if inContinue then cont.Press(cont.id).0 else cont.Release(cont.id).0;
      var q := if inQuit then quit.Press(quit.id).0 else quit.Release(quit.id).0;
      this.(cont := c, quit := q)
    }

    /** onRelease: release both buttons, answering the sum of what the releases answered. */
    function OnRelease(): (r: (Panel, bv32))
      ensures r.0.componentId == componentId && r.0.cont.id == cont.id && r.0.quit.id == quit.id
      ensures r.0.cont.state != Down && r.0.quit.state != Down
    {
      var (c, a) := cont.Release(cont.id);
      var (q, b) := quit.Release(quit.id);
      (this.(cont := c, quit := q), Add(a, b))
    }

    /** getPressedButtons: the sum of what getIsPressed answers for both buttons. */
    function PressedButtons(flags: bv32): bv32
    {
      Add(cont.IsPressed(flags), quit.IsPressed(flags))
    }

    /** GameWindow.getButtonTouched: only buttons selected in flags (by the enum's bits) are driven; with
        isTouched a selected button containing the touch is pressed, without it every selected button is
        released; the answer is the sum of what those calls answered. */
    function ButtonTouched(flags: bv32, isTouched: bool, inContinue: bool, inQuit: bool): (r: (Panel, bv32))
      ensures r.0.componentId == componentId && r.0.cont.id == cont.id && r.0.quit.id == quit.id
    {
      var (c, a) := TouchOne(cont, ContinueId, flags, isTouched, inContinue);
      var (q, b) := TouchOne(quit, QuitId, flags, isTouched, inQuit);
      (this.(cont := c, quit := q), Add(a, b))
    }
  }

  /** One of the two blocks of getButtonTouched, for the button b selected by the enum bit bit. */
  function TouchOne(b: Button, bit: bv32, flags: bv32, isTouched: bool, inside: bool): (r: (Button, bv32))
    ensures r.0.id == b.id && (r.1 == 0 || r.1 == b.id)
    ensures !Covers(flags, bit) ==> r == (b, 0)
  {
    if !Covers(flags, bit) then (b, 0)
    else if isTouched then (if inside then b.Press(b.id) else (b, 0))
    else b.Release(b.id)
  }

  /** An id always covers itself, so a button's own id passes its guard. */
  lemma OwnIdCovers(id: bv32)
    ensures Covers(id, id)
  {
  }

  /** Sums of the Continue and Quit parts are disjoint ORs. */
  lemma DisjointSum(a: bv32, b: bv32)
    requires a == 0 || a == ContinueId
    requires b == 0 || b == QuitId
    ensures Add(a, b) == a | b
    ensures Add(a, b) in {0, ContinueId, QuitId, ContinueId | QuitId}
  {
  }

  lemma DisjointSumWithin(a: bv32, b: bv32, flags: bv32)
    requires a == 0 || (a == ContinueId && Covers(flags, ContinueId))
    requires b == 0 || (b == QuitId && Covers(flags, QuitId))
    ensures Add(a, b) & !(flags & (ContinueId | QuitId)) == 0
  {
  }

  lemma CoversSelection(flags: bv32)
    ensures Covers(flags & (ContinueId | QuitId), ContinueId) == Covers(flags, ContinueId)
    ensures Covers(flags & (ContinueId | QuitId), QuitId) == Covers(flags, QuitId)
  {
  }

  /** The bits that the sum of the Continue and Quit parts carries. */
  lemma DisjointSumBits(a: bv32, b: bv32)
    requires a == 0 || a == ContinueId
    requires b == 0 || b == QuitId
    ensures Add(a, b) & ContinueId != 0 <==> a == ContinueId
    ensures Add(a, b) & QuitId != 0 <==> b == QuitId
  {
  }

  /** After setActive the ids are in place and both buttons are Up (active) or Hidden (inactive): none is Down,
      so nothing reads as pressed. */
  lemma SetActiveLeavesNoneDown(p: Panel, isActive: bool, flags: bv32)
    ensures p.SetActive(isActive).Ready()
    ensures p.SetActive(isActive).componentId == p.componentId
    ensures isActive ==> p.SetActive(isActive).cont.state == Up && p.SetActive(isActive).quit.state == Up
    ensures !isActive ==> p.SetActive(isActive).cont.state == Hidden && p.SetActive(isActive).quit.state == Hidden
    ensures p.SetActive(isActive).PressedButtons(flags) == 0
  {
  }

  /** onPress treats the buttons independently: what happens to one does not depend on whether the other contains
      the touch; a containing Up button goes Down and a non-containing Down button goes Up. */
  lemma OnPressIsPerButton(p: Panel, inContinue: bool, inQuit: bool, inQuit': bool, inContinue': bool)
    ensures p.OnPress(inContinue, inQuit).cont == p.OnPress(inContinue, inQuit').cont
    ensures p.OnPress(inContinue, inQuit).quit == p.OnPress(inContinue', inQuit).quit
    ensures inContinue && p.cont.state == Up ==> p.OnPress(inContinue, inQuit).cont.state == Down
    ensures !inContinue && p.cont.state == Down ==> p.OnPress(inContinue, inQuit).cont.state == Up
    ensures inQuit && p.quit.state == Up ==> p.OnPress(inContinue, inQuit).quit.state == Down
    ensures !inQuit && p.quit.state == Down ==> p.OnPress(inContinue, inQuit).quit.state == Up
    ensures p.OnPress(inContinue, inQuit).componentId == p.componentId
  {
  }

  /** Because the ids are disjoint bits, the sum getPressedButtons computes is the bitwise OR and is one of
      0, 1, 16 and 17; bit 1 is set iff Continue is Down and covered, bit 16 iff Quit is. */
  lemma PressedButtonsIsDisjointOr(p: Panel, flags: bv32)
    requires p.Ready()
    ensures p.PressedButtons(flags) == p.cont.IsPressed(flags) | p.quit.IsPressed(flags)
    ensures p.PressedButtons(flags) in {0, ContinueId, QuitId, ContinueId | QuitId}
    ensures p.PressedButtons(flags) & ContinueId != 0 <==> p.cont.state == Down && Covers(flags, ContinueId)
    ensures p.PressedButtons(flags) & QuitId != 0 <==> p.quit.state == Down && Covers(flags, QuitId)
  {
    DisjointSum(p.cont.IsPressed(flags), p.quit.IsPressed(flags));
    DisjointSumBits(p.cont.IsPressed(flags), p.quit.IsPressed(flags));
  }

  /** onRelease answers exactly what getPressedButtons(All) answered before it, and leaves no button Down. */
  lemma OnReleaseReportsPressedAndClears(p: Panel)
    requires p.Ready()
    ensures p.OnRelease().1 == p.PressedButtons(AllIds)
    ensures p.OnRelease().0.Ready() && p.OnRelease().0.componentId == p.componentId
    ensures p.OnRelease().0.PressedButtons(AllIds) == 0
    ensures p.OnRelease().0.cont.state != Down && p.OnRelease().0.quit.state != Down
  {
    assert Covers(ContinueId, ContinueId) && Covers(QuitId, QuitId);
    assert Covers(AllIds, ContinueId) && Covers(AllIds, QuitId);
    var a := if p.cont.state == Down then ContinueId else 0;
    var b := if p.quit.state == Down then QuitId else 0;
    assert p.cont.Release(p.cont.id).1 == a == p.cont.IsPressed(AllIds);
    assert p.quit.Release(p.quit.id).1 == b == p.quit.IsPressed(AllIds);
    var q := p.OnRelease().0;
    assert q.cont.state != Down && q.quit.state != Down;
    assert q.cont.IsPressed(AllIds) == 0 && q.quit.IsPressed(AllIds) == 0;
  }

  /** getButtonTouched leaves unselected buttons as they were. */
  lemma ButtonTouchedKeepsUnselected(p: Panel, flags: bv32, isTouched: bool, inContinue: bool, inQuit: bool)
    ensures !Covers(flags, ContinueId) ==> p.ButtonTouched(flags, isTouched, inContinue, inQuit).0.cont == p.cont
    ensures !Covers(flags, QuitId) ==> p.ButtonTouched(flags, isTouched, inContinue, inQuit).0.quit == p.quit
  {
  }

  /** One block of getButtonTouched answers 0 or the button's bit, and the bit only when flags select it. */
  lemma TouchOneAnswer(b: Button, bit: bv32, flags: bv32, isTouched: bool, inside: bool)
    requires b.id == bit
    ensures TouchOne(b, bit, flags, isTouched, inside).1 == 0 ||
      (TouchOne(b, bit, flags, isTouched, inside).1 == bit && Covers(flags, bit))
  {
  }

  /** The answer of getButtonTouched has no bit outside the selected Continue and Quit bits. */
  lemma ButtonTouchedStaysWithinSelection(p: Panel, flags: bv32, isTouched: bool, inContinue: bool, inQuit: bool)
    requires p.Ready()
    ensures p.ButtonTouched(flags, isTouched, inContinue, inQuit).1 & !(flags & (ContinueId | QuitId)) == 0
  {
    var c := TouchOne(p.cont, ContinueId, flags, isTouched, inContinue);
    var q := TouchOne(p.quit, QuitId, flags, isTouched, inQuit);
    TouchOneAnswer(p.cont, ContinueId, flags, isTouched, inContinue);
    TouchOneAnswer(p.quit, QuitId, flags, isTouched, inQuit);
    DisjointSumWithin(c.1, q.1, flags);
  }

  /** With isTouched, one block presses its button exactly when selected, containing the touch and Up; it
      answers the bit exactly then. */
  lemma TouchOnePress(b: Button, bit: bv32, flags: bv32, inside: bool)
    requires b.id == bit
    ensures var (r, x) := TouchOne(b, bit, flags, true, inside);
      (r != b <==> Covers(flags, bit) && inside && b.state == Up) &&
      (r != b ==> r.state == Down) &&
      x == (if r != b then bit else 0)
  {
  }

  /** Without isTouched, one block releases its selected button, answering the bit exactly when it was Down. */
  lemma TouchOneRelease(b: Button, bit: bv32, flags: bv32, inside: bool)
    requires b.id == bit
    ensures var (r, x) := TouchOne(b, bit, flags, false, inside);
      (Covers(flags, bit) ==> r.state != Down) &&
      (!Covers(flags, bit) ==> r == b) &&
      x == (if Covers(flags, bit) && b.state == Down then bit else 0)
  {
    assert Covers(bit, bit);
  }

  /** With isTouched, getButtonTouched presses the selected buttons that contain the touch and answers the ids of
      those that went Up -> Down; buttons not containing the touch are left alone. */
  lemma ButtonTouchedPress(p: Panel, flags: bv32, inContinue: bool, inQuit: bool)
    requires p.Ready()
    ensures var (r, id) := p.ButtonTouched(flags, true, inContinue, inQuit);
      (r.cont != p.cont <==> Covers(flags, ContinueId) && inContinue && p.cont.state == Up) &&
      (r.quit != p.quit <==> Covers(flags, QuitId) && inQuit && p.quit.state == Up) &&
      (r.cont != p.cont ==> r.cont.state == Down) && (r.quit != p.quit ==> r.quit.state == Down) &&
      id == Add(if r.cont != p.cont then ContinueId else 0, if r.quit != p.quit then QuitId else 0)
  {
    TouchOnePress(p.cont, ContinueId, flags, inContinue);
    TouchOnePress(p.quit, QuitId, flags, inQuit);
  }

  /** Without isTouched, every selected button is released wherever the touch is, and the answer is the ids of
      the selected buttons that were Down. */
  lemma ButtonTouchedRelease(p: Panel, flags: bv32, inContinue: bool, inQuit: bool)
    requires p.Ready()
    ensures var (r, id) := p.ButtonTouched(flags, false, inContinue, inQuit);
      (Covers(flags, ContinueId) ==> r.cont.state != Down) &&
      (Covers(flags, QuitId) ==> r.quit.state != Down) &&
      id == p.PressedButtons(flags & (ContinueId | QuitId))
  {
    TouchOneRelease(p.cont, ContinueId, flags, inContinue);
    TouchOneRelease(p.quit, QuitId, flags, inQuit);
    CoversSelection(flags);
    var f := flags & (ContinueId | QuitId);
    assert p.cont.IsPressed(f) == if Covers(flags, ContinueId) && p.cont.state == Down then ContinueId else 0;
    assert p.quit.IsPressed(f) == if Covers(flags, QuitId) && p.quit.state == Down then QuitId else 0;
  }
}
