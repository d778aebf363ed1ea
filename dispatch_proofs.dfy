/** Properties of the GuiHandler model: the invariant every frame keeps (the touched-mask is the OR of the bound
    slots, at most one touch per MainGame region, the menu shown exactly in SystemMenu mode), how slots are
    assigned, and which calls the hold and release passes make. */
module DispatchProofs {
  import opened Vectors
  import opened Buttons
  import opened Panels
  import Swipes
  import opened Dispatch

  predicate MainSlot(x: bv32)
  {
    x == NoTag || x == JoystickTag || x == SwipeTag
  }

  /** What a SystemMenu-mode slot can hold: the sum of the pressed menu ids. */
  predicate MenuSlot(x: bv32)
  {
    x == NoId || x == ContinueId || x == QuitId || x == ContinueId + QuitId
  }

  /** MainGame-mode slots: None, Joystick or Swipe, and no region bound twice. */
  predicate MainSlots(xs: seq<bv32>)
  {
    (forall i | 0 <= i < |xs| :: MainSlot(xs[i])) &&
    (forall i, j | 0 <= i < j < |xs| :: xs[i] == xs[j] ==> xs[i] == NoTag)
  }

  predicate MenuSlots(xs: seq<bv32>)
  {
    forall i | 0 <= i < |xs| :: MenuSlot(xs[i])
  }

  /** The menu as setActive(false) leaves it. */
  predicate HiddenMenu(m: Panel)
  {
    m.Ready() && m.cont.state == Hidden && m.quit.state == Hidden
  }

  /** The menu while it is open: both buttons shown, each Up or Down. */
  predicate ShownMenu(m: Panel)
  {
    m.Ready() && (m.cont.state == Up || m.cont.state == Down) && (m.quit.state == Up || m.quit.state == Down)
  }

  /** The invariant of the handler between frames. */
  predicate Inv(s: State)
  {
    WellFormed(s) &&
    s.menu.componentId == SystemMenuTag &&
    s.touchMask == OrAll(s.slots[..s.numTouches]) &&
    ((s.activeMask == MainGameMode && HiddenMenu(s.menu) && MainSlots(s.slots[..s.numTouches])) ||
     (s.activeMask == SystemMenuTag && ShownMenu(s.menu) && MenuSlots(s.slots[..s.numTouches])))
  }

  // ---- bit-level facts about the tags -------------------------------------------------------------------

  lemma OrNoTag(a: bv32)
    ensures Or(a, NoTag) == a
  {
  }

  /** Adding a MainGame tag to a MainGame mask: the result is a MainGame mask whose bits are the old ones and the
      tag's. */
  lemma OrMain(a: bv32, c: bv32)
    requires a == 0 || a == 1 || a == 2 || a == 3
    requires MainSlot(c)
    ensures Or(a, c) == 0 || Or(a, c) == 1 || Or(a, c) == 2 || Or(a, c) == 3
    ensures HasBit(Or(a, c), JoystickTag) <==> HasBit(a, JoystickTag) || c == JoystickTag
    ensures HasBit(Or(a, c), SwipeTag) <==> HasBit(a, SwipeTag) || c == SwipeTag
  {
    if a == 0 {
      assert Or(a, c) == c;
    } else if a == 1 {
      assert c == 0 ==> Or(a, c) == 1;
      assert c == 1 ==> Or(a, c) == 1;
      assert c == 2 ==> Or(a, c) == 3;
    } else if a == 2 {
      assert c == 0 ==> Or(a, c) == 2;
      assert c == 1 ==> Or(a, c) == 3;
      assert c == 2 ==> Or(a, c) == 2;
    } else {
      assert Or(a, c) == 3;
    }
  }

  /** Adding a menu slot to a menu mask gives a menu mask. */
  lemma OrMenu(a: bv32, c: bv32)
    requires MenuSlot(a) && MenuSlot(c)
    ensures MenuSlot(Or(a, c))
  {
    if a == 0 {
      assert Or(a, c) == c;
    } else if c == 0 {
      assert Or(a, c) == a;
    } else if a == c {
      assert Or(a, c) == a;
    } else {
      assert Or(a, c) == 17;
    }
  }

  // ---- the OR of a sequence -------------------------------------------------------------------------------

  lemma OrAllSnoc(xs: seq<bv32>, k: nat)
    requires 0 < k <= |xs|
    ensures OrAll(xs[..k]) == Or(OrAll(xs[..k - 1]), xs[k - 1])
  {
    assert xs[..k][..k - 1] == xs[..k - 1];
  }

  /** The OR of MainGame slots is a MainGame mask holding exactly the tags that occur. */
  lemma {:induction false} MainMaskBits(xs: seq<bv32>)
    requires forall i | 0 <= i < |xs| :: MainSlot(xs[i])
    ensures OrAll(xs) == 0 || OrAll(xs) == 1 || OrAll(xs) == 2 || OrAll(xs) == 3
    ensures HasBit(OrAll(xs), JoystickTag) <==> JoystickTag in xs
    ensures HasBit(OrAll(xs), SwipeTag) <==> SwipeTag in xs
  {
    if xs != [] {
      var p, x := xs[..|xs| - 1], xs[|xs| - 1];
      assert xs == p + [x];
      assert OrAll(xs) == Or(OrAll(p), x);
      assert (JoystickTag in xs) == (JoystickTag in p || x == JoystickTag);
      assert (SwipeTag in xs) == (SwipeTag in p || x == SwipeTag);
      MainMaskBits(p);
      OrMain(OrAll(p), x);
    }
  }

  /** The OR of menu slots is a menu slot. */
  lemma {:induction false} MenuMaskValues(xs: seq<bv32>)
    requires MenuSlots(xs)
    ensures MenuSlot(OrAll(xs))
  {
    if xs != [] {
      var p := xs[..|xs| - 1];
      MenuMaskValues(p);
      OrMenu(OrAll(p), xs[|xs| - 1]);
    }
  }

  // ---- slot assignment in MainGame mode ---------------------------------------------------------------------

  /** Some touch before index k lies in the joystick region. */
  predicate AnyJoystick(touches: seq<Touch>, k: nat)
    requires k <= |touches|
  {
    exists j | 0 <= j < k :: touches[j].inJoystick
  }

  /** A touch the swipe may take: inside the swipe region and outside the joystick region, which comes first. */
  predicate SwipeEligible(t: Touch)
  {
    !t.inJoystick && t.inSwipe
  }

  predicate AnySwipe(touches: seq<Touch>, k: nat)
    requires k <= |touches|
  {
    exists j | 0 <= j < k :: SwipeEligible(touches[j])
  }

  /** The tag touch i gets in MainGame mode, stated without the loop: Joystick for the first touch in the joystick
      region, Swipe for the first swipe-eligible touch, None for every other touch. */
  function ExpectedTag(touches: seq<Touch>, i: nat): (r: bv32)
    requires i < |touches|
    ensures MainSlot(r)
  {
    if touches[i].inJoystick && !AnyJoystick(touches, i) then JoystickTag
    else if SwipeEligible(touches[i]) && !AnySwipe(touches, i) then SwipeTag
    else NoTag
  }

  /** A touch before k gets the Joystick tag exactly when some touch before k is in the joystick region. */
  lemma {:induction false} JoystickClaimedIffAny(touches: seq<Touch>, k: nat)
    requires k <= |touches|
    ensures (exists i | 0 <= i < k :: ExpectedTag(touches, i) == JoystickTag) <==> AnyJoystick(touches, k)
  {
    if k > 0 {
      JoystickClaimedIffAny(touches, k - 1);
      if AnyJoystick(touches, k - 1) {
        var j :| 0 <= j < k - 1 && touches[j].inJoystick;
        assert touches[j].inJoystick;
      } else if touches[k - 1].inJoystick {
        assert ExpectedTag(touches, k - 1) == JoystickTag;
      } else {
        assert forall j | 0 <= j < k :: !touches[j].inJoystick;
      }
    }
  }

  lemma {:induction false} SwipeClaimedIffAny(touches: seq<Touch>, k: nat)
    requires k <= |touches|
    ensures (exists i | 0 <= i < k :: ExpectedTag(touches, i) == SwipeTag) <==> AnySwipe(touches, k)
  {
    if k > 0 {
      SwipeClaimedIffAny(touches, k - 1);
      if AnySwipe(touches, k - 1) {
        var j :| 0 <= j < k - 1 && SwipeEligible(touches[j]);
        assert SwipeEligible(touches[j]);
      } else if SwipeEligible(touches[k - 1]) {
        assert ExpectedTag(touches, k - 1) == SwipeTag;
      } else {
        assert forall j | 0 <= j < k :: !SwipeEligible(touches[j]);
      }
    }
  }

  /** The state after k passes of the assignment loop in MainGame mode. */
  predicate MainAssigned(r: State, touches: seq<Touch>, k: nat)
    requires k <= |touches|
  {
    |r.slots| == MaxTouchCount && k <= MaxTouchCount &&
    r.activeMask == MainGameMode &&
    (forall i | 0 <= i < k :: r.slots[i] == ExpectedTag(touches, i)) &&
    (forall i | k <= i < MaxTouchCount :: r.slots[i] == NoTag) &&
    r.touchMask == OrAll(r.slots[..k])
  }

  /** In MainAssigned states the mask's two bits say whether the regions have been claimed. */
  lemma MainAssignedMask(r: State, touches: seq<Touch>, k: nat)
    requires k <= |touches| && MainAssigned(r, touches, k)
    ensures HasBit(r.touchMask, JoystickTag) <==> AnyJoystick(touches, k)
    ensures HasBit(r.touchMask, SwipeTag) <==> AnySwipe(touches, k)
    ensures r.touchMask == 0 || r.touchMask == 1 || r.touchMask == 2 || r.touchMask == 3
  {
    var xs := r.slots[..k];
    assert forall i | 0 <= i < k :: xs[i] == ExpectedTag(touches, i);
    MainMaskBits(xs);
    JoystickClaimedIffAny(touches, k);
    SwipeClaimedIffAny(touches, k);
    assert (JoystickTag in xs) <==> exists i | 0 <= i < k :: ExpectedTag(touches, i) == JoystickTag;
    assert (SwipeTag in xs) <==> exists i | 0 <= i < k :: ExpectedTag(touches, i) == SwipeTag;
  }

  /** One pass of the loop keeps MainAssigned and binds touch k to its expected tag. */
  lemma MainAssignStep(r: State, touches: seq<Touch>, k: nat)
    requires k < |touches| && k < MaxTouchCount && MainAssigned(r, touches, k)
    ensures MainAssigned(AssignTouch(r, k, touches[k]), touches, k + 1)
    ensures AssignTouch(r, k, touches[k]).menu == r.menu
  {
    MainAssignedMask(r, touches, k);
    var r' := AssignTouch(r, k, touches[k]);
    assert r'.slots[..k] == r.slots[..k];
    assert r'.slots[k] == ExpectedTag(touches, k);
    OrAllSnoc(r'.slots, k + 1);
    if r'.slots[k] == NoTag {
      OrNoTag(r.touchMask);
    }
  }

  /** The whole assignment loop in MainGame mode, from the cleared slots. */
  lemma {:induction false} MainAssignUpTo(s0: State, touches: seq<Touch>, k: nat)
    requires k <= |touches| && k <= MaxTouchCount
    requires s0.slots == EmptySlots && s0.touchMask == NoTag && s0.activeMask == MainGameMode
    ensures MainAssigned(AssignUpTo(s0, touches, k), touches, k)
    ensures AssignUpTo(s0, touches, k).menu == s0.menu
  {
    if k > 0 {
      MainAssignUpTo(s0, touches, k - 1);
      MainAssignStep(AssignUpTo(s0, touches, k - 1), touches, k - 1);
    }
  }

  /** The joystick calls of the MainGame assignment loop after k passes: the joystick is pressed once, at the
      position of the touch that claims it, and not at all when no touch lies in its region. */
  lemma {:induction false} MainJoystickPressUpTo(s0: State, touches: seq<Touch>, k: nat)
    requires k <= |touches| && k <= MaxTouchCount
    requires s0.slots == EmptySlots && s0.touchMask == NoTag && s0.activeMask == MainGameMode
    ensures forall i | 0 <= i < k && ExpectedTag(touches, i) == JoystickTag ::
      AssignUpTo(s0, touches, k).log == s0.log + [JoystickPress(touches[i].pos)]
    ensures !AnyJoystick(touches, k) ==> AssignUpTo(s0, touches, k).log == s0.log
  {
    if k > 0 {
      MainJoystickPressUpTo(s0, touches, k - 1);
      MainAssignUpTo(s0, touches, k - 1);
      var r := AssignUpTo(s0, touches, k - 1);
      MainAssignedMask(r, touches, k - 1);
      var t := touches[k - 1];
      if AnyJoystick(touches, k - 1) {
        // the joystick is claimed already: this pass presses nothing
        assert AssignTouch(r, k - 1, t).log == r.log;
        assert ExpectedTag(touches, k - 1) != JoystickTag;
      } else {
        assert forall i | 0 <= i < k - 1 :: ExpectedTag(touches, i) != JoystickTag;
        if t.inJoystick {
          assert AssignTouch(r, k - 1, t).log == s0.log + [JoystickPress(t.pos)];
        } else {
          assert AssignTouch(r, k - 1, t).log == s0.log;
          assert !AnyJoystick(touches, k);
        }
      }
    }
  }

  /** Likewise the swipe tracker is pressed once, at the position of the touch that claims the swipe, and not at
      all when no touch may take the swipe. */
  lemma {:induction false} MainSwipePressUpTo(s0: State, touches: seq<Touch>, k: nat)
    requires k <= |touches| && k <= MaxTouchCount
    requires s0.slots == EmptySlots && s0.touchMask == NoTag && s0.activeMask == MainGameMode
    ensures forall i | 0 <= i < k && ExpectedTag(touches, i) == SwipeTag ::
      AssignUpTo(s0, touches, k).stroke == s0.stroke.Press(touches[i].pos)
    ensures !AnySwipe(touches, k) ==> AssignUpTo(s0, touches, k).stroke == s0.stroke
  {
    if k > 0 {
      MainSwipePressUpTo(s0, touches, k - 1);
      MainAssignUpTo(s0, touches, k - 1);
      var r := AssignUpTo(s0, touches, k - 1);
      MainAssignedMask(r, touches, k - 1);
      var t := touches[k - 1];
      if AnySwipe(touches, k - 1) {
        // the swipe is claimed already: this pass leaves the stroke alone
        assert AssignTouch(r, k - 1, t).stroke == r.stroke;
        assert ExpectedTag(touches, k - 1) != SwipeTag;
      } else {
        assert forall i | 0 <= i < k - 1 :: ExpectedTag(touches, i) != SwipeTag;
        if SwipeEligible(t) {
          assert AssignTouch(r, k - 1, t).stroke == s0.stroke.Press(t.pos);
        } else {
          assert AssignTouch(r, k - 1, t).stroke == s0.stroke;
          assert !AnySwipe(touches, k);
        }
      }
    }
  }

  // ---- slot assignment in SystemMenu mode -------------------------------------------------------------------

  /** onPress keeps a shown menu shown and its ids in place, and the pressed ids it reports form a menu slot. */
  lemma MenuPressStaysShown(m: Panel, inContinue: bool, inQuit: bool)
    requires ShownMenu(m)
    ensures ShownMenu(m.OnPress(inContinue, inQuit))
    ensures m.OnPress(inContinue, inQuit).componentId == m.componentId
    ensures MenuSlot(m.OnPress(inContinue, inQuit).PressedButtons(AllIds))
  {
    var m' := m.OnPress(inContinue, inQuit);
    PressReleaseStayWithinUpDown(m.cont, m.cont.id);
    PressReleaseStayWithinUpDown(m.quit, m.quit.id);
    assert m'.Ready();
    PressedButtonsIsDisjointOr(m', AllIds);
    assert ContinueId | QuitId == ContinueId + QuitId;
  }

  /** The state after k passes of the assignment loop in SystemMenu mode. */
  predicate MenuAssigned(r: State, k: nat)
  {
    |r.slots| == MaxTouchCount && k <= MaxTouchCount &&
    r.activeMask == SystemMenuTag && ShownMenu(r.menu) &&
    MenuSlots(r.slots[..k]) &&
    (forall i | k <= i < MaxTouchCount :: r.slots[i] == NoTag) &&
    r.touchMask == OrAll(r.slots[..k])
  }

  lemma MenuAssignStep(r: State, t: Touch, k: nat)
    requires k < MaxTouchCount && MenuAssigned(r, k)
    ensures MenuAssigned(AssignTouch(r, k, t), k + 1)
    ensures AssignTouch(r, k, t).menu.componentId == r.menu.componentId
    ensures AssignTouch(r, k, t).log == r.log && AssignTouch(r, k, t).stroke == r.stroke
  {
    var r' := AssignTouch(r, k, t);
    assert r'.slots[..k] == r.slots[..k];
    OrAllSnoc(r'.slots, k + 1);
    if t.inMenu {
      MenuPressStaysShown(r.menu, t.inContinue, t.inQuit);
    } else {
      OrNoTag(r.touchMask);
    }
    assert r'.slots[..k + 1] == r.slots[..k] + [r'.slots[k]];
  }

  lemma {:induction false} MenuAssignUpTo(s0: State, touches: seq<Touch>, k: nat)
    requires k <= |touches| && k <= MaxTouchCount
    requires s0.slots == EmptySlots && s0.touchMask == NoTag && s0.activeMask == SystemMenuTag
    requires ShownMenu(s0.menu)
    ensures MenuAssigned(AssignUpTo(s0, touches, k), k)
    ensures AssignUpTo(s0, touches, k).menu.componentId == s0.menu.componentId
    ensures AssignUpTo(s0, touches, k).log == s0.log && AssignUpTo(s0, touches, k).stroke == s0.stroke
  {
    if k > 0 {
      MenuAssignUpTo(s0, touches, k - 1);
      MenuAssignStep(AssignUpTo(s0, touches, k - 1), touches[k - 1], k - 1);
    }
  }

  // ---- updateTouchIndex -------------------------------------------------------------------------------------

  /** No two touches get the same region tag. */
  lemma ExpectedTagsUnique(touches: seq<Touch>, i: nat, j: nat)
    requires i < j < |touches|
    ensures ExpectedTag(touches, i) == ExpectedTag(touches, j) ==> ExpectedTag(touches, i) == NoTag
  {
    if ExpectedTag(touches, i) == JoystickTag {
      assert touches[i].inJoystick;
    } else if ExpectedTag(touches, i) == SwipeTag {
      assert SwipeEligible(touches[i]);
    }
  }

  /** A pass of the loop writes slot i only, so slots from k on are as before the loop. */
  lemma {:induction false} AssignUpToKeepsLaterSlots(s: State, touches: seq<Touch>, k: nat, i: nat)
    requires k <= |touches| && k <= i < |s.slots|
    ensures AssignUpTo(s, touches, k).slots[i] == s.slots[i]
  {
    if k > 0 {
      AssignUpToKeepsLaterSlots(s, touches, k - 1, i);
    }
  }

  /** After updateTouchIndex(count) the count is stored and the slots from count on hold None, in every mode. */
  lemma ReassignClearsBeyondCount(s: State, touches: seq<Touch>, count: nat)
    requires count <= MaxTouchCount && count <= |touches|
    ensures UpdateTouchIndex(s, touches, count).numTouches == count
    ensures forall i | count <= i < MaxTouchCount :: UpdateTouchIndex(s, touches, count).slots[i] == NoTag
  {
    forall i | count <= i < MaxTouchCount
      ensures UpdateTouchIndex(s, touches, count).slots[i] == NoTag
    {
      AssignUpToKeepsLaterSlots(Reset(s, count), touches, count, i);
    }
  }

  /** updateTouchIndex in MainGame mode binds touch i to ExpectedTag(touches, i): the first touch in the joystick
      region gets Joystick, the first touch in the swipe region and outside the joystick region gets Swipe, and
      every other slot (every slot from count on too) is None; a touch in the joystick region is never bound to
      the swipe. The touched-mask is the OR of the bound slots, and its bits say which regions were claimed.
      The menu is not touched. The touch that claims the joystick presses it, once, at its position, and the
      touch that claims the swipe starts the stroke at its position; nothing is pressed for an unclaimed
      region. */
  lemma MainAssignment(s: State, touches: seq<Touch>, count: nat)
    requires count <= MaxTouchCount && count <= |touches| && s.activeMask == MainGameMode
    ensures var r := UpdateTouchIndex(s, touches, count);
      (forall i | 0 <= i < count :: r.slots[i] == ExpectedTag(touches, i)) &&
      (forall i | count <= i < MaxTouchCount :: r.slots[i] == NoTag) &&
      (forall i | 0 <= i < MaxTouchCount :: MainSlot(r.slots[i])) &&
      (forall i | 0 <= i < count :: touches[i].inJoystick ==> r.slots[i] != SwipeTag) &&
      r.touchMask == OrAll(r.slots[..count]) &&
      (HasBit(r.touchMask, JoystickTag) <==> AnyJoystick(touches, count)) &&
      (HasBit(r.touchMask, SwipeTag) <==> AnySwipe(touches, count)) &&
      r.menu == s.menu
    ensures var r := UpdateTouchIndex(s, touches, count);
      (forall i | 0 <= i < count && ExpectedTag(touches, i) == JoystickTag ::
        r.log == s.log + [JoystickPress(touches[i].pos)]) &&
      (!AnyJoystick(touches, count) ==> r.log == s.log) &&
      (forall i | 0 <= i < count && ExpectedTag(touches, i) == SwipeTag ::
        r.stroke == s.stroke.Press(touches[i].pos)) &&
      (!AnySwipe(touches, count) ==> r.stroke == s.stroke)
  {
    MainJoystickPressUpTo(Reset(s, count), touches, count);
    MainSwipePressUpTo(Reset(s, count), touches, count);
    MainAssignUpTo(Reset(s, count), touches, count);
    MainAssignedMask(UpdateTouchIndex(s, touches, count), touches, count);
  }

  /** At most one touch is bound to each MainGame region. */
  lemma MainAssignmentBindsEachRegionOnce(s: State, touches: seq<Touch>, count: nat, i: nat, j: nat)
    requires count <= MaxTouchCount && count <= |touches| && s.activeMask == MainGameMode
    requires i < j < count
    ensures var r := UpdateTouchIndex(s, touches, count);
      r.slots[i] == r.slots[j] ==> r.slots[i] == NoTag
  {
    MainAssignment(s, touches, count);
    ExpectedTagsUnique(touches, i, j);
  }

  lemma UpdateTouchIndexKeepsInv(s: State, touches: seq<Touch>, count: nat)
    requires Inv(s) && count <= MaxTouchCount && count <= |touches|
    ensures Inv(UpdateTouchIndex(s, touches, count))
  {
    var r := UpdateTouchIndex(s, touches, count);
    if s.activeMask == MainGameMode {
      MainAssignUpTo(Reset(s, count), touches, count);
      var xs := r.slots[..count];
      forall i, j | 0 <= i < j < |xs|
        ensures xs[i] == xs[j] ==> xs[i] == NoTag
      {
        ExpectedTagsUnique(touches, i, j);
      }
    } else {
      MenuAssignUpTo(Reset(s, count), touches, count);
    }
  }

  // ---- updateTouchOnHold ------------------------------------------------------------------------------------

  /** No region tag occurs twice in the first k slots. */
  predicate UniqueBelow(slots: seq<bv32>, k: nat)
    requires k <= |slots|
  {
    forall i, j | 0 <= i < j < k :: slots[i] == slots[j] ==> slots[i] == NoTag
  }

  /** The hold loop in MainGame mode after k passes: the touch bound to the joystick (if any) has been held once,
      if the Joystick tag is in the touched-mask. */
  lemma {:induction false} HoldUpToJoystick(s: State, touches: seq<Touch>, k: nat)
    requires s.activeMask == MainGameMode && k <= |touches| && k <= |s.slots| && UniqueBelow(s.slots, k)
    ensures forall i | 0 <= i < k && s.slots[i] == JoystickTag ::
      HoldUpTo(s, touches, k).log ==
        s.log + (if HasBit(s.touchMask, JoystickTag) then [JoystickHold(touches[i].pos)] else [])
    ensures JoystickTag !in s.slots[..k] ==> HoldUpTo(s, touches, k).log == s.log
  {
    if k > 0 {
      HoldUpToJoystick(s, touches, k - 1);
      assert s.slots[..k] == s.slots[..k - 1] + [s.slots[k - 1]];
      if s.slots[k - 1] == JoystickTag {
        assert forall i | 0 <= i < k - 1 :: s.slots[i] != JoystickTag;
        assert JoystickTag !in s.slots[..k - 1];
      }
    }
  }

  /** Likewise the touch bound to the swipe has moved the stroke's end once, if the Swipe tag is in the mask. */
  lemma {:induction false} HoldUpToSwipe(s: State, touches: seq<Touch>, k: nat)
    requires s.activeMask == MainGameMode && k <= |touches| && k <= |s.slots| && UniqueBelow(s.slots, k)
    ensures forall i | 0 <= i < k && s.slots[i] == SwipeTag ::
      HoldUpTo(s, touches, k).stroke ==
        (if HasBit(s.touchMask, SwipeTag) then s.stroke.Hold(touches[i].pos) else s.stroke)
    ensures SwipeTag !in s.slots[..k] ==> HoldUpTo(s, touches, k).stroke == s.stroke
  {
    if k > 0 {
      HoldUpToSwipe(s, touches, k - 1);
      assert s.slots[..k] == s.slots[..k - 1] + [s.slots[k - 1]];
      if s.slots[k - 1] == SwipeTag {
        assert forall i | 0 <= i < k - 1 :: s.slots[i] != SwipeTag;
        assert SwipeTag !in s.slots[..k - 1];
      }
    }
  }

  /** updateTouchOnHold in MainGame mode, between frames: the joystick is held exactly once, at the position of
      the touch bound to it, if a touch is bound to it, and the swipe tracker follows the touch bound to the
      swipe in the same way; nothing but the log and the stroke changes. */
  lemma HoldPassMain(s: State, touches: seq<Touch>)
    requires Inv(s) && s.activeMask == MainGameMode && s.numTouches <= |touches|
    ensures HoldPass(s, touches) == s.(log := HoldPass(s, touches).log, stroke := HoldPass(s, touches).stroke)
    ensures forall i | 0 <= i < s.numTouches && s.slots[i] == JoystickTag ::
      HoldPass(s, touches).log == s.log + [JoystickHold(touches[i].pos)]
    ensures JoystickTag !in s.slots[..s.numTouches] ==> HoldPass(s, touches).log == s.log
    ensures forall i | 0 <= i < s.numTouches && s.slots[i] == SwipeTag ::
      HoldPass(s, touches).stroke == s.stroke.Hold(touches[i].pos)
    ensures SwipeTag !in s.slots[..s.numTouches] ==> HoldPass(s, touches).stroke == s.stroke
  {
    var n := s.numTouches;
    var xs := s.slots[..n];
    assert forall i | 0 <= i < n :: xs[i] == s.slots[i];
    MainMaskBits(xs);
    HoldUpToJoystick(s, touches, n);
    HoldUpToSwipe(s, touches, n);
  }

  /** Outside MainGame mode the hold pass does nothing at all. */
  lemma {:induction false} HoldUpToIdle(s: State, touches: seq<Touch>, k: nat)
    requires s.activeMask != MainGameMode && k <= |touches| && k <= |s.slots|
    ensures HoldUpTo(s, touches, k) == s
  {
    if k > 0 {
      HoldUpToIdle(s, touches, k - 1);
    }
  }

  // ---- interfaceSystemMenuOpen ------------------------------------------------------------------------------

  /** interfaceSystemMenuOpen alternates between MainGame and SystemMenu, so toggling twice restores the mode;
      each toggle clears the touched-mask and the touch count, leaves the slots as they were and calls nothing
      outside the model. */
  lemma ToggleAlternates(s: State)
    requires Inv(s)
    ensures Inv(Toggle(s))
    ensures Toggle(s).activeMask == if s.activeMask == MainGameMode then SystemMenuTag else MainGameMode
    ensures Toggle(Toggle(s)).activeMask == s.activeMask
    ensures Toggle(s).touchMask == NoTag && Toggle(s).numTouches == 0
    ensures Toggle(s).slots == s.slots && Toggle(s).log == s.log && Toggle(s).stroke == s.stroke
  {
    assert !HasBit(MainGameMode, SystemMenuTag);
    assert HasBit(SystemMenuTag, SystemMenuTag);
    assert Toggle(s).slots[..0] == [];
  }

  // ---- updateTouchOnRelease ---------------------------------------------------------------------------------

  /** How often e occurs in a log. */
  function Count(log: seq<Event>, e: Event): nat
  {
    if log == [] then 0 else (if log[0] == e then 1 else 0) + Count(log[1..], e)
  }

  /** How many swipe outputs a log records. */
  function SwipedCount(log: seq<Event>): nat
  {
    if log == [] then 0 else (if log[0].Swiped? then 1 else 0) + SwipedCount(log[1..])
  }

  lemma {:induction false} CountsOfConcat(a: seq<Event>, b: seq<Event>, e: Event)
    ensures Count(a + b, e) == Count(a, e) + Count(b, e)
    ensures SwipedCount(a + b) == SwipedCount(a) + SwipedCount(b)
  {
    if a == [] {
      assert a + b == b;
    } else {
      assert (a + b)[0] == a[0];
      assert (a + b)[1..] == a[1..] + b;
      CountsOfConcat(a[1..], b, e);
      assert Count(a + b, e) == (if a[0] == e then 1 else 0) + Count(a[1..] + b, e);
      assert SwipedCount(a + b) == (if a[0].Swiped? then 1 else 0) + SwipedCount(a[1..] + b);
    }
  }

  /** The events the swipe release appends: the output, then its action. */
  lemma SwipeReleaseEvents(dir: Swipes.Direction)
    ensures Count([Swiped(dir)] + SwipeAction(dir), JoystickRelease) == 0
    ensures SwipedCount([Swiped(dir)] + SwipeAction(dir)) == 1
    ensures QuitApp in [Swiped(dir)] + SwipeAction(dir) <==> dir == Swipes.Down
    ensures PlayerToOrigin in [Swiped(dir)] + SwipeAction(dir) <==> dir == Swipes.Tap
  {
    var es := [Swiped(dir)] + SwipeAction(dir);
    CountsOfConcat([Swiped(dir)], SwipeAction(dir), JoystickRelease);
    assert Count([Swiped(dir)], JoystickRelease) == 0 && SwipedCount([Swiped(dir)]) == 1;
    assert Count(SwipeAction(dir), JoystickRelease) == 0 && SwipedCount(SwipeAction(dir)) == 0;
  }

  /** The events the MainGame release pass appends: a joystick release and then a swipe release with its
      action, each exactly when its tag went away from a mask that went numerically down. */
  function MainReleaseLog(s: State, prev: bv32, distance: Float, angle: Float): seq<Event>
  {
    var dir := Swipes.Classify(s.tapDistance, distance, angle);
    var fired := Dropped(prev, s.touchMask);
    (if fired && Released(prev, s.touchMask, JoystickTag) then [JoystickRelease] else []) +
    (if fired && Released(prev, s.touchMask, SwipeTag) then [Swiped(dir)] + SwipeAction(dir) else [])
  }

  lemma MainReleaseShape(s: State, prev: bv32, distance: Float, angle: Float)
    requires s.activeMask == MainGameMode
    ensures ReleasePass(s, prev, distance, angle) ==
      s.(log := s.log + MainReleaseLog(s, prev, distance, angle),
         stroke := if Dropped(prev, s.touchMask) && Released(prev, s.touchMask, SwipeTag) then Swipes.Cleared else s.stroke)
  {
    if Dropped(prev, s.touchMask) {
      var s1 := if Released(prev, s.touchMask, JoystickTag) then s.(log := s.log + [JoystickRelease]) else s;
      assert ReleasePass(s, prev, distance, angle) ==
        if Released(prev, s.touchMask, SwipeTag) then SwipeRelease(s1, distance, angle) else s1;
    } else {
      assert MainReleaseLog(s, prev, distance, angle) == [];
    }
  }

  /** updateTouchOnRelease in MainGame mode. The joystick is released (once) exactly when the touched-mask went
      numerically down and the Joystick tag was in the previous mask and is not in the current one; the swipe
      likewise, and its release clears the stroke and records the classified output (Down quits the
      application, Tap puts the player at the origin). Only the log and the stroke change, and the log only
      grows. */
  lemma MainReleaseEvents(s: State, prev: bv32, distance: Float, angle: Float)
    requires s.activeMask == MainGameMode
    ensures var r := ReleasePass(s, prev, distance, angle);
      var fired := Dropped(prev, s.touchMask);
      var added := r.log[|s.log|..];
      r == s.(log := r.log, stroke := r.stroke) && r.log[..|s.log|] == s.log &&
      Count(added, JoystickRelease) == (if fired && Released(prev, s.touchMask, JoystickTag) then 1 else 0) &&
      SwipedCount(added) == (if fired && Released(prev, s.touchMask, SwipeTag) then 1 else 0) &&
      (fired && Released(prev, s.touchMask, SwipeTag) ==>
        r.stroke == Swipes.Cleared && Swiped(Swipes.Classify(s.tapDistance, distance, angle)) in added &&
        (QuitApp in added <==> Swipes.Classify(s.tapDistance, distance, angle) == Swipes.Down)) &&
      (!(fired && Released(prev, s.touchMask, SwipeTag)) ==> r.stroke == s.stroke && QuitApp !in added)
  {
    MainReleaseShape(s, prev, distance, angle);
    var r := ReleasePass(s, prev, distance, angle);
    var dir := Swipes.Classify(s.tapDistance, distance, angle);
    SwipeReleaseEvents(dir);
    var fired := Dropped(prev, s.touchMask);
    var jr := fired && Released(prev, s.touchMask, JoystickTag);
    var sr := fired && Released(prev, s.touchMask, SwipeTag);
    var j: seq<Event> := if jr then [JoystickRelease] else [];
    var w: seq<Event> := if sr then [Swiped(dir)] + SwipeAction(dir) else [];
    assert MainReleaseLog(s, prev, distance, angle) == j + w;
    assert r.log == s.log + (j + w);
    assert r.log[|s.log|..] == j + w;
    assert r.log[..|s.log|] == s.log;
    CountsOfConcat(j, w, JoystickRelease);
  }

  /** In SystemMenu mode a Continue id that left the touched-mask (with the mask going numerically down) releases
      the menu and toggles back to MainGame: the menu is hidden, the touched-mask and count are cleared, and
      nothing is logged. */
  lemma ContinueReleaseClosesMenu(s: State, prev: bv32, distance: Float, angle: Float)
    requires Inv(s) && s.activeMask == SystemMenuTag
    requires Dropped(prev, s.touchMask) && Released(prev, s.touchMask, ContinueId)
    ensures var r := ReleasePass(s, prev, distance, angle);
      Inv(r) && r.activeMask == MainGameMode && HiddenMenu(r.menu) &&
      r.touchMask == NoTag && r.numTouches == 0 &&
      r.slots == s.slots && r.log == s.log && r.stroke == s.stroke
  {
    var s1 := s.(menu := s.menu.OnRelease().0);
    OnReleaseReportsPressedAndClears(s.menu);
    assert HasBit(SystemMenuTag, SystemMenuTag);
    assert ReleasePass(s, prev, distance, angle) == Toggle(s1);
    assert Toggle(s1).slots[..0] == [];
  }

  /** Any other SystemMenu-mode release does nothing; in particular a Quit id leaving the mask quits nothing. */
  lemma OtherMenuReleasesAreIdle(s: State, prev: bv32, distance: Float, angle: Float)
    requires s.activeMask == SystemMenuTag
    requires !(Dropped(prev, s.touchMask) && Released(prev, s.touchMask, ContinueId))
    ensures ReleasePass(s, prev, distance, angle) == s
  {
    if Dropped(prev, s.touchMask) {
      assert !Released(prev, s.touchMask, ContinueId);
    }
  }

  lemma ReleasePassKeepsInv(s: State, prev: bv32, distance: Float, angle: Float)
    requires Inv(s)
    ensures Inv(ReleasePass(s, prev, distance, angle))
  {
    if s.activeMask == MainGameMode {
      MainReleaseEvents(s, prev, distance, angle);
    } else if Dropped(prev, s.touchMask) && Released(prev, s.touchMask, ContinueId) {
      ContinueReleaseClosesMenu(s, prev, distance, angle);
    } else {
      OtherMenuReleasesAreIdle(s, prev, distance, angle);
    }
  }

  // ---- Start and Update -------------------------------------------------------------------------------------

  /** Start leaves the handler in MainGame mode with the menu hidden, no touch bound, and the player put at the
      origin; the invariant holds from the first frame on. */
  lemma StartSatisfiesInv(tapDistance: real)
    ensures var s := Start(Initial(tapDistance));
      Inv(s) && s.activeMask == MainGameMode && HiddenMenu(s.menu) && s.touchMask == NoTag &&
      s.log == [PlayerToOrigin] && s.stroke == Swipes.Cleared && s.tapDistance == tapDistance
  {
    assert Start(Initial(tapDistance)).slots[..0] == [];
  }

  /** Every frame keeps the invariant: the touched-mask stays the OR of the bound slots, each MainGame region is
      bound to at most one touch, and the menu is shown exactly in SystemMenu mode. */
  lemma StepPreservesInv(s: State, f: Frame)
    requires Inv(s)
    ensures Inv(Step(s, f))
  {
    if f.escape {
      ToggleAlternates(s);
    } else {
      var count := Clamp(|f.touches|);
      var s1 := if count != s.numTouches then UpdateTouchIndex(s, f.touches, count) else s;
      if count != s.numTouches {
        UpdateTouchIndexKeepsInv(s, f.touches, count);
      }
      var s2 := HoldPass(s1, f.touches);
      assert s2 == s1.(log := s2.log, stroke := s2.stroke);
      ReleasePassKeepsInv(s2, s.touchMask, f.swipeDistance, f.swipeAngle);
    }
  }

  /** Escape toggles the menu and nothing else runs that frame: no touch is assigned, held or released, the
      slots, the log and the stroke are kept, and the touched-mask and count are cleared. */
  lemma EscapeOnlyToggles(s: State, f: Frame)
    requires Inv(s) && f.escape
    ensures var r := Step(s, f);
      Inv(r) && r.activeMask == (if s.activeMask == MainGameMode then SystemMenuTag else MainGameMode) &&
      r.slots == s.slots && r.log == s.log && r.stroke == s.stroke &&
      r.touchMask == NoTag && r.numTouches == 0
  {
    ToggleAlternates(s);
  }

  /** When the clamped touch count is what it was, the slots are not reassigned and the touched-mask does not
      change, so no release can fire: the frame only holds, and only the log and the stroke change. */
  lemma SameCountOnlyHolds(s: State, f: Frame)
    requires Inv(s) && !f.escape && Clamp(|f.touches|) == s.numTouches
    ensures Step(s, f) == HoldPass(s, f.touches)
    ensures Step(s, f) == s.(log := Step(s, f).log, stroke := Step(s, f).stroke)
  {
    var s2 := HoldPass(s, f.touches);
    assert s2.touchMask == s.touchMask;
    assert !Dropped(s.touchMask, s2.touchMask);
  }

  /** While the menu is open the handler calls nothing outside the model and leaves the swipe tracker alone: a
      frame in SystemMenu mode keeps the log and the stroke, whatever it presses or releases. In particular the
      menu's Quit button never quits the application. */
  lemma MenuModeIsSilent(s: State, f: Frame)
    requires Inv(s) && s.activeMask == SystemMenuTag
    ensures Step(s, f).log == s.log && Step(s, f).stroke == s.stroke
  {
    if f.escape {
      ToggleAlternates(s);
    } else {
      var count := Clamp(|f.touches|);
      var s1 := if count != s.numTouches then UpdateTouchIndex(s, f.touches, count) else s;
      if count != s.numTouches {
        MenuAssignUpTo(Reset(s, count), f.touches, count);
        UpdateTouchIndexKeepsInv(s, f.touches, count);
      }
      HoldUpToIdle(s1, f.touches, s1.numTouches);
      if Dropped(s.touchMask, s1.touchMask) && Released(s.touchMask, s1.touchMask, ContinueId) {
        ContinueReleaseClosesMenu(s1, s.touchMask, f.swipeDistance, f.swipeAngle);
      } else {
        OtherMenuReleasesAreIdle(s1, s.touchMask, f.swipeDistance, f.swipeAngle);
      }
    }
  }

  /** The release guard compares the masks as numbers, so a release that comes with a new touch in a region with
      a higher tag is missed: with the joystick held (mask Joystick), a frame whose two touches are both in the
      swipe region rebinds the first to the swipe, the Joystick tag leaves the mask, but the new mask (Swipe) is
      not below the old one and the joystick is never released. */
  lemma MissedJoystickRelease(tapDistance: real, p: Vec2, q: Vec2, d: Float, a: Float)
    ensures var s := State([JoystickTag, NoTag, NoTag, NoTag, NoTag, NoTag, NoTag, NoTag, NoTag, NoTag],
                           JoystickTag, MainGameMode, 1, Start(Initial(tapDistance)).menu, Swipes.Cleared, tapDistance, []);
      var t := Touch(p, false, true, false, false, false);
      var u := Touch(q, false, true, false, false, false);
      var r := Step(s, Frame([t, u], false, d, a));
      Inv(s) && Released(s.touchMask, r.touchMask, JoystickTag) && r.touchMask == SwipeTag &&
      r.slots[0] == SwipeTag && r.log == [] && JoystickRelease !in r.log
  {
    var s := State([JoystickTag, NoTag, NoTag, NoTag, NoTag, NoTag, NoTag, NoTag, NoTag, NoTag],
                   JoystickTag, MainGameMode, 1, Start(Initial(tapDistance)).menu, Swipes.Cleared, tapDistance, []);
    var t := Touch(p, false, true, false, false, false);
    var u := Touch(q, false, true, false, false, false);
    assert s.slots[..1] == [JoystickTag];
    assert OrAll([JoystickTag]) == Or(OrAll([]), JoystickTag);
    var s0 := Reset(s, 2);
    var s1 := AssignTouch(s0, 0, t);
    assert !HasBit(NoTag, SwipeTag) && Or(NoTag, SwipeTag) == SwipeTag;
    assert s1.touchMask == SwipeTag && s1.slots[0] == SwipeTag;
    assert HasBit(SwipeTag, SwipeTag);
    var s2 := AssignTouch(s1, 1, u);
    assert s2 == s1;
    assert AssignUpTo(s0, [t, u], 1) == s1;
    assert UpdateTouchIndex(s, [t, u], 2) == s2;
    var s3 := HoldTouch(s2, 0, t);
    assert s3 == s2.(stroke := s2.stroke.Hold(p));
    assert HoldUpTo(s2, [t, u], 1) == s3;
    assert HoldTouch(s3, 1, u) == s3;
    assert HoldPass(s2, [t, u]) == s3;
    assert !Dropped(JoystickTag, SwipeTag);
    assert Step(s, Frame([t, u], false, d, a)) == s3;
    assert !HasBit(SwipeTag, JoystickTag) && HasBit(JoystickTag, JoystickTag);
  }

  /** Escape while the joystick is held clears the touched-mask without releasing it, and once the menu is open
      a frame without touches does not release it either: the joystick is left held. */
  lemma EscapeDropsHeldJoystick(s: State, d: Float, a: Float)
    requires Inv(s) && s.activeMask == MainGameMode
    ensures var t := Step(s, Frame([], true, d, a));
      var u := Step(t, Frame([], false, d, a));
      t.log == s.log && u.log == s.log && u.activeMask == SystemMenuTag && !HasBit(u.touchMask, JoystickTag)
  {
    var t := Step(s, Frame([], true, d, a));
    EscapeOnlyToggles(s, Frame([], true, d, a));
    MenuModeIsSilent(t, Frame([], false, d, a));
    SameCountOnlyHolds(t, Frame([], false, d, a));
    assert !HasBit(NoTag, JoystickTag);
  }
}
