/** GuiButton.cs: a button whose state is a uint (ENUMbuttonState) and whose press and release are guarded by
    an id bitmask check. */
module Buttons {

  // ENUMbuttonState
  const Hidden: bv32 := 0
  const Up: bv32 := 1
  const Down: bv32 := 2
  const Disabled: bv32 := 4

  /** The id guard of press, release and getIsPressed: flags holds every bit of the button's id. */
  predicate Covers(flags: bv32, id: bv32)
  {
    flags & id == id
  }

  /** The part of a button the touch logic sees: its id and its state. */
  datatype Button = Button(id: bv32, state: bv32)
  {
    /** press: Up -> Down under the id guard, answering the id; otherwise no change and 0. */
    function Press(flags: bv32): (r: (Button, bv32))
      ensures r.0.id == id && (r.1 == 0 || r.1 == id)
      ensures r.0.state == state || (state == Up && r.0.state == Down)
    {
      if state != Up || !Covers(flags, id) then (this, 0)
      else (this.(state := Down), id)
    }

    /** release: Down -> Up under the id guard, answering the id; otherwise no change and 0. */
    function Release(flags: bv32): (r: (Button, bv32))
      ensures r.0.id == id && (r.1 == 0 || r.1 == id)
      ensures r.0.state == state || (state == Down && r.0.state == Up)
    {
      if state != Down || !Covers(flags, id) then (this, 0)
      else (this.(state := Up), id)
    }

    /** getIsPressed: the id when Down and covered by flags, else 0. */
    function IsPressed(flags: bv32): (r: bv32)
      ensures r == 0 || r == id
      ensures r != 0 ==> state == Down
    {
      if state != Down || !Covers(flags, id) then 0 else id
    }
  }

  /** press changes the button exactly when it is Up and flags cover its id; then it is Down and answers its id,
      otherwise it is unchanged and answers 0. The id never changes. */
  lemma PressChangesOnlyUpAndCovered(b: Button, flags: bv32)
    ensures b.Press(flags).0.id == b.id
    ensures b.Press(flags).0 != b <==> b.state == Up && Covers(flags, b.id)
    ensures b.Press(flags).0 != b ==> b.Press(flags).0.state == Down && b.Press(flags).1 == b.id
    ensures b.Press(flags).0 == b ==> b.Press(flags).1 == 0
  {
  }

  /** Pressing a Down, Hidden or Disabled button does nothing. */
  lemma PressIsNoOpUnlessUp(b: Button, flags: bv32)
    requires b.state != Up
    ensures b.Press(flags) == (b, 0)
  {
  }

  /** release is the mirror image of press. */
  lemma ReleaseChangesOnlyDownAndCovered(b: Button, flags: bv32)
    ensures b.Release(flags).0.id == b.id
    ensures b.Release(flags).0 != b <==> b.state == Down && Covers(flags, b.id)
    ensures b.Release(flags).0 != b ==> b.Release(flags).0.state == Up && b.Release(flags).1 == b.id
    ensures b.Release(flags).0 == b ==> b.Release(flags).1 == 0
  {
  }

  /** From Up, a covered press followed by a covered release restores the button; both answer its id. */
  lemma PressThenReleaseRestores(b: Button, flags: bv32)
    requires b.state == Up && Covers(flags, b.id)
    ensures b.Press(flags).1 == b.id
    ensures b.Press(flags).0.Release(flags) == (b, b.id)
  {
  }

  /** From Down, a covered release followed by a covered press restores the button. */
  lemma ReleaseThenPressRestores(b: Button, flags: bv32)
    requires b.state == Down && Covers(flags, b.id)
    ensures b.Release(flags).1 == b.id
    ensures b.Release(flags).0.Press(flags) == (b, b.id)
  {
  }

  /** getIsPressed answers nothing but 0 or the id, the id only for a Down button; a successful press makes it
      answer the id and any release with the same flags makes it answer 0. */
  lemma IsPressedTracksPressAndRelease(b: Button, flags: bv32)
    ensures b.IsPressed(flags) != 0 ==> b.state == Down && b.IsPressed(flags) == b.id
    ensures b.state == Up && Covers(flags, b.id) ==> b.Press(flags).0.IsPressed(flags) == b.id
    ensures b.Release(flags).0.IsPressed(flags) == 0
  {
  }

  /** With id 0 the guard always passes, and a press that succeeds answers the same 0 as one that fails. */
  lemma ZeroIdAnswersZero(b: Button, flags: bv32)
    requires b.id == 0
    ensures Covers(flags, b.id)
    ensures b.Press(flags).1 == 0 && b.Release(flags).1 == 0 && b.IsPressed(flags) == 0
    ensures b.state == Up ==> b.Press(flags).0.state == Down
  {
  }

  /** press and release only move between Up and Down: Hidden and Disabled can only be set by init or setState. */
  lemma PressReleaseStayWithinUpDown(b: Button, flags: bv32)
    ensures b.state == Up || b.state == Down ==>
      b.Press(flags).0.state in {Up, Down} && b.Release(flags).0.state in {Up, Down}
    ensures b.state != Up && b.state != Down ==>
      b.Press(flags).0 == b && b.Release(flags).0 == b
  {
  }

  class GuiButton {
    var id: bv32
    var state: bv32

    /** A fresh button holds the field defaults m_buttonId = 0 and m_state = 0 (Hidden). */
    constructor ()
      ensures Value() == Button(0, Hidden)
    {
      id, state := 0, Hidden;
    }

    function Value(): Button
      reads this
    {
      Button(id, state)
    }

    /** init: store the id, then setState. */
    method Init(newId: bv32, newState: bv32)
      modifies this
      ensures Value() == Button(newId, newState)
    {
      id := newId;
      SetState(newState);
    }

    /** setState: any uint is stored; only the sprite choice (not modelled) depends on it. */
    method SetState(newState: bv32)
      modifies this
      ensures Value() == old(Value()).(state := newState)
    {
      state := newState;
    }

    method Press(flags: bv32) returns (r: bv32)
      modifies this
      ensures (Value(), r) == old(Value()).Press(flags)
    {
      if state != Up || flags & id != id {
        return 0;
      }
      state := Down;
      r := id;
    }

    method Release(flags: bv32) returns (r: bv32)
      modifies this
      ensures (Value(), r) == old(Value()).Release(flags)
    {
      if state != Down || flags & id != id {
        return 0;
      }
      state := Up;
      r := id;
    }

    method GetIsPressed(flags: bv32) returns (r: bv32)
      ensures r == Value().IsPressed(flags)
    {
      if state != Down || flags & id != id {
        return 0;
      }
      r := id;
    }

    method GetId() returns (r: bv32)
      ensures r == id
    {
      r := id;
    }
  }
}
