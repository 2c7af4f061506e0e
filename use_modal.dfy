/**
 * The `useModal` hook: one boolean, `isOpen`, that starts false and that
 * four handlers overwrite.
 */
module UseModal {

  class Modal {
    var isOpen: bool

    constructor ()
      ensures !isOpen
    {
      isOpen := false;
    }

    method Open()
      modifies this
      ensures isOpen
    {
      isOpen := true;
    }

    method Close()
      modifies this
      ensures !isOpen
    {
      isOpen := false;
    }

    method Toggle()
      modifies this
      ensures isOpen == !old(isOpen)
    {
      isOpen := !isOpen;
    }

    method OnOpenChange(open: bool)
      modifies this
      ensures isOpen == open
    {
      isOpen := open;
    }
  }

  /** Toggling twice restores whatever state the modal was in. */
  method ToggleTwiceRestores(initial: bool) returns (after: bool)
    ensures after == initial
  {
    var modal := new Modal();
    modal.OnOpenChange(initial);
    modal.Toggle();
    modal.Toggle();
    after := modal.isOpen;
  }

  /** From any state, opening gives an open modal and closing then gives a closed one. */
  method OpenThenClose(initial: bool) returns (afterOpen: bool, afterClose: bool)
    ensures afterOpen && !afterClose
  {
    var modal := new Modal();
    modal.OnOpenChange(initial);
    modal.Open();
    afterOpen := modal.isOpen;
    modal.Close();
    afterClose := modal.isOpen;
  }
}
