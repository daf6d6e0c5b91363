/**
 * The cancel flag of the `fconx` crate (`Canceller`): a boolean that starts false and is
 * set once, when the one-shot sender is consumed by `cancel`. Nothing ever clears it.
 */
module Cancellation {

  class Canceller {
    var isCancel: bool
    /** The one-shot sender has been taken (`cancel_send` holds `None`). */
    var senderTaken: bool

    /** The flag is set exactly when the sender has been consumed. */
    predicate Valid()
      reads this
    {
      isCancel == senderTaken
    }

    /** `Canceller::new`: not cancelled, sender still available. */
    constructor ()
      ensures Valid() && !isCancel && !senderTaken
    {
      isCancel := false;
      senderTaken := false;
    }

    /** `is_cancel`: reads the flag and changes nothing. */
    method IsCancel() returns (b: bool)
      ensures b == isCancel
    {
      b := isCancel;
    }

    /**
     * `cancel`: takes the sender and sets the flag. Taking it a second time unwraps
     * `None` and panics, hence the precondition.
     */
    method Cancel()
      requires Valid() && !senderTaken
      modifies this
      ensures Valid() && isCancel && senderTaken
    {
      senderTaken := true;
      isCancel := true;
    }
  }

  /**
   * The Ctrl-C handler between two worker steps: when the signal has arrived and the
   * sender is still there, it cancels once. The flag only ever goes from false to true.
   */
  method Interrupt(c: Canceller, arrives: bool)
    requires c.Valid()
    modifies c
    ensures c.Valid()
    ensures c.isCancel == (old(c.isCancel) || arrives)
    ensures old(c.isCancel) ==> c.isCancel
  {
    if arrives && !c.senderTaken {
      c.Cancel();
    }
  }
}
