/**
 * The confirmation dialog in front of deck deletion: the Delete button works only once the deck's name has been
 * typed exactly, and while the request is out the dialog can be neither closed nor edited.
 */
module DeleteDeckDialog {

  /**
   * The mounted dialog: its props, its three state variables, and the number of delete requests sent and not
   * yet answered. The request itself goes to the delete-deck action; its answer comes back through
   * `DeleteSettled`.
   */
  class Dialog {
    const deckId: int
    const deckName: string
    var open: bool
    var confirmText: string
    var isDeleting: bool
    var pending: nat

    /** At most one request is out, and while it is the dialog shows that it is deleting. */
    ghost predicate AtMostOneRequest()
      reads this
    {
      pending <= 1 && (pending == 1 ==> isDeleting)
    }

    /** `isDeleteEnabled`: the typed text is the deck's name, character for character. */
    predicate IsDeleteEnabled(): (b: bool)
      reads this
      ensures b <==> |confirmText| == |deckName| && forall i :: 0 <= i < |deckName| ==> confirmText[i] == deckName[i]
    {
      confirmText == deckName
    }

    constructor (id: int, name: string)
      ensures deckId == id && deckName == name
      ensures !open && confirmText == "" && !isDeleting && pending == 0
      ensures AtMostOneRequest()
    {
      deckId, deckName := id, name;
      open, confirmText, isDeleting, pending := false, "", false, 0;
    }

    /**
     * `handleDelete`, up to the awaited request: nothing unless the name matches; otherwise it marks the dialog
     * as deleting and sends one request. It does not itself look at `isDeleting`.
     */
    method HandleDelete() returns (sent: bool)
      modifies this
      ensures sent <==> old(confirmText) == deckName
      ensures !sent ==> unchanged(this)
      ensures sent ==> isDeleting && pending == old(pending) + 1
      ensures open == old(open) && confirmText == old(confirmText)
    {
      if !IsDeleteEnabled() {
        return false;
      }
      isDeleting := true;
      pending := pending + 1;
      sent := true;
    }

    /**
     * The rest of `handleDelete`, once the request is answered: success closes the dialog (it stays marked as
     * deleting, and the page navigates away); failure re-enables it, still open and with the text kept.
     */
    method DeleteSettled(succeeded: bool)
      requires pending > 0
      modifies this
      ensures pending == old(pending) - 1 && confirmText == old(confirmText)
      ensures succeeded ==> !open && isDeleting == old(isDeleting)
      ensures !succeeded ==> !isDeleting && open == old(open)
      ensures old(AtMostOneRequest()) ==> AtMostOneRequest() && pending == 0
    {
      pending := pending - 1;
      if succeeded {
        open := false;
      } else {
        isDeleting := false;
      }
    }

    /** `handleOpenChange`: ignored while deleting; closing also clears the typed text. */
    method HandleOpenChange(newOpen: bool)
      modifies this
      ensures old(isDeleting) ==> unchanged(this)
      ensures !old(isDeleting) ==>
        && open == newOpen
        && confirmText == (if newOpen then old(confirmText) else "")
        && isDeleting == old(isDeleting) && pending == old(pending)
    {
      if !isDeleting {
        open := newOpen;
        if !newOpen {
          confirmText := "";
        }
      }
    }

    /** Typing in the confirmation field, which exists only while the dialog is open and is disabled while deleting. */
    method OnConfirmInput(value: string)
      modifies this
      ensures old(open) && !old(isDeleting) ==> confirmText == value
      ensures !(old(open) && !old(isDeleting)) ==> confirmText == old(confirmText)
      ensures open == old(open) && isDeleting == old(isDeleting) && pending == old(pending)
    {
      if open && !isDeleting {
        confirmText := value;
      }
    }

    /** The Delete button, disabled unless the name matches and while deleting: it never sends a second request. */
    method OnDeleteClick() returns (sent: bool)
      requires AtMostOneRequest()
      modifies this
      ensures AtMostOneRequest()
      ensures sent <==> old(open) && old(confirmText) == deckName && !old(isDeleting)
      ensures !sent ==> unchanged(this)
      ensures sent ==> isDeleting && pending == 1 && open && confirmText == deckName
    {
      if open && IsDeleteEnabled() && !isDeleting {
        sent := HandleDelete();
      } else {
        sent := false;
      }
    }

    /** The Cancel button, disabled while deleting; Escape and a click outside ask the same `onOpenChange(false)`. */
    method OnCancel()
      requires AtMostOneRequest()
      modifies this
      ensures AtMostOneRequest()
      ensures old(isDeleting) ==> unchanged(this)
      ensures !old(isDeleting) ==> !open && confirmText == "" && !isDeleting && pending == old(pending)
    {
      if !isDeleting {
        HandleOpenChange(false);
      }
    }
  }
}
