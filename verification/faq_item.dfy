/**
  The per-FAQ inline mode machine: viewing, editing with a draft, and
  confirming a delete. Every FAQ row owns one such state independently of
  the others.
 */
module FaqItem {
  import opened Faqs

  /** `isEditing`, the two draft fields, and `isDeleting`. */
  datatype ItemState = ItemState(editing: bool, draftQuestion: string, draftAnswer: string, deleting: bool)

  /** What the row renders. */
  datatype Screen = Showing | Editing | ConfirmingDelete

  /** The buttons of the row, across its three screens. */
  datatype Button = Edit | Delete | Save | CancelEdit | ConfirmDelete | CancelDelete

  /** A freshly mounted row: viewing, with the draft holding the record's values. */
  function Mount(faq: Faq): (st: ItemState)
    ensures !st.editing && !st.deleting
    ensures st.draftQuestion == faq.question && st.draftAnswer == faq.answer
  {
    ItemState(false, faq.question, faq.answer, false)
  }

  /** The delete confirmation is checked first, so it wins over edit mode. */
  function ScreenOf(st: ItemState): (s: Screen)
    ensures st.deleting ==> s == ConfirmingDelete
    ensures s == Editing <==> st.editing && !st.deleting
    ensures s == Showing <==> !st.editing && !st.deleting
  {
    if st.deleting then ConfirmingDelete
    else if st.editing then Editing
    else Showing
  }

  /** Is `b` rendered on screen `s`? */
  predicate OnScreen(s: Screen, b: Button) {
    match s
    case Showing => b == Edit || b == Delete
    case Editing => b == Save || b == CancelEdit
    case ConfirmingDelete => b == ConfirmDelete || b == CancelDelete
  }

  /**
    Pressing button `b` of the row showing `faq`. For Save and Confirm
    Delete, `succeeded` tells whether the awaited controller call resolved
    (true) or threw (false); other buttons ignore it. A button that is not on
    the current screen cannot be pressed and changes nothing.
   */
  function Press(st: ItemState, faq: Faq, b: Button, succeeded: bool): (r: ItemState)
    ensures !OnScreen(ScreenOf(st), b) ==> r == st
    ensures b == CancelEdit && OnScreen(ScreenOf(st), b) ==>
      r == st.(editing := false, draftQuestion := faq.question, draftAnswer := faq.answer)
    ensures b == Save && OnScreen(ScreenOf(st), b) ==>
      r == st.(editing := !succeeded)
    ensures b == ConfirmDelete && OnScreen(ScreenOf(st), b) ==> r == st.(deleting := false)
    ensures b == CancelDelete && OnScreen(ScreenOf(st), b) ==> r == st.(deleting := false)
    ensures b == Edit && OnScreen(ScreenOf(st), b) ==> r == st.(editing := true)
    ensures b == Delete && OnScreen(ScreenOf(st), b) ==> r == st.(deleting := true)
  {
    if !OnScreen(ScreenOf(st), b) then st
    else match b
      case Edit => st.(editing := true)
      case Delete => st.(deleting := true)
      case Save => if succeeded then st.(editing := false) else st
      case CancelEdit => st.(draftQuestion := faq.question, draftAnswer := faq.answer, editing := false)
      case ConfirmDelete => st.(deleting := false)
      case CancelDelete => st.(deleting := false)
  }

  /** At most one of the two modes is on: the three screens are exclusive. */
  ghost predicate Exclusive(st: ItemState) {
    !(st.editing && st.deleting)
  }

  /**
    Starting from a mounted row, no sequence of presses turns both modes on:
    edit and delete can only be entered from the plain view.
   */
  lemma PressKeepsModesExclusive(st: ItemState, faq: Faq, b: Button, succeeded: bool)
    requires Exclusive(st)
    ensures Exclusive(Press(st, faq, b, succeeded))
  {
  }

  /**
    Whatever the outcome of the delete request, confirming a delete leaves
    the confirmation screen; the row returns to the plain view (and, on
    success, disappears with its record).
   */
  lemma ConfirmDeleteAlwaysReturnsToView(st: ItemState, faq: Faq, succeeded: bool)
    requires ScreenOf(st) == ConfirmingDelete && Exclusive(st)
    ensures ScreenOf(Press(st, faq, ConfirmDelete, succeeded)) == Showing
  {
  }

  /** Cancelling an edit discards the draft: re-entering edit mode shows the record's values. */
  lemma CancelThenEditShowsRecord(st: ItemState, faq: Faq, succeeded: bool)
    requires ScreenOf(st) == Editing
    ensures var r := Press(Press(st, faq, CancelEdit, succeeded), faq, Edit, succeeded);
      ScreenOf(r) == Editing && r.draftQuestion == faq.question && r.draftAnswer == faq.answer
  {
  }
}
