/**
  The per-question inline mode machine: viewing, showing the convert form,
  and confirming a delete.
 */
module QuestionItem {

  /** `isConverting` and `isDeleting`. */
  datatype ItemState = ItemState(converting: bool, deleting: bool)

  datatype Screen = Showing | Converting | ConfirmingDelete

  /** Convert and Delete on the plain view, Cancel on the convert form, Confirm/Cancel on the delete prompt. */
  datatype Button = Convert | Delete | CancelConvert | ConfirmDelete | CancelDelete

  /** A freshly mounted row: neither the convert form nor the delete prompt is open. */
  function Mounted(): (st: ItemState)
    ensures !st.converting && !st.deleting
  {
    ItemState(false, false)
  }

  /** The convert form is checked first, so it wins over the delete prompt. */
  function ScreenOf(st: ItemState): (s: Screen)
    ensures st.converting ==> s == Converting
    ensures s == ConfirmingDelete <==> st.deleting && !st.converting
    ensures s == Showing <==> !st.converting && !st.deleting
  {
    if st.converting then Converting
    else if st.deleting then ConfirmingDelete
    else Showing
  }

  predicate OnScreen(s: Screen, b: Button) {
    match s
    case Showing => b == Convert || b == Delete
    case Converting => b == CancelConvert
    case ConfirmingDelete => b == ConfirmDelete || b == CancelDelete
  }

  /**
    Pressing button `b`; a button not on the current screen changes
    nothing. Confirming a delete clears the prompt whether the request
    succeeded or threw (the `finally` of `handleDelete`), so the outcome is
    not a parameter. Submitting the convert form does not change the row's
    modes: on success the row is removed with its question.
   */
  function Press(st: ItemState, b: Button): (r: ItemState)
    ensures !OnScreen(ScreenOf(st), b) ==> r == st
    ensures OnScreen(ScreenOf(st), b) && (b == ConfirmDelete || b == CancelDelete) ==> r == st.(deleting := false)
    ensures OnScreen(ScreenOf(st), b) && b == CancelConvert ==> r == st.(converting := false)
    ensures OnScreen(ScreenOf(st), b) && b == Convert ==> r == st.(converting := true)
    ensures OnScreen(ScreenOf(st), b) && b == Delete ==> r == st.(deleting := true)
  {
    if !OnScreen(ScreenOf(st), b) then st
    else match b
      case Convert => st.(converting := true)
      case Delete => st.(deleting := true)
      case CancelConvert => st.(converting := false)
      case ConfirmDelete => st.(deleting := false)
      case CancelDelete => st.(deleting := false)
  }

  ghost predicate Exclusive(st: ItemState) {
    !(st.converting && st.deleting)
  }

  /** Both modes are only entered from the plain view, so they never overlap. */
  lemma PressKeepsModesExclusive(st: ItemState, b: Button)
    requires Exclusive(st)
    ensures Exclusive(Press(st, b))
  {
  }

  /** Every active screen leads back to the plain view with one press. */
  lemma EveryModeCanReturn(st: ItemState)
    requires Exclusive(st) && ScreenOf(st) != Showing
    ensures ScreenOf(Press(st, if st.converting then CancelConvert else CancelDelete)) == Showing
    ensures st.deleting ==> ScreenOf(Press(st, ConfirmDelete)) == Showing
  {
  }
}
