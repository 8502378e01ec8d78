/**
  The category picker shared by the "Add FAQ" form and the "Convert to FAQ"
  form: a select over the known categories plus a "+ New Category" option
  that reveals a free-text name field.
 */
module Forms {
  import opened Faqs

  /** The option value that stands for "+ New Category". */
  const NewCategoryOption := "__new__"

  /**
    `selected` is the category chosen in the select, `isNew` whether the
    "+ New Category" option is chosen, `newName` the typed new name.
   */
  datatype CategoryChoice = CategoryChoice(selected: string, isNew: bool, newName: string)

  /** `useState(categories[0] || 'general')` with the new-name field closed and empty. */
  function InitialChoice(categories: seq<string>): (ch: CategoryChoice)
    ensures !ch.isNew && ch.newName == "" && ch.selected != ""
    ensures |categories| > 0 && categories[0] != "" ==> ch.selected == categories[0]
    ensures (|categories| == 0 || categories[0] == "") ==> ch.selected == General
  {
    var first := if |categories| > 0 then categories[0] else "";
    CategoryChoice(if first != "" then first else General, false, "")
  }

  /**
    The select's `onChange`: choosing "+ New Category" opens an empty name
    field and keeps the previous selection in the background; choosing a
    category closes the field and keeps the typed name.
   */
  function Select(ch: CategoryChoice, value: string): (r: CategoryChoice)
    ensures r.isNew <==> value == NewCategoryOption
    ensures r.isNew ==> r.newName == "" && r.selected == ch.selected
    ensures !r.isNew ==> r.selected == value && r.newName == ch.newName
  {
    if value == NewCategoryOption then ch.(isNew := true, newName := "")
    else ch.(isNew := false, selected := value)
  }

  /** Typing into the new-category name field. */
  function TypeNewName(ch: CategoryChoice, name: string): (r: CategoryChoice)
    ensures r.newName == name
    ensures r.selected == ch.selected && r.isNew == ch.isNew
  {
    ch.(newName := name)
  }

  /** `isNewCategory ? newCategoryName : category`. */
  function FinalCategory(ch: CategoryChoice): (c: string)
    ensures ch.isNew ==> c == ch.newName
    ensures !ch.isNew ==> c == ch.selected
  {
    if ch.isNew then ch.newName else ch.selected
  }

  /**
    Whatever was chosen before, picking an existing category makes it the
    final one, and picking "+ New Category" then typing a name makes that
    name the final one.
   */
  lemma FinalCategoryFollowsLastPick(ch: CategoryChoice, value: string, name: string)
    ensures value != NewCategoryOption ==> FinalCategory(Select(ch, value)) == value
    ensures FinalCategory(TypeNewName(Select(ch, NewCategoryOption), name)) == name
  {
  }
}
