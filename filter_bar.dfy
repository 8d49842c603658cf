/**
 * The filter bar (ui/CharacterFilterBar.kt): four status chips that each
 * emit a fixed status value, a chip being selected when the current status
 * equals its value exactly, and a clear button for the name field.
 */
module CharacterFilterBar {
  import opened Wrappers

  /** The chips, in the order the bar shows them. */
  datatype Chip = All | Alive | Dead | Unknown

  const Chips: seq<Chip> := [All, Alive, Dead, Unknown]

  /** The label each chip displays. */
  function Label(c: Chip): (text: string)
    ensures text == "Todos" <==> c == All
  {
    match c
    case All => "Todos"
    case Alive => "Vivo"
    case Dead => "Muerto"
    case Unknown => "Desconocido"
  }

  /** The status a chip emits when clicked: none for "Todos". */
  function Value(c: Chip): (v: Option<string>)
    ensures v.None? <==> c == All
  {
    match c
    case All => None
    case Alive => Some("Alive")
    case Dead => Some("Dead")
    case Unknown => Some("unknown")
  }

  /** A chip is drawn selected when the current status equals its value, case included. */
  predicate Selected(c: Chip, status: Option<string>) {
    status == Value(c)
  }

  /** Clicking a chip selects that chip and no other. */
  lemma ClickSelectsExactly(c: Chip, d: Chip)
    ensures Selected(d, Value(c)) <==> d == c
  {
  }

  /** The chips drawn selected for a status. */
  function SelectedChips(status: Option<string>): (r: set<Chip>)
    ensures |r| <= 1
    ensures r == {} <==> status !in {None, Some("Alive"), Some("Dead"), Some("unknown")}
    ensures All in r <==> status.None?
    ensures forall c :: c in r <==> Selected(c, status)
  {
    var r := set c | c in Chips && Selected(c, status);
    assert forall c :: c in r <==> status == Value(c);
    if status == None then
      assert r == {All};
      r
    else if status == Some("Alive") then
      assert r == {Alive};
      r
    else if status == Some("Dead") then
      assert r == {Dead};
      r
    else if status == Some("unknown") then
      assert r == {Unknown};
      r
    else
      assert r == {};
      r
  }

  /** "alive" in lower case is not one of the chip values, so no chip is drawn selected. */
  lemma LowercaseAliveSelectsNone()
    ensures SelectedChips(Some("alive")) == {}
  {
  }

  /** The clear button is shown only when the name is not empty. */
  predicate ClearButtonShown(name: string) {
    |name| > 0
  }

  /**
   * The name field after a click on the clear button: the button is only
   * there to click when the name is not empty, and it sets the name to "".
   */
  function ClearName(name: string): (cleared: string)
    requires ClearButtonShown(name)
    ensures cleared == [] && !ClearButtonShown(cleared)
  {
    ""
  }
}
