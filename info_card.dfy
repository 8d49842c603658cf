/**
 * The decisions of the character card (ui/CharacterInfoCard.kt): the colour
 * of the status dot and which information rows the card shows. Colours are
 * 32-bit ARGB values as written in the source.
 */
module CharacterInfoCard {
  import opened Text
  import opened Model

  /** A colour as `0xAARRGGBB`. */
  type Argb = n: int | 0 <= n < 0x1_0000_0000

  /** The palette of the card. */
  const PortalGreen: Argb := 0xFF97CE4C
  const DarkBlue: Argb := 0xFF24325F
  const LightBlue: Argb := 0xFF00B5CC
  const Yellow: Argb := 0xFFF0E14A
  const BackgroundDark: Argb := 0xFF262C3A

  /** The dot colours for a dead character and for any other status. */
  const DeadRed: Argb := 0xFFF44336
  const UnknownGrey: Argb := 0xFF9E9E9E

  /**
   * `getStatusColor`: green for "alive", red for "dead" and grey for
   * anything else, comparing the lower-cased status.
   */
  function StatusColor(status: string): (c: Argb)
    ensures c == PortalGreen <==> Lowercase(status) == "alive"
    ensures c == DeadRed <==> Lowercase(status) == "dead"
    ensures c == UnknownGrey <==> Lowercase(status) != "alive" && Lowercase(status) != "dead"
  {
    match Lowercase(status)
    case "alive" => PortalGreen
    case "dead" => DeadRed
    case _ => UnknownGrey
  }

  /** The colour depends on the status only up to case. */
  lemma StatusColorIgnoresCase(status: string)
    ensures StatusColor(Lowercase(status)) == StatusColor(status)
  {
    LowercaseIdempotent(status);
  }

  /** The status values the API sends, in any capitalisation, and the empty status. */
  lemma StatusColorExamples()
    ensures StatusColor("Alive") == PortalGreen && StatusColor("ALIVE") == PortalGreen
    ensures StatusColor("Dead") == DeadRed
    ensures StatusColor("unknown") == UnknownGrey && StatusColor("") == UnknownGrey
  {
    LowercaseAt("Alive");
    assert Lowercase("Alive") == "alive";
    LowercaseAt("ALIVE");
    assert Lowercase("ALIVE") == "alive";
    LowercaseAt("Dead");
    assert Lowercase("Dead") == "dead";
  }

  /** One labelled row of the lower half of the card. */
  datatype InfoRow = InfoRow(title: string, value: string, color: Argb)

  const OriginTitle := "Origen:"
  const LocationTitle := "Ubicaci\U{00F3}n:"
  const TypeTitle := "Tipo:"

  /** The rows of the card: origin and location always, the type only when it is not empty. */
  function InfoRows(c: Character): (rows: seq<InfoRow>)
    ensures |rows| == if c.kind != "" then 3 else 2
    ensures rows[0] == InfoRow(OriginTitle, c.origin.name, PortalGreen)
    ensures rows[1] == InfoRow(LocationTitle, c.location.name, LightBlue)
    ensures (exists i :: 0 <= i < |rows| && rows[i].title == TypeTitle) <==> c.kind != ""
    ensures forall i :: 0 <= i < |rows| && rows[i].title == TypeTitle ==> rows[i] == InfoRow(TypeTitle, c.kind, Yellow)
  {
    var always := [InfoRow(OriginTitle, c.origin.name, PortalGreen), InfoRow(LocationTitle, c.location.name, LightBlue)];
    if c.kind != "" then
      var rows := always + [InfoRow(TypeTitle, c.kind, Yellow)];
      assert rows[2].title == TypeTitle;
      rows
    else
      always
  }
}
