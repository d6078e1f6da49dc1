/** Constants of the Shunn manuscript format (src/constants.rs). */
module Constants {

  /** Font size in half-points, as docx expects it (24 half-points is 12pt). */
  const FONT_SIZE: nat := 24

  const DEFAULT_FONT: string := "Courier New"

  /** The fonts a manuscript may be rendered in; the first one is the default. */
  const FONTS: seq<string> := ["Courier New", "Times New Roman"]
}
