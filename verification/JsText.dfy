/** Strings as JavaScript has them: sequences of 16-bit code units, not of characters. */
module JsText {
  type Unit = u: int | 0 <= u < 0x1_0000

  type Units = seq<Unit>
}
