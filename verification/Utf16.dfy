/** Strings of JavaScript and Java: sequences of UTF-16 code units. */
module Utf16 {
  type CodeUnit = u: int | 0 <= u < 0x1_0000
  type Text = seq<CodeUnit>
}
