/** Source files as byte strings, and text as characters. */
module SourceText {
  type Byte = b: int | 0 <= b < 256
  type Source = seq<Byte>

  type Text = seq<char>
}
