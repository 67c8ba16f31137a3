/** Byte strings. */
module Bytes {

  newtype byte = x: int | 0 <= x < 256

  /** The bytes of ASCII text. */
  function Ascii(s: string): (r: seq<byte>)
    ensures |r| == |s|
  {
    seq(|s|, i requires 0 <= i < |s| => (s[i] as int % 256) as byte)
  }

  const CR: byte := 13
  const LF: byte := 10
  const DASH: byte := 45
  const QUOTE: byte := 34
  const BACKSLASH: byte := 92
  const SPACE: byte := 32
  const TAB: byte := 9
  const UNDERSCORE: byte := 95
}
