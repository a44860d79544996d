/** Bytes as the log file holds them, and the two control bytes that
    delimit lines. */
module Bytes {

  newtype Byte = x: int | 0 <= x < 256

  /** Line feed, the byte that ends a line. */
  const LF: Byte := 10

  /** Carriage return, dropped when it comes just before a line feed. */
  const CR: Byte := 13

  /** The bytes of an ASCII text, one byte per character. */
  function Ascii(s: string): (b: seq<Byte>)
    requires forall i :: 0 <= i < |s| ==> s[i] as int < 128
    ensures |b| == |s|
    ensures forall i :: 0 <= i < |s| ==> b[i] as int == s[i] as int
  {
    seq(|s|, i requires 0 <= i < |s| => s[i] as int as Byte)
  }
}
