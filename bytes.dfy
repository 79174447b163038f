/** Bytes as the editor stores them, and the key codes it dispatches on. */
module Bytes {
  /** One stored byte (a C `char`); a key read from the terminal is one byte too. */
  newtype byte = b: int | 0 <= b < 0x100

  /** ENTER, and the byte that separates lines in a file (main.c:27). */
  const LF: byte := 10
  /** ESCAPE (main.c:28). */
  const ESC: byte := 27
  /** BSPACE, the byte a terminal sends for backspace (main.c:29). */
  const DEL: byte := 127
  /** Padding byte of the viewport, and the lowest byte Insert mode types. */
  const SPACE: byte := 32
  /** The quit key: the input loop stops on it before any dispatch (main.c:433). */
  const QUIT: byte := 'q' as byte

  /** True when `s` holds no line separator. */
  predicate NoLF(s: seq<byte>) {
    LF !in s
  }

  /** The bytes of an ASCII string, as the editor stores them. */
  function Ascii(s: string): (r: seq<byte>)
    requires forall i :: 0 <= i < |s| ==> s[i] as int < 0x100
    ensures |r| == |s| && forall i :: 0 <= i < |s| ==> r[i] as int == s[i] as int
  {
    if s == [] then [] else [s[0] as int as byte] + Ascii(s[1..])
  }
}
