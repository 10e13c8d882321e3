/** Bytes, and fixed-width unsigned integers in either byte order. */
module Bytes {
  type byte = b: int | 0 <= b < 256

  /** What two bytes say, the most significant first. */
  function BigEndian16(b0: int, b1: int): int {
    0x100 * b0 + b1
  }

  /** What four bytes say, the most significant first. */
  function BigEndian32(b0: int, b1: int, b2: int, b3: int): int {
    0x100_0000 * b0 + 0x1_0000 * b1 + 0x100 * b2 + b3
  }

  function Read16(little: bool, b0: byte, b1: byte): (n: nat)
    ensures n < 0x1_0000
  {
    if little then 256 * b1 + b0 else 256 * b0 + b1
  }

  function Read32(little: bool, b0: byte, b1: byte, b2: byte, b3: byte): (n: nat)
    ensures n < 0x1_0000_0000
  {
    if little then 0x1_0000 * Read16(little, b2, b3) + Read16(little, b0, b1)
    else 0x1_0000 * Read16(little, b0, b1) + Read16(little, b2, b3)
  }

  function Write16(little: bool, n: nat): (s: seq<byte>)
    requires n < 0x1_0000
    ensures |s| == 2 && Read16(little, s[0], s[1]) == n
  {
    if little then [n % 256, n / 256] else [n / 256, n % 256]
  }

  function Write32(little: bool, n: nat): (s: seq<byte>)
    requires n < 0x1_0000_0000
    ensures |s| == 4 && Read32(little, s[0], s[1], s[2], s[3]) == n
  {
    var hi, lo := Write16(little, n / 0x1_0000), Write16(little, n % 0x1_0000);
    if little then lo + hi else hi + lo
  }
}
