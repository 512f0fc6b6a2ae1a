/**
 * Shared vocabulary of the battery-monitor model: optional values, the
 * 16-bit register quantity, byte/word packing and the byte swap `rev16`
 * of include/BatMan.h.
 */
module Common {

  datatype Option<T> = None | Some(value: T)

  /** An unsigned 16-bit value as held in the firmware's `uint16_t` stores. */
  type u16 = x: int | 0 <= x < 0x1_0000

  /** A byte of a received frame, as the firmware's `uint8_t` buffer holds it. */
  type byte = x: int | 0 <= x < 0x100

  /** Raw value the chain returns for a field it could not sample. */
  const Sentinel: u16 := 0xFFFF

  /** The 16-bit word whose high byte is `hi` and low byte is `lo`. */
  function WordOf(hi: byte, lo: byte): (w: u16)
    ensures w / 256 == hi && w % 256 == lo
  {
    hi * 256 + lo
  }

  /** The high byte of a stored word. */
  function Hi(w: u16): byte
  {
    w / 256
  }

  /** The low byte of a stored word. */
  function Lo(w: u16): byte
  {
    w % 256
  }

  /** Splitting a word into bytes and packing them again is the identity, and so is the converse. */
  lemma WordOfSplit(w: u16, hi: byte, lo: byte)
    ensures WordOf(Hi(w), Lo(w)) == w
    ensures Hi(WordOf(hi, lo)) == hi && Lo(WordOf(hi, lo)) == lo
  {
  }

  /** A word built from two bytes is the sentinel exactly when both bytes are 0xFF. */
  lemma WordOfSentinel(hi: byte, lo: byte)
    ensures WordOf(hi, lo) == Sentinel <==> hi == 0xFF && lo == 0xFF
  {
  }

  /** Most significant byte of a bus word, as the receive loop stores it first. */
  function HighByte(w: bv16): (b: bv8)
    ensures b as bv16 == w >> 8
  {
    (w >> 8) as bv8
  }

  /** Least significant byte of a bus word. */
  function LowByte(w: bv16): (b: bv8)
    ensures b as bv16 == w & 0xFF
  {
    (w & 0xFF) as bv8
  }

  /** rev16: exchanges the two bytes of a 16-bit word. */
  function Rev16(x: u16): u16
  {
    (x % 256) * 256 + x / 256
  }

  /** rev16 of a word assembled from two bytes is the word assembled the other way round. */
  lemma Rev16OfWord(hi: byte, lo: byte)
    ensures Rev16(WordOf(hi, lo)) == WordOf(lo, hi)
  {
  }

  /** Swapping twice restores the word. */
  lemma Rev16Involution(x: u16)
    ensures Rev16(Rev16(x)) == x
  {
    var hi, lo := x / 256, x % 256;
    var y := Rev16(x);
    assert y == lo * 256 + hi;
    assert y / 256 == lo && y % 256 == hi;
  }

  /** Only the all-one word swaps to the sentinel, so the sentinel test does not depend on byte order. */
  lemma Rev16Sentinel(x: u16)
    ensures Rev16(x) == Sentinel <==> x == Sentinel
    ensures Rev16(0) == 0
  {
    Rev16Involution(x);
  }

  /** One binary digit as a bit pattern. */
  function Digit(d: int): bv8
  {
    if d % 2 == 1 then 1 else 0
  }

  /** The low n binary digits of b as a bit pattern. */
  function Digits(b: nat, n: nat): bv8
    decreases n
  {
    if n == 0 then 0 else (Digits(b / 2, n - 1) << 1) | Digit(b)
  }

  /** The bit pattern of a byte, as the firmware passes `uint8_t` values to the CRC routines. */
  function ByteBits(b: byte): bv8
  {
    Digits(b, 8)
  }
}
