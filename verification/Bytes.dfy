/** Two-byte numbers in the compiled pattern: STORE_NUMBER and EXTRACT_NUMBER. */
module Bytes {

  type byte = x: int | 0 <= x < 256

  const MIN_NUMBER := -0x8000
  const MAX_NUMBER := 0x7FFF

  // The low byte holds `number & 0377`, the high byte the truncated `number >> 8`.
  function Lo(number: int): byte { number % 256 }

  function Hi(number: int): byte { (number / 256) % 256 }

  function Num(number: int): seq<byte> { [Lo(number), Hi(number)] }

  // SIGN_EXTEND_CHAR on the high byte.
  function SignExtend(x: byte): int { if x < 128 then x else x - 256 }

  function Extract(lo: byte, hi: byte): int { lo + SignExtend(hi) * 256 }

  ghost predicate InNumberRange(number: int) { MIN_NUMBER <= number <= MAX_NUMBER }

  /** A number survives the two bytes exactly when it fits sixteen signed bits. */
  lemma NumberRoundTrip(number: int)
    ensures Extract(Lo(number), Hi(number)) == number <==> InNumberRange(number)
  {
    assert number == 256 * (number / 256) + number % 256;
    var h := number / 256;
    if -128 <= h < 0 {
      assert h % 256 == h + 256;
    } else if 0 <= h < 128 {
      assert h % 256 == h;
    }
  }

  // The number whose two bytes stand at index k.
  function NumAt(s: seq<byte>, k: nat): int
    requires k + 1 < |s|
  {
    Extract(s[k], s[k + 1])
  }
}
