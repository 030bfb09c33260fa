/** Unsigned 32-bit machine words, with the wrap-around of the C++ `uint32_t` written out. */
module Words {
  const TWO_32 := 0x1_0000_0000
  const PAGE := 0x1000

  type uint32 = x: int | 0 <= x < TWO_32
  type byte = x: int | 0 <= x < 256

  function Wrap(x: int): uint32 { x % TWO_32 }

  // `x & 0xFFFFF000`
  function PageMask(x: int): int { x - x % PAGE }

  // The code's way of rounding up to a page: the mask tests the page number, not the offset in the
  // page, so an address that is already aligned still moves up by a page.
  function RoundUp(x: nat): (r: int)
    ensures x >= PAGE ==> r % PAGE == 0 && x < r <= x + PAGE
    ensures x < PAGE ==> r == x
  {
    if PageMask(x) != 0 then PageMask(x) + PAGE else x
  }
}
