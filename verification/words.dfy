/**
 Fixed-width unsigned machine words and the page geometry of the platform.

 The driver runs on a 64-bit kernel: `unsigned long`, `size_t` and
 `phys_addr_t` are all 64 bits wide, and every `+`, `-` and `<<` on them
 wraps modulo 2^64. Dafny's integers are unbounded, so each wrapping
 operation is written out here once and used everywhere else.
 */
module Words {

  const TWO_32: int := 0x1_0000_0000
  const TWO_64: int := 0x1_0000_0000_0000_0000

  /** `unsigned int`, the type of an ioctl command number. */
  type U32 = x: int | 0 <= x < TWO_32

  /** `unsigned long`, `size_t` and `phys_addr_t` on a 64-bit kernel. */
  type U64 = x: int | 0 <= x < TWO_64

  /** PAGE_SIZE of a 4 KiB-page platform, `1 << PAGE_SHIFT` with a
      PAGE_SHIFT of 12. */
  const PAGE_SIZE: nat := 4096

  /** `a + b` on 64-bit unsigned words. A sum that wraps is smaller than
      either operand, which is what the source's overflow checks rely on. */
  function Add64(a: U64, b: U64): (r: U64)
    ensures a + b < TWO_64 ==> r == a + b
    ensures a + b >= TWO_64 ==> r == a + b - TWO_64 && r < a && r < b
  {
    (a + b) % TWO_64
  }

  /** `a - b` on 64-bit unsigned words: borrows wrap to the top of the range. */
  function Sub64(a: U64, b: U64): (r: U64)
    ensures b <= a ==> r == a - b
    ensures a < b ==> r == a - b + TWO_64 && r > a
  {
    (a - b) % TWO_64
  }

  /** `(phys_addr_t)pgoff << PAGE_SHIFT`: the physical byte offset of a page
      number. Bits shifted out of the top are lost, and the result is always
      page-aligned. */
  function PageOffset(pgoff: U64): (r: U64)
    ensures r % PAGE_SIZE == 0
    ensures pgoff * PAGE_SIZE < TWO_64 ==> r == pgoff * PAGE_SIZE
    ensures pgoff * PAGE_SIZE >= TWO_64 ==> r < pgoff * PAGE_SIZE
  {
    ModOfPageMultiple(pgoff);
    (pgoff * PAGE_SIZE) % TWO_64
  }

  /** Reducing a page multiple modulo 2^64 keeps it a page multiple, since
      2^64 is itself one. */
  lemma ModOfPageMultiple(k: nat)
    ensures ((k * PAGE_SIZE) % TWO_64) % PAGE_SIZE == 0
  {
    var q := (k * PAGE_SIZE) / TWO_64;
    var m := (k * PAGE_SIZE) % TWO_64;
    assert k * PAGE_SIZE == q * TWO_64 + m;
    assert TWO_64 == PAGE_SIZE * 0x10_0000_0000_0000;
    assert m == (k - q * 0x10_0000_0000_0000) * PAGE_SIZE;
  }
}
