/**
 Two places where the driver's code does not do what its comments and its
 checks evidently mean, each as a pair: a lemma about the code as written
 that exhibits the gap on a concrete input, and a corrected definition with
 the intended property proved about it.

 1. The length adjustment after `MMIO_SET_RANGE` is meant to extend the
    length to full pages but adds the remainder instead of rounding up.
 2. The end-of-window check of `mmap` compares two wrapping sums, so a
    request that ends exactly at the top of the 64-bit address space passes
    all three bound checks whatever the configured window is.
 */
module Findings {
  import opened Words
  import opened Errors
  import opened Hwio

  // ---------------------------------------------------------------------
  // 1. Extending the length to full pages
  // ---------------------------------------------------------------------

  /** The adjusted length is a page multiple only when the supplied length
      was one, or was half a page past one; every other length stays
      unaligned, wrap-around or not. */
  lemma ExtendToPagesAlignsOnlyHalfPages(length: U64)
    ensures ExtendToPages(length) % PAGE_SIZE == 0 <==>
              length % PAGE_SIZE == 0 || length % PAGE_SIZE == PAGE_SIZE / 2
  {
  }

  /** As written: a one-byte range becomes two bytes long, which is not a
      page multiple, and a range at 0x1000 of one byte then refuses the
      one-page mapping the configuration was meant to allow. */
  lemma ExtendToPagesIsNotARoundUp()
    ensures ExtendToPages(1) == 2
    ensures ExtendToPages(1) % PAGE_SIZE != 0
    ensures Ioctl(Unset, MMIO_SET_RANGE, Copied(MmioRange(0x1000, 1))).range == MmioRange(0x1000, 2)
    ensures Mmap(MmioRange(0x1000, 2), Vma(0x10_0000, 0x10_1000, 1), Permissive).status == Err(EPERM)
  {
  }

  /** `PAGE_ALIGN(length)`: the length rounded up to the next page multiple,
      `(length + PAGE_SIZE - 1) & PAGE_MASK` in 64-bit arithmetic. The
      result is always a page multiple, and below the last page of the
      address space it is the least page multiple not below `length`. */
  function RoundUpToPages(length: U64): (r: U64)
    ensures r % PAGE_SIZE == 0
    ensures length % PAGE_SIZE == 0 ==> r == length
    ensures length <= TWO_64 - PAGE_SIZE ==> length <= r < length + PAGE_SIZE
    ensures length <= TWO_64 - PAGE_SIZE ==>
              forall m: nat :: length <= m * PAGE_SIZE ==> r <= m * PAGE_SIZE
  {
    var bumped := Add64(length, PAGE_SIZE - 1);
    var r := bumped / PAGE_SIZE * PAGE_SIZE;
    assert TWO_64 == PAGE_SIZE * 0x10_0000_0000_0000;
    r
  }

  /** `ioctl_hwio` with the length rounded up to full pages: refuses exactly
      what the driver refuses, and on success stores the copied base and a
      page-multiple length that covers the copied one. */
  function IoctlRoundingUp(s: MmioRange, cmd: U32, arg: UserCopy): (r: IoctlResult)
    ensures r.status == Ioctl(s, cmd, arg).status
    ensures r.status != Ok ==> r.range == s
    ensures r.status == Ok ==> r.range.phys == arg.range.phys && r.range.length % PAGE_SIZE == 0
    ensures r.status == Ok && arg.range.length <= TWO_64 - PAGE_SIZE ==>
              arg.range.length <= r.range.length < arg.range.length + PAGE_SIZE
  {
    var res := Ioctl(s, cmd, arg);
    if res.status == Ok then IoctlResult(Ok, MmioRange(arg.range.phys, RoundUpToPages(arg.range.length)))
    else res
  }

  /** Corrected: the one-byte range at 0x1000 becomes one page long, and the
      one-page mapping of it succeeds on a permissive platform. */
  lemma RoundUpAllowsWholePage()
    ensures IoctlRoundingUp(Unset, MMIO_SET_RANGE, Copied(MmioRange(0x1000, 1))).range
              == MmioRange(0x1000, 0x1000)
    ensures Mmap(MmioRange(0x1000, 0x1000), Vma(0x10_0000, 0x10_1000, 1), Permissive).status == Ok
  {
  }

  /** Corrected, for every input: configuring a page-aligned base with any
      non-empty length below the last page whose rounded window does not
      wrap stores the base and the rounded length, and the mapping of exactly
      that window succeeds on a permissive platform. */
  lemma RoundedWindowIsMappable(base: U64, length: U64, vma: Vma)
    requires base % PAGE_SIZE == 0
    requires 0 < length <= TWO_64 - PAGE_SIZE
    requires base + RoundUpToPages(length) < TWO_64
    requires vma.pgoff == base / PAGE_SIZE
    requires vma.start <= vma.end && vma.end - vma.start == RoundUpToPages(length)
    ensures IoctlRoundingUp(Unset, MMIO_SET_RANGE, Copied(MmioRange(base, length))).range
              == MmioRange(base, RoundUpToPages(length))
    ensures MmapChecked(MmioRange(base, RoundUpToPages(length)), vma, Permissive).status == Ok
  {
    assert PhysOffset(vma) == base;
  }

  // ---------------------------------------------------------------------
  // 2. A request ending at the top of the address space
  // ---------------------------------------------------------------------

  /** As written: with the window `[0x1000, 0x3000)` configured, a one-page
      request at page offset 2^52 - 1 (physical `[2^64 - 0x1000, 2^64)`)
      passes every bound check, because its end wraps to 0; on a permissive
      platform it is mapped although it lies wholly outside the window. */
  lemma TopPageEscapesBoundChecks()
    ensures Ioctl(Unset, MMIO_SET_RANGE, Copied(MmioRange(0x1000, 0x2000))).range
              == MmioRange(0x1000, 0x2000)
    ensures PhysOffset(Vma(0x10_0000, 0x10_1000, 0xF_FFFF_FFFF_FFFF)) == TWO_64 - 0x1000
    ensures Mmap(MmioRange(0x1000, 0x2000), Vma(0x10_0000, 0x10_1000, 0xF_FFFF_FFFF_FFFF), Permissive).status == Ok
  {
  }

  /** `mmap_hwio` with the end-of-window test done without wrapping: once
      the size fits the length and the offset is at or above the base, the
      request is refused with EPERM when `offset - phys > length - size`,
      where neither subtraction can borrow. Every other step is the driver's.
      A success now always means the mapped window lies inside the
      configured one; it only ever refuses more than the driver, and it
      agrees with the driver whenever neither end wraps. */
  function MmapChecked(s: MmioRange, vma: Vma, p: Platform): (r: MmapResult)
    ensures r.status == Ok ==>
              && MappedSize(vma) <= s.length
              && s.phys <= PhysOffset(vma)
              && PhysOffset(vma) + MappedSize(vma) <= s.phys + s.length
    ensures r.status == Ok ==> Mmap(s, vma, p).status == Ok
    ensures PhysOffset(vma) + MappedSize(vma) < TWO_64 && s.phys + s.length < TWO_64 ==>
              r == Mmap(s, vma, p)
  {
    var size := MappedSize(vma);
    var offset := PhysOffset(vma);
    if size <= s.length && s.phys <= offset && offset - s.phys > s.length - size then
      Refuse(EndsInWindow)
    else
      Mmap(s, vma, p)
  }

  /** Corrected: the same top-page request is refused at the end-of-window
      check. */
  lemma TopPageRefusedWhenChecked()
    ensures MmapChecked(MmioRange(0x1000, 0x2000), Vma(0x10_0000, 0x10_1000, 0xF_FFFF_FFFF_FFFF), Permissive)
              == MmapResult(Err(EPERM), false)
  {
  }
}
