/**
 The per-open-file state machine of the `hwio` misc device.

 Each open file carries one memory-range record `{phys, length}`. `Open`
 creates it zeroed behind a capability gate, `Ioctl` configures it once with
 `MMIO_SET_RANGE`, and `Mmap` maps a sub-window of it into the caller's
 address space after an ordered chain of checks. Every operation is a pure
 function from the record and its inputs to a status and the new record.

 What the kernel and the platform decide (the CAP_SYS_RAWIO check, the
 user copy, the `mem_arch.h` predicates and `remap_pfn_range`) enters as
 inputs: a boolean, a `UserCopy`, and the function fields of `Platform`.
 */
module Hwio {
  import opened Words
  import opened Errors

  /** `mmio_range_t`: the configured physical base and length in bytes. */
  datatype MmioRange = MmioRange(phys: U64, length: U64)

  /** The record `Open` stores: nothing configured yet. */
  const Unset: MmioRange := MmioRange(0, 0)

  /** The driver's only notion of "configured": some field is non-zero.
      A record that was set to `{0, 0}` is indistinguishable from a new one. */
  predicate Configured(r: MmioRange) {
    r.phys != 0 || r.length != 0
  }

  /** `file->private_data`: whether the open file holds a record. */
  datatype Handle = NoSession | Session(range: MmioRange)

  // ---------------------------------------------------------------------
  // open
  // ---------------------------------------------------------------------

  datatype OpenResult = OpenResult(status: Status, handle: Handle)

  /** `open_hwio`. `capable` is the answer of `capable(CAP_SYS_RAWIO)`.
      The source does not check the allocation for NULL; the model assumes
      it succeeds. */
  function Open(capable: bool): (r: OpenResult)
    ensures !capable ==> r.status == Err(EPERM) && r.handle == NoSession
    ensures capable ==> r.status == Ok && r.handle.Session?
    ensures r.handle.Session? ==> !Configured(r.handle.range)
  {
    if !capable then OpenResult(Err(EPERM), NoSession)
    else OpenResult(Ok, Session(Unset))
  }

  // ---------------------------------------------------------------------
  // ioctl
  // ---------------------------------------------------------------------

  /** `_IOW('g', 1, mmio_range_t*)` in the asm-generic encoding:
      direction write (1) in bits 30-31, the size of a pointer (8) in bits
      16-29, the type 'g' (0x67) in bits 8-15 and the number 1 in bits 0-7. */
  const MMIO_SET_RANGE: U32 := 0x4008_6701

  /** The outcome of `copy_from_user(range, arg, sizeof(mmio_range_t))`,
      taken as all-or-nothing: either the whole record arrives or none of it. */
  datatype UserCopy = Copied(range: MmioRange) | Faulted

  datatype IoctlResult = IoctlResult(status: Status, range: MmioRange)

  /** The length adjustment after a successful copy, as the source writes it:
      the length plus its remainder modulo the page size, in 64-bit unsigned
      arithmetic. It is the identity on page multiples and otherwise grows
      the length by less than a page, unless the sum wraps, in which case the
      stored length ends up smaller than the one supplied. */
  function ExtendToPages(length: U64): (r: U64)
    ensures length % PAGE_SIZE == 0 ==> r == length
    ensures length + length % PAGE_SIZE < TWO_64 ==> length <= r < length + PAGE_SIZE
    ensures length + length % PAGE_SIZE >= TWO_64 ==> r < length
  {
    Add64(length, length % PAGE_SIZE)
  }

  /** `ioctl_hwio`. The "already configured" test comes before the command is
      looked at, so on a configured record every command, known or not, is
      refused with EACCES. A failure at any step leaves the record as it was;
      success stores the copied base and the adjusted length. */
  function Ioctl(s: MmioRange, cmd: U32, arg: UserCopy): (r: IoctlResult)
    ensures Configured(s) ==> r.status == Err(EACCES) && r.range == s
    ensures !Configured(s) && cmd != MMIO_SET_RANGE ==>
              r.status == Err(EINVAL) && r.range == Unset
    ensures !Configured(s) && cmd == MMIO_SET_RANGE && arg.Faulted? ==>
              r.status == Err(EACCES) && r.range == Unset
    ensures r.status == Ok <==> !Configured(s) && cmd == MMIO_SET_RANGE && arg.Copied?
    ensures r.status != Ok ==> r.range == s
    ensures r.status == Ok ==> r.range.phys == arg.range.phys
    ensures r.status == Ok && arg.range.length % PAGE_SIZE == 0 ==>
              r.range.length == arg.range.length
    ensures r.status == Ok && arg.range.length + arg.range.length % PAGE_SIZE < TWO_64 ==>
              arg.range.length <= r.range.length < arg.range.length + PAGE_SIZE
  {
    if Configured(s) then IoctlResult(Err(EACCES), s)
    else if cmd != MMIO_SET_RANGE then IoctlResult(Err(EINVAL), s)
    else match arg
      case Faulted => IoctlResult(Err(EACCES), s)
      case Copied(user) => IoctlResult(Ok, MmioRange(user.phys, ExtendToPages(user.length)))
  }

  // ---------------------------------------------------------------------
  // mmap
  // ---------------------------------------------------------------------

  /** The fields of `vm_area_struct` the driver reads: the virtual extent
      `[start, end)` and the page offset the caller passed to mmap(2). */
  datatype Vma = Vma(start: U64, end: U64, pgoff: U64)

  /** `vma->vm_end - vma->vm_start`, as a 64-bit unsigned subtraction. */
  function MappedSize(vma: Vma): (size: U64)
    ensures vma.start <= vma.end ==> size == vma.end - vma.start
  {
    Sub64(vma.end, vma.start)
  }

  /** `(phys_addr_t)vma->vm_pgoff << PAGE_SHIFT`: the physical offset the
      caller asks for. It is page-aligned whatever `vm_pgoff` is. */
  function PhysOffset(vma: Vma): (offset: U64)
    ensures offset % PAGE_SIZE == 0
  {
    PageOffset(vma.pgoff)
  }

  /** The architecture hooks of `mem_arch.h` and the page-table primitive,
      each applied to the arguments the driver passes it. */
  datatype Platform = Platform(
    validPhysAddrRange: (U64, U64) -> bool,        // valid_mmap_phys_addr_range(pgoff, size)
    privateMappingOk: Vma -> bool,                 // private_mapping_ok(vma)
    rangeIsAllowed: (U64, U64) -> bool,            // range_is_allowed(pgoff, size)
    physMemAccessProtAllowed: (U64, U64) -> bool,  // phys_mem_access_prot_allowed(file, pgoff, size, prot)
    remapPfnRange: (Vma, U64) -> bool              // remap_pfn_range(vma, start, pgoff, size, prot) == 0
  )

  /** A platform whose hooks all accept, as the generic `mem_arch.h`
      fallbacks do, and whose page-table update succeeds. */
  const Permissive: Platform := Platform(
    (pgoff: U64, size: U64) => true,
    (vma: Vma) => true,
    (pgoff: U64, size: U64) => true,
    (pgoff: U64, size: U64) => true,
    (vma: Vma, size: U64) => true
  )

  /** The steps of `mmap_hwio`, in the order the source performs them. */
  datatype Check =
    | SizeFits          // size <= range->length
    | StartsInWindow    // range->phys <= offset
    | EndsInWindow      // offset + size <= range->phys + range->length, both sums wrapping
    | NoWrap            // offset + size - 1 does not wrap below offset
    | PhysRangeValid
    | PrivateMapping
    | RangeAllowed
    | ProtAllowed
    | Remap

  /** Whether step `c` lets the request through. */
  predicate Passes(c: Check, s: MmioRange, vma: Vma, p: Platform) {
    var size := MappedSize(vma);
    var offset := PhysOffset(vma);
    match c
    case SizeFits => size <= s.length
    case StartsInWindow => s.phys <= offset
    case EndsInWindow => !(Add64(s.phys, s.length) < Add64(offset, size))
    case NoWrap => !(Sub64(Add64(offset, size), 1) < offset)
    case PhysRangeValid => p.validPhysAddrRange(vma.pgoff, size)
    case PrivateMapping => p.privateMappingOk(vma)
    case RangeAllowed => p.rangeIsAllowed(vma.pgoff, size)
    case ProtAllowed => p.physMemAccessProtAllowed(vma.pgoff, size)
    case Remap => p.remapPfnRange(vma, size)
  }

  /** The error each step returns when it fails. */
  function CheckError(c: Check): Errno {
    match c
    case SizeFits => EPERM
    case StartsInWindow => EPERM
    case EndsInWindow => EPERM
    case NoWrap => EINVAL
    case PhysRangeValid => EINVAL
    case PrivateMapping => ENOSYS
    case RangeAllowed => EPERM
    case ProtAllowed => EINVAL
    case Remap => EAGAIN
  }

  /** What `mmap_hwio` returns, and whether it got as far as calling
      `remap_pfn_range` (the only step with a side effect). */
  datatype MmapResult = MmapResult(status: Status, remapInvoked: bool)

  function Refuse(c: Check): MmapResult {
    MmapResult(Err(CheckError(c)), c == Remap)
  }

  /** `mmap_hwio`: the checks run in source order and the first one that
      fails decides the error. The record is only read.

      Reaching `remap_pfn_range`, and so every success, means the requested
      size fits the configured length, the requested offset is at or above
      the configured base, and the mapped end lies within the configured
      end, except for one case the wrapping comparison lets through: a
      request ending exactly at 2^64 while the configured window ends below
      it. */
  function Mmap(s: MmioRange, vma: Vma, p: Platform): (r: MmapResult)
    ensures r.status == Ok ==> r.remapInvoked
    ensures r.remapInvoked ==>
              && p.validPhysAddrRange(vma.pgoff, MappedSize(vma))
              && p.privateMappingOk(vma)
              && p.rangeIsAllowed(vma.pgoff, MappedSize(vma))
              && p.physMemAccessProtAllowed(vma.pgoff, MappedSize(vma))
    ensures r.status == Ok ==> p.remapPfnRange(vma, MappedSize(vma))
    ensures r.remapInvoked ==>
              && MappedSize(vma) <= s.length
              && s.phys <= PhysOffset(vma)
              && (|| PhysOffset(vma) + MappedSize(vma) <= s.phys + s.length
                  || (PhysOffset(vma) + MappedSize(vma) == TWO_64 && s.phys + s.length < TWO_64))
  {
    if !Passes(SizeFits, s, vma, p) then Refuse(SizeFits)
    else if !Passes(StartsInWindow, s, vma, p) then Refuse(StartsInWindow)
    else if !Passes(EndsInWindow, s, vma, p) then Refuse(EndsInWindow)
    else if !Passes(NoWrap, s, vma, p) then Refuse(NoWrap)
    else if !Passes(PhysRangeValid, s, vma, p) then Refuse(PhysRangeValid)
    else if !Passes(PrivateMapping, s, vma, p) then Refuse(PrivateMapping)
    else if !Passes(RangeAllowed, s, vma, p) then Refuse(RangeAllowed)
    else if !Passes(ProtAllowed, s, vma, p) then Refuse(ProtAllowed)
    else if !Passes(Remap, s, vma, p) then Refuse(Remap)
    else MmapResult(Ok, true)
  }

  // ---------------------------------------------------------------------
  // close
  // ---------------------------------------------------------------------

  datatype CloseResult = CloseResult(status: Status, handle: Handle)

  /** `close_hwio`: the record is released and the call always succeeds. */
  function Close(h: Handle): (r: CloseResult)
    requires h.Session?
    ensures r.status == Ok && r.handle == NoSession
  {
    CloseResult(Ok, NoSession)
  }
}
