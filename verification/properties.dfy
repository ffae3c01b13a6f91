/**
 Properties of the driver as written that relate several definitions or
 single out an edge case: what a successful mapping guarantees, what an
 unconfigured record allows, and the two ways a successful configuration
 can leave the record unconfigured.
 */
module Properties {
  import opened Words
  import opened Errors
  import opened Hwio
  import Lifecycle
  import Findings

  /** A successful mapping never ends past the top of the address space,
      and when it ends below the top it lies inside the configured window:
      the size fits, it starts at or after the base and ends at or before
      the configured end. */
  lemma MmapWindowContained(s: MmioRange, vma: Vma, p: Platform)
    requires Mmap(s, vma, p).status == Ok
    ensures PhysOffset(vma) + MappedSize(vma) <= TWO_64
    ensures PhysOffset(vma) + MappedSize(vma) < TWO_64 ==>
              && MappedSize(vma) <= s.length
              && s.phys <= PhysOffset(vma)
              && PhysOffset(vma) + MappedSize(vma) <= s.phys + s.length
  {
  }

  /** The converse of containment: a non-empty request that lies inside a
      configured window ending below 2^64 passes every bound check and is
      mapped on a platform whose hooks accept. */
  lemma InWindowMapped(s: MmioRange, vma: Vma)
    requires 0 < MappedSize(vma) <= s.length
    requires s.phys <= PhysOffset(vma)
    requires PhysOffset(vma) + MappedSize(vma) <= s.phys + s.length < TWO_64
    ensures Mmap(s, vma, Permissive).status == Ok
  {
  }

  /** The kernel return values: a refused open returns -1 (`-EPERM`), an
      ioctl on a configured record -13 (`-EACCES`), an unknown command on a
      fresh record -22 (`-EINVAL`), and mmap returns 0 or one of -1, -11,
      -22, -38; -11 (`-EAGAIN`) exactly when only the remap failed. */
  lemma KernelReturnValues(capable: bool, s: MmioRange, cmd: U32, arg: UserCopy, vma: Vma, p: Platform)
    ensures !capable ==> Code(Open(capable).status) == -1
    ensures capable ==> Code(Open(capable).status) == 0
    ensures Configured(s) ==> Code(Ioctl(s, cmd, arg).status) == -13
    ensures !Configured(s) && cmd != MMIO_SET_RANGE ==> Code(Ioctl(s, cmd, arg).status) == -22
    ensures Code(Mmap(s, vma, p).status) in {0, -1, -11, -22, -38}
    ensures Code(Mmap(s, vma, p).status) == -11 <==>
              Mmap(s, vma, p).remapInvoked && !p.remapPfnRange(vma, MappedSize(vma))
  {
  }

  /** On a record with no length, in particular a freshly opened one, every
      non-empty mapping is refused with EPERM by the first check, before any
      platform hook or the remap runs. */
  lemma UnconfiguredRecordCannotMap(s: MmioRange, vma: Vma, p: Platform)
    requires s.length == 0
    requires MappedSize(vma) > 0
    ensures Mmap(s, vma, p) == MmapResult(Err(EPERM), false)
  {
  }

  /** Configuring the range `{0, 0}` succeeds but leaves the record looking
      new, so a second configuration is accepted. */
  lemma ZeroRangeKeepsRecordReconfigurable(user: MmioRange)
    ensures Ioctl(Unset, MMIO_SET_RANGE, Copied(Unset)) == IoctlResult(Ok, Unset)
    ensures Ioctl(Ioctl(Unset, MMIO_SET_RANGE, Copied(Unset)).range, MMIO_SET_RANGE, Copied(user)).status == Ok
  {
  }

  /** The length adjustment can wrap: a length of 2^64 - 2048 at base 0 is
      accepted and stored as `{0, 0}`, so the record stays unconfigured. */
  lemma HugeLengthWrapsToUnset()
    ensures (TWO_64 - 2048) % PAGE_SIZE == 2048
    ensures Ioctl(Unset, MMIO_SET_RANGE, Copied(MmioRange(0, TWO_64 - 2048))) == IoctlResult(Ok, Unset)
    ensures !Configured(Ioctl(Unset, MMIO_SET_RANGE, Copied(MmioRange(0, TWO_64 - 2048))).range)
  {
  }

  /** A window `{0x1000, 0x1000}` configured on a fresh file refuses a
      one-page mapping at 0x2000 with EPERM at the end-of-window check, and
      the record stays as configured. */
  lemma MappingPastWindowEndRefused(b: Lifecycle.Build, p: Platform)
    ensures
      var o := Lifecycle.Step(b, NoSession, Lifecycle.OpenFile(true));
      var configured := Lifecycle.Step(b, o.handle,
                   Lifecycle.OnRecord(Lifecycle.IoctlCall(MMIO_SET_RANGE, Copied(MmioRange(0x1000, 0x1000)))));
      var mapped := Lifecycle.Step(b, configured.handle,
                   Lifecycle.OnRecord(Lifecycle.MmapCall(Vma(0x10_0000, 0x10_1000, 2), p)));
      && configured.status == Ok
      && configured.handle == Session(MmioRange(0x1000, 0x1000))
      && mapped.status == Err(EPERM)
      && mapped.handle == configured.handle
  {
  }
}
