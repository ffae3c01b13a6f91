# hwio: the memory-range session of a raw hardware-I/O device

This project is a Dafny model of the `hwio` Linux misc device. The device lets a privileged
user-space component, a Genode driver running on Linux, map one window of
physical memory (an MMIO region) into its own address space.

Every open file of the device carries one record `mmio_range_t {phys, length}`.
The model covers how that record moves through the device's file operations:

- **open** (`Hwio.Open`): refused with `-EPERM` unless the caller holds
  `CAP_SYS_RAWIO`. Otherwise it creates the record as `{0, 0}`.
- **ioctl** (`Hwio.Ioctl`): `MMIO_SET_RANGE` configures the record once by copying
  `{phys, length}` from the caller. The length is then "extended to full
  pages". A record is "configured" when either field is non-zero. A configured record refuses
  every later ioctl with `-EACCES`, even an unknown command, because that test comes before the command is dispatched.
- **mmap** (`Hwio.Mmap`): the request is the physical offset `vm_pgoff << PAGE_SHIFT`
  and the size `vm_end - vm_start`. It passes through nine steps in a fixed order:
  1. three bound checks against the record (`-EPERM`);
  2. a wrap-around check (`-EINVAL`);
  3. four architecture hooks (`-EINVAL`, `-ENOSYS`, `-EPERM`, `-EINVAL`);
  4. `remap_pfn_range` (`-EAGAIN`).

  The record is only read.
- **close** (`Hwio.Close`): releases the record and always succeeds.

On the 64-bit, 4 KiB-page kernel the model assumes (see "## Left out"),
`unsigned long`, `size_t` and `phys_addr_t` are `Words.U64`. Every wrapping `+`, `-` and `<<` of the source is
written out as `Add64`, `Sub64` or `PageOffset`. The following enter as inputs:
- the capability check, as a boolean;
- the user copy, as `Copied(range)` or `Faulted`;
- the four `mem_arch.h` hooks and `remap_pfn_range`, as function fields of
  `Hwio.Platform`. Each field receives the driver's `vm_pgoff` and size, or the vma and the size.
  The `file` argument and the page protection `vm_page_prot` are abstracted away. These are the
  arguments `phys_mem_access_prot_allowed` takes at hwio.c:67, and the arguments `remap_pfn_range`
  takes at hwio.c:73-78, where `vm_start` is also folded into the vma.

Modules:
- `Words`: 64-bit words and the page geometry.
- `Errors`: error numbers and the `0` / `-errno` convention.
- `Hwio`: the four operations.
- `MmapOrder`: the mmap check order as data, and the proof that `Mmap` follows it.
- `Lifecycle`: runs of calls on one file, and the one-shot property over whole runs.
- `Properties`: edge cases of the driver as written.
- `Findings`: the two defects below, each with a corrected definition.

`Lifecycle.Build` picks between the driver as written (`AsWritten`) and the driver
with both corrections (`Corrected`).

### Behaviour of hwio.c worth knowing

- `MMIO_SET_RANGE` is the only command the ioctl accepts (hwio.c:95). Any other command
  gives `-EINVAL` on a fresh record.
- "Configured" means `phys || length` (hwio.c:90). Setting `{0, 0}` succeeds and leaves
  the record reconfigurable (`Properties.ZeroRangeKeepsRecordReconfigurable`). Only a
  configuration that stores a non-zero record is final (`Lifecycle.FirstConfigurationWins`).
- The length is not rounded up (hwio.c:105). `{0x1000, 1}` is stored as length 2, so the
  one-page mapping of it is refused (finding 1).
- A failed copy from the caller gives `-EACCES` (hwio.c:96-97).

## Model

| member | source | states |
|---|---|---|
| `Hwio.Open` | hwio.c:15-29 | Without the capability: `-EPERM` and no record. With it: success and a record that is not configured (`{0, 0}`). |
| `Hwio.ExtendToPages` | hwio.c:104-105 | The length adjustment keeps page multiples unchanged. Otherwise it grows the length by less than a page when the sum does not wrap, and shrinks it when the sum wraps. |
| `Hwio.Ioctl` | hwio.c:85-108 | A configured record: `-EACCES` for any command, record unchanged. An unconfigured one: unknown command gives `-EINVAL` and the record stays `{0, 0}`; failed copy gives `-EACCES`, record unchanged. Success exactly when unconfigured, `MMIO_SET_RANGE` and copied; it stores the copied base and a length that equals a page-multiple input and otherwise lies in `[L, L + PAGE_SIZE)` without wrap. |
| `Hwio.MappedSize` | hwio.c:40 | The mapping size is `vm_end - vm_start` whenever the extent is well-formed. |
| `Hwio.PhysOffset` | hwio.c:41 | The requested physical offset is always page-aligned, whatever `vm_pgoff` is. |
| `Words.PageOffset` | hwio.c:41 | The shift by `PAGE_SHIFT` is exact when it does not overflow and loses high bits otherwise. The result is always a page multiple. |
| `Words.Add64` | hwio.c:50 | A 64-bit sum is exact without overflow. With overflow it is smaller than both operands, which is what the wrap test at hwio.c:55 relies on. |
| `Hwio.Mmap` | hwio.c:37-83 | Success implies that `remap_pfn_range` ran and succeeded. Reaching `remap_pfn_range` implies that every hook accepted, size ≤ length and base ≤ offset. It also implies that either the end lies within the configured end, or the request ends exactly at 2^64 while the window ends below it. So a request that is outside the window and does not end at 2^64 never reaches the remap. |
| `Errors.Code` | hwio.c:19-20 | Success is exactly the return value 0, and every error is a negative return value `-errno`. |
| `Hwio.Close` | hwio.c:110-114 | Close always succeeds and leaves the file without a record. |
| `MmapOrder.FirstRefusal` | hwio.c:43-80 | Gives the index of the first refusing step. Every earlier step passes, and the step at that index refuses. |
| `MmapOrder.MmapRunsChecksInOrder` | hwio.c:43-82 | `Mmap` equals ordered, short-circuiting evaluation of the nine steps. The first refusing step decides the error, and the remap is reached only if every earlier step passed. |
| `MmapOrder.MmapFailsAtFirstRefusal` | hwio.c:43-80 | If step k is the first to refuse, the result is that step's error code (EPERM ×3, EINVAL, EINVAL, ENOSYS, EPERM, EINVAL, EAGAIN). `remap_pfn_range` was invoked only if k is the remap itself. |
| `MmapOrder.MmapSucceedsIffAllChecksPass` | hwio.c:43-82 | Mmap succeeds iff all nine steps pass. It reaches `remap_pfn_range` iff the eight earlier steps pass. |
| `Lifecycle.Apply` | hwio.c:37-108 | Mmap never changes the record. A configured record survives any call, and ioctl on it gives `-EACCES`. With the corrections, every successful mapping is inside the window and every successful configuration stores a page multiple. |
| `Lifecycle.Run` | hwio.c:85-108 | Models the record persisting in `file->private_data` between calls. Each call sees the record the previous one left, and there is one status per call. |
| `Lifecycle.RunAppend` | hwio.c:85-108 | Running two batches of calls is the same as running the second from the record the first left behind. |
| `Lifecycle.ConfiguredRangeIsFinal` | hwio.c:89-91 | Once configured, no sequence of ioctl or mmap calls changes the record, and every ioctl in it returns `-EACCES`. |
| `Lifecycle.MmapCallsKeepRecord` | hwio.c:37-83 | Any sequence of mmap calls leaves the record as it was. |
| `Lifecycle.FirstConfigurationWins` | hwio.c:89-91 | If the record is configured after some prefix of calls, every later call keeps it and every later ioctl is refused with `-EACCES`. |
| `Lifecycle.Step` | hwio.c:116-121 | Open succeeds iff capable, giving `{0, 0}`, and otherwise gives `-EPERM` with no record. Calls on a record keep the file open, and mmap or any call on a configured record keeps the record. Release always succeeds and drops the record. |
| `Properties.MmapWindowContained` | hwio.c:43-56 | A successful mapping never ends past 2^64. When it ends below 2^64, it lies inside the configured window. |
| `Properties.InWindowMapped` | hwio.c:43-82 | The converse of containment: a non-empty request inside a configured window that ends below 2^64 is mapped when every hook accepts. |
| `Properties.KernelReturnValues` | hwio.c:19-101 | The integers returned: a refused open gives -1 and an allowed one gives 0. An ioctl on a configured record gives -13, and an unknown command on a fresh one gives -22. Mmap returns only 0, -1, -11, -22 or -38, and it returns -11 exactly when it reached the remap and the remap failed. |
| `Properties.UnconfiguredRecordCannotMap` | hwio.c:43-45 | On a record with length 0, every non-empty mapping gets `-EPERM` from the first check, and the remap is never reached. |
| `Properties.ZeroRangeKeepsRecordReconfigurable` | hwio.c:89-91 | Configuring `{0, 0}` succeeds, leaves the record `{0, 0}`, and a second configuration is accepted. |
| `Properties.HugeLengthWrapsToUnset` | hwio.c:104-105 | Length 2^64 - 2048 at base 0 wraps to a stored `{0, 0}`, so the record stays unconfigured. |
| `Properties.MappingPastWindowEndRefused` | hwio.c:50-51 | After open and configuration `{0x1000, 0x1000}`, a one-page mapping at 0x2000 gets `-EPERM`, and the record is unchanged. |
| `Findings.ExtendToPagesAlignsOnlyHalfPages` | hwio.c:104-105 | The adjusted length is a page multiple iff the input is a page multiple or half a page past one. |
| `Findings.ExtendToPagesIsNotARoundUp` | hwio.c:104-105 | Counterexample: length 1 becomes 2, which is not a page multiple, and the one-page mapping of `{0x1000, 1}` is refused. |
| `Findings.RoundUpToPages` | hwio.c:104-105 | The corrected adjustment always gives a page multiple. Below the last page it gives the least page multiple ≥ the length. |
| `Findings.IoctlRoundingUp` | hwio.c:85-108 | Corrected ioctl: the same statuses as the driver. On success it stores the copied base and a page-multiple length. When `L ≤ 2^64 - PAGE_SIZE`, that length lies in `[L, L + PAGE_SIZE)`. Above that bound `PAGE_ALIGN` wraps to 0, so a base of 0 leaves the record `{0, 0}` and unconfigured. |
| `Findings.RoundedWindowIsMappable` | hwio.c:104-105 | Corrected, for all inputs: a page-aligned base and a non-empty `L ≤ 2^64 - PAGE_SIZE` whose rounded window ends below 2^64 are stored as `{base, PAGE_ALIGN(L)}`, and the corrected mmap of exactly that window succeeds on a permissive platform. |
| `Findings.RoundUpAllowsWholePage` | hwio.c:104-105 | With the correction, `{0x1000, 1}` is stored as `{0x1000, 0x1000}`, and its one-page mapping succeeds on a permissive platform. |
| `Findings.TopPageEscapesBoundChecks` | hwio.c:47-56 | Counterexample: with window `[0x1000, 0x3000)` configured, the page `[2^64 - 0x1000, 2^64)` passes every check and is mapped on a permissive platform. |
| `Findings.MmapChecked` | hwio.c:43-56 | Corrected mmap: success always means the window is contained. It never accepts what the driver refuses, and it agrees with the driver when neither end wraps. |
| `Findings.TopPageRefusedWhenChecked` | hwio.c:50-51 | With the correction, the top-page request gets `-EPERM` and no remap. |

## Findings

| source | as written | input that shows it | evidently intended | confidence | as-written member | corrected member |
|---|---|---|---|---|---|---|
| hwio.c:104-105 | `length = length + length % PAGE_SIZE` | `MMIO_SET_RANGE {0x1000, 1}` stores length 2, and `mmap` of one page at 0x1000 then fails with `-EPERM` | round the length up to the next page multiple, as the comment "extend size to full pages" says (`PAGE_ALIGN`) | high, not executed | `Findings.ExtendToPagesIsNotARoundUp` | `Findings.RoundUpToPages` |
| hwio.c:50-55 | the end-of-window test compares `phys + length` with `offset + size`, and both sums wrap; the later wrap test only rejects sums that go past 2^64 by more than zero | window `{0x1000, 0x2000}`, `vm_pgoff = 2^52 - 1`, size 0x1000: `offset + size` wraps to 0, so all three bound checks pass for `[2^64 - 0x1000, 2^64)` | a successful mapping lies inside the configured window | medium, not executed. Whether the request can reach the driver at all is outside hwio.c: a platform's `valid_mmap_phys_addr_range` may refuse the address. Kernels whose `do_mmap` applies `file_mmap_ok` also refuse a character-device mapping with `pgoff > (ULONG_MAX - len) >> PAGE_SHIFT`, which is exactly this request, before `mmap_hwio` runs | `Findings.TopPageEscapesBoundChecks` | `Findings.MmapChecked` |

`Lifecycle.Run` and `Lifecycle.Step` with `Build.Corrected` use both corrected
definitions. With `Build.AsWritten` they use the driver as written.

## Left out

- `Hwio.Ioctl`: `copy_from_user` is taken as all-or-nothing. The real copy may write a
  prefix of the record and zero the rest before it reports a fault. In that case a
  failed ioctl could still leave a partly written, configured record.
- `Hwio.Open`: the `kmalloc` result at hwio.c:22 is used without a NULL check. The
  model assumes the allocation succeeds, because memory safety is outside a
  value-level model.
- `Hwio.Mmap`: `phys_mem_access_prot_allowed` may also adjust `vm_page_prot`, and
  the model keeps only its yes/no answer. The `vm_ops` assignment and
  `generic_access_phys` (hwio.c:31-35, 71) are page-table side effects, and only the
  outcome of `remap_pfn_range` is kept.
- The internals of `capable`, `copy_from_user`, `valid_mmap_phys_addr_range`,
  `private_mapping_ok`, `range_is_allowed`, `phys_mem_access_prot_allowed` and
  `remap_pfn_range` are not shown in the source. They are inputs of the model.
- Module registration and logging (`hwio_init`, `hwio_exit`, `hwio_dev`, hwio.c:123-144,
  and genode.c): glue with no logic.
- `MMIO_SET_RANGE` is modelled with the asm-generic ioctl encoding and 8-byte pointers
  (0x40086701). Architectures with another ioctl layout give a different number, but
  the model only depends on it being one fixed command.
- The kernel never calls `mmap` with `vm_end <= vm_start`. The model does not assume
  this either, and it computes the size as a wrapping subtraction.
- `Lifecycle.FirstConfigurationWins`: holds for sequential calls only. Two concurrent
  `MMIO_SET_RANGE` calls on one file can both pass the test at hwio.c:90 before either
  copies, and the driver has no lock to prevent that. The model covers one file with
  calls in sequence, and separate files share no state.
- The model assumes a 64-bit kernel with 4 KiB pages, so `unsigned long`, `size_t` and
  `phys_addr_t` all wrap at 2^64. A 32-bit PAE kernel would behave differently:
  `range->phys + range->length` at hwio.c:50 wraps at 2^32 while `offset + size` is a
  64-bit `phys_addr_t`, so the wrap behaviour there is not modelled.
