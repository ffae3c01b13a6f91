/**
 Sequences of file operations on one open file of the device.

 `Step` is the VFS view: open on a file without a record, then ioctl and
 mmap on the record, then release. `Run` replays the calls made on an open
 record. The lemmas state the one-shot property over whole runs: once a
 configured range is stored, nothing short of closing the file changes it.
 */
module Lifecycle {
  import opened Words
  import opened Errors
  import opened Hwio
  import Findings

  /** Which definitions the run uses: the driver as written, or with the
      two corrections of the `Findings` module (length rounded up to full
      pages, end-of-window test without wrapping). */
  datatype Build = AsWritten | Corrected

  /** A call the VFS forwards to the driver while the file is open. */
  datatype Call =
    | IoctlCall(cmd: U32, arg: UserCopy)
    | MmapCall(vma: Vma, platform: Platform)

  datatype CallResult = CallResult(status: Status, range: MmioRange)

  /** One call on an open record. Mmap only reads the record; a configured
      record survives any call, and every ioctl on it is refused. With the
      corrections, a mapping that succeeds lies inside the record's window
      and a successful configuration stores a page-multiple length. */
  function Apply(b: Build, s: MmioRange, c: Call): (r: CallResult)
    ensures c.MmapCall? ==> r.range == s
    ensures Configured(s) ==> r.range == s
    ensures Configured(s) && c.IoctlCall? ==> r.status == Err(EACCES)
    ensures b == Corrected && c.MmapCall? && r.status == Ok ==>
              && PhysOffset(c.vma) >= s.phys
              && PhysOffset(c.vma) + MappedSize(c.vma) <= s.phys + s.length
    ensures b == Corrected && c.IoctlCall? && r.status == Ok ==> r.range.length % PAGE_SIZE == 0
  {
    match c
    case IoctlCall(cmd, arg) =>
      var res := if b == AsWritten then Ioctl(s, cmd, arg) else Findings.IoctlRoundingUp(s, cmd, arg);
      CallResult(res.status, res.range)
    case MmapCall(vma, p) =>
      var res := if b == AsWritten then Mmap(s, vma, p) else Findings.MmapChecked(s, vma, p);
      CallResult(res.status, s)
  }

  datatype RunResult = RunResult(statuses: seq<Status>, final: MmioRange)

  /** The calls applied one after another, with the status of each. */
  function Run(b: Build, s: MmioRange, calls: seq<Call>): (r: RunResult)
    ensures |r.statuses| == |calls|
    decreases |calls|
  {
    if |calls| == 0 then RunResult([], s)
    else
      var first := Apply(b, s, calls[0]);
      var rest := Run(b, first.range, calls[1..]);
      RunResult([first.status] + rest.statuses, rest.final)
  }

  /** Running two batches of calls is running the second from where the
      first left the record. */
  lemma {:induction false} RunAppend(b: Build, s: MmioRange, xs: seq<Call>, ys: seq<Call>)
    ensures Run(b, s, xs + ys).final == Run(b, Run(b, s, xs).final, ys).final
    ensures Run(b, s, xs + ys).statuses == Run(b, s, xs).statuses + Run(b, Run(b, s, xs).final, ys).statuses
    decreases |xs|
  {
    if |xs| == 0 {
      assert xs + ys == ys;
    } else {
      var first := Apply(b, s, xs[0]);
      var zs := xs + ys;
      assert zs[0] == xs[0];
      assert zs[1..] == xs[1..] + ys;
      var restXs := Run(b, first.range, xs[1..]);
      var restZs := Run(b, first.range, zs[1..]);
      assert Run(b, s, xs) == RunResult([first.status] + restXs.statuses, restXs.final);
      assert Run(b, s, zs) == RunResult([first.status] + restZs.statuses, restZs.final);
      RunAppend(b, first.range, xs[1..], ys);
    }
  }

  /** Once the record is configured, no sequence of calls changes it, and
      every ioctl among them returns EACCES. */
  lemma {:induction false} ConfiguredRangeIsFinal(b: Build, s: MmioRange, calls: seq<Call>)
    requires Configured(s)
    ensures Run(b, s, calls).final == s
    ensures forall i :: 0 <= i < |calls| && calls[i].IoctlCall? ==>
              Run(b, s, calls).statuses[i] == Err(EACCES)
    decreases |calls|
  {
    if |calls| > 0 {
      ConfiguredRangeIsFinal(b, s, calls[1..]);
      var r := Run(b, s, calls);
      forall i | 0 <= i < |calls| && calls[i].IoctlCall?
        ensures r.statuses[i] == Err(EACCES)
      {
        if i > 0 {
          assert calls[i] == calls[1..][i - 1];
        }
      }
    }
  }

  /** Mmap calls alone never change the record, configured or not. */
  lemma {:induction false} MmapCallsKeepRecord(b: Build, s: MmioRange, calls: seq<Call>)
    requires forall i :: 0 <= i < |calls| ==> calls[i].MmapCall?
    ensures Run(b, s, calls).final == s
    decreases |calls|
  {
    if |calls| > 0 {
      MmapCallsKeepRecord(b, s, calls[1..]);
    }
  }

  /** The first configuration wins: if the record is configured after the
      calls `before`, every later call leaves it as it is and every later
      ioctl is refused with EACCES. */
  lemma {:induction false} FirstConfigurationWins(b: Build, s: MmioRange, before: seq<Call>, after: seq<Call>)
    requires Configured(Run(b, s, before).final)
    ensures Run(b, s, before + after).final == Run(b, s, before).final
    ensures forall i :: 0 <= i < |after| && after[i].IoctlCall? ==>
              Run(b, s, before + after).statuses[|before| + i] == Err(EACCES)
  {
    RunAppend(b, s, before, after);
    ConfiguredRangeIsFinal(b, Run(b, s, before).final, after);
  }

  // ---------------------------------------------------------------------
  // The whole file: open, calls, release
  // ---------------------------------------------------------------------

  /** What the VFS can ask of the driver. */
  datatype Request = OpenFile(capable: bool) | OnRecord(call: Call) | Release

  /** The VFS opens a file that has no record and forwards every other
      request only to an open file. */
  predicate Admissible(h: Handle, req: Request) {
    req.OpenFile? <==> h.NoSession?
  }

  datatype StepResult = StepResult(status: Status, handle: Handle)

  /** One request on the file. */
  function Step(b: Build, h: Handle, req: Request): (r: StepResult)
    requires Admissible(h, req)
    ensures req.OpenFile? ==> (r.status == Ok <==> req.capable)
    ensures req.OpenFile? && r.status == Ok ==> r.handle == Session(Unset)
    ensures req.OpenFile? && r.status != Ok ==> r.status == Err(EPERM) && r.handle == NoSession
    ensures req.OnRecord? ==> r.handle.Session?
    ensures req.OnRecord? && (req.call.MmapCall? || Configured(h.range)) ==> r.handle == h
    ensures req.Release? ==> r.status == Ok && r.handle == NoSession
  {
    match req
    case OpenFile(capable) =>
      var o := Open(capable);
      StepResult(o.status, o.handle)
    case OnRecord(call) =>
      var a := Apply(b, h.range, call);
      StepResult(a.status, Session(a.range))
    case Release =>
      var c := Close(h);
      StepResult(c.status, c.handle)
  }
}
