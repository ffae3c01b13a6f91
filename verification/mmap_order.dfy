/**
 The check order of `mmap_hwio` as data: a list of steps and a generic
 "run the steps in order, stop at the first refusal" semantics. The lemmas
 show that the driver's `if` chain is exactly that semantics over this
 list, so the order, the codes and the point at which `remap_pfn_range`
 is reached are fixed.
 */
module MmapOrder {
  import opened Errors
  import opened Hwio

  /** The order of the steps in the source, with the remap last. */
  const CheckOrder: seq<Check> := [
    SizeFits, StartsInWindow, EndsInWindow, NoWrap,
    PhysRangeValid, PrivateMapping, RangeAllowed, ProtAllowed,
    Remap
  ]

  /** The position of the first step in `checks` that refuses the request,
      or `|checks|` when every step lets it through. */
  function FirstRefusal(checks: seq<Check>, s: MmioRange, vma: Vma, p: Platform): (i: nat)
    ensures i <= |checks|
    ensures forall j :: 0 <= j < i ==> Passes(checks[j], s, vma, p)
    ensures i < |checks| ==> !Passes(checks[i], s, vma, p)
    decreases |checks|
  {
    if |checks| == 0 then 0
    else if !Passes(checks[0], s, vma, p) then 0
    else 1 + FirstRefusal(checks[1..], s, vma, p)
  }

  /** Ordered, short-circuiting evaluation of `checks`: the first refusal
      decides the error, and a step is performed only if every earlier step
      passed. */
  function RunInOrder(checks: seq<Check>, s: MmioRange, vma: Vma, p: Platform): MmapResult {
    var i := FirstRefusal(checks, s, vma, p);
    if i == |checks| then MmapResult(Ok, Remap in checks)
    else MmapResult(Err(CheckError(checks[i])), Remap in checks[..i + 1])
  }

  /** `Mmap` is the ordered evaluation of `CheckOrder`. */
  lemma MmapRunsChecksInOrder(s: MmioRange, vma: Vma, p: Platform)
    ensures Mmap(s, vma, p) == RunInOrder(CheckOrder, s, vma, p)
  {
    var i := FirstRefusal(CheckOrder, s, vma, p);
    if i < 8 {
      assert forall j :: 0 <= j <= i ==> CheckOrder[j] != Remap;
      assert Remap !in CheckOrder[..i + 1];
    }
    assert Remap == CheckOrder[8];
  }

  /** If step `k` of the order is the first to refuse, `Mmap` returns that
      step's error and reaches `remap_pfn_range` only when the refusing step
      is the remap itself. */
  lemma MmapFailsAtFirstRefusal(s: MmioRange, vma: Vma, p: Platform, k: nat)
    requires k < |CheckOrder|
    requires forall j :: 0 <= j < k ==> Passes(CheckOrder[j], s, vma, p)
    requires !Passes(CheckOrder[k], s, vma, p)
    ensures Mmap(s, vma, p).status == Err(CheckError(CheckOrder[k]))
    ensures Mmap(s, vma, p).remapInvoked <==> k == |CheckOrder| - 1
  {
    MmapRunsChecksInOrder(s, vma, p);
    var i := FirstRefusal(CheckOrder, s, vma, p);
    assert i == k;
    if k < 8 {
      assert forall j :: 0 <= j <= k ==> CheckOrder[j] != Remap;
      assert Remap !in CheckOrder[..k + 1];
    }
  }

  /** Ordered evaluation succeeds exactly when every step passes. */
  lemma RunInOrderSucceedsIffAllPass(checks: seq<Check>, s: MmioRange, vma: Vma, p: Platform)
    ensures RunInOrder(checks, s, vma, p).status == Ok <==>
              forall j :: 0 <= j < |checks| ==> Passes(checks[j], s, vma, p)
  {
  }

  /** Over `CheckOrder`, the remap is reached exactly when every step before
      it passes. */
  lemma RunInOrderReachesRemapIffPrefixPasses(s: MmioRange, vma: Vma, p: Platform)
    ensures RunInOrder(CheckOrder, s, vma, p).remapInvoked <==>
              forall j :: 0 <= j < |CheckOrder| - 1 ==> Passes(CheckOrder[j], s, vma, p)
  {
  }

  /** `Mmap` succeeds exactly when every step of the order passes, and it
      calls `remap_pfn_range` exactly when every step before the remap passes. */
  lemma MmapSucceedsIffAllChecksPass(s: MmioRange, vma: Vma, p: Platform)
    ensures Mmap(s, vma, p).status == Ok <==>
              forall j :: 0 <= j < |CheckOrder| ==> Passes(CheckOrder[j], s, vma, p)
    ensures Mmap(s, vma, p).remapInvoked <==>
              forall j :: 0 <= j < |CheckOrder| - 1 ==> Passes(CheckOrder[j], s, vma, p)
  {
    MmapRunsChecksInOrder(s, vma, p);
    RunInOrderSucceedsIffAllPass(CheckOrder, s, vma, p);
    RunInOrderReachesRemapIffPrefixPasses(s, vma, p);
  }
}
