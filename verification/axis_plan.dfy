/** The per-axis copy plan of `Matrix<T>.Resize`: how many elements survive along
    one axis, where they are read in the old storage and where they land in the
    new one. Both axes use the same computation. */
module AxisPlan {
  import opened CSharpInt
  import opened ResizeRules

  /** `iterCount` elements are copied from old index `oldOffset + k` to new index
      `newOffset + k`, for `0 <= k < iterCount`. */
  datatype Plan = Plan(iterCount: int, oldOffset: int, newOffset: int)

  function Min(a: int, b: int): int { if a <= b then a else b }

  function Abs(a: int): int { if a < 0 then -a else a }

  /** The new size of an axis: the requested size, or zero when the offset would
      take it below zero (a clamp, never a rejection). */
  function ClampedSize(size: int, offset: int): (r: int)
    ensures r >= 0 && r >= size + offset
    ensures r == 0 || r == size + offset
  {
    if size + offset < 0 then 0 else size + offset
  }

  /** The rule switch of `CalculateMatrixComponentParams`: the iteration count is
      the old size when growing and the updated size when shrinking, and the rule
      decides which offset carries the change. Whatever the inputs, the offsets are
      never negative and at most one of them is non-zero; for a consistent change
      of a non-empty updated size the copy stays inside both storages. */
  function AlignedPlan(oldSize: int, updatedSize: int, offset: int, a: Alignment): (p: Plan)
    ensures p.oldOffset >= 0 && p.newOffset >= 0
    ensures p.oldOffset == 0 || p.newOffset == 0
    ensures 0 <= oldSize && 0 < updatedSize == oldSize + offset ==>
              0 <= p.iterCount &&
              p.oldOffset + p.iterCount <= oldSize &&
              p.newOffset + p.iterCount <= updatedSize
  {
    var iterCount := if offset >= 0 then oldSize else updatedSize;
    match a
    case Start =>
      if offset > 0 then Plan(iterCount, 0, offset) else Plan(iterCount, -offset, 0)
    case End =>
      Plan(iterCount, 0, 0)
    case CenterStart =>
      var oddUnit := if CsRem(offset, 2) != 0 then 1 else 0;
      if offset > 0 then Plan(iterCount, 0, CsDiv(offset, 2) + oddUnit)
      else Plan(iterCount, CsDiv(-offset, 2) + oddUnit, 0)
    case CenterEnd =>
      if offset > 0 then Plan(iterCount, 0, CsDiv(offset, 2))
      else Plan(iterCount, CsDiv(-offset, 2), 0)
  }

  /** `CalculateMatrixComponentParams` as written: nothing is copied unless the
      updated size is positive AND differs from the old size. */
  function ComponentPlan(oldSize: int, updatedSize: int, offset: int, a: Alignment): (p: Plan)
    ensures p.oldOffset >= 0 && p.newOffset >= 0
    ensures p.oldOffset == 0 || p.newOffset == 0
    ensures 0 <= oldSize && updatedSize == ClampedSize(oldSize, offset) ==>
              0 <= p.iterCount &&
              p.oldOffset + p.iterCount <= oldSize &&
              p.newOffset + p.iterCount <= updatedSize
  {
    if updatedSize > 0 && updatedSize != oldSize then AlignedPlan(oldSize, updatedSize, offset, a)
    else Plan(0, 0, 0)
  }

  /** The plan with the evidently intended guard: an axis whose size does not
      change is copied whole instead of being dropped. */
  function IntendedPlan(oldSize: int, updatedSize: int, offset: int, a: Alignment): (p: Plan)
    ensures p.oldOffset >= 0 && p.newOffset >= 0
    ensures p.oldOffset == 0 || p.newOffset == 0
    ensures 0 <= oldSize && updatedSize == ClampedSize(oldSize, offset) ==>
              0 <= p.iterCount &&
              p.oldOffset + p.iterCount <= oldSize &&
              p.newOffset + p.iterCount <= updatedSize
  {
    if updatedSize > 0 then AlignedPlan(oldSize, updatedSize, offset, a)
    else Plan(0, 0, 0)
  }

  /** The plan `Resize` computes for an axis of size `oldSize` changed by `offset`. */
  function PlanFor(oldSize: int, offset: int, a: Alignment): (p: Plan)
    ensures p.oldOffset >= 0 && p.newOffset >= 0
    ensures 0 <= oldSize ==>
              0 <= p.iterCount &&
              p.oldOffset + p.iterCount <= oldSize &&
              p.newOffset + p.iterCount <= ClampedSize(oldSize, offset)
  {
    ComponentPlan(oldSize, ClampedSize(oldSize, offset), offset, a)
  }

  /** The corrected plan for an axis of size `oldSize` changed by `offset`. */
  function IntendedPlanFor(oldSize: int, offset: int, a: Alignment): (p: Plan)
    ensures p.oldOffset >= 0 && p.newOffset >= 0
    ensures 0 <= oldSize ==>
              0 <= p.iterCount &&
              p.oldOffset + p.iterCount <= oldSize &&
              p.newOffset + p.iterCount <= ClampedSize(oldSize, offset)
  {
    IntendedPlan(oldSize, ClampedSize(oldSize, offset), offset, a)
  }

  /** Cell (x, y) of the new storage receives a copied element under the column
      plan `px` and the row plan `py`. */
  predicate InCopy(px: Plan, py: Plan, x: int, y: int)
  {
    px.newOffset <= x < px.newOffset + px.iterCount &&
    py.newOffset <= y < py.newOffset + py.iterCount
  }

  /** How many positions at the start of the axis are not matched by the copy:
      new empty slots when growing, dropped elements when shrinking. */
  function StartGap(p: Plan): int
  {
    p.oldOffset + p.newOffset
  }

  /** The same at the end of the axis. */
  function EndGap(oldSize: int, updatedSize: int, p: Plan): int
  {
    (oldSize - p.oldOffset - p.iterCount) + (updatedSize - p.newOffset - p.iterCount)
  }

  /** The iteration count is zero when the updated size is zero or equals the old
      size, and is otherwise the overlap of the two sizes. */
  lemma IterCountIsOverlap(oldSize: int, offset: int, a: Alignment)
    requires 0 <= oldSize
    ensures var updated := ClampedSize(oldSize, offset);
            PlanFor(oldSize, offset, a).iterCount ==
              if updated == 0 || updated == oldSize then 0 else Min(oldSize, updated)
  {
  }

  /** Whenever an axis really changes size, the start gap and the end gap add up
      to the magnitude of the offset: every added or removed position is on one
      of the two sides, none in the middle. */
  lemma GapsSplitOffset(oldSize: int, offset: int, a: Alignment)
    requires 0 <= oldSize
    requires 0 < ClampedSize(oldSize, offset) != oldSize
    ensures var p := PlanFor(oldSize, offset, a);
            var updated := ClampedSize(oldSize, offset);
            0 <= StartGap(p) && 0 <= EndGap(oldSize, updated, p) &&
            StartGap(p) + EndGap(oldSize, updated, p) == Abs(offset)
  {
  }

  /** Start rule: growth shifts the old elements forward by the offset, shrinking
      drops elements from the start; either way the end gap is empty. */
  lemma StartRulePlan(oldSize: int, offset: int)
    requires 0 <= oldSize
    requires 0 < ClampedSize(oldSize, offset) != oldSize
    ensures var p := PlanFor(oldSize, offset, Start);
            (offset > 0 ==> p.newOffset == offset && p.oldOffset == 0) &&
            (offset < 0 ==> p.oldOffset == -offset && p.newOffset == 0) &&
            EndGap(oldSize, ClampedSize(oldSize, offset), p) == 0
  {
  }

  /** End rule: both offsets are zero, so the change is absorbed by the end. */
  lemma EndRulePlan(oldSize: int, offset: int)
    requires 0 <= oldSize
    ensures var p := PlanFor(oldSize, offset, End);
            p.oldOffset == 0 && p.newOffset == 0 && StartGap(p) == 0
  {
  }

  /** Centre rules: CenterStart puts the ceiling of half the offset on the start
      side, CenterEnd the floor; as the new offset when growing and as the old
      offset when shrinking. The two differ by one exactly when the offset is odd. */
  lemma CenterRulePlans(oldSize: int, offset: int)
    requires 0 <= oldSize
    requires 0 < ClampedSize(oldSize, offset) != oldSize
    ensures var ps := PlanFor(oldSize, offset, CenterStart);
            var pe := PlanFor(oldSize, offset, CenterEnd);
            StartGap(ps) == (Abs(offset) + 1) / 2 &&
            StartGap(pe) == Abs(offset) / 2 &&
            StartGap(ps) - StartGap(pe) == Abs(offset) % 2 &&
            (offset > 0 ==> ps.oldOffset == 0 && pe.oldOffset == 0) &&
            (offset < 0 ==> ps.newOffset == 0 && pe.newOffset == 0)
  {
  }

  /** As written, an axis whose size does not change copies nothing. */
  lemma UnchangedAxisCopiesNothing(oldSize: int, offset: int, a: Alignment)
    requires ClampedSize(oldSize, offset) == oldSize
    ensures PlanFor(oldSize, offset, a).iterCount == 0
  {
  }

  /** The corrected plan copies the whole overlap of the two sizes, agrees with
      the plan as written whenever the size changes, and is the identity when it
      does not. */
  lemma IntendedPlanKeepsOverlap(oldSize: int, offset: int, a: Alignment)
    requires 0 <= oldSize
    ensures var updated := ClampedSize(oldSize, offset);
            var p := IntendedPlanFor(oldSize, offset, a);
            p.iterCount == Min(oldSize, updated) &&
            (updated != oldSize ==> p == PlanFor(oldSize, offset, a)) &&
            (updated == oldSize ==> p == Plan(oldSize, 0, 0))
  {
  }
}
