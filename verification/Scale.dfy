/** pkg/util/scale: one member at a time. */
module Scale {

  predicate IsScalingDown(current: int, desired: int) { desired < current }

  predicate IsScalingUp(current: int, desired: int) { desired > current && current != 0 }

  /** A first deployment jumps to the desired count; afterwards the count moves by one. */
  function ReplicasThisReconciliation(current: int, desired: int): (n: int)
    ensures current == 0 ==> n == desired
    ensures current >= 1 && desired >= 1 ==> n >= 1 && -1 <= n - current <= 1
    ensures n == current <==> current == desired
    ensures current != 0 && current != desired ==> Distance(n, desired) == Distance(current, desired) - 1
  {
    if current == 0 || current == desired then desired
    else if IsScalingDown(current, desired) then current - 1
    else current + 1
  }

  predicate IsStillScaling(current: int, desired: int) { ReplicasThisReconciliation(current, desired) != desired }

  /** The count after k completed reconciliations towards a fixed target. */
  function Toward(current: int, desired: int, k: nat): (n: int) {
    if k == 0 then current else ReplicasThisReconciliation(Toward(current, desired, k - 1), desired)
  }

  function Distance(a: int, b: int): (d: nat) { if a < b then b - a else a - b }

  /** How many completed reconciliations until the target is reached for the first time. */
  function Needed(current: int, desired: int): (k: nat)
    ensures k >= 1
  {
    if current == 0 || current == desired then 1 else Distance(current, desired)
  }

  /** The distance shrinks by exactly one per completed reconciliation until it is zero, and stays zero. */
  lemma {:induction false} TowardDistance(current: int, desired: int, k: nat)
    requires current >= 1 && desired >= 1
    ensures Toward(current, desired, k) >= 1
    ensures Distance(Toward(current, desired, k), desired) ==
            if k < Distance(current, desired) then Distance(current, desired) - k else 0
  {
    if k > 0 { TowardDistance(current, desired, k - 1); }
  }

  /** Scaling is over for the first time at reconciliation number Needed. */
  lemma {:induction false} ScalingEnds(current: int, desired: int, k: nat)
    requires current >= 0 && desired >= 1 && k >= 1
    ensures IsStillScaling(Toward(current, desired, k - 1), desired) <==> k < Needed(current, desired)
  {
    if current >= 1 {
      TowardDistance(current, desired, k - 1);
    } else if k > 1 {
      ScalingEnds(current, desired, k - 1);
      FirstJump(desired, k - 1);
    }
  }

  lemma {:induction false} FirstJump(desired: int, k: nat)
    requires k >= 1
    ensures Toward(0, desired, k) == desired
  {
    if k > 1 { FirstJump(desired, k - 1); }
  }

  /** From reconciliation number Needed on the count is the target. */
  lemma TargetReached(current: int, desired: int, k: nat)
    requires current >= 0 && desired >= 1 && k >= Needed(current, desired)
    ensures Toward(current, desired, k) == desired
  {
    if current >= 1 { TowardDistance(current, desired, k); } else { FirstJump(desired, k); }
  }

  /** Along the way no count exceeds both the first step and the target. */
  lemma {:induction false} NeverAbove(current: int, desired: int, k: nat)
    requires current >= 0 && desired >= 1 && k >= 1
    ensures Toward(current, desired, k) <= ReplicasThisReconciliation(current, desired)
            || Toward(current, desired, k) <= desired
  {
    if k > 1 { NeverAbove(current, desired, k - 1); }
  }
}
