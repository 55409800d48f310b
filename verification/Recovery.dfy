/** The recovery ladder and its backoff: `action_for` and `backoff` of `src/supervisor.rs`, with the
    ladder checks of `src/config.rs`. Durations are nanoseconds. */
module Recovery {
  import opened Common

  datatype RecoveryAction = NoAction | Reconnect | RebuildConfig | Reregister | RotateIdentity

  datatype Ladder = Ladder(
    reconnectAfter: u8, rebuildAfter: u8, reregisterAfter: u8, rotateAfter: u8,
    backoffMin: nat, backoffMax: nat)

  predicate ValidLadder(l: Ladder) {
    && 0 < l.reconnectAfter <= l.rebuildAfter <= l.reregisterAfter <= l.rotateAfter
    && l.backoffMin <= l.backoffMax
  }

  function ActionFor(l: Ladder, n: nat): RecoveryAction {
    if n >= l.rotateAfter then RotateIdentity
    else if n >= l.reregisterAfter then Reregister
    else if n >= l.rebuildAfter then RebuildConfig
    else if n >= l.reconnectAfter then Reconnect
    else NoAction
  }

  function Tier(a: RecoveryAction): nat {
    match a
    case NoAction => 0 case Reconnect => 1 case RebuildConfig => 2 case Reregister => 3 case RotateIdentity => 4
  }

  function Threshold(l: Ladder, tier: nat): nat {
    match tier
    case 0 => 0 case 1 => l.reconnectAfter case 2 => l.rebuildAfter case 3 => l.reregisterAfter case _ => l.rotateAfter
  }

  /** On every ladder the chosen tier is the highest whose threshold has been reached. */
  lemma HighestReachedTier(l: Ladder, n: nat)
    ensures Threshold(l, Tier(ActionFor(l, n))) <= n
    ensures forall t: nat :: Tier(ActionFor(l, n)) < t <= 4 ==> Threshold(l, t) > n
  {
  }

  /** On a validated ladder each action is chosen exactly from its own threshold up to the next. */
  lemma ActionIntervals(l: Ladder, n: nat)
    requires ValidLadder(l)
    ensures ActionFor(l, n) == NoAction <==> n < l.reconnectAfter
    ensures ActionFor(l, n) == Reconnect <==> l.reconnectAfter <= n < l.rebuildAfter
    ensures ActionFor(l, n) == RebuildConfig <==> l.rebuildAfter <= n < l.reregisterAfter
    ensures ActionFor(l, n) == Reregister <==> l.reregisterAfter <= n < l.rotateAfter
    ensures ActionFor(l, n) == RotateIdentity <==> l.rotateAfter <= n
  {
  }

  /** Every tier begins at its own threshold, whatever the other thresholds are. */
  ghost predicate TiersBeginAtThresholds(l: Ladder) {
    forall t: nat, n: nat :: 1 <= t <= 4 ==> (Tier(ActionFor(l, n)) >= t <==> n >= Threshold(l, t))
  }

  /** What the checks on the thresholds are for: they accept exactly the ladders on which every tier
      begins at its own threshold and nothing is done before a failure. */
  lemma LadderAcceptedIff(l: Ladder)
    ensures ValidLadder(l) <==>
              l.backoffMin <= l.backoffMax && TiersBeginAtThresholds(l) && ActionFor(l, 0) == NoAction
  {
    if TiersBeginAtThresholds(l) && ActionFor(l, 0) == NoAction {
      assert Tier(ActionFor(l, 0)) >= 1 <==> 0 >= Threshold(l, 1);
      TierOrder(l, 1);
      TierOrder(l, 2);
      TierOrder(l, 3);
    }
  }

  lemma TierOrder(l: Ladder, t: nat)
    requires TiersBeginAtThresholds(l) && 1 <= t <= 3
    ensures Threshold(l, t) <= Threshold(l, t + 1)
  {
    var n := Threshold(l, t + 1);
    assert Tier(ActionFor(l, n)) >= t + 1 <==> n >= Threshold(l, t + 1);
    assert Tier(ActionFor(l, n)) >= t <==> n >= Threshold(l, t);
  }

  lemma TierMonotone(l: Ladder, m: nat, n: nat)
    requires m <= n
    ensures Tier(ActionFor(l, m)) <= Tier(ActionFor(l, n))
  {
  }

  // ----- Backoff

  const NANOS_PER_MILLI: nat := 1_000_000
  const U64: nat := 0x1_0000_0000_0000_0000

  /** `as_millis() as u64`: rounds down, then keeps the low 64 bits. */
  function Millis(d: nat): nat { d / NANOS_PER_MILLI % U64 }

  function Pow2(e: nat): nat { if e == 0 then 1 else 2 * Pow2(e - 1) }

  /** Milliseconds slept before a recovery action after `n` consecutive failures. */
  function Backoff(l: Ladder, n: nat): nat {
    var exp := Min(SaturatingSub(n, 1), 16);
    Min(SaturatingMul(Millis(l.backoffMin), Pow2(exp)), Millis(l.backoffMax))
  }

  lemma {:induction false} Pow2Monotone(m: nat, n: nat)
    requires m <= n
    ensures 1 <= Pow2(m) <= Pow2(n)
    decreases n
  {
    if m < n {
      Pow2Monotone(m, n - 1);
    } else if m > 0 {
      Pow2Monotone(m - 1, n - 1);
    }
  }

  lemma MulMonotone(a: nat, x: nat, y: nat)
    requires x <= y
    ensures a * x <= a * y
  {
  }

  lemma BackoffMonotone(l: Ladder, m: nat, n: nat)
    requires m <= n
    ensures Backoff(l, m) <= Backoff(l, n)
  {
    var e, f := Min(SaturatingSub(m, 1), 16), Min(SaturatingSub(n, 1), 16);
    Pow2Monotone(e, f);
    MulMonotone(Millis(l.backoffMin), Pow2(e), Pow2(f));
  }

  lemma BackoffFloor(l: Ladder, n: nat)
    ensures Backoff(l, n) >= Min(Millis(l.backoffMin), Millis(l.backoffMax))
    ensures n <= 1 ==> Backoff(l, n) == Min(Millis(l.backoffMin), Millis(l.backoffMax))
  {
    var e := Min(SaturatingSub(n, 1), 16);
    Pow2Monotone(0, e);
    MulMonotone(Millis(l.backoffMin), 1, Pow2(e));
  }

  lemma DoubleUnderCap(m: nat, p: nat, cap: nat)
    requires cap <= USIZE_MAX
    ensures Min(SaturatingMul(m, 2 * p), cap) == Min(2 * Min(SaturatingMul(m, p), cap), cap)
  {
    var product := m * p;
    assert m * (2 * p) == 2 * product;
  }

  /** The documented law, `backoff_min * 2^(failures - 1)` capped at `backoff_max`, as a recurrence:
      it starts at the minimum, doubles up to the cap for sixteen steps, and is constant after. */
  lemma BackoffDoubles(l: Ladder, n: nat)
    requires n >= 1
    ensures Backoff(l, 1) == Min(Millis(l.backoffMin), Millis(l.backoffMax))
    ensures n <= 16 ==> Backoff(l, n + 1) == Min(2 * Backoff(l, n), Millis(l.backoffMax))
    ensures n > 16 ==> Backoff(l, n + 1) == Backoff(l, n)
  {
    BackoffFloor(l, 1);
    if n <= 16 {
      DoubleUnderCap(Millis(l.backoffMin), Pow2(n - 1), Millis(l.backoffMax));
    }
  }

  /** The same law in the durations' own terms: with `a` and `b` the whole milliseconds of the minimum
      and maximum that 64 bits keep, the first wait is the lesser of the two, and each of the next
      sixteen is twice the one before, or `b`. */
  lemma BackoffInMilliseconds(l: Ladder, v: nat, a: nat, x: nat, w: nat, b: nat, y: nat, n: nat)
    requires a < 0x1_0000_0000_0000_0000 && b < 0x1_0000_0000_0000_0000 && x < 1_000_000 && y < 1_000_000
    requires l.backoffMin == (v * 0x1_0000_0000_0000_0000 + a) * 1_000_000 + x
    requires l.backoffMax == (w * 0x1_0000_0000_0000_0000 + b) * 1_000_000 + y
    ensures Backoff(l, 0) == Backoff(l, 1) == (if a <= b then a else b)
    ensures 1 <= n <= 16 ==> Backoff(l, n + 1) == (if 2 * Backoff(l, n) <= b then 2 * Backoff(l, n) else b)
    ensures n >= 17 ==> Backoff(l, n) == Backoff(l, 17)
  {
    MillisOf(l.backoffMin, v, a, x);
    MillisOf(l.backoffMax, w, b, y);
    BackoffFloor(l, 0);
    BackoffFloor(l, 1);
    if 1 <= n <= 16 {
      BackoffDoubles(l, n);
    }
  }

  lemma MillisOf(d: nat, w: nat, m: nat, x: nat)
    requires m < 0x1_0000_0000_0000_0000 && x < 1_000_000
    requires d == (w * 0x1_0000_0000_0000_0000 + m) * 1_000_000 + x
    ensures Millis(d) == m
  {
    assert d / NANOS_PER_MILLI == w * 0x1_0000_0000_0000_0000 + m;
  }

  lemma BackoffNeverExceedsMax(l: Ladder, n: nat)
    ensures Backoff(l, n) * NANOS_PER_MILLI <= l.backoffMax
  {
  }

  /** What a caller can check: the minimum is a whole number of milliseconds and does not exceed the
      maximum once that is rounded down to milliseconds and cut to 64 bits. */
  predicate BackoffExpressible(l: Ladder) {
    l.backoffMin % NANOS_PER_MILLI == 0 && l.backoffMin / NANOS_PER_MILLI <= Millis(l.backoffMax)
  }

  /** The backoff stays at or above `backoff_min` exactly for those ladders. */
  lemma BackoffAtLeastMinIff(l: Ladder)
    ensures (forall n: nat :: Backoff(l, n) * NANOS_PER_MILLI >= l.backoffMin) <==> BackoffExpressible(l)
  {
    if BackoffExpressible(l) {
      forall n: nat ensures Backoff(l, n) * NANOS_PER_MILLI >= l.backoffMin {
        BackoffFloor(l, n);
      }
    }
    if forall n: nat :: Backoff(l, n) * NANOS_PER_MILLI >= l.backoffMin {
      BackoffFloor(l, 1);
      assert Backoff(l, 1) * NANOS_PER_MILLI >= l.backoffMin;
      assert Millis(l.backoffMin) <= l.backoffMin / NANOS_PER_MILLI;
    }
  }

  /** A validated ladder with a minimum of half a millisecond does not wait at all. */
  lemma SubMillisecondMinimumIsLost()
    ensures var l := Ladder(1, 3, 5, 10, 500_000, 1_000_000_000);
            ValidLadder(l) && Backoff(l, 1) == 0 && l.backoffMin > 0
  {
    BackoffFloor(Ladder(1, 3, 5, 10, 500_000, 1_000_000_000), 1);
  }
}
