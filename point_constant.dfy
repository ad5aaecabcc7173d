/** The point limits that every rule of the service compares against. */
module PointConstant {
  /** Largest balance an account may hold after a charge. */
  const MAX_POINT: int := 100000
  /** Smallest balance an account may keep after a use. */
  const MIN_POINT: int := 100
  /** Smallest amount one charge may add. */
  const MIN_CHARGE_POINT: int := 100
  /** Smallest amount one use may take. */
  const MIN_USE_POINT: int := 100

  /** The use floor is positive and lies below the charge ceiling, so the
      balances a charge or a use may leave behind form a non-empty range. */
  lemma LimitsNonEmpty()
    ensures 0 < MIN_POINT <= MAX_POINT
    ensures 0 < MIN_CHARGE_POINT && 0 < MIN_USE_POINT
  {
  }
}
