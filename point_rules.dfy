/** The decisions `chargePoint` and `usePoint` take, as pure functions of the
    amount and of what the balance lookup found, and what follows from them. */
module PointRules {
  import opened JavaLong
  import opened PointConstant
  import opened PointEntities

  /** `canUsePoint` as written: the `long` difference is not negative. For a
      balance and an amount that are not negative it says the balance covers the amount. */
  predicate CanUsePointAsWritten(initPoint: Long, amount: Long): (r: bool)
    ensures 0 <= initPoint && 0 <= amount ==> (r <==> amount <= initPoint)
  {
    Wrap(initPoint - amount) >= 0
  }

  /** `canUsePoint` on the exact difference: the balance covers the amount.
      It agrees with the code as written wherever the subtraction does not wrap. */
  predicate CanUsePoint(initPoint: Long, amount: Long): (r: bool)
    ensures LONG_MIN <= initPoint - amount <= LONG_MAX ==> (r <==> CanUsePointAsWritten(initPoint, amount))
  {
    initPoint - amount >= 0
  }

  /** chargePoint's decision for a user whose lookup gave `current` (None: no
      account): the checks in the source's order, then the new balance.
      The sum is compared exactly, outside the `long` range (see ChargeRuleAsWritten). */
  function ChargeRule(current: Option<Long>, amount: Long): (r: Result<Long>)
    ensures r.Ok? ==> current.Some? && amount >= MIN_CHARGE_POINT
    ensures r.Ok? ==> r.value - current.value == amount && r.value <= MAX_POINT
  {
    if amount < MIN_CHARGE_POINT then Err(InvalidAmount)
    else if current.None? then Err(NotFound)
    else if current.value + amount > MAX_POINT then Err(LimitExceeded)
    else Ok(current.value + amount)
  }

  /** usePoint's decision for a user whose lookup gave `current`. The covering
      check and the floor check subtract exactly (see UseRuleAsWritten). */
  function UseRule(current: Option<Long>, amount: Long): (r: Result<Long>)
    ensures r.Ok? ==> current.Some? && amount >= MIN_USE_POINT
    ensures r.Ok? ==> current.value - r.value == amount && r.value >= MIN_POINT
  {
    if amount < MIN_USE_POINT then Err(InvalidAmount)
    else if current.None? then Err(NotFound)
    else if !CanUsePoint(current.value, amount) then Err(InsufficientFunds)
    else if current.value - amount < MIN_POINT then Err(FloorViolation)
    else Ok(current.value - amount)
  }

  /** chargePoint exactly as written: `point + amount` is a `long` addition,
      so it wraps around before it is compared with MAX_POINT and stored. */
  function ChargeRuleAsWritten(current: Option<Long>, amount: Long): (r: Result<Long>)
    ensures r.Ok? ==> current.Some? && amount >= MIN_CHARGE_POINT && r.value <= MAX_POINT
    ensures r.Ok? ==> (current.value + amount - r.value) % TWO_64 == 0
  {
    if amount < MIN_CHARGE_POINT then Err(InvalidAmount)
    else if current.None? then Err(NotFound)
    else
      var chargedPoint := Wrap(current.value + amount);
      if chargedPoint > MAX_POINT then Err(LimitExceeded) else Ok(chargedPoint)
  }

  /** usePoint exactly as written: `canUsePoint` and the floor check both work on
      the `long` difference `point - amount`, which wraps for a negative balance
      and a large enough amount. */
  function UseRuleAsWritten(current: Option<Long>, amount: Long): (r: Result<Long>)
    ensures r.Ok? ==> current.Some? && amount >= MIN_USE_POINT && r.value >= MIN_POINT
    ensures r.Ok? ==> (current.value - amount - r.value) % TWO_64 == 0
  {
    if amount < MIN_USE_POINT then Err(InvalidAmount)
    else if current.None? then Err(NotFound)
    else if !CanUsePointAsWritten(current.value, amount) then Err(InsufficientFunds)
    else
      var usedPoint := Wrap(current.value - amount);
      if usedPoint < MIN_POINT then Err(FloorViolation) else Ok(usedPoint)
  }

  // ---------------------------------------------------------------------------
  // One charge, one use

  /** Every outcome of a charge, in the source's order of checks: the amount is
      judged before the account is looked at, then existence, then the ceiling,
      which the new balance may reach but not pass. */
  lemma ChargeOutcomes(current: Option<Long>, amount: Long)
    ensures ChargeRule(current, amount) == Err(InvalidAmount) <==> amount < MIN_CHARGE_POINT
    ensures ChargeRule(current, amount) == Err(NotFound) <==> amount >= MIN_CHARGE_POINT && current.None?
    ensures ChargeRule(current, amount) == Err(LimitExceeded)
        <==> amount >= MIN_CHARGE_POINT && current.Some? && current.value + amount > MAX_POINT
    ensures ChargeRule(current, amount) == Ok(if current.Some? then current.value + amount else 0)
        <==> amount >= MIN_CHARGE_POINT && current.Some? && current.value + amount <= MAX_POINT
    ensures ChargeRule(current, amount).Err? ==> ChargeRule(current, amount).error in {InvalidAmount, NotFound, LimitExceeded}
  {
  }

  /** Every outcome of a use: amount first, then existence, then the plain
      covering check, then the floor, which the new balance may reach but not pass. */
  lemma UseOutcomes(current: Option<Long>, amount: Long)
    ensures UseRule(current, amount) == Err(InvalidAmount) <==> amount < MIN_USE_POINT
    ensures UseRule(current, amount) == Err(NotFound) <==> amount >= MIN_USE_POINT && current.None?
    ensures UseRule(current, amount) == Err(InsufficientFunds)
        <==> amount >= MIN_USE_POINT && current.Some? && current.value < amount
    ensures UseRule(current, amount) == Err(FloorViolation)
        <==> amount >= MIN_USE_POINT && current.Some? && amount <= current.value < amount + MIN_POINT
    ensures UseRule(current, amount) == Ok(if current.Some? then current.value - amount else 0)
        <==> amount >= MIN_USE_POINT && current.Some? && current.value - amount >= MIN_POINT
    ensures UseRule(current, amount).Err? ==> UseRule(current, amount).error != LimitExceeded
  {
  }

  /** The ceiling boundary: a charge that lands exactly on MAX_POINT succeeds;
      the same charge on a balance one point higher fails. */
  lemma ChargeLimitExact(balance: Long, amount: Long)
    requires amount >= MIN_CHARGE_POINT && balance == MAX_POINT - amount
    ensures ChargeRule(Some(balance), amount) == Ok(MAX_POINT)
    ensures ChargeRule(Some(balance + 1), amount) == Err(LimitExceeded)
  {
  }

  /** The floor boundary: a use that leaves exactly MIN_POINT succeeds, one
      point more fails on the floor (not for lack of funds). */
  lemma UseFloorExact(balance: Long, amount: Long)
    requires amount >= MIN_USE_POINT && balance == MIN_POINT + amount
    ensures UseRule(Some(balance), amount) == Ok(MIN_POINT)
    ensures UseRule(Some(balance), amount + 1) == Err(FloorViolation)
  {
  }

  /** Because MIN_POINT is positive, a use that clears the floor also passes
      `canUsePoint`: InsufficientFunds is reported exactly when the amount
      exceeds the balance, and never hides a floor case. */
  lemma FloorSubsumesCanUse(balance: Long, amount: Long)
    ensures balance - amount >= MIN_POINT ==> CanUsePoint(balance, amount)
    ensures amount >= 0 && balance - amount >= MIN_POINT ==> CanUsePointAsWritten(balance, amount)
    ensures amount >= MIN_USE_POINT ==>
      (UseRule(Some(balance), amount) == Err(InsufficientFunds) <==> amount > balance)
  {
  }

  /** A charge leaves the account within [MIN_POINT, MAX_POINT] when it started
      within [0, MAX_POINT]. */
  lemma ChargeKeepsRange(balance: Long, amount: Long)
    requires 0 <= balance <= MAX_POINT
    ensures ChargeRule(Some(balance), amount).Ok? ==>
      MIN_POINT <= ChargeRule(Some(balance), amount).value <= MAX_POINT
  {
  }

  /** A use leaves the account within [MIN_POINT, MAX_POINT] when it started
      at most MAX_POINT. */
  lemma UseKeepsRange(balance: Long, amount: Long)
    requires balance <= MAX_POINT
    ensures UseRule(Some(balance), amount).Ok? ==>
      MIN_POINT <= UseRule(Some(balance), amount).value <= MAX_POINT
  {
  }

  /** A successful charge of `amount` followed by a use of the same amount
      gives back the original balance whenever the original respected the floor;
      otherwise the use is refused and says why. */
  lemma ChargeThenUse(balance: Long, amount: Long)
    requires ChargeRule(Some(balance), amount).Ok?
    ensures UseRule(Some(ChargeRule(Some(balance), amount).value), amount)
      == if balance >= MIN_POINT then Ok(balance)
         else if balance >= 0 then Err(FloorViolation)
         else Err(InsufficientFunds)
  {
  }

  /** A successful use of `amount` followed by a charge of the same amount
      gives back the original balance whenever it respected the ceiling. */
  lemma UseThenCharge(balance: Long, amount: Long)
    requires UseRule(Some(balance), amount).Ok?
    ensures ChargeRule(Some(UseRule(Some(balance), amount).value), amount)
      == if balance <= MAX_POINT then Ok(balance) else Err(LimitExceeded)
  {
  }

  // ---------------------------------------------------------------------------
  // The `long` arithmetic of the source

  /** With a balance that is not negative, the subtractions of usePoint cannot
      wrap, so the exact arithmetic of UseRule is Java's. */
  lemma UseSubtractionExact(balance: Long, amount: Long)
    requires balance >= 0 && amount >= MIN_USE_POINT
    ensures Wrap(balance - amount) == balance - amount
  {
  }

  /** Where `point + amount` fits in a `long`, the code as written and the
      exact rule agree. */
  lemma ChargeAsWrittenAgrees(current: Option<Long>, amount: Long)
    requires current.Some? ==> current.value + amount <= LONG_MAX
    ensures ChargeRuleAsWritten(current, amount) == ChargeRule(current, amount)
  {
  }

  /** The code as written accepts every charge whose sum passes Long.MAX_VALUE:
      from any balance in [0, MAX_POINT] the wrapped sum is negative, passes the
      ceiling check and would be stored, where the exact rule refuses. */
  lemma ChargeOverflowStoresNegative(balance: Long, amount: Long)
    requires 0 <= balance <= MAX_POINT && amount > LONG_MAX - balance
    ensures ChargeRuleAsWritten(Some(balance), amount) == Ok(balance + amount - TWO_64)
    ensures balance + amount - TWO_64 < 0
    ensures ChargeRule(Some(balance), amount) == Err(LimitExceeded)
  {
  }

  /** The use as written and the exact rule agree exactly when `point - amount`
      does not wrap; it wraps only for a balance of -2 or less and an amount
      above balance + 2^63. */
  lemma UseAsWrittenAgrees(current: Option<Long>, amount: Long)
    ensures UseRuleAsWritten(current, amount) == UseRule(current, amount)
        <==> amount < MIN_USE_POINT || current.None? || current.value - amount >= LONG_MIN
    ensures current.Some? && current.value - amount < LONG_MIN ==>
        current.value <= -2 && amount > current.value + TWO_64 / 2
  {
  }

  /** A use of Long.MAX_VALUE on a balance of -2: as written the difference
      wraps to Long.MAX_VALUE, passes both checks and would be stored; the
      exact rule refuses for lack of funds. */
  lemma UseWrapExample()
    ensures UseRuleAsWritten(Some(-2), LONG_MAX) == Ok(LONG_MAX)
    ensures UseRule(Some(-2), LONG_MAX) == Err(InsufficientFunds)
  {
  }

  /** One concrete request that shows it: a charge of Long.MAX_VALUE on 1000. */
  lemma ChargeOverflowExample()
    ensures ChargeRuleAsWritten(Some(1000), LONG_MAX) == Ok(999 + LONG_MIN)
  {
  }
}
