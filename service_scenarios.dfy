/** The service's unit-test scenarios, replayed through the class's contracts. */
module ServiceScenarios {
  import opened PointConstant
  import opened PointEntities
  import opened PointRules
  import opened Service

  /** A charge below the minimum fails for a user no store knows, and the
      service makes no repository call at all. */
  method ChargeBelowMinimum() returns (r: Result<UserPoint>, untouched: bool)
    ensures r == Err(InvalidAmount) && untouched
  {
    var s := new PointService(map[]);
    r := s.ChargePoint(1, MIN_CHARGE_POINT - 1, 0);
    untouched := s.histories == [] && s.userPoints == map[];
    assert s.calls == [];
  }

  /** History of an unknown user is NotFound, not an empty list. */
  method HistoryOfUnknownUser() returns (r: Result<seq<PointHistory>>)
    ensures r == Err(NotFound)
  {
    var s := new PointService(map[1 := 1500]);
    r := s.GetUserPointHistoryList(100);
  }

  /** A charge of 1000 on MAX_POINT - 500 is refused and leaves the balance. */
  method ChargeOverMaximum() returns (r: Result<UserPoint>, balance: Result<UserPoint>)
    ensures r == Err(LimitExceeded)
    ensures balance == Ok(UserPoint(1, MAX_POINT - 500))
  {
    var s := new PointService(map[1 := MAX_POINT - 500]);
    r := s.ChargePoint(1, 1000, 0);
    balance := s.GetUserPoint(1);
  }

  /** A use of 500 on 100 is refused for lack of funds. */
  method UseInsufficient() returns (r: Result<UserPoint>)
    ensures r == Err(InsufficientFunds)
  {
    var s := new PointService(map[1 := 100]);
    r := s.UsePoint(1, 500, 0);
  }

  /** A use of 990 on 1000 would leave 10, below the floor. */
  method UseBelowFloor() returns (r: Result<UserPoint>)
    ensures r == Err(FloorViolation)
  {
    var s := new PointService(map[1 := 1000]);
    r := s.UsePoint(1, 990, 0);
  }

  /** Charge 500 then use 500 on 2000: each returns the new balance. */
  method ChargeThenUse() returns (charged: Result<UserPoint>, used: Result<UserPoint>)
    ensures charged == Ok(UserPoint(1, 2500)) && used == Ok(UserPoint(1, 2000))
  {
    var s := new PointService(map[1 := 2000, 2 := 300]);
    assert ChargeRule(Some(2000), 500) == Ok(2500);
    charged := s.ChargePoint(1, 500, 10);
    assert s.userPoints[1] == 2500;
    assert UseRule(Some(2500), 500) == Ok(2000);
    used := s.UsePoint(1, 500, 20);
  }
}
