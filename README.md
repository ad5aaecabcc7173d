# Point balance service — a Dafny model

This project models the point service of a small Spring application. The
service keeps one integer point balance per user and an append-only history
of CHARGE and USE records. It offers four operations:

- `getUserPoint` reads a balance.
- `getUserPointHistoryList` reads a user's records.
- `chargePoint` adds points, up to a ceiling of 100000.
- `usePoint` takes points away. It refuses when the amount exceeds the
  balance, and also when the use would leave less than 100.

Each refusal in the source is a `RuntimeException` with a message. Here each
one is a distinct `Error` value: `NotFound`, `InvalidAmount`, `LimitExceeded`,
`InsufficientFunds`, `FloorViolation`.

The model is split into modules:

- `JavaLong` (`java_long.dfy`): the range of Java's `long` and its
  wrap-around.
- `PointConstant` (`point_constant.dfy`): the four limits.
- `PointEntities` (`point_entities.dfy`): the stored records, the result
  type, and `HistoryOf`. `HistoryOf` is the per-user view of the history log:
  a filter over the global log that keeps its order.
- `PointRules` (`point_rules.dfy`): the charge and use decisions as pure
  functions of the amount and of what the balance lookup found, with their
  properties. It also holds the charge and use decisions exactly as the Java
  code computes them, in `long` arithmetic (see Findings).
- `PointRuns` (`point_runs.dfy`): sequences of requests run one after
  another on one account. This is the sequential content of the
  concurrency tests.
- `Service` (`point_service.dfy`): class `PointService`. Its field
  `userPoints` is the user point repository and its field `histories` is the
  point history repository. Its methods make the source's repository calls in
the source's order. They decide with the exact arithmetic of `ChargeRule` and
`UseRule` rather than Java's wrapping `long` arithmetic (see Findings). A
  ghost field `calls` records every repository call in order, so the
  contracts can say what is checked before what is written.
- `ServiceScenarios` (`service_scenarios.dfy`): the unit tests' scenarios,
  replayed through the class's contracts.

Each mutating method's `ensures` ties its result and new state to
`ChargeRule`/`UseRule` applied to the old state. The properties of those
rules are proved as lemmas.

## Model

| member | source | states |
|---|---|---|
| `JavaLong.Wrap` | src/main/java/io/hhplus/tdd/point/service/PointService.java:59 | the `long` value Java yields for an exact result: in the `long` range, equal to it when it fits, otherwise off by a multiple of 2^64 |
| `PointConstant.LimitsNonEmpty` | src/main/java/io/hhplus/tdd/point/PointConstant.java:6-15 | 0 < MIN_POINT <= MAX_POINT and both request minimums are positive, so the allowed balances form a non-empty range |
| `PointEntities.Lookup` | src/main/java/io/hhplus/tdd/point/service/PointService.java:27-29 | what `selectById` and the null check give: Some of the stored balance iff the account is in the store, None otherwise |
| `PointEntities.HistoryOf` | src/main/java/io/hhplus/tdd/point/service/PointService.java:43 | a user's records never outnumber the log's |
| `PointEntities.HistoryOfMembers` | src/main/java/io/hhplus/tdd/point/service/PointService.java:43 | a record is in a user's history iff it is in the log and belongs to that user |
| `PointEntities.HistoryOfAppend` | src/main/java/io/hhplus/tdd/point/service/PointService.java:69 | appending one record adds it at the end of its owner's history and leaves every other user's history unchanged |
| `PointEntities.HistoryOfInOrder` | src/main/java/io/hhplus/tdd/point/service/PointService.java:41-44 | when log ids increase, a user's history has increasing ids: commit order, no duplicates |
| `PointEntities.AppendIncreasing` | src/main/java/io/hhplus/tdd/point/service/PointService.java:69 | a record with a larger id than all present keeps ids increasing |
| `PointRules.CanUsePointAsWritten` | src/main/java/io/hhplus/tdd/point/service/PointService.java:112-114 | `canUsePoint` on the wrapping `long` difference; for a non-negative balance and amount it holds iff the amount is at most the balance |
| `PointRules.CanUsePoint` | src/main/java/io/hhplus/tdd/point/service/PointService.java:112-114 | the covering check on the exact difference; agrees with the code as written wherever the subtraction does not wrap |
| `PointRules.ChargeRule` | src/main/java/io/hhplus/tdd/point/service/PointService.java:52-72 | a charge succeeds only for an existing account and an amount >= MIN_CHARGE_POINT; the new balance is the old one plus the amount and at most MAX_POINT |
| `PointRules.UseRule` | src/main/java/io/hhplus/tdd/point/service/PointService.java:80-104 | a use succeeds only for an existing account and an amount >= MIN_USE_POINT; the new balance is the old one minus the amount and at least MIN_POINT |
| `PointRules.ChargeRuleAsWritten` | src/main/java/io/hhplus/tdd/point/service/PointService.java:53-64 | chargePoint as written: a success needs an existing account and an amount >= MIN_CHARGE_POINT; the stored value is at most MAX_POINT and equals old + amount modulo 2^64 |
| `PointRules.UseRuleAsWritten` | src/main/java/io/hhplus/tdd/point/service/PointService.java:81-96 | usePoint as written: a success needs an existing account and an amount >= MIN_USE_POINT; the stored value is at least MIN_POINT and equals old - amount modulo 2^64 |
| `PointRules.ChargeOutcomes` | src/main/java/io/hhplus/tdd/point/service/PointService.java:53-64 | each charge outcome iff its condition: InvalidAmount iff amount < 100, whatever the account (checked before the lookup); NotFound iff the account is absent; LimitExceeded iff old + amount > MAX_POINT; success otherwise; no other error |
| `PointRules.UseOutcomes` | src/main/java/io/hhplus/tdd/point/service/PointService.java:81-96 | each use outcome iff its condition: InvalidAmount iff amount < 100 (before the lookup); NotFound iff absent; InsufficientFunds iff balance < amount; FloorViolation iff amount <= balance < amount + MIN_POINT; success otherwise; never LimitExceeded |
| `PointRules.ChargeLimitExact` | src/main/java/io/hhplus/tdd/point/service/PointService.java:59-62 | landing exactly on MAX_POINT succeeds; the same charge from one point higher fails LimitExceeded |
| `PointRules.UseFloorExact` | src/main/java/io/hhplus/tdd/point/service/PointService.java:91-94 | leaving exactly MIN_POINT succeeds; one point more fails FloorViolation |
| `PointRules.FloorSubsumesCanUse` | src/main/java/io/hhplus/tdd/point/service/PointService.java:87-93 | passing the floor check implies `canUsePoint`, both on the exact difference and as written; InsufficientFunds is reported exactly when the amount exceeds the balance |
| `PointRules.ChargeKeepsRange` | src/main/java/io/hhplus/tdd/point/service/PointService.java:59-64 | from a balance in [0, MAX_POINT], a successful charge lands in [MIN_POINT, MAX_POINT] |
| `PointRules.UseKeepsRange` | src/main/java/io/hhplus/tdd/point/service/PointService.java:91-96 | from a balance <= MAX_POINT, a successful use lands in [MIN_POINT, MAX_POINT] |
| `PointRules.ChargeThenUse` | src/main/java/io/hhplus/tdd/point/service/PointService.java:59-96 | after a successful charge of a, a use of a restores the original balance if it was >= MIN_POINT; otherwise the use fails FloorViolation, or InsufficientFunds if the balance was negative |
| `PointRules.UseThenCharge` | src/main/java/io/hhplus/tdd/point/service/PointService.java:59-96 | after a successful use of a, a charge of a restores the original balance if it was <= MAX_POINT, else fails LimitExceeded |
| `PointRules.UseSubtractionExact` | src/main/java/io/hhplus/tdd/point/service/PointService.java:112-114 | for a non-negative balance and a valid amount, Java's `long` subtraction in `canUsePoint` and at line 91 does not wrap |
| `PointRules.ChargeAsWrittenAgrees` | src/main/java/io/hhplus/tdd/point/service/PointService.java:59-64 | where `point + amount` fits in a `long`, the code as written decides exactly as `ChargeRule` |
| `PointRules.ChargeOverflowStoresNegative` | src/main/java/io/hhplus/tdd/point/service/PointService.java:59-64 | from any balance in [0, MAX_POINT], a charge whose sum passes Long.MAX_VALUE is accepted as written with a negative new balance, where `ChargeRule` refuses it |
| `PointRules.ChargeOverflowExample` | src/main/java/io/hhplus/tdd/point/service/PointService.java:59-64 | on balance 1000, a charge of Long.MAX_VALUE as written succeeds with balance 999 + Long.MIN_VALUE |
| `PointRules.UseAsWrittenAgrees` | src/main/java/io/hhplus/tdd/point/service/PointService.java:87-96 | usePoint as written and `UseRule` agree iff the amount is refused first, the account is absent, or `point - amount` does not wrap; it wraps only for a balance <= -2 and an amount above balance + 2^63 |
| `PointRules.UseWrapExample` | src/main/java/io/hhplus/tdd/point/service/PointService.java:87-96 | on balance -2, a use of Long.MAX_VALUE as written succeeds with Long.MAX_VALUE; `UseRule` refuses it with InsufficientFunds |
| `PointRuns.RunStaysInRange` | src/main/java/io/hhplus/tdd/point/service/PointService.java:52-104 | any sequence of charges and uses keeps an account that starts in [0, MAX_POINT] inside that range, whichever requests fail |
| `PointRuns.RunStaysWithinLimits` | src/main/java/io/hhplus/tdd/point/service/PointService.java:52-104 | any sequence of charges and uses keeps an account that starts in [MIN_POINT, MAX_POINT] inside that range |
| `PointRuns.RunAppend` | src/main/java/io/hhplus/tdd/point/service/PointService.java:52-104 | running two request sequences one after the other is running their concatenation, for the balance and for the success count |
| `PointRuns.RunAllSucceed` | src/test/java/io/hhplus/tdd/point/service/PointServiceConcurrencyTest.java:119-153 | when every request succeeds, the final balance is the start plus all charges minus all uses (no lost update), and every request counts once |
| `PointRuns.NetZeroRestores` | src/test/java/io/hhplus/tdd/point/service/PointServiceConcurrencyTest.java:119-153 | when every request succeeds and charges and uses total the same, the balance ends where it started |
| `PointRuns.NetZeroCanFail` | src/test/java/io/hhplus/tdd/point/service/PointServiceConcurrencyTest.java:119-153 | ten uses of 500 on 5000 run before ten charges of 500: 19 succeed and the account ends at 5500, so net zero needs every request to succeed |
| `PointRuns.RepeatedCharge` | src/test/java/io/hhplus/tdd/point/service/PointServiceConcurrencyTest.java:23-50 | n charges of a that stay under the ceiling all succeed and add n * a |
| `PointRuns.RepeatedUse` | src/test/java/io/hhplus/tdd/point/service/PointServiceConcurrencyTest.java:52-116 | n uses of a succeed exactly k times, where k is the number the floor allows, leaving balance - k * a |
| `PointRuns.TenChargesOfHundred` | src/test/java/io/hhplus/tdd/point/service/PointServiceConcurrencyTest.java:23-50 | ten charges of 100 on 1000 all succeed and end at 2000 |
| `PointRuns.TenUsesOfHundred` | src/test/java/io/hhplus/tdd/point/service/PointServiceConcurrencyTest.java:52-79 | ten uses of 100 on 10000 all succeed and end at 9000 |
| `PointRuns.TenUsesOfTwoThousand` | src/test/java/io/hhplus/tdd/point/service/PointServiceConcurrencyTest.java:81-116 | ten uses of 2000 on 10000: four succeed, leaving 2000, in every order |
| `Service.PointService.constructor` | src/main/java/io/hhplus/tdd/point/service/PointService.java:16-19 | a service over given accounts with an empty history and no repository calls yet |
| `Service.PointService.SelectById` | src/main/java/io/hhplus/tdd/point/repository/UserPointRepository.java:7 | the stored balance, or None for an absent account; records one read |
| `Service.PointService.InsertOrUpdate` | src/main/java/io/hhplus/tdd/point/repository/UserPointRepository.java:9 | replaces that user's balance only; returns the stored value; records one write |
| `Service.PointService.Insert` | src/main/java/io/hhplus/tdd/point/service/PointService.java:69 | appends exactly one record under the next id; only its owner's history grows |
| `Service.PointService.SelectAllByUserId` | src/main/java/io/hhplus/tdd/point/service/PointService.java:43 | returns the user's records in log order; records one history read |
| `Service.PointService.GetUserPoint` | src/main/java/io/hhplus/tdd/point/service/PointService.java:26-34 | the stored balance for an existing account, NotFound for an absent one; one read, no write |
| `Service.PointService.GetUserPointHistoryList` | src/main/java/io/hhplus/tdd/point/service/PointService.java:41-44 | NotFound (not an empty list) for an absent account, with no history read; otherwise exactly the user's records, in commit order |
| `Service.PointService.ChargePoint` | src/main/java/io/hhplus/tdd/point/service/PointService.java:52-72 | outcome as `ChargeRule` on the old balance; a refusal changes neither store; InvalidAmount makes no repository call and other refusals only read; a success writes old + amount, then appends one CHARGE record with the requested amount, user and time; no other user's balance or records change; stored balances stay in [0, MAX_POINT] |
| `Service.PointService.UsePoint` | src/main/java/io/hhplus/tdd/point/service/PointService.java:80-104 | outcome as `UseRule` on the old balance; same ordering and frame as ChargePoint with a USE record and the new balance old - amount >= MIN_POINT |
| `ServiceScenarios.ChargeBelowMinimum` | src/test/java/io/hhplus/tdd/point/service/PointServiceTest.java:156-167 | a charge of 99 for a user no store knows fails InvalidAmount and leaves both stores empty |
| `ServiceScenarios.HistoryOfUnknownUser` | src/test/java/io/hhplus/tdd/point/service/PointServiceTest.java:86-96 | history of an unknown user fails NotFound |
| `ServiceScenarios.ChargeOverMaximum` | src/test/java/io/hhplus/tdd/point/service/PointServiceTest.java:169-183 | a charge of 1000 on MAX_POINT - 500 fails LimitExceeded and the balance stays |
| `ServiceScenarios.UseInsufficient` | src/test/java/io/hhplus/tdd/point/service/PointServiceTest.java:137-153 | a use of 500 on 100 fails InsufficientFunds |
| `ServiceScenarios.UseBelowFloor` | src/test/java/io/hhplus/tdd/point/service/PointServiceTest.java:198-212 | a use of 990 on 1000 fails FloorViolation |
| `ServiceScenarios.ChargeThenUse` | src/test/java/io/hhplus/tdd/point/service/PointServiceTest.java:98-135 | charging 500 on 2000 returns 2500, and using 500 then returns 2000 |

## Left out

- The `synchronized` keyword on `chargePoint` and `usePoint`, and thread pools. The model runs each request as one atomic step in some order. `PointRuns` covers sequences of requests; interleaving itself is not modelled.
- `PointController` and `ApiControllerAdvice`: HTTP routing and the mapping of every exception to status 500.
- `System.currentTimeMillis()`: the time is the parameter `now` of `ChargePoint` and `UsePoint`.
- The `updatedUserPoint == null` branches (PointService.java:65-67, :97-99). A map-backed store always returns the value it wrote, so these branches cannot arise.
- The update timestamp inside `UserPoint`. It is set inside `insertOrUpdate`, whose implementation is not part of this model.
- The implementations of both repositories and the entity classes are not part of this model. The history store's ids are modelled as 1, 2, ... in insertion order. The query by user is modelled as an order-preserving filter over the log.
- The exception message texts. Each is replaced by its `Error` value.
- The in-memory tables' behaviour for an unknown id is not part of this model. The model follows the service's own null check: an absent account is `NotFound` for every operation.
- PointServiceConcurrencyTest.java:112-115 expects five successes and five failures for ten uses of 2000 on 10000. Under the service's rules every serialisation gives four successes (`PointRuns.TenUsesOfTwoThousand`): the fifth use would leave 0, below MIN_POINT. The model states what the rules give, not that assertion.
- The net-zero test (PointServiceConcurrencyTest.java:119-153) holds only in serialisations where every request succeeds. If all ten uses of 500 on 5000 run before the charges, the tenth use is refused and the account ends at 5500 (`PointRuns.NetZeroCanFail`). `PointRuns.NetZeroRestores` therefore assumes every request succeeds.
- PointRules.UseRule: subtracts exactly rather than in `long` arithmetic. It agrees with the code as written unless the stored balance is -2 or less and the amount exceeds balance + 2^63 (`PointRules.UseAsWrittenAgrees`, `PointRules.UseWrapExample`). A balance that low can come from the charge overflow below, or from the initial store contents, which the constructor does not restrict.
- Service.PointService.UsePoint: decides as `PointRules.UseRule`, so it differs from the code as written in exactly the cases of the line above.
- Service.PointService.ChargePoint: decides with the exact sum of `ChargeRule`, not the wrapping `long` sum of the code as written. See Findings.

## Findings

| source | as written | input that shows it | evidently intended | confidence | as-written member | corrected member |
|---|---|---|---|---|---|---|
| src/main/java/io/hhplus/tdd/point/service/PointService.java:59-64 | `userPoint.point() + amount` is a `long` addition. It wraps before the `> MAX_POINT` check, and the wrapped value is stored. The amount is any `long` taken from the request body. | balance 1000, amount 9223372036854775807 (Long.MAX_VALUE): the sum wraps to -9223372036854774809. That value passes the ceiling check and is stored as the new balance, and a CHARGE record is appended. | every charge whose true sum exceeds MAX_POINT fails LimitExceeded | not executed | `PointRules.ChargeRuleAsWritten`, exhibited by `PointRules.ChargeOverflowStoresNegative` and `PointRules.ChargeOverflowExample` | `PointRules.ChargeRule`, proved by `PointRules.ChargeOutcomes` and `PointRules.ChargeLimitExact`; used by `Service.PointService.ChargePoint` |
