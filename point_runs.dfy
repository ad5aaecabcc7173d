/** Sequences of charges and uses on one existing account, run one at a time:
    the sequential content of the service's concurrency tests, where every
    request locks the service and a refused request changes nothing. */
module PointRuns {
  import opened JavaLong
  import opened PointConstant
  import opened PointEntities
  import opened PointRules

  datatype Op = Charge(amount: Long) | Use(amount: Long)

  /** The decision one request takes on an account holding `balance`. */
  function Apply(balance: Long, op: Op): Result<Long>
  {
    match op
    case Charge(a) => ChargeRule(Some(balance), a)
    case Use(a) => UseRule(Some(balance), a)
  }

  /** The balance after one request: the new balance, or the old one if refused. */
  function Settle(balance: Long, op: Op): Long
  {
    var r := Apply(balance, op);
    if r.Ok? then r.value else balance
  }

  /** The balance after running `ops` in order. */
  function Run(balance: Long, ops: seq<Op>): Long
    decreases |ops|
  {
    if ops == [] then balance else Run(Settle(balance, ops[0]), ops[1..])
  }

  /** How many of `ops` succeed when run in order. */
  function Successes(balance: Long, ops: seq<Op>): (n: nat)
    ensures n <= |ops|
    decreases |ops|
  {
    if ops == [] then 0
    else (if Apply(balance, ops[0]).Ok? then 1 else 0) + Successes(Settle(balance, ops[0]), ops[1..])
  }

  /** Every one of `ops` succeeds when run in order. */
  predicate AllSucceed(balance: Long, ops: seq<Op>)
    decreases |ops|
  {
    ops == [] || (Apply(balance, ops[0]).Ok? && AllSucceed(Settle(balance, ops[0]), ops[1..]))
  }

  /** What `ops` would add to a balance if all of them succeeded. */
  function Net(ops: seq<Op>): int
    decreases |ops|
  {
    if ops == [] then 0
    else
      var change: int := match ops[0] case Charge(a) => a case Use(a) => 0 - (a as int);
      change + Net(ops[1..])
  }

  /** `n` copies of the same request. */
  function Repeat(op: Op, n: nat): (ops: seq<Op>)
    ensures |ops| == n
    ensures forall i :: 0 <= i < n ==> ops[i] == op
  {
    if n == 0 then [] else [op] + Repeat(op, n - 1)
  }

  /** No sequence of requests leads an account that starts within
      [0, MAX_POINT] out of that range, whichever of them are refused. */
  lemma {:induction false} RunStaysInRange(balance: Long, ops: seq<Op>)
    requires 0 <= balance <= MAX_POINT
    ensures 0 <= Run(balance, ops) <= MAX_POINT
    decreases |ops|
  {
    if ops != [] {
      var op := ops[0];
      match op {
        case Charge(a) => ChargeKeepsRange(balance, a);
        case Use(a) => UseKeepsRange(balance, a);
      }
      RunStaysInRange(Settle(balance, op), ops[1..]);
    }
  }

  /** The account invariant of charged accounts: a balance within
      [MIN_POINT, MAX_POINT] stays there under any sequence of requests. */
  lemma {:induction false} RunStaysWithinLimits(balance: Long, ops: seq<Op>)
    requires MIN_POINT <= balance <= MAX_POINT
    ensures MIN_POINT <= Run(balance, ops) <= MAX_POINT
    decreases |ops|
  {
    if ops != [] {
      var op := ops[0];
      match op {
        case Charge(a) => ChargeKeepsRange(balance, a);
        case Use(a) => UseKeepsRange(balance, a);
      }
      RunStaysWithinLimits(Settle(balance, op), ops[1..]);
    }
  }

  /** Running two sequences one after the other is running their concatenation. */
  lemma {:induction false} RunAppend(balance: Long, xs: seq<Op>, ys: seq<Op>)
    ensures Run(balance, xs + ys) == Run(Run(balance, xs), ys)
    ensures Successes(balance, xs + ys) == Successes(balance, xs) + Successes(Run(balance, xs), ys)
    decreases |xs|
  {
    if xs == [] {
      assert xs + ys == ys;
    } else {
      assert (xs + ys)[0] == xs[0] && (xs + ys)[1..] == xs[1..] + ys;
      RunAppend(Settle(balance, xs[0]), xs[1..], ys);
    }
  }

  /** When every request succeeds, no update is lost: the final balance is the
      start plus all charges minus all uses, and every request counts once. */
  lemma {:induction false} RunAllSucceed(balance: Long, ops: seq<Op>)
    requires AllSucceed(balance, ops)
    ensures Run(balance, ops) == balance + Net(ops)
    ensures Successes(balance, ops) == |ops|
    decreases |ops|
  {
    if ops != [] {
      RunAllSucceed(Settle(balance, ops[0]), ops[1..]);
    }
  }

  /** Net-zero interleaving: when every request succeeds and the charges and the
      uses add up to the same amount, the balance ends where it started. */
  lemma NetZeroRestores(balance: Long, ops: seq<Op>)
    requires AllSucceed(balance, ops) && Net(ops) == 0
    ensures Run(balance, ops) == balance
  {
    RunAllSucceed(balance, ops);
  }

  /** `n` charges of `amount` all succeed while the total stays within the
      ceiling, and add exactly `n * amount`. */
  lemma {:induction false} RepeatedCharge(balance: Long, amount: Long, n: nat)
    requires amount >= MIN_CHARGE_POINT && balance + n * amount <= MAX_POINT
    ensures Successes(balance, Repeat(Charge(amount), n)) == n
    ensures Run(balance, Repeat(Charge(amount), n)) == balance + n * amount
    decreases n
  {
    if n > 0 {
      var ops := Repeat(Charge(amount), n);
      assert ops[1..] == Repeat(Charge(amount), n - 1);
      assert n * amount == (n - 1) * amount + amount;
      RepeatedCharge(balance + amount, amount, n - 1);
    }
  }

  /** `n` uses of `amount` from `balance`: exactly the first `k` succeed, where
      `k` is the number the floor allows (or all `n`), and the rest are refused. */
  lemma {:induction false} RepeatedUse(balance: Long, amount: Long, n: nat, k: nat)
    requires amount >= MIN_USE_POINT && k <= n
    requires balance - k * amount >= MIN_POINT
    requires k == n || balance - (k + 1) * amount < MIN_POINT
    ensures Successes(balance, Repeat(Use(amount), n)) == k
    ensures Run(balance, Repeat(Use(amount), n)) == balance - k * amount
    decreases n
  {
    if n > 0 {
      var ops := Repeat(Use(amount), n);
      assert ops[1..] == Repeat(Use(amount), n - 1);
      if k > 0 {
        var spent := (k - 1) * amount;
        assert 0 <= spent && k * amount == spent + amount && (k + 1) * amount == spent + 2 * amount by {
          MulStep(k - 1, amount);
          MulStep(k, amount);
        }
        var next: Long := balance - amount;
        assert UseRule(Some(balance), amount) == Ok(next);
        RepeatedUse(next, amount, n - 1, k - 1);
      } else {
        assert balance - amount < MIN_POINT;
        assert UseRule(Some(balance), amount).Err?;
        RepeatedUse(balance, amount, n - 1, 0);
      }
    }
  }

  /** Products as the proofs above need them, stated once. */
  lemma MulStep(k: int, a: int)
    ensures (k + 1) * a == k * a + a
    ensures 0 <= k && 0 <= a ==> 0 <= k * a
  {
  }

  /** Net zero needs every request to succeed: ten uses of 500 on 5000 run
      before ten charges of 500 refuse the tenth use (it would leave 0), so the
      account ends at 5500, not 5000. */
  lemma NetZeroCanFail()
    ensures Successes(5000, Repeat(Use(500), 10) + Repeat(Charge(500), 10)) == 19
    ensures Run(5000, Repeat(Use(500), 10) + Repeat(Charge(500), 10)) == 5500
  {
    RepeatedUse(5000, 500, 10, 9);
    RepeatedCharge(500, 500, 10);
    RunAppend(5000, Repeat(Use(500), 10), Repeat(Charge(500), 10));
  }

  /** Ten charges of 100 on 1000 end at exactly 2000, ten records' worth. */
  lemma TenChargesOfHundred()
    ensures Successes(1000, Repeat(Charge(100), 10)) == 10
    ensures Run(1000, Repeat(Charge(100), 10)) == 2000
  {
    RepeatedCharge(1000, 100, 10);
  }

  /** Ten uses of 100 on 10000 end at exactly 9000. */
  lemma TenUsesOfHundred()
    ensures Successes(10000, Repeat(Use(100), 10)) == 10
    ensures Run(10000, Repeat(Use(100), 10)) == 9000
  {
    RepeatedUse(10000, 100, 10, 10);
  }

  /** Ten uses of 2000 on 10000: since the floor keeps MIN_POINT back, only four
      succeed, leaving 2000; the fifth would leave 0. The requests are all alike,
      so every order of running them gives this. */
  lemma TenUsesOfTwoThousand()
    ensures Successes(10000, Repeat(Use(2000), 10)) == 4
    ensures Run(10000, Repeat(Use(2000), 10)) == 2000
  {
    RepeatedUse(10000, 2000, 10, 4);
  }
}
