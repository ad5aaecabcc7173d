/** The point service: one stored balance per user, an append-only history
    log, and the four operations over them. Each request runs as one atomic
    step; the service's lock only ever serialises them. */
module Service {
  import opened JavaLong
  import opened PointConstant
  import opened PointEntities
  import opened PointRules

  /** One call the service makes into its two repositories. */
  datatype RepoCall =
    | Select(id: Long)               // userPointRepository.selectById
    | Upsert(id: Long, point: Long)  // userPointRepository.insertOrUpdate
    | Record(entry: PointHistory)    // pointHistoryRepository.insert
    | SelectHistory(userId: Long)    // pointHistoryRepository.selectAllByUserId

  /** A record that a successful request could have written: its amount passed
      the minimum for its kind. */
  predicate Admissible(e: PointHistory)
  {
    match e.kind
    case CHARGE => e.amount >= MIN_CHARGE_POINT
    case USE => e.amount >= MIN_USE_POINT
  }

  class PointService {
    /** The user point repository: the balance of every existing account. */
    var userPoints: map<Long, Long>
    /** The point history repository: every record, in insertion order. */
    var histories: seq<PointHistory>
    /** Every repository call made so far, in order. */
    ghost var calls: seq<RepoCall>

    /** Records are numbered 1, 2, ... in insertion order, and each is admissible. */
    ghost predicate Valid()
      reads this
    {
      forall i :: 0 <= i < |histories| ==> histories[i].id == i + 1 && Admissible(histories[i])
    }

    /** Every stored balance lies within [0, MAX_POINT]. */
    ghost predicate Bounded()
      reads this
    {
      forall u :: u in userPoints ==> 0 <= userPoints[u] <= MAX_POINT
    }

    /** A service over the accounts `accounts`, with an empty history. */
    constructor (accounts: map<Long, Long>)
      ensures Valid()
      ensures userPoints == accounts && histories == [] && calls == []
    {
      userPoints := accounts;
      histories := [];
      calls := [];
    }

    // -------------------------------------------------------------------------
    // The repositories

    method SelectById(id: Long) returns (found: Option<Long>)
      modifies this`calls
      ensures found == Lookup(userPoints, id)
      ensures calls == old(calls) + [Select(id)]
    {
      found := Lookup(userPoints, id);
      calls := calls + [Select(id)];
    }

    method InsertOrUpdate(id: Long, point: Long) returns (p: UserPoint)
      modifies this`userPoints, this`calls
      ensures p == UserPoint(id, point)
      ensures userPoints == old(userPoints)[id := point]
      ensures calls == old(calls) + [Upsert(id, point)]
    {
      userPoints := userPoints[id := point];
      calls := calls + [Upsert(id, point)];
      p := UserPoint(id, point);
    }

    /** Appends a record under the next id. */
    method Insert(userId: Long, amount: Long, kind: TransactionType, updateMillis: int) returns (e: PointHistory)
      requires Valid()
      requires Admissible(PointHistory(|histories| + 1, userId, amount, kind, updateMillis))
      modifies this`histories, this`calls
      ensures Valid()
      ensures e == PointHistory(|old(histories)| + 1, userId, amount, kind, updateMillis)
      ensures histories == old(histories) + [e]
      ensures calls == old(calls) + [Record(e)]
      ensures forall u :: HistoryOf(histories, u) == HistoryOf(old(histories), u) + (if u == userId then [e] else [])
    {
      e := PointHistory(|histories| + 1, userId, amount, kind, updateMillis);
      forall u
        ensures HistoryOf(histories + [e], u) == HistoryOf(histories, u) + (if u == userId then [e] else [])
      {
        HistoryOfAppend(histories, e, u);
      }
      histories := histories + [e];
      calls := calls + [Record(e)];
    }

    method SelectAllByUserId(userId: Long) returns (list: seq<PointHistory>)
      modifies this`calls
      ensures list == HistoryOf(histories, userId)
      ensures calls == old(calls) + [SelectHistory(userId)]
    {
      list := HistoryOf(histories, userId);
      calls := calls + [SelectHistory(userId)];
    }

    // -------------------------------------------------------------------------
    // The service

    /** getUserPoint: the stored balance, or NotFound for an absent account.
        It reads the balance store once and changes nothing else. */
    method GetUserPoint(id: Long) returns (r: Result<UserPoint>)
      modifies this`calls
      ensures r == if id in userPoints then Ok(UserPoint(id, userPoints[id])) else Err(NotFound)
      ensures calls == old(calls) + [Select(id)]
    {
      var found := SelectById(id);
      if found.None? {
        return Err(NotFound);
      }
      return Ok(UserPoint(id, found.value));
    }

    /** getUserPointHistoryList: NotFound for an absent account (not an empty
        list); otherwise the user's records in commit order. */
    method GetUserPointHistoryList(id: Long) returns (r: Result<seq<PointHistory>>)
      requires Valid()
      modifies this`calls
      ensures id !in userPoints ==> r == Err(NotFound) && calls == old(calls) + [Select(id)]
      ensures id in userPoints ==>
        && r == Ok(HistoryOf(histories, id))
        && calls == old(calls) + [Select(id), SelectHistory(id)]
      ensures r.Ok? ==> IdsIncreasing(r.value)
      ensures r.Ok? ==> forall e :: e in histories && e.userId == id <==> e in r.value
    {
      var account := GetUserPoint(id);
      if account.Err? {
        return Err(account.error);
      }
      var list := SelectAllByUserId(id);
      HistoryOfInOrder(histories, id);
      HistoryOfMembers(histories, id);
      return Ok(list);
    }

    /** chargePoint: decides as ChargeRule does on what the store held; on
        success it writes the new balance and then appends one CHARGE record.
        A request refused for its amount touches no repository; any other
        refusal only reads. */
    method ChargePoint(id: Long, amount: Long, now: int) returns (r: Result<UserPoint>)
      requires Valid()
      modifies this
      ensures Valid()
      ensures var d := ChargeRule(Lookup(old(userPoints), id), amount);
        if d.Err? then
          && r == Err(d.error)
          && userPoints == old(userPoints) && histories == old(histories)
          && calls == old(calls) + (if amount < MIN_CHARGE_POINT then [] else [Select(id)])
        else
          var e := PointHistory(|old(histories)| + 1, id, amount, CHARGE, now);
          && r == Ok(UserPoint(id, d.value))
          && userPoints == old(userPoints)[id := d.value]
          && histories == old(histories) + [e]
          && HistoryOf(histories, id) == HistoryOf(old(histories), id) + [e]
          && calls == old(calls) + [Select(id), Upsert(id, d.value), Record(e)]
      ensures forall u :: u != id ==> HistoryOf(histories, u) == HistoryOf(old(histories), u)
      ensures old(Bounded()) ==> Bounded()
    {
      if amount < MIN_CHARGE_POINT {
        return Err(InvalidAmount);
      }
      var account := GetUserPoint(id);
      if account.Err? {
        return Err(account.error);
      }
      var userPoint := account.value;
      var chargedPoint: int := userPoint.point + amount;
      if chargedPoint > MAX_POINT {
        return Err(LimitExceeded);
      }
      var updated := InsertOrUpdate(id, chargedPoint);
      var recorded := Insert(id, amount, CHARGE, now);
      return Ok(updated);
    }

    /** usePoint: decides as UseRule does on what the store held; on success it
        writes the new balance and then appends one USE record. */
    method UsePoint(id: Long, amount: Long, now: int) returns (r: Result<UserPoint>)
      requires Valid()
      modifies this
      ensures Valid()
      ensures var d := UseRule(Lookup(old(userPoints), id), amount);
        if d.Err? then
          && r == Err(d.error)
          && userPoints == old(userPoints) && histories == old(histories)
          && calls == old(calls) + (if amount < MIN_USE_POINT then [] else [Select(id)])
        else
          var e := PointHistory(|old(histories)| + 1, id, amount, USE, now);
          && r == Ok(UserPoint(id, d.value))
          && userPoints == old(userPoints)[id := d.value]
          && histories == old(histories) + [e]
          && HistoryOf(histories, id) == HistoryOf(old(histories), id) + [e]
          && calls == old(calls) + [Select(id), Upsert(id, d.value), Record(e)]
      ensures forall u :: u != id ==> HistoryOf(histories, u) == HistoryOf(old(histories), u)
      ensures old(Bounded()) ==> Bounded()
    {
      if amount < MIN_USE_POINT {
        return Err(InvalidAmount);
      }
      var account := GetUserPoint(id);
      if account.Err? {
        return Err(account.error);
      }
      var userPoint := account.value;
      if !CanUsePoint(userPoint.point, amount) {
        return Err(InsufficientFunds);
      }
      var usedPoint: int := userPoint.point - amount;
      if usedPoint < MIN_POINT {
        return Err(FloorViolation);
      }
      var updated := InsertOrUpdate(id, usedPoint);
      var recorded := Insert(id, amount, USE, now);
      return Ok(updated);
    }
  }
}
