/** The values the service reads and writes: balances, history records, errors,
    and the per-user view of the history log. */
module PointEntities {
  import opened JavaLong

  datatype TransactionType = CHARGE | USE

  /** A user's stored balance. */
  datatype UserPoint = UserPoint(id: Long, point: Long)

  /** One history record: the id the history store assigns, the owner, the
      requested amount, its kind and the time it was written. */
  datatype PointHistory = PointHistory(id: int, userId: Long, amount: Long, kind: TransactionType, updateMillis: int)

  /** The distinct reasons an operation refuses; each stands for one exception of the service. */
  datatype Error = NotFound | InvalidAmount | LimitExceeded | InsufficientFunds | FloorViolation

  datatype Option<T> = None | Some(value: T)

  datatype Result<T> = Ok(value: T) | Err(error: Error)

  /** What `selectById` finds in the balance store. */
  function Lookup(store: map<Long, Long>, id: Long): (r: Option<Long>)
    ensures r.Some? <==> id in store
    ensures r.Some? ==> r.value == store[id]
  {
    if id in store then Some(store[id]) else None
  }

  /** The records of `userId`, in the order they stand in the global log. */
  function HistoryOf(log: seq<PointHistory>, userId: Long): (r: seq<PointHistory>)
    ensures |r| <= |log|
  {
    if log == [] then []
    else
      var last := log[|log| - 1];
      HistoryOf(log[..|log| - 1], userId) + (if last.userId == userId then [last] else [])
  }

  /** A user's history holds exactly that user's records of the log. */
  lemma {:induction false} HistoryOfMembers(log: seq<PointHistory>, userId: Long)
    ensures forall e :: e in HistoryOf(log, userId) <==> e in log && e.userId == userId
  {
    if log != [] {
      var front, last := log[..|log| - 1], log[|log| - 1];
      assert log == front + [last];
      HistoryOfMembers(front, userId);
    }
  }

  /** Appending one record to the log adds it to its owner's history, at the
      end, and leaves every other user's history as it was. */
  lemma HistoryOfAppend(log: seq<PointHistory>, e: PointHistory, userId: Long)
    ensures HistoryOf(log + [e], userId) == HistoryOf(log, userId) + (if e.userId == userId then [e] else [])
  {
  }

  /** The ids of `log` increase strictly from front to back. */
  ghost predicate IdsIncreasing(log: seq<PointHistory>)
  {
    forall i, j :: 0 <= i < j < |log| ==> log[i].id < log[j].id
  }

  /** Appending a record whose id exceeds every id already present keeps the ids increasing. */
  lemma AppendIncreasing(h: seq<PointHistory>, e: PointHistory)
    requires IdsIncreasing(h)
    requires forall x :: x in h ==> x.id < e.id
    ensures IdsIncreasing(h + [e])
  {
  }

  /** A user's history keeps commit order: when the log's ids increase, so do the
      ids of the filtered history (and hence it holds no record twice). */
  lemma {:induction false} HistoryOfInOrder(log: seq<PointHistory>, userId: Long)
    requires IdsIncreasing(log)
    ensures IdsIncreasing(HistoryOf(log, userId))
  {
    if log != [] {
      var n := |log| - 1;
      var front, last := log[..n], log[n];
      assert log == front + [last];
      HistoryOfInOrder(front, userId);
      HistoryOfMembers(front, userId);
      if last.userId == userId {
        forall x | x in front
          ensures x.id < last.id
        {
          var i :| 0 <= i < n && front[i] == x;
        }
        AppendIncreasing(HistoryOf(front, userId), last);
      }
    }
  }
}
