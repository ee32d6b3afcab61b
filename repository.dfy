// The SQLite repository as an in-memory table store: one sequence of rows per
// table and one AUTOINCREMENT counter per table. Each method models the one SQL
// statement the repository issues; a driver failure is the `fail` argument.

module Repository {
  import opened Models

  /** Any error the database driver reports (connection, lock, disk, scan). */
  datatype DbError = DriverError

  datatype Result<T> = Ok(value: T) | Err(error: DbError)

  // ---------------------------------------------------------------------------
  // SELECT ... FROM bills WHERE id = ?

  /** The first row whose id is `id`, or None when no row has it (sql.ErrNoRows). */
  function BillWithId(rows: seq<Bill>, id: int): (r: Option<Bill>)
    ensures r.Some? ==> r.value in rows && r.value.id == id
    ensures r.None? <==> forall b :: b in rows ==> b.id != id
  {
    if rows == [] then None
    else if rows[0].id == id then Some(rows[0])
    else BillWithId(rows[1..], id)
  }

  /** The primary-key constraint of the bills table. */
  ghost predicate DistinctBillIds(rows: seq<Bill>)
  {
    forall i, j :: 0 <= i < j < |rows| ==> rows[i].id != rows[j].id
  }

  /** Under the primary key, the lookup finds the one row that has the id. */
  lemma {:induction false} BillWithIdFindsUniqueRow(rows: seq<Bill>, id: int, k: int)
    requires DistinctBillIds(rows)
    requires 0 <= k < |rows| && rows[k].id == id
    ensures BillWithId(rows, id) == Some(rows[k])
  {
    if k > 0 {
      assert rows[0].id != id;
      assert DistinctBillIds(rows[1..]) by {
        forall i, j | 0 <= i < j < |rows| - 1
          ensures rows[1..][i].id != rows[1..][j].id
        {
          assert rows[1..][i] == rows[i + 1] && rows[1..][j] == rows[j + 1];
        }
      }
      BillWithIdFindsUniqueRow(rows[1..], id, k - 1);
    }
  }

  // ---------------------------------------------------------------------------
  // UPDATE bills SET payment_date = ?, status = ? WHERE id = ?

  /** The table after the UPDATE: the rows with that id get the new payment date
      and status; every other column and every other row keeps its value. */
  function WithPayment(rows: seq<Bill>, id: int, paymentDate: Option<int>, status: BillStatus): (r: seq<Bill>)
    ensures |r| == |rows|
    ensures forall k :: 0 <= k < |rows| && rows[k].id != id ==> r[k] == rows[k]
    ensures forall k :: 0 <= k < |rows| && rows[k].id == id ==>
              r[k] == rows[k].(paymentDate := paymentDate, status := status)
  {
    if rows == [] then []
    else
      var head := if rows[0].id == id then rows[0].(paymentDate := paymentDate, status := status) else rows[0];
      [head] + WithPayment(rows[1..], id, paymentDate, status)
  }

  /** With distinct primary keys the UPDATE changes exactly one row: the one at
      position `k` that carries the id. */
  lemma UpdateTouchesOneRow(rows: seq<Bill>, k: nat, paymentDate: Option<int>, status: BillStatus)
    requires DistinctBillIds(rows) && k < |rows|
    ensures WithPayment(rows, rows[k].id, paymentDate, status)
            == rows[k := rows[k].(paymentDate := paymentDate, status := status)]
  {
    var r := WithPayment(rows, rows[k].id, paymentDate, status);
    var expected := rows[k := rows[k].(paymentDate := paymentDate, status := status)];
    forall j | 0 <= j < |rows|
      ensures r[j] == expected[j]
    {
      if j < k {
        assert rows[j].id != rows[k].id;
      } else if k < j {
        assert rows[k].id != rows[j].id;
      }
    }
  }

  // ---------------------------------------------------------------------------
  // SELECT ... FROM bills WHERE user_id = ? AND status != 'UNPAID'
  //   ORDER BY payment_date DESC LIMIT ?

  predicate IsPaidBillOf(b: Bill, userId: int)
  {
    b.userId == userId && b.status.Text() != "UNPAID"
  }

  /** The rows the WHERE clause keeps, in table order. */
  function PaidBillsOf(rows: seq<Bill>, userId: int): (r: seq<Bill>)
    ensures |r| <= |rows|
    ensures forall b :: b in r <==> b in rows && IsPaidBillOf(b, userId)
  {
    if rows == [] then []
    else
      var last := rows[|rows| - 1];
      PaidBillsOf(rows[..|rows| - 1], userId) + (if IsPaidBillOf(last, userId) then [last] else [])
  }

  lemma PaidBillsOfExtend(rows: seq<Bill>, k: nat, userId: int)
    requires k < |rows|
    ensures PaidBillsOf(rows[..k + 1], userId)
         == PaidBillsOf(rows[..k], userId) + (if IsPaidBillOf(rows[k], userId) then [rows[k]] else [])
  {
    assert rows[..k + 1][..k] == rows[..k];
  }

  /** The WHERE clause keeps every copy of a row that is a paid bill of the user. */
  lemma {:induction false} PaidBillsOfKeepsPaidRows(rows: seq<Bill>, userId: int, x: Bill)
    requires IsPaidBillOf(x, userId)
    ensures multiset(PaidBillsOf(rows, userId))[x] == multiset(rows)[x]
  {
    if rows != [] {
      var n := |rows| - 1;
      var init := rows[..n];
      var kept := if IsPaidBillOf(rows[n], userId) then [rows[n]] else [];
      assert rows == init + [rows[n]];
      calc {
        multiset(PaidBillsOf(rows, userId))[x];
        multiset(PaidBillsOf(init, userId) + kept)[x];
        multiset(PaidBillsOf(init, userId))[x] + multiset(kept)[x];
        { PaidBillsOfKeepsPaidRows(init, userId, x); }
        multiset(init)[x] + multiset([rows[n]])[x];
        multiset(init + [rows[n]])[x];
      }
    }
  }

  /** `a` comes no later than `b` in ORDER BY payment_date DESC. SQLite orders
      NULL below every value, so a NULL payment date is the least recent. */
  predicate AtLeastAsRecent(a: Option<int>, b: Option<int>)
  {
    match (a, b)
    case (_, None) => true
    case (None, Some(_)) => false
    case (Some(x), Some(y)) => x >= y
  }

  ghost predicate NewestFirst(s: seq<Bill>)
  {
    forall i, j :: 0 <= i < j < |s| ==> AtLeastAsRecent(s[i].paymentDate, s[j].paymentDate)
  }

  /** `order` is the WHERE result sorted by ORDER BY: the same rows, newest first.
      Rows with equal payment dates may come in any order. */
  ghost predicate IsPaymentOrder(rows: seq<Bill>, userId: int, order: seq<Bill>)
  {
    multiset(order) == multiset(PaidBillsOf(rows, userId)) && NewestFirst(order)
  }

  /** How many rows LIMIT keeps; a negative limit means no limit in SQLite. */
  function WindowSize(limit: int, available: nat): (n: nat)
    ensures n <= available
    ensures limit >= 0 ==> n <= limit
    ensures n < available ==> n == limit
  {
    if limit < 0 || available < limit then available else limit
  }

  /** `w` is a possible result of the query: the first rows of some newest-first
      ordering of the user's paid bills, cut at `limit`. */
  ghost predicate IsLatestPaidWindow(rows: seq<Bill>, userId: int, limit: int, w: seq<Bill>)
  {
    exists order :: IsPaymentOrder(rows, userId, order) && w == order[..WindowSize(limit, |order|)]
  }

  /** One step of sorting the WHERE result: put `b` before the first row that is
      not more recent than it. */
  function InsertByRecency(b: Bill, s: seq<Bill>): (r: seq<Bill>)
    ensures multiset(r) == multiset(s) + multiset{b}
  {
    if s == [] || AtLeastAsRecent(b.paymentDate, s[0].paymentDate) then [b] + s
    else
      assert s == [s[0]] + s[1..];
      [s[0]] + InsertByRecency(b, s[1..])
  }

  lemma {:induction false} InsertKeepsNewestFirst(b: Bill, s: seq<Bill>)
    requires NewestFirst(s)
    ensures NewestFirst(InsertByRecency(b, s))
  {
    if s == [] || AtLeastAsRecent(b.paymentDate, s[0].paymentDate) {
      var r := [b] + s;
      forall i, j | 0 <= i < j < |r|
        ensures AtLeastAsRecent(r[i].paymentDate, r[j].paymentDate)
      {
        if i == 0 && j > 1 {
          assert r[j] == s[j - 1];
          assert AtLeastAsRecent(s[0].paymentDate, s[j - 1].paymentDate);
        }
      }
    } else {
      var tail := InsertByRecency(b, s[1..]);
      InsertKeepsNewestFirst(b, s[1..]);
      forall x | x in tail
        ensures AtLeastAsRecent(s[0].paymentDate, x.paymentDate)
      {
        assert x in multiset(tail);
        assert x == b || x in s[1..];
      }
      var r := [s[0]] + tail;
      forall i, j | 0 <= i < j < |r|
        ensures AtLeastAsRecent(r[i].paymentDate, r[j].paymentDate)
      {
        if i == 0 {
          assert r[j] in tail;
        } else {
          assert r[i] == tail[i - 1] && r[j] == tail[j - 1];
        }
      }
    }
  }

  /** Every row of a query result is a paid bill of the user, stored in the table;
      there are at most `limit` of them (all of them when fewer exist); and they
      come newest first. */
  lemma WindowIsPaidBillsOfUser(rows: seq<Bill>, userId: int, limit: int, w: seq<Bill>)
    requires IsLatestPaidWindow(rows, userId, limit, w)
    ensures forall i :: 0 <= i < |w| ==> w[i] in rows && IsPaidBillOf(w[i], userId)
    ensures |w| == WindowSize(limit, |PaidBillsOf(rows, userId)|)
    ensures limit >= 0 ==> |w| <= limit
    ensures NewestFirst(w)
    ensures multiset(w) <= multiset(PaidBillsOf(rows, userId))
  {
    var order :| IsPaymentOrder(rows, userId, order) && w == order[..WindowSize(limit, |order|)];
    assert |order| == |multiset(order)| == |PaidBillsOf(rows, userId)|;
    assert order == w + order[|w|..];
    forall i | 0 <= i < |w|
      ensures w[i] in rows && IsPaidBillOf(w[i], userId)
    {
      assert w[i] == order[i];
      assert order[i] in multiset(PaidBillsOf(rows, userId));
    }
  }

  /** The query keeps the most recent bills: a paid bill of the user that the
      LIMIT cut off is no more recent than any bill that was returned. */
  lemma WindowHoldsMostRecent(rows: seq<Bill>, userId: int, limit: int, w: seq<Bill>)
    requires IsLatestPaidWindow(rows, userId, limit, w)
    ensures forall b :: b in multiset(PaidBillsOf(rows, userId)) - multiset(w) ==>
              forall i :: 0 <= i < |w| ==> AtLeastAsRecent(w[i].paymentDate, b.paymentDate)
  {
    var order :| IsPaymentOrder(rows, userId, order) && w == order[..WindowSize(limit, |order|)];
    var n := |w|;
    assert order == w + order[n..];
    assert multiset(order) == multiset(w) + multiset(order[n..]);
    forall b | b in multiset(PaidBillsOf(rows, userId)) - multiset(w)
      ensures forall i :: 0 <= i < |w| ==> AtLeastAsRecent(w[i].paymentDate, b.paymentDate)
    {
      assert b in multiset(order[n..]);
      CutRowsAreOlder(order, n, b);
    }
  }

  /** In a newest-first ordering, a row past position `n` is no more recent than
      any row before it. */
  lemma CutRowsAreOlder(order: seq<Bill>, n: nat, b: Bill)
    requires NewestFirst(order) && n <= |order| && b in order[n..]
    ensures forall i :: 0 <= i < n ==> AtLeastAsRecent(order[i].paymentDate, b.paymentDate)
  {
    var j :| n <= j < |order| && order[j] == b;
  }

  // ---------------------------------------------------------------------------
  // The tables

  class Store {
    var bills: seq<Bill>
    var users: seq<User>
    var rewards: seq<Reward>
    // The next id each AUTOINCREMENT primary key hands out.
    var nextBillId: int
    var nextUserId: int
    var nextRewardId: int

    /** Primary keys are distinct, positive, and below the next id to hand out. */
    ghost predicate Valid()
      reads this
    {
      && 1 <= nextBillId && 1 <= nextUserId && 1 <= nextRewardId
      && DistinctBillIds(bills)
      && (forall b :: b in bills ==> 1 <= b.id < nextBillId)
      && (forall i, j :: 0 <= i < j < |users| ==> users[i].id != users[j].id)
      && (forall u :: u in users ==> 1 <= u.id < nextUserId)
      && (forall i, j :: 0 <= i < j < |rewards| ==> rewards[i].id != rewards[j].id)
      && (forall r :: r in rewards ==> 1 <= r.id < nextRewardId)
    }

    /** Empty tables, as in a freshly created database. */
    constructor ()
      ensures Valid()
      ensures bills == [] && users == [] && rewards == []
      ensures nextBillId == 1 && nextUserId == 1 && nextRewardId == 1
    {
      bills, users, rewards := [], [], [];
      nextBillId, nextUserId, nextRewardId := 1, 1, 1;
    }

    /** The bill with that id; Ok(None) rather than an error when there is none. */
    method GetBillByID(id: int, fail: bool) returns (r: Result<Option<Bill>>)
      ensures r.Err? <==> fail
      ensures fail ==> r == Err(DriverError)
      ensures r.Ok? ==> r.value == BillWithId(bills, id)
      ensures r.Ok? && r.value.Some? ==> r.value.value in bills && r.value.value.id == id
      ensures r.Ok? && r.value.None? ==> forall b :: b in bills ==> b.id != id
    {
      if fail {
        return Err(DriverError);
      }
      var k := 0;
      while k < |bills|
        invariant 0 <= k <= |bills|
        invariant BillWithId(bills[k..], id) == BillWithId(bills, id)
      {
        if bills[k].id == id {
          return Ok(Some(bills[k]));
        }
        assert bills[k..][1..] == bills[k + 1..];
        k := k + 1;
      }
      return Ok(None);
    }

    /** Overwrites payment date and status of the row with the bill's id. */
    method UpdateBill(bill: Bill, fail: bool) returns (err: Option<DbError>)
      requires Valid()
      modifies this
      ensures Valid()
      ensures err == if fail then Some(DriverError) else None
      ensures fail ==> unchanged(this)
      ensures bills == if fail then old(bills) else WithPayment(old(bills), bill.id, bill.paymentDate, bill.status)
      ensures users == old(users) && rewards == old(rewards)
      ensures nextBillId == old(nextBillId) && nextUserId == old(nextUserId) && nextRewardId == old(nextRewardId)
    {
      if fail {
        return Some(DriverError);
      }
      bills := WithPayment(bills, bill.id, bill.paymentDate, bill.status);
      return None;
    }

    /** The user's most recent paid bills, at most `limit` of them, newest first. */
    method GetLastPaidBillsByUser(userId: int, limit: int, fail: bool) returns (r: Result<seq<Bill>>)
      ensures r.Err? <==> fail
      ensures fail ==> r == Err(DriverError)
      ensures r.Ok? ==> IsLatestPaidWindow(bills, userId, limit, r.value)
    {
      if fail {
        return Err(DriverError);
      }
      // WHERE and ORDER BY
      var ordered: seq<Bill> := [];
      var k := 0;
      while k < |bills|
        invariant 0 <= k <= |bills|
        invariant IsPaymentOrder(bills[..k], userId, ordered)
      {
        PaidBillsOfExtend(bills, k, userId);
        if IsPaidBillOf(bills[k], userId) {
          InsertKeepsNewestFirst(bills[k], ordered);
          ordered := InsertByRecency(bills[k], ordered);
        }
        k := k + 1;
      }
      assert bills[..k] == bills;
      ghost var order := ordered;
      // LIMIT, then the rows.Next() loop that appends each row
      var n := WindowSize(limit, |ordered|);
      var out: seq<Bill> := [];
      var i := 0;
      while i < n
        invariant 0 <= i <= n
        invariant out == ordered[..i]
      {
        out := out + [ordered[i]];
        i := i + 1;
      }
      assert IsPaymentOrder(bills, userId, order) && out == order[..WindowSize(limit, |order|)];
      return Ok(out);
    }

    /** Appends a reward row under a fresh id and returns the record with that id as `saved`. */
    method CreateReward(reward: Reward, fail: bool) returns (saved: Reward, err: Option<DbError>)
      requires Valid()
      modifies this
      ensures Valid()
      ensures err == if fail then Some(DriverError) else None
      ensures fail ==> saved == reward && unchanged(this)
      ensures !fail ==> (saved == reward.(id := old(nextRewardId))
                     && rewards == old(rewards) + [saved]
                     && nextRewardId == old(nextRewardId) + 1
                     && forall r :: r in old(rewards) ==> r.id != saved.id)
      ensures bills == old(bills) && users == old(users)
      ensures nextBillId == old(nextBillId) && nextUserId == old(nextUserId)
    {
      if fail {
        return reward, Some(DriverError);
      }
      saved := reward.(id := nextRewardId);
      rewards := rewards + [saved];
      nextRewardId := nextRewardId + 1;
      err := None;
    }

    /** Appends a user row under a fresh id and returns the record with that id as `saved`. */
    method CreateUser(user: User, fail: bool) returns (saved: User, err: Option<DbError>)
      requires Valid()
      modifies this
      ensures Valid()
      ensures err == if fail then Some(DriverError) else None
      ensures fail ==> saved == user && unchanged(this)
      ensures !fail ==> (saved == user.(id := old(nextUserId))
                     && users == old(users) + [saved]
                     && nextUserId == old(nextUserId) + 1
                     && forall u :: u in old(users) ==> u.id != saved.id)
      ensures bills == old(bills) && rewards == old(rewards)
      ensures nextBillId == old(nextBillId) && nextRewardId == old(nextRewardId)
    {
      if fail {
        return user, Some(DriverError);
      }
      saved := user.(id := nextUserId);
      users := users + [saved];
      nextUserId := nextUserId + 1;
      err := None;
    }

    /** Appends a bill row under a fresh id. The INSERT names no payment_date
        column, so the stored row has none whatever the record holds; the
        record is returned as `saved` with only its id filled in. */
    method CreateBill(bill: Bill, fail: bool) returns (saved: Bill, err: Option<DbError>)
      requires Valid()
      modifies this
      ensures Valid()
      ensures err == if fail then Some(DriverError) else None
      ensures fail ==> saved == bill && unchanged(this)
      ensures !fail ==> (saved == bill.(id := old(nextBillId))
                     && bills == old(bills) + [saved.(paymentDate := None)]
                     && nextBillId == old(nextBillId) + 1
                     && forall b :: b in old(bills) ==> b.id != saved.id)
      ensures users == old(users) && rewards == old(rewards)
      ensures nextUserId == old(nextUserId) && nextRewardId == old(nextRewardId)
    {
      if fail {
        return bill, Some(DriverError);
      }
      saved := bill.(id := nextBillId);
      bills := bills + [saved.(paymentDate := None)];
      nextBillId := nextBillId + 1;
      err := None;
    }
  }
}
