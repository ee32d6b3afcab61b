// The reward service: paying a bill, the on-time-streak reward check, and the
// thin user and bill creation calls. The clock is read three times by the
// service (payment time, reward issue time, a new user's creation time); each
// reading is a parameter here, and a failure of each store call is a field of
// `Faults`.

module RewardService {
  import opened Models
  import opened Repository

  const RequiredOnTimePayments := 3
  const RewardDescription := "$10 Amazon Gift Card"
  const RewardMessage := "Congratulations! You've earned a " + RewardDescription + "."

  /** The errors the service reports, one per distinct error return. */
  datatype ServiceError =
    | GetBillFailed(cause: DbError)        // "failed to get bill: ..."
    | BillNotFound                         // "bill not found"
    | BillAlreadyPaid                      // "bill has already been paid"
    | UpdateBillFailed(cause: DbError)     // "failed to update bill: ..."
    | LastPaidQueryFailed(cause: DbError)  // "could not get last paid bills: ..."
    | CreateRewardFailed(cause: DbError)   // "failed to create reward: ..."

  /** Which of the store calls made by a payment fail. */
  datatype Faults = Faults(lookupFails: bool, updateFails: bool, queryFails: bool, insertFails: bool)

  /** The status a bill gets when paid at `paidAt`: late only strictly after the
      due date, so paying on the due date itself is on time. */
  function PaymentStatus(paidAt: int, dueDate: int): (s: BillStatus)
    ensures s != Unpaid
    ensures s == PaidLate <==> paidAt > dueDate
    ensures s == PaidOnTime <==> paidAt <= dueDate
  {
    if paidAt > dueDate then PaidLate else PaidOnTime
  }

  /** The streak rule applied to the query result: enough bills, all on time. */
  predicate EarnsReward(lastBills: seq<Bill>)
  {
    |lastBills| >= RequiredOnTimePayments
    && forall i :: 0 <= i < |lastBills| ==> lastBills[i].status == PaidOnTime
  }

  /** The scan over the window: stops at the first bill not paid on time. */
  method AllPaidOnTime(lastBills: seq<Bill>) returns (ok: bool)
    ensures ok <==> forall i :: 0 <= i < |lastBills| ==> lastBills[i].status == PaidOnTime
  {
    var i := 0;
    while i < |lastBills|
      invariant 0 <= i <= |lastBills|
      invariant forall k :: 0 <= k < i ==> lastBills[k].status == PaidOnTime
    {
      if lastBills[i].status != PaidOnTime {
        return false;
      }
      i := i + 1;
    }
    return true;
  }

  /** What one reward check does to the rewards table and what it answers, given
      the bills table it queries and the window that query returned. Exactly one
      reward is appended when the query succeeds, the window earns a reward and
      the insert succeeds; otherwise nothing is written and the message is empty. */
  ghost predicate RewardCheck(
    rows: seq<Bill>, userId: int, issuedAt: int, queryFails: bool, insertFails: bool,
    rewardsBefore: seq<Reward>, nextIdBefore: int, rewardsAfter: seq<Reward>, nextIdAfter: int,
    message: string, window: seq<Bill>)
  {
    var issued := !queryFails && EarnsReward(window) && !insertFails;
    && (!queryFails ==> IsLatestPaidWindow(rows, userId, RequiredOnTimePayments, window))
    && (issued ==>
          && rewardsAfter == rewardsBefore + [Reward(nextIdBefore, userId, RewardDescription, issuedAt)]
          && nextIdAfter == nextIdBefore + 1
          && message == RewardMessage)
    && (!issued ==> rewardsAfter == rewardsBefore && nextIdAfter == nextIdBefore && message == "")
  }

  /** A user with fewer paid bills than the streak length earns nothing. */
  lemma FewerThanRequiredEarnsNothing(rows: seq<Bill>, userId: int, w: seq<Bill>)
    requires |PaidBillsOf(rows, userId)| < RequiredOnTimePayments
    requires IsLatestPaidWindow(rows, userId, RequiredOnTimePayments, w)
    ensures !EarnsReward(w)
  {
    WindowIsPaidBillsOfUser(rows, userId, RequiredOnTimePayments, w);
  }

  /** A user whose most recent paid bill was paid late earns nothing, however
      many older bills were paid on time. */
  lemma LatestLatePaymentBlocksReward(rows: seq<Bill>, userId: int, late: Bill, w: seq<Bill>)
    requires late in rows && IsPaidBillOf(late, userId) && late.status == PaidLate
    requires forall b :: b in rows && IsPaidBillOf(b, userId) && b != late ==>
               !AtLeastAsRecent(b.paymentDate, late.paymentDate)
    requires IsLatestPaidWindow(rows, userId, RequiredOnTimePayments, w)
    ensures !EarnsReward(w)
  {
    var order: seq<Bill> :| IsPaymentOrder(rows, userId, order)
              && w == order[..WindowSize(RequiredOnTimePayments, |order|)];
    if |w| > 0 {
      assert late in PaidBillsOf(rows, userId);
      assert late in multiset(order);
      var j: int :| 0 <= j < |order| && order[j] == late;
      assert order[0] in multiset(PaidBillsOf(rows, userId));
      if j != 0 {
        assert AtLeastAsRecent(order[0].paymentDate, late.paymentDate);
      }
      assert w[0] == late;
    }
  }

  /** The streak rule as the user sees it: when three bills of the table are
      paid bills of the user, paid on time, and every bill the user paid late
      was paid strictly before each of them, the user earns a reward, whichever
      way the query breaks ties between equal payment dates. Older late
      payments do not matter. */
  lemma LatestThreeOnTimeEarnReward(rows: seq<Bill>, userId: int, recent: seq<Bill>, w: seq<Bill>)
    requires |recent| == RequiredOnTimePayments
    requires multiset(recent) <= multiset(rows)
    requires forall i :: 0 <= i < |recent| ==> IsPaidBillOf(recent[i], userId) && recent[i].status == PaidOnTime
    requires forall b, i ::
               (b in rows && IsPaidBillOf(b, userId) && b.status == PaidLate && 0 <= i < |recent|)
               ==> !AtLeastAsRecent(b.paymentDate, recent[i].paymentDate)
    requires IsLatestPaidWindow(rows, userId, RequiredOnTimePayments, w)
    ensures EarnsReward(w)
  {
    var order: seq<Bill> :| IsPaymentOrder(rows, userId, order)
              && w == order[..WindowSize(RequiredOnTimePayments, |order|)];
    assert multiset(recent) <= multiset(order) by {
      forall x | x in recent
        ensures multiset(recent)[x] <= multiset(order)[x]
      {
        PaidBillsOfKeepsPaidRows(rows, userId, x);
      }
    }
    SubMultisetIsSmaller(multiset(recent), multiset(order));
    WindowIsPaidBillsOfUser(rows, userId, RequiredOnTimePayments, w);
    forall k | 0 <= k < |w|
      ensures w[k].status == PaidOnTime
    {
      if w[k].status != PaidOnTime {
        assert w[k] == order[k] && order[k].status == PaidLate;
        BillsNewerThanLateComeFirst(order, k, recent);
      }
    }
  }

  /** Pigeonhole over a newest-first ordering: bills paid on time and strictly
      after the late bill at position `k` all come before it, so there are at
      most `k` of them. */
  lemma BillsNewerThanLateComeFirst(order: seq<Bill>, k: nat, recent: seq<Bill>)
    requires NewestFirst(order) && k < |order| && order[k].status != PaidOnTime
    requires multiset(recent) <= multiset(order)
    requires forall i :: 0 <= i < |recent| ==>
               recent[i].status == PaidOnTime && !AtLeastAsRecent(order[k].paymentDate, recent[i].paymentDate)
    ensures |recent| <= k
  {
    OnTimeBillsComeBeforeLate(order, k, recent);
    assert order == order[..k] + order[k..];
    forall x
      ensures multiset(recent)[x] <= multiset(order[..k])[x]
    {
      if x in recent {
        assert multiset(order)[x] == multiset(order[..k])[x] + multiset(order[k..])[x];
      }
    }
    SubMultisetIsSmaller(multiset(recent), multiset(order[..k]));
  }

  /** In a newest-first ordering, a bill that is newer than the late bill at
      position `j` cannot come at or after position `j`. */
  lemma OnTimeBillsComeBeforeLate(order: seq<Bill>, j: nat, recent: seq<Bill>)
    requires NewestFirst(order) && j < |order| && order[j].status != PaidOnTime
    requires forall i :: 0 <= i < |recent| ==>
               recent[i].status == PaidOnTime && !AtLeastAsRecent(order[j].paymentDate, recent[i].paymentDate)
    ensures forall x :: x in recent ==> x !in order[j..]
  {
    forall x | x in recent
      ensures x !in order[j..]
    {
      var i :| 0 <= i < |recent| && recent[i] == x;
      forall q | 0 <= q < |order| - j
        ensures order[j..][q] != x
      {
        assert order[j..][q] == order[j + q];
        if q > 0 {
          assert AtLeastAsRecent(order[j].paymentDate, order[j + q].paymentDate);
        }
      }
    }
  }

  lemma SubMultisetIsSmaller<T>(a: multiset<T>, b: multiset<T>)
    requires a <= b
    ensures |a| <= |b|
  {
    assert b == a + (b - a);
  }

  /** The write PayBill makes, on a bill it found UNPAID, moves that bill and no
      other from UNPAID to a paid state and gives it a payment date: rows keep
      their ids, and the status/payment-date agreement of the table is kept. */
  lemma {:induction false} PaymentKeepsLifecycle(rows: seq<Bill>, id: int, now: int)
    requires DistinctBillIds(rows)
    requires BillWithId(rows, id).Some? && BillWithId(rows, id).value.status == Unpaid
    ensures var r := WithPayment(rows, id, Some(now), PaymentStatus(now, BillWithId(rows, id).value.dueDate));
            && (forall k :: 0 <= k < |rows| ==> r[k].id == rows[k].id && StatusStep(rows[k].status, r[k].status))
            && (forall k :: 0 <= k < |rows| && rows[k].id == id ==>
                  r[k].status != Unpaid && r[k].paymentDate == Some(now))
            && (forall k :: 0 <= k < |rows| && rows[k].id != id ==> r[k] == rows[k])
            && (ConsistentBills(rows) ==> ConsistentBills(r))
  {
    var r := WithPayment(rows, id, Some(now), PaymentStatus(now, BillWithId(rows, id).value.dueDate));
    forall k | 0 <= k < |rows| && rows[k].id == id
      ensures StatusStep(rows[k].status, r[k].status) && ConsistentBill(r[k])
    {
      BillWithIdFindsUniqueRow(rows, id, k);
    }
    if ConsistentBills(rows) {
      forall b | b in r
        ensures ConsistentBill(b)
      {
        var k :| 0 <= k < |r| && r[k] == b;
        if rows[k].id != id {
          assert rows[k] in rows;
        }
      }
    }
  }

  class RewardService {
    const repo: Store

    constructor (r: Store)
      ensures repo == r
    {
      repo := r;
    }

    /** Pays a bill at time `now`: rejects a missing or already paid bill without
        writing anything, otherwise stores the payment date and the on-time or
        late status and then runs the reward check, whose failures are swallowed. */
    method PayBill(billId: int, now: int, issuedAt: int, faults: Faults)
      returns (paid: Option<Bill>, message: string, err: Option<ServiceError>, ghost window: seq<Bill>)
      requires repo.Valid()
      modifies repo
      ensures repo.Valid()
      ensures faults.lookupFails ==> err == Some(GetBillFailed(DriverError))
      ensures !faults.lookupFails && BillWithId(old(repo.bills), billId).None? ==> err == Some(BillNotFound)
      ensures (!faults.lookupFails && BillWithId(old(repo.bills), billId).Some?
               && BillWithId(old(repo.bills), billId).value.status != Unpaid) ==> err == Some(BillAlreadyPaid)
      ensures (!faults.lookupFails && BillWithId(old(repo.bills), billId).Some?
               && BillWithId(old(repo.bills), billId).value.status == Unpaid
               && faults.updateFails) ==> err == Some(UpdateBillFailed(DriverError))
      ensures err.None? <==> !faults.lookupFails && !faults.updateFails
                             && BillWithId(old(repo.bills), billId).Some?
                             && BillWithId(old(repo.bills), billId).value.status == Unpaid
      ensures err.Some? ==> paid == None && message == "" && unchanged(repo)
      ensures err.None? ==>
                var b := BillWithId(old(repo.bills), billId).value;
                var status := PaymentStatus(now, b.dueDate);
                && paid == Some(b.(paymentDate := Some(now), status := status))
                && repo.bills == WithPayment(old(repo.bills), billId, Some(now), status)
                && repo.users == old(repo.users)
                && repo.nextBillId == old(repo.nextBillId) && repo.nextUserId == old(repo.nextUserId)
                && RewardCheck(repo.bills, b.userId, issuedAt, faults.queryFails, faults.insertFails,
                               old(repo.rewards), old(repo.nextRewardId), repo.rewards, repo.nextRewardId,
                               message, window)
      // the bill lifecycle: rows keep their identity, statuses only leave UNPAID
      ensures |repo.bills| == |old(repo.bills)|
      ensures forall k :: 0 <= k < |repo.bills| ==>
                repo.bills[k].id == old(repo.bills)[k].id
                && StatusStep(old(repo.bills)[k].status, repo.bills[k].status)
      ensures ConsistentBills(old(repo.bills)) ==> ConsistentBills(repo.bills)
    {
      window := [];
      var found := repo.GetBillByID(billId, faults.lookupFails);
      if found.Err? {
        return None, "", Some(GetBillFailed(found.error)), window;
      }
      if found.value.None? {
        return None, "", Some(BillNotFound), window;
      }
      var bill := found.value.value;
      if bill.status != Unpaid {
        return None, "", Some(BillAlreadyPaid), window;
      }

      bill := bill.(paymentDate := Some(now), status := PaymentStatus(now, bill.dueDate));
      PaymentKeepsLifecycle(repo.bills, billId, now);

      var updateErr := repo.UpdateBill(bill, faults.updateFails);
      if updateErr.Some? {
        return None, "", Some(UpdateBillFailed(updateErr.value)), window;
      }

      // a failed reward check is only logged
      var rewardErr;
      message, rewardErr, window := CheckForReward(bill.userId, issuedAt, faults.queryFails, faults.insertFails);
      return Some(bill), message, None, window;
    }

    /** Looks at the user's last paid bills and issues a reward when the streak is
        complete. Repeated qualifying calls each issue another reward. */
    method CheckForReward(userId: int, issuedAt: int, queryFails: bool, insertFails: bool)
      returns (message: string, err: Option<ServiceError>, ghost window: seq<Bill>)
      requires repo.Valid()
      modifies repo
      ensures repo.Valid()
      ensures repo.bills == old(repo.bills) && repo.users == old(repo.users)
      ensures repo.nextBillId == old(repo.nextBillId) && repo.nextUserId == old(repo.nextUserId)
      ensures RewardCheck(repo.bills, userId, issuedAt, queryFails, insertFails,
                          old(repo.rewards), old(repo.nextRewardId), repo.rewards, repo.nextRewardId,
                          message, window)
      ensures err == if queryFails then Some(LastPaidQueryFailed(DriverError))
                     else if EarnsReward(window) && insertFails then Some(CreateRewardFailed(DriverError))
                     else None
    {
      window := [];
      var query := repo.GetLastPaidBillsByUser(userId, RequiredOnTimePayments, queryFails);
      if query.Err? {
        return "", Some(LastPaidQueryFailed(query.error)), window;
      }
      var lastBills := query.value;
      window := lastBills;
      ghost var rows := repo.bills;
      assert IsLatestPaidWindow(rows, userId, RequiredOnTimePayments, window);

      if |lastBills| < RequiredOnTimePayments {
        return "", None, window;
      }

      var allOnTime := AllPaidOnTime(lastBills);
      if !allOnTime {
        return "", None, window;
      }

      assert EarnsReward(lastBills);
      var newReward := Reward(0, userId, RewardDescription, issuedAt);
      var saved, insertErr := repo.CreateReward(newReward, insertFails);
      if insertErr.Some? {
        return "", Some(CreateRewardFailed(insertErr.value)), window;
      }
      assert repo.rewards == old(repo.rewards) + [Reward(old(repo.nextRewardId), userId, RewardDescription, issuedAt)];
      assert repo.bills == rows;
      return RewardMessage, None, window;
    }

    /** Creates a user stamped with the creation time; the record comes back even
        when the insert fails, then without an id. */
    method CreateUser(name: string, now: int, fail: bool) returns (user: User, err: Option<DbError>)
      requires repo.Valid()
      modifies repo
      ensures repo.Valid()
      ensures err.Some? <==> fail
      ensures fail ==> user == User(0, name, now) && unchanged(repo)
      ensures !fail ==> (user == User(old(repo.nextUserId), name, now)
                        && repo.users == old(repo.users) + [user]
                        && repo.nextUserId == old(repo.nextUserId) + 1)
      ensures repo.bills == old(repo.bills) && repo.rewards == old(repo.rewards)
      ensures repo.nextBillId == old(repo.nextBillId) && repo.nextRewardId == old(repo.nextRewardId)
    {
      user := User(0, name, now);
      user, err := repo.CreateUser(user, fail);
    }

    /** Creates an UNPAID bill with no payment date; the record comes back even
        when the insert fails, then without an id. */
    method CreateBill(userId: int, amount: int, dueDate: int, fail: bool) returns (bill: Bill, err: Option<DbError>)
      requires repo.Valid()
      modifies repo
      ensures repo.Valid()
      ensures err.Some? <==> fail
      ensures fail ==> bill == Bill(0, userId, amount, dueDate, None, Unpaid) && unchanged(repo)
      ensures !fail ==> (bill == Bill(old(repo.nextBillId), userId, amount, dueDate, None, Unpaid)
                        && repo.bills == old(repo.bills) + [bill]
                        && repo.nextBillId == old(repo.nextBillId) + 1)
      ensures repo.users == old(repo.users) && repo.rewards == old(repo.rewards)
      ensures repo.nextUserId == old(repo.nextUserId) && repo.nextRewardId == old(repo.nextRewardId)
      ensures ConsistentBills(old(repo.bills)) ==> ConsistentBills(repo.bills)
    {
      bill := Bill(0, userId, amount, dueDate, None, Unpaid);
      bill, err := repo.CreateBill(bill, fail);
    }
  }
}
