// Client code that uses only the contracts of the store and the service: the
// on-time streak earns a reward on the third payment, a further qualifying
// check earns another one, and paying an unknown or paid bill changes nothing.

module Scenarios {
  import opened Models
  import opened Repository
  import opened RewardService

  /** A fresh database holding one user with three unpaid bills due at time 10. */
  method UserWithThreeBills() returns (service: RewardService, user: User, b1: Bill, b2: Bill, b3: Bill)
    ensures fresh(service.repo) && service.repo.Valid()
    ensures user.id == 1
    ensures b1 == Bill(1, 1, 100, 10, None, Unpaid)
    ensures b2 == Bill(2, 1, 200, 10, None, Unpaid)
    ensures b3 == Bill(3, 1, 300, 10, None, Unpaid)
    ensures service.repo.bills == [b1, b2, b3]
    ensures service.repo.rewards == [] && service.repo.nextRewardId == 1
  {
    var store := new Store();
    service := new RewardService(store);
    var e0, e1, e2, e3;
    user, e0 := service.CreateUser("ada", 0, false);
    b1, e1 := service.CreateBill(user.id, 100, 10, false);
    b2, e2 := service.CreateBill(user.id, 200, 10, false);
    b3, e3 := service.CreateBill(user.id, 300, 10, false);
  }

  /** The user's paid bills among the three rows, when only the first is paid. */
  lemma OnlyFirstOfThreePaid(rows: seq<Bill>)
    requires |rows| == 3 && rows[0].userId == 1 && rows[0].status == PaidOnTime
    requires rows[1].status == Unpaid && rows[2].status == Unpaid
    ensures |PaidBillsOf(rows, 1)| == 1
  {
    PaidBillsOfExtend(rows, 0, 1);
    PaidBillsOfExtend(rows, 1, 1);
    PaidBillsOfExtend(rows, 2, 1);
    assert rows[..0] == [] && rows[..3] == rows;
  }

  /** A streak rebuilt after a late payment: a user with one bill paid late
      and three bills paid on time afterwards earns the reward from any answer
      of the query for the last three paid bills. */
  lemma RebuiltStreakEarnsReward(late: Bill, streak: seq<Bill>, w: seq<Bill>)
    requires late.userId == 1 && late.status == PaidLate && late.paymentDate == Some(12)
    requires |streak| == RequiredOnTimePayments
    requires forall i :: 0 <= i < |streak| ==>
               && streak[i].userId == 1 && streak[i].status == PaidOnTime
               && streak[i].paymentDate.Some? && streak[i].paymentDate.value > 12
    requires IsLatestPaidWindow([late] + streak, 1, RequiredOnTimePayments, w)
    ensures EarnsReward(w)
  {
    var rows := [late] + streak;
    assert multiset(rows) == multiset{late} + multiset(streak);
    forall b, i | b in rows && IsPaidBillOf(b, 1) && b.status == PaidLate && 0 <= i < |streak|
      ensures !AtLeastAsRecent(b.paymentDate, streak[i].paymentDate)
    {
      assert b == late;
    }
    LatestThreeOnTimeEarnReward(rows, 1, streak, w);
  }

  method FirstPaymentEarnsNothing()
  {
    var service, user, b1, b2, b3 := UserWithThreeBills();
    var store := service.repo;
    var noFaults := Faults(false, false, false, false);

    BillWithIdFindsUniqueRow(store.bills, 1, 0);
    var p1, m1, err1, w1 := service.PayBill(1, 5, 5, noFaults);
    ghost var rows := [b1.(paymentDate := Some(5), status := PaidOnTime), b2, b3];
    assert store.bills[0] == rows[0] && store.bills[1] == b2 && store.bills[2] == b3;
    assert store.bills == rows;
    OnlyFirstOfThreePaid(rows);
    FewerThanRequiredEarnsNothing(rows, 1, w1);
    assert err1 == None && m1 == "" && store.rewards == [];
  }

  /** Pays the bill stored at row `k`, with no store failure: exactly that row
      changes, and the reward check runs over the updated table. */
  method PayRow(service: RewardService, k: nat, now: int, issuedAt: int)
    returns (message: string, ghost window: seq<Bill>)
    requires service.repo.Valid()
    requires k < |service.repo.bills| && service.repo.bills[k].status == Unpaid
    modifies service.repo
    ensures service.repo.Valid()
    ensures var b := old(service.repo.bills)[k];
            service.repo.bills == old(service.repo.bills)[k := b.(paymentDate := Some(now), status := PaymentStatus(now, b.dueDate))]
    ensures RewardCheck(service.repo.bills, old(service.repo.bills)[k].userId, issuedAt, false, false,
                        old(service.repo.rewards), old(service.repo.nextRewardId),
                        service.repo.rewards, service.repo.nextRewardId, message, window)
  {
    var rows := service.repo.bills;
    var id := rows[k].id;
    BillWithIdFindsUniqueRow(rows, id, k);
    UpdateTouchesOneRow(rows, k, Some(now), PaymentStatus(now, rows[k].dueDate));
    var paid, err;
    paid, message, err, window := service.PayBill(id, now, issuedAt, Faults(false, false, false, false));
  }

  /** The user of UserWithThreeBills after paying the first two bills on time. */
  method TwoBillsPaidOnTime() returns (service: RewardService)
    ensures fresh(service.repo) && service.repo.Valid()
    ensures service.repo.bills == [Bill(1, 1, 100, 10, Some(5), PaidOnTime),
                                   Bill(2, 1, 200, 10, Some(6), PaidOnTime),
                                   Bill(3, 1, 300, 10, None, Unpaid)]
  {
    var user, b1, b2, b3;
    service, user, b1, b2, b3 := UserWithThreeBills();
    var m1, w1 := PayRow(service, 0, 5, 5);
    var m2, w2 := PayRow(service, 1, 6, 6);
  }

  /** A table of three bills of user 1, all paid on time, earns the reward. */
  lemma OnTimeTableEarnsReward(rows: seq<Bill>, w: seq<Bill>)
    requires |rows| == RequiredOnTimePayments
    requires forall k :: 0 <= k < |rows| ==> rows[k].userId == 1 && rows[k].status == PaidOnTime
    requires IsLatestPaidWindow(rows, 1, RequiredOnTimePayments, w)
    ensures EarnsReward(w)
  {
    LatestThreeOnTimeEarnReward(rows, 1, rows, w);
  }

  method ThreeOnTimePaymentsEarnReward()
  {
    var service := TwoBillsPaidOnTime();
    var store := service.repo;
    ghost var rewards := store.rewards;
    ghost var nextRewardId := store.nextRewardId;

    // paid on the due date itself: still on time
    var m3, w3 := PayRow(service, 2, 10, 10);
    ghost var rows := store.bills;
    assert forall k :: 0 <= k < |rows| ==> rows[k].userId == 1 && rows[k].status == PaidOnTime;
    OnTimeTableEarnsReward(rows, w3);
    assert m3 == RewardMessage && store.rewards == rewards + [Reward(nextRewardId, 1, RewardDescription, 10)];
  }

  /** The reward check is not idempotent: on a history that qualifies (the
      three bills `recent` paid on time, every late payment older than them) it
      issues a reward and leaves the bills as they were, so the history still
      qualifies and the next check issues another reward. */
  method QualifyingCheckIssuesReward(service: RewardService, userId: int, issuedAt: int, ghost recent: seq<Bill>)
    returns (message: string)
    requires service.repo.Valid()
    requires |recent| == RequiredOnTimePayments
    requires multiset(recent) <= multiset(service.repo.bills)
    requires forall i :: 0 <= i < |recent| ==> IsPaidBillOf(recent[i], userId) && recent[i].status == PaidOnTime
    requires forall b, i ::
               (b in service.repo.bills && IsPaidBillOf(b, userId) && b.status == PaidLate && 0 <= i < |recent|)
               ==> !AtLeastAsRecent(b.paymentDate, recent[i].paymentDate)
    modifies service.repo
    ensures service.repo.Valid()
    ensures message == RewardMessage
    ensures service.repo.bills == old(service.repo.bills)
    ensures service.repo.rewards == old(service.repo.rewards)
              + [Reward(old(service.repo.nextRewardId), userId, RewardDescription, issuedAt)]
  {
    ghost var rows := service.repo.bills;
    var err;
    ghost var window;
    message, err, window := service.CheckForReward(userId, issuedAt, false, false);
    LatestThreeOnTimeEarnReward(rows, userId, recent, window);
  }

  /** The user of UserWithThreeBills after paying the first bill a day late. */
  method FirstBillPaidLate() returns (service: RewardService)
    ensures fresh(service.repo) && service.repo.Valid()
    ensures service.repo.bills == [Bill(1, 1, 100, 10, Some(11), PaidLate),
                                   Bill(2, 1, 200, 10, None, Unpaid),
                                   Bill(3, 1, 300, 10, None, Unpaid)]
  {
    var user, b1, b2, b3;
    service, user, b1, b2, b3 := UserWithThreeBills();
    var m1, w1 := PayRow(service, 0, 11, 11);
  }

  method PaidBillIsRefused()
  {
    var service := FirstBillPaidLate();
    var store := service.repo;
    ghost var bills := store.bills;
    ghost var rewards := store.rewards;
    BillWithIdFindsUniqueRow(store.bills, 1, 0);
    var p, m, err, w := service.PayBill(1, 12, 12, Faults(false, false, false, false));
    assert err == Some(BillAlreadyPaid) && p == None;
    assert store.bills == bills && store.rewards == rewards;
  }

  method UnknownBillIsNotFound()
  {
    var service, user, b1, b2, b3 := UserWithThreeBills();
    var store := service.repo;
    assert BillWithId(store.bills, 999) == None;
    var p, m, err, w := service.PayBill(999, 13, 13, Faults(false, false, false, false));
    assert err == Some(BillNotFound) && p == None;
    assert store.bills == [b1, b2, b3] && store.rewards == [];
  }
}
