// Records shared by the store and the reward service: bills, users, rewards.
// Instants (due date, payment date, creation and issue times) are integers.

module Models {

  datatype Option<T> = None | Some(value: T)

  /** The lifecycle of a bill: UNPAID, then exactly one of the two paid states. */
  datatype BillStatus = Unpaid | PaidOnTime | PaidLate {

    /** The text stored in the `status` column. */
    function Text(): (t: string)
      ensures t == "UNPAID" <==> this == Unpaid
      ensures t == "PAID_ON_TIME" <==> this == PaidOnTime
      ensures t == "PAID_LATE" <==> this == PaidLate
    {
      match this
      case Unpaid => "UNPAID"
      case PaidOnTime => "PAID_ON_TIME"
      case PaidLate => "PAID_LATE"
    }
  }

  /** A row of the `bills` table; `paymentDate` is NULL (None) until the bill is paid. */
  datatype Bill = Bill(
    id: int,
    userId: int,
    amount: int,
    dueDate: int,
    paymentDate: Option<int>,
    status: BillStatus)

  /** A row of the `users` table. */
  datatype User = User(id: int, name: string, createdAt: int)

  /** A row of the `rewards` table. */
  datatype Reward = Reward(id: int, userId: int, description: string, issuedAt: int)

  /** The lifecycle rule: a status may stay as it is or leave UNPAID, never return to it. */
  predicate StatusStep(before: BillStatus, after: BillStatus)
  {
    before == after || (before == Unpaid && after != Unpaid)
  }

  /** A bill carries a payment date exactly when it is no longer UNPAID. */
  predicate ConsistentBill(b: Bill)
  {
    (b.status == Unpaid) == b.paymentDate.None?
  }

  ghost predicate ConsistentBills(rows: seq<Bill>)
  {
    forall b :: b in rows ==> ConsistentBill(b)
  }
}
