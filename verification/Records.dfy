/** The rows the program stores, and the rules of a subscription row. */
module Records {
  import opened Wrappers
  import opened Billing

  datatype Status = Active | Cancelled | Inactive

  datatype Subscription = Subscription(
    userId: string,
    tier: Tier,
    billingCycle: Cycle,
    maxMessages: Option<int>,
    remainingMessages: Option<int>,
    priceCents: int,
    startDate: int,
    endDate: int,
    renewalDate: int,
    autoRenew: bool,
    status: Status)
  {
    predicate IsActive(now: int) { status == Active && endDate > now }

    predicate IsEnterprise() { tier == Enterprise }

    predicate HasRemainingQuota() {
      IsEnterprise() || (remainingMessages.Some? && remainingMessages.value > 0)
    }

    /** A message may be charged to this row at `now`. */
    predicate Usable(now: int) { IsActive(now) && HasRemainingQuota() }

    /** What creation fixes and every later writer leaves in place. */
    predicate WellFormed() {
      && maxMessages == Allotment(tier)
      && (remainingMessages.None? <==> IsEnterprise())
      && (remainingMessages.Some? ==> remainingMessages.value >= 0)
    }

    predicate SameIdentity(other: Subscription) {
      && userId == other.userId && tier == other.tier && billingCycle == other.billingCycle
      && maxMessages == other.maxMessages && priceCents == other.priceCents && startDate == other.startDate
    }
  }

  /** The row that creating a subscription at `now` inserts. */
  function NewSubscription(userId: string, tier: Tier, cycle: Cycle, autoRenew: bool, now: int, zone: int): Subscription {
    Subscription(userId, tier, cycle, Allotment(tier), Allotment(tier), PriceCents(tier, cycle),
                 now, CycleEnd(now, cycle, zone), CycleEnd(now, cycle, zone), autoRenew, Active)
  }

  /** The renewal run's condition for a row to be due. */
  predicate Due(row: Subscription, now: int) {
    row.status == Active && row.autoRenew && row.renewalDate <= now
  }

  /** What the three unlocked writers assign on a row they have read. */
  datatype Update =
    | Cancel
    | Deactivate
    | Renew(endDate: int, renewalDate: int, remainingMessages: Option<int>)

  /** A renewal from the row as it was listed: one more period from its end, the allotment full again. */
  function RenewalOf(row: Subscription, zone: int): Update {
    var end := CycleEnd(row.endDate, row.billingCycle, zone);
    Renew(end, end, Allotment(row.tier))
  }

  function Updated(row: Subscription, update: Update): Subscription {
    match update
    case Cancel => row.(autoRenew := false, status := Cancelled)
    case Deactivate => row.(status := Inactive, autoRenew := false)
    case Renew(endDate, renewalDate, remaining) =>
      row.(endDate := endDate, renewalDate := renewalDate, remainingMessages := remaining, status := Active)
  }

  /** One user's free counter for one month. */
  datatype FreeUsage = FreeUsage(usedMessages: int, freeLimit: int)

  /** Where one message was charged. */
  datatype Charge = FreeUnit(month: string) | SubscriptionUnit(id: nat)

  datatype Message = Message(id: string, userId: string, question: string, answer: string, charge: Charge)

  datatype Source = FromFree | FromSubscription

  datatype LedgerRow = LedgerRow(
    userId: string,
    subscriptionId: Option<nat>,
    chatMessageId: string,
    source: Source,
    amount: int)

  function LedgerRowFor(message: Message): LedgerRow {
    match message.charge
    case FreeUnit(_) => LedgerRow(message.userId, None, message.id, FromFree, 1)
    case SubscriptionUnit(id) => LedgerRow(message.userId, Some(id), message.id, FromSubscription, 1)
  }

  /** The tables.  A subscription's id is its position; the unique key of `free` is (user, month). */
  datatype Tables = Tables(
    free: map<(string, string), FreeUsage>,
    subs: seq<Subscription>,
    messages: seq<Message>,
    ledger: seq<LedgerRow>)

  const EMPTY := Tables(map[], [], [], [])
}
