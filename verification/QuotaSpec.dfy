/** What one question does to the tables, as one atomic step. */
module QuotaSpec {
  import opened Wrappers
  import opened Billing
  import opened Records

  const FREE_LIMIT := 3

  function FreeUsageOf(db: Tables, user: string, month: string): FreeUsage {
    if (user, month) in db.free then db.free[(user, month)] else FreeUsage(0, FREE_LIMIT)
  }

  function FreeLeft(db: Tables, user: string, month: string): nat {
    var usage := FreeUsageOf(db, user, month);
    if usage.usedMessages < usage.freeLimit then usage.freeLimit - usage.usedMessages else 0
  }

  // ---- the subscription query -----------------------------------------------

  predicate Matches(row: Subscription, user: string) { row.userId == user && row.status == Active }

  /** ORDER BY remainingMessages DESC, endDate DESC, with PostgreSQL's NULLs first. */
  predicate RanksBefore(a: Subscription, b: Subscription) {
    match (a.remainingMessages, b.remainingMessages)
    case (None, None) => a.endDate > b.endDate
    case (None, Some(_)) => true
    case (Some(_), None) => false
    case (Some(x), Some(y)) => x > y || (x == y && a.endDate > b.endDate)
  }

  /** `i` may be the first row of the query; rows that tie may come first in any order. */
  predicate IsTop(subs: seq<Subscription>, user: string, i: int) {
    && 0 <= i < |subs|
    && Matches(subs[i], user)
    && forall j :: 0 <= j < |subs| && Matches(subs[j], user) ==> !RanksBefore(subs[j], subs[i])
  }

  lemma {:induction false} SomeRowIsTop(subs: seq<Subscription>, user: string, k: int) returns (i: int)
    requires 0 <= k < |subs| && Matches(subs[k], user)
    ensures IsTop(subs, user, i)
  {
    i := k;
    for n := 0 to |subs|
      invariant 0 <= i < |subs| && Matches(subs[i], user)
      invariant forall j :: 0 <= j < n && Matches(subs[j], user) ==> !RanksBefore(subs[j], subs[i])
    {
      if Matches(subs[n], user) && RanksBefore(subs[n], subs[i]) {
        i := n;
      }
    }
  }

  // ---- one question ---------------------------------------------------------

  /** The counters after one message has been charged. */
  function Charged(db: Tables, user: string, charge: Charge): Tables
    requires charge.SubscriptionUnit? ==> charge.id < |db.subs|
  {
    match charge
    case FreeUnit(month) =>
      var usage := FreeUsageOf(db, user, month);
      db.(free := db.free[(user, month) := usage.(usedMessages := usage.usedMessages + 1)])
    case SubscriptionUnit(id) =>
      var row := db.subs[id];
      if row.IsEnterprise() || row.remainingMessages.None? then db
      else db.(subs := db.subs[id := row.(remainingMessages := Some(row.remainingMessages.value - 1))])
  }

  /** The tables after a committed question: counters, message and ledger row together. */
  function Answered(db: Tables, message: Message): Tables
    requires message.charge.SubscriptionUnit? ==> message.charge.id < |db.subs|
  {
    var charged := Charged(db, message.userId, message.charge);
    charged.(messages := db.messages + [message], ledger := db.ledger + [LedgerRowFor(message)])
  }

  /** `charge` is allowed for `user`: free quota first, then a usable row of the user's own. */
  predicate MayCharge(db: Tables, user: string, month: string, now: int, charge: Charge) {
    match charge
    case FreeUnit(m) => m == month && FreeLeft(db, user, month) > 0
    case SubscriptionUnit(id) =>
      && FreeLeft(db, user, month) == 0
      && id < |db.subs|
      && db.subs[id].userId == user
      && db.subs[id].Usable(now)
  }

  /** The outcomes of asking atomically: a charge, or None for QUOTA_EXCEEDED. */
  ghost predicate AskOutcome(db: Tables, user: string, month: string, now: int, charge: Option<Charge>) {
    match charge
    case Some(c) =>
      MayCharge(db, user, month, now, c) && (c.SubscriptionUnit? ==> IsTop(db.subs, user, c.id))
    case None =>
      && FreeLeft(db, user, month) == 0
      && ((forall i :: 0 <= i < |db.subs| ==> !Matches(db.subs[i], user))
          || exists i :: IsTop(db.subs, user, i) && !db.subs[i].Usable(now))
  }

  // ---- the same, in the columns of the rows ----------------------------------

  /**
   * Row `i` is an active row of the user, and none of the user's active rows comes before
   * it: if it is metered all of them are, with no larger balance, and no later end among
   * equal ones; if it is unlimited no unlimited one ends later.
   */
  predicate Preferred(subs: seq<Subscription>, user: string, i: int) {
    && 0 <= i < |subs| && subs[i].userId == user && subs[i].status == Active
    && forall j :: 0 <= j < |subs| && subs[j].userId == user && subs[j].status == Active ==>
         && (subs[i].remainingMessages.Some? ==>
               && subs[j].remainingMessages.Some?
               && subs[j].remainingMessages.value <= subs[i].remainingMessages.value)
         && (subs[j].remainingMessages == subs[i].remainingMessages ==> subs[j].endDate <= subs[i].endDate)
  }

  lemma TopIsPreferred(subs: seq<Subscription>, user: string, i: int)
    ensures IsTop(subs, user, i) <==> Preferred(subs, user, i)
  {
    forall j | 0 <= i < |subs| && 0 <= j < |subs| && Matches(subs[j], user)
      ensures !RanksBefore(subs[j], subs[i])
              <==> && (subs[i].remainingMessages.Some? ==>
                         && subs[j].remainingMessages.Some?
                         && subs[j].remainingMessages.value <= subs[i].remainingMessages.value)
                   && (subs[j].remainingMessages == subs[i].remainingMessages ==> subs[j].endDate <= subs[i].endDate)
    {
    }
  }

  /** The month's counter has a message left; a missing one counts from nothing. */
  predicate FreeMessageLeft(db: Tables, user: string, month: string) {
    (user, month) in db.free ==> db.free[(user, month)].usedMessages < db.free[(user, month)].freeLimit
  }

  /** `row` cannot pay: it has expired, or is metered and has nothing left. */
  predicate CannotPay(row: Subscription, now: int) {
    row.endDate <= now
    || (row.tier != Enterprise && (row.remainingMessages == None || row.remainingMessages.value <= 0))
  }

  /** The charge was due, and exactly its counter has moved, by one. */
  predicate PaidFrom(before: Tables, after: Tables, user: string, month: string, now: int, charge: Charge) {
    match charge
    case FreeUnit(m) =>
      && m == month && FreeMessageLeft(before, user, month)
      && after.subs == before.subs
      && after.free == before.free[(user, month) :=
           if (user, month) in before.free
           then FreeUsage(before.free[(user, month)].usedMessages + 1, before.free[(user, month)].freeLimit)
           else FreeUsage(1, 3)]
    case SubscriptionUnit(id) =>
      && !FreeMessageLeft(before, user, month)
      && Preferred(before.subs, user, id) && !CannotPay(before.subs[id], now)
      && after.free == before.free
      && if before.subs[id].tier == Enterprise then after.subs == before.subs
         else after.subs == before.subs[id :=
                before.subs[id].(remainingMessages := Some(before.subs[id].remainingMessages.value - 1))]
  }

  /** No free message is left, and the user has no active row, or the preferred one cannot pay. */
  ghost predicate NothingPays(db: Tables, user: string, month: string, now: int) {
    && !FreeMessageLeft(db, user, month)
    && ((forall i :: 0 <= i < |db.subs| ==> !(db.subs[i].userId == user && db.subs[i].status == Active))
        || exists i :: Preferred(db.subs, user, i) && CannotPay(db.subs[i], now))
  }

  /** The outcomes of asking, in the columns alone. */
  lemma ChargeInColumns(db: Tables, user: string, month: string, now: int, charge: Charge)
    requires charge.SubscriptionUnit? ==> charge.id < |db.subs|
    ensures AskOutcome(db, user, month, now, Some(charge))
            <==> PaidFrom(db, Charged(db, user, charge), user, month, now, charge)
  {
    hide IsTop, Preferred;
    if charge.SubscriptionUnit? {
      TopIsPreferred(db.subs, user, charge.id);
      TopMatches(db.subs, user, charge.id);
    }
  }

  lemma TopMatches(subs: seq<Subscription>, user: string, i: int)
    ensures IsTop(subs, user, i) ==> 0 <= i < |subs| && Matches(subs[i], user)
  {
  }

  lemma RefusalInColumns(db: Tables, user: string, month: string, now: int)
    ensures AskOutcome(db, user, month, now, None) <==> NothingPays(db, user, month, now)
  {
    hide IsTop, Preferred;
    forall i ensures IsTop(db.subs, user, i) <==> Preferred(db.subs, user, i) {
      TopIsPreferred(db.subs, user, i);
    }
    forall i ensures IsTop(db.subs, user, i) ==> 0 <= i < |db.subs| && Matches(db.subs[i], user) {
      TopMatches(db.subs, user, i);
    }
  }

  // ---- agreement with the entity's own rules --------------------------------

  predicate UserWellFormed(subs: seq<Subscription>, user: string) {
    forall i :: 0 <= i < |subs| && Matches(subs[i], user) ==> subs[i].WellFormed()
  }

  predicate HasUsable(subs: seq<Subscription>, user: string, now: int) {
    exists i :: 0 <= i < |subs| && subs[i].userId == user && subs[i].Usable(now)
  }

  /** An unlimited row is always preferred to a metered one. */
  lemma EnterpriseComesFirst(subs: seq<Subscription>, user: string, i: int, top: int)
    requires UserWellFormed(subs, user) && IsTop(subs, user, top)
    requires 0 <= i < |subs| && Matches(subs[i], user) && subs[i].IsEnterprise()
    ensures subs[top].IsEnterprise()
  {
  }

  /**
   * The query charges exactly when the user has a usable row, unless the row it ranks
   * first has expired: then, and only then, a usable row behind it is missed.
   */
  lemma QueryMissesOnlyBehindExpired(subs: seq<Subscription>, user: string, now: int, top: int)
    requires UserWellFormed(subs, user) && IsTop(subs, user, top)
    ensures (subs[top].Usable(now) <==> HasUsable(subs, user, now))
            <==> (subs[top].endDate > now || !HasUsable(subs, user, now))
  {
  }

  /** Of rows with equal balances the one that ends last comes first: when it has expired, so have they all. */
  lemma TiesEndNoLater(subs: seq<Subscription>, user: string, now: int, i: int, top: int)
    requires IsTop(subs, user, top) && subs[top].endDate <= now
    requires 0 <= i < |subs| && Matches(subs[i], user)
    requires subs[i].remainingMessages == subs[top].remainingMessages
    ensures !subs[i].Usable(now)
  {
    assert !RanksBefore(subs[i], subs[top]);
  }

  /** The user's active rows are well formed, and row `i` is an unlimited one of them that has not expired. */
  predicate HasUnlimited(subs: seq<Subscription>, user: string, now: int, i: nat) {
    && UserWellFormed(subs, user)
    && i < |subs| && Matches(subs[i], user) && subs[i].IsEnterprise() && subs[i].endDate > now
  }

  lemma TopIsUnlimited(subs: seq<Subscription>, user: string, now: int, i: nat, top: int)
    requires HasUnlimited(subs, user, now, i) && IsTop(subs, user, top)
    ensures subs[top].IsEnterprise() && subs[top].Usable(now)
  {
    EnterpriseComesFirst(subs, user, i, top);
    if subs[top].endDate <= now {
      TiesEndNoLater(subs, user, now, i, top);
    }
  }

  /** A user with an unlimited unexpired row is never refused, and never uses up a metered balance. */
  lemma UnlimitedIsNeverRefused(db: Tables, user: string, month: string, now: int, i: nat, charge: Option<Charge>)
    requires HasUnlimited(db.subs, user, now, i) && AskOutcome(db, user, month, now, charge)
    ensures charge.Some? && Charged(db, user, charge.value).subs == db.subs
  {
    forall top | IsTop(db.subs, user, top) ensures db.subs[top].IsEnterprise() && db.subs[top].Usable(now) {
      TopIsUnlimited(db.subs, user, now, i, top);
    }
  }

  /** An expired row that is still active hides a usable one: the charge is refused. */
  lemma ExpiredRowHidesUsableRow(now: int) returns (db: Tables, user: string, month: string)
    ensures UserWellFormed(db.subs, user) && HasUsable(db.subs, user, now)
    ensures FreeLeft(db, user, month) == 0
    ensures AskOutcome(db, user, month, now, None)
    ensures forall charge: Charge :: !AskOutcome(db, user, month, now, Some(charge))
  {
    user, month := "u", "2025-01";
    var expired := Subscription(user, Pro, Monthly, Some(100), Some(50), 2000, now - 2, now - 1, now - 1, false, Active);
    var usable := Subscription(user, Basic, Monthly, Some(10), Some(10), 500, now, now + 1, now + 1, false, Active);
    db := Tables(map[(user, month) := FreeUsage(3, 3)], [expired, usable], [], []);
    assert db.subs[1].Usable(now);
    assert RanksBefore(db.subs[0], db.subs[1]);
    assert IsTop(db.subs, user, 0) && !db.subs[0].Usable(now);
  }

  // ---- capacity -------------------------------------------------------------

  function Units(row: Subscription, user: string): nat {
    if Matches(row, user) && row.remainingMessages.Some? && row.remainingMessages.value > 0
    then row.remainingMessages.value else 0
  }

  function UnitsLeft(subs: seq<Subscription>, user: string): nat {
    if subs == [] then 0 else UnitsLeft(subs[..|subs| - 1], user) + Units(subs[|subs| - 1], user)
  }

  function Capacity(db: Tables, user: string, month: string): nat {
    FreeLeft(db, user, month) + UnitsLeft(db.subs, user)
  }

  /** The user's active rows are all metered, well formed and unexpired. */
  predicate MeteredAndCurrent(subs: seq<Subscription>, user: string, now: int) {
    forall i :: 0 <= i < |subs| && Matches(subs[i], user) ==>
      subs[i].WellFormed() && !subs[i].IsEnterprise() && subs[i].endDate > now
  }

  lemma {:induction false} UnitsLeftAt(subs: seq<Subscription>, user: string, i: nat)
    requires i < |subs|
    ensures UnitsLeft(subs, user) >= Units(subs[i], user)
  {
    if i < |subs| - 1 {
      UnitsLeftAt(subs[..|subs| - 1], user, i);
    }
  }

  lemma {:induction false} NoUnitsLeft(subs: seq<Subscription>, user: string)
    requires forall i :: 0 <= i < |subs| ==> Units(subs[i], user) == 0
    ensures UnitsLeft(subs, user) == 0
  {
    if subs != [] {
      NoUnitsLeft(subs[..|subs| - 1], user);
    }
  }

  lemma {:induction false} UnitsLeftUpdate(subs: seq<Subscription>, user: string, i: nat, row: Subscription)
    requires i < |subs|
    ensures UnitsLeft(subs[i := row], user) == UnitsLeft(subs, user) - Units(subs[i], user) + Units(row, user)
  {
    var last := |subs| - 1;
    if i < last {
      UnitsLeftUpdate(subs[..last], user, i, row);
      assert subs[i := row][..last] == subs[..last][i := row];
    } else {
      assert subs[i := row][..last] == subs[..last];
    }
  }

  /** At a fixed instant a question succeeds exactly when a unit is left, and uses one up. */
  lemma AskUsesOneUnit(db: Tables, user: string, month: string, now: int, charge: Option<Charge>)
    requires MeteredAndCurrent(db.subs, user, now)
    requires AskOutcome(db, user, month, now, charge)
    ensures charge.Some? <==> Capacity(db, user, month) > 0
    ensures charge.Some? ==>
              var after := Charged(db, user, charge.value);
              Capacity(after, user, month) == Capacity(db, user, month) - 1 && MeteredAndCurrent(after.subs, user, now)
  {
    match charge
    case Some(FreeUnit(m)) =>
    case Some(SubscriptionUnit(id)) =>
      var row := db.subs[id];
      UnitsLeftAt(db.subs, user, id);
      UnitsLeftUpdate(db.subs, user, id, row.(remainingMessages := Some(row.remainingMessages.value - 1)));
    case None =>
      if exists i :: IsTop(db.subs, user, i) && !db.subs[i].Usable(now) {
        var i :| IsTop(db.subs, user, i) && !db.subs[i].Usable(now);
        forall j | 0 <= j < |db.subs| && Matches(db.subs[j], user) ensures Units(db.subs[j], user) == 0 {
          assert !RanksBefore(db.subs[j], db.subs[i]);
        }
      }
      NoUnitsLeft(db.subs, user);
  }

  /** Messages and ledger do not enter. */
  lemma CapacityIgnoresPapers(a: Tables, b: Tables, user: string, month: string)
    requires a.free == b.free && a.subs == b.subs
    ensures Capacity(a, user, month) == Capacity(b, user, month)
  {
  }

  /** Questions of one user, asked one after the other at the same instant. */
  ghost predicate AskRun(dbs: seq<Tables>, user: string, month: string, now: int, charges: seq<Option<Charge>>) {
    && |dbs| == |charges| + 1
    && forall k {:trigger charges[k]} :: 0 <= k < |charges| ==>
         && AskOutcome(dbs[k], user, month, now, charges[k])
         && dbs[k + 1].free == AfterOutcome(dbs[k], user, charges[k]).free
         && dbs[k + 1].subs == AfterOutcome(dbs[k], user, charges[k]).subs
  }

  function AfterOutcome(db: Tables, user: string, charge: Option<Charge>): Tables
    requires charge.Some? && charge.value.SubscriptionUnit? ==> charge.value.id < |db.subs|
  {
    if charge.Some? then Charged(db, user, charge.value) else db
  }

  /** Exactly as many questions succeed as there are units: first all of them, then none. */
  lemma {:induction false} ExactlyCapacityAsksSucceed(dbs: seq<Tables>, user: string, month: string, now: int,
                                                      charges: seq<Option<Charge>>, k: nat)
    requires AskRun(dbs, user, month, now, charges) && k <= |charges|
    requires MeteredAndCurrent(dbs[0].subs, user, now)
    ensures MeteredAndCurrent(dbs[k].subs, user, now)
    ensures var total := Capacity(dbs[0], user, month);
            Capacity(dbs[k], user, month) == if k <= total then total - k else 0
    ensures k < |charges| ==> (charges[k].Some? <==> k < Capacity(dbs[0], user, month))
  {
    hide AskOutcome, Capacity, MeteredAndCurrent, Charged;
    if k > 0 {
      ExactlyCapacityAsksSucceed(dbs, user, month, now, charges, k - 1);
      AskRunStep(dbs, user, month, now, charges, k - 1);
    }
    if k < |charges| {
      AskRunStep(dbs, user, month, now, charges, k);
    }
  }

  lemma AskRunStep(dbs: seq<Tables>, user: string, month: string, now: int, charges: seq<Option<Charge>>, k: nat)
    requires AskRun(dbs, user, month, now, charges) && k < |charges|
    requires MeteredAndCurrent(dbs[k].subs, user, now)
    ensures MeteredAndCurrent(dbs[k + 1].subs, user, now)
    ensures charges[k].Some? <==> Capacity(dbs[k], user, month) > 0
    ensures Capacity(dbs[k + 1], user, month) == Capacity(dbs[k], user, month) - if charges[k].Some? then 1 else 0
  {
    hide Capacity, MeteredAndCurrent, Charged;
    assert AskOutcome(dbs[k], user, month, now, charges[k]);
    AskUsesOneUnit(dbs[k], user, month, now, charges[k]);
    CapacityIgnoresPapers(dbs[k + 1], AfterOutcome(dbs[k], user, charges[k]), user, month);
  }

  /** Asking leaves every other user's quota as it was. */
  lemma AskLeavesOthersAlone(db: Tables, user: string, month: string, now: int, charge: Charge,
                             other: string, otherMonth: string)
    requires MayCharge(db, user, month, now, charge) && other != user
    ensures Capacity(Charged(db, user, charge), other, otherMonth) == Capacity(db, other, otherMonth)
  {
    if charge.SubscriptionUnit? && db.subs[charge.id].remainingMessages.Some? {
      var row := db.subs[charge.id];
      UnitsLeftUpdate(db.subs, other, charge.id, row.(remainingMessages := Some(row.remainingMessages.value - 1)));
    }
  }
}
