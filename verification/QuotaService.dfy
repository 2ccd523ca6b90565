/**
 * The quota engine and the question use case as they run on the tables: reads, checks and
 * saves in the program's order, inside one transaction that rolls back on any error.
 */
module QuotaService {
  import opened Wrappers
  import opened Billing
  import opened Records
  import opened QuotaSpec
  import opened UsageMonth

  datatype AppError = QuotaExceeded | NotFound | AiFailure

  datatype QuotaResult =
    | FreeResult(remainingFreeMessages: int)
    | SubscriptionResult(subscriptionId: nat, remainingMessages: Option<int>)

  class Database {
    var free: map<(string, string), FreeUsage>
    var subs: seq<Subscription>
    var messages: seq<Message>
    var ledger: seq<LedgerRow>

    constructor ()
      ensures Contents() == EMPTY
    {
      free, subs, messages, ledger := map[], [], [], [];
    }

    function Contents(): Tables
      reads this
    {
      Tables(free, subs, messages, ledger)
    }

    /** findOne on the user's active rows, ordered and locked; the database breaks ties as it likes. */
    method FindTopActive(user: string) returns (found: Option<nat>)
      ensures match found
              case Some(i) => IsTop(subs, user, i) && Preferred(subs, user, i)
              case None => forall i :: 0 <= i < |subs| ==> !(subs[i].userId == user && subs[i].status == Active)
    {
      hide RanksBefore, Preferred;
      if k :| 0 <= k < |subs| && Matches(subs[k], user) {
        ghost var top := SomeRowIsTop(subs, user, k);
        var i :| 0 <= i < |subs| && IsTop(subs, user, i);
        TopIsPreferred(subs, user, i);
        found := Some(i);
      } else {
        found := None;
      }
    }
  }

  class QuotaService {
    var db: Database

    constructor (db: Database)
      ensures this.db == db
    {
      this.db := db;
    }

    /** `t` is the clock when the usage month is taken. */
    method DeductFreeQuota(user: string, t: int) returns (r: Result<QuotaResult, AppError>)
      modifies db
      ensures var month := CurrentUsageMonth(t);
              var left := FreeLeft(old(db.Contents()), user, month);
              if FreeMessageLeft(old(db.Contents()), user, month)
              then && left > 0 && r == Ok(FreeResult(left - 1))
                   && db.Contents() == Charged(old(db.Contents()), user, FreeUnit(month))
                   && PaidFrom(old(db.Contents()), db.Contents(), user, month, t, FreeUnit(month))
                   && RestReported(r.value, db.Contents(), user, month)
              else && left == 0 && r == Err(QuotaExceeded) && db.Contents() == old(db.Contents())
    {
      hide CurrentUsageMonth;
      var month := CurrentUsageMonth(t);
      var usage;
      if (user, month) in db.free {
        usage := db.free[(user, month)];
      } else {
        usage := FreeUsage(0, FREE_LIMIT);
        db.free := db.free[(user, month) := usage];
      }
      if usage.usedMessages >= usage.freeLimit {
        return Err(QuotaExceeded);
      }
      usage := usage.(usedMessages := usage.usedMessages + 1);
      db.free := db.free[(user, month) := usage];
      r := Ok(FreeResult(usage.freeLimit - usage.usedMessages));
    }

    /** `now` is the clock of the expiry check. */
    method DeductSubscriptionQuota(user: string, now: int) returns (r: Result<QuotaResult, AppError>)
      modifies db
      ensures match r
              case Ok(result) =>
                && result.SubscriptionResult?
                && var id := result.subscriptionId;
                && Preferred(old(db.subs), user, id) && !CannotPay(old(db.subs)[id], now)
                && IsTop(old(db.subs), user, id) && old(db.subs)[id].Usable(now)
                && db.Contents() == Charged(old(db.Contents()), user, SubscriptionUnit(id))
                && result.remainingMessages
                   == if db.subs[id].tier == Enterprise then None else db.subs[id].remainingMessages
              case Err(e) =>
                && e == QuotaExceeded && db.Contents() == old(db.Contents())
                && ((forall i :: 0 <= i < |db.subs| ==> !(db.subs[i].userId == user && db.subs[i].status == Active))
                    || exists i :: IsTop(db.subs, user, i) && Preferred(db.subs, user, i) && CannotPay(db.subs[i], now))
    {
      hide RanksBefore, Preferred;
      var found := db.FindTopActive(user);
      if found == None {
        return Err(QuotaExceeded);
      }
      var id := found.value;
      var subscription := db.subs[id];
      if subscription.endDate <= now {
        return Err(QuotaExceeded);
      }
      if subscription.tier == Enterprise {
        return Ok(SubscriptionResult(id, None));
      }
      if subscription.remainingMessages == None || subscription.remainingMessages.value <= 0 {
        return Err(QuotaExceeded);
      }
      subscription := subscription.(remainingMessages := Some(subscription.remainingMessages.value - 1));
      db.subs := db.subs[id := subscription];
      r := Ok(SubscriptionResult(id, subscription.remainingMessages));
    }

    /** Free quota first, then a subscription; the charge made is one the atomic question allows. */
    method DeductQuota(user: string, t: int, now: int) returns (r: Result<QuotaResult, AppError>)
      modifies db
      ensures match r
              case Ok(result) =>
                && var charge := ChargeOf(result, CurrentUsageMonth(t));
                && AskOutcome(old(db.Contents()), user, CurrentUsageMonth(t), now, Some(charge))
                && db.Contents() == Charged(old(db.Contents()), user, charge)
                && PaidFrom(old(db.Contents()), db.Contents(), user, CurrentUsageMonth(t), now, charge)
                && db.messages == old(db.messages) && db.ledger == old(db.ledger)
                && RestReported(result, db.Contents(), user, CurrentUsageMonth(t))
              case Err(e) =>
                && e == QuotaExceeded && AskOutcome(old(db.Contents()), user, CurrentUsageMonth(t), now, None)
                && NothingPays(old(db.Contents()), user, CurrentUsageMonth(t), now)
                && db.Contents() == old(db.Contents())
    {
      hide CurrentUsageMonth, Preferred, RanksBefore;
      ghost var before := db.Contents();
      ghost var month := CurrentUsageMonth(t);
      r := DeductFreeQuota(user, t);
      if r.Ok? {
        ChargeInColumns(before, user, month, now, FreeUnit(month));
        return;
      }
      r := DeductSubscriptionQuota(user, now);
      if r.Ok? {
        ChargeInColumns(before, user, month, now, SubscriptionUnit(r.value.subscriptionId));
      } else {
        RefusalInColumns(before, user, month, now);
      }
    }
  }

  /** The count a result reports is what the charged counter has left; None is unlimited. */
  predicate RestReported(result: QuotaResult, db: Tables, user: string, month: string) {
    match result
    case FreeResult(rest) =>
      (user, month) in db.free && rest == db.free[(user, month)].freeLimit - db.free[(user, month)].usedMessages
    case SubscriptionResult(id, rest) =>
      id < |db.subs| && rest == if db.subs[id].tier == Enterprise then None else db.subs[id].remainingMessages
  }

  function ChargeOf(result: QuotaResult, month: string): Charge {
    match result
    case FreeResult(_) => FreeUnit(month)
    case SubscriptionResult(id, _) => SubscriptionUnit(id)
  }

  /** Appends to the ledger; nothing ever changes or removes a row of it. */
  class UsageLedgerRepository {
    var db: Database

    constructor (db: Database)
      ensures this.db == db
    {
      this.db := db;
    }

    method Create(userId: string, subscriptionId: Option<nat>, chatMessageId: string, source: Source, amount: int)
      returns (row: LedgerRow)
      modifies db`ledger
      ensures row == LedgerRow(userId, subscriptionId, chatMessageId, source, amount)
      ensures db.ledger == old(db.ledger) + [row]
    {
      row := LedgerRow(userId, subscriptionId, chatMessageId, source, amount);
      db.ledger := db.ledger + [row];
    }
  }

  class AskQuestionUseCase {
    var db: Database
    var quotaService: QuotaService
    var usageLedger: UsageLedgerRepository

    constructor (db: Database, quotaService: QuotaService, usageLedger: UsageLedgerRepository)
      ensures this.db == db && this.quotaService == quotaService && this.usageLedger == usageLedger
    {
      this.db, this.quotaService, this.usageLedger := db, quotaService, usageLedger;
    }

    /**
     * One question.  `answer` is what the AI provider returns (None when it fails) and
     * `messageId` the id the database generates.  Nothing of a failed question remains.
     */
    method Execute(user: string, question: string, messageId: string, answer: Option<string>, t: int, now: int)
      returns (r: Result<Message, AppError>)
      requires quotaService.db == db && usageLedger.db == db
      modifies db
      ensures match r
              case Ok(message) =>
                && AskOutcome(old(db.Contents()), user, CurrentUsageMonth(t), now, Some(message.charge))
                && Some(message.answer) == answer
                && message == Message(messageId, user, question, message.answer, message.charge)
                && db.Contents() == Answered(old(db.Contents()), message)
                && PaidFrom(old(db.Contents()), db.Contents(), user, CurrentUsageMonth(t), now, message.charge)
                && db.messages == old(db.messages) + [message]
                && db.ledger == old(db.ledger) +
                     [match message.charge
                      case FreeUnit(_) => LedgerRow(user, None, messageId, FromFree, 1)
                      case SubscriptionUnit(id) => LedgerRow(user, Some(id), messageId, FromSubscription, 1)]
              case Err(QuotaExceeded) =>
                && AskOutcome(old(db.Contents()), user, CurrentUsageMonth(t), now, None)
                && NothingPays(old(db.Contents()), user, CurrentUsageMonth(t), now)
                && db.Contents() == old(db.Contents())
              case Err(e) => e == AiFailure && answer == None && db.Contents() == old(db.Contents())
    {
      hide CurrentUsageMonth, AskOutcome, NothingPays, Preferred, CannotPay, FreeMessageLeft;
      // BEGIN: what a rollback returns to
      var free, subs, messages, ledger := db.free, db.subs, db.messages, db.ledger;
      var quota := quotaService.DeductQuota(user, t, now);
      if quota.Err? || answer == None {
        db.free, db.subs, db.messages, db.ledger := free, subs, messages, ledger;
        return Err(if quota.Err? then quota.error else AiFailure);
      }
      var message := Message(messageId, user, question, answer.value, ChargeOf(quota.value, CurrentUsageMonth(t)));
      db.messages := db.messages + [message];
      var source, subscriptionId := FromFree, None;
      if quota.value.SubscriptionResult? {
        source, subscriptionId := FromSubscription, Some(quota.value.subscriptionId);
      }
      var row := usageLedger.Create(user, subscriptionId, message.id, source, 1);
      r := Ok(message);
    }
  }
}
