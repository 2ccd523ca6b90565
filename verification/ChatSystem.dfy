/**
 * Chat transactions and subscription writers, interleaved step by step.
 *
 * A chat transaction keeps its writes in a private workspace until it commits and
 * holds its row locks until then; reads see committed rows (READ COMMITTED).  A
 * subscription writer reads a row without a lock and later saves the whole row it
 * read, changed.  `log` lists the committed operations in commit order; no step
 * reads it.
 */
module ChatSystem {
  import opened Wrappers
  import opened Billing
  import opened Records
  import opened QuotaSpec

  /** Writes waiting for the commit, and the charge they pay for; `at` is when expiry was checked. */
  datatype Work = Work(
    charge: Charge,
    at: int,
    usage: Option<FreeUsage>,
    row: Option<Subscription>,
    message: Option<Message>,
    ledgerRow: Option<LedgerRow>)
  {
    /** Message and ledger row are written, and the row to save exists. */
    predicate Complete(db: Tables) {
      message.Some? && ledgerRow.Some? && (charge.SubscriptionUnit? ==> charge.id < |db.subs|)
    }
  }

  datatype Phase =
    | Begun
    | NoUsageRow(month: string)                        // the locked read found no row
    | UsageHeld(month: string, usage: FreeUsage)       // row locked, or inserted by this transaction
    | FreeSpent(month: string)                         // free quota used up; the lock is kept
    | Queued(month: string, ids: seq<nat>)             // query result, rows not locked yet
    | RowHeld(month: string, id: nat, row: Subscription)
    | Working(month: string, work: Work)
    | Committed
    | RolledBack

  datatype Chat = Chat(id: string, user: string, question: string, phase: Phase) {
    predicate Finished() { phase.Committed? || phase.RolledBack? }

    /** The (user, month) row this transaction has locked or inserted. */
    function UsageKey(): Option<(string, string)> {
      match phase
      case UsageHeld(month, _) => Some((user, month))
      case FreeSpent(month) => Some((user, month))
      case Queued(month, _) => Some((user, month))
      case RowHeld(month, _, _) => Some((user, month))
      case Working(month, _) => Some((user, month))
      case _ => None
    }

    /** The subscription row this transaction has locked. */
    function RowId(): Option<nat> {
      match phase
      case RowHeld(_, id, _) => Some(id)
      case Working(_, work) => if work.charge.SubscriptionUnit? then Some(work.charge.id) else None
      case _ => None
    }
  }

  datatype WriterPhase = Requested | HasRead(row: Subscription) | Saved

  datatype Writer = Writer(id: nat, update: Update, phase: WriterPhase)

  datatype Event =
    | Created(row: Subscription)
    | Asked(message: Message, month: string, at: int)
    | Cancelling(id: nat)
    | Deactivating(id: nat)
    | Renewing(id: nat, endDate: int, autoRenew: bool)

  datatype World = World(db: Tables, chats: seq<Chat>, writers: seq<Writer>, log: seq<Event>)

  const START := World(EMPTY, [], [], [])

  datatype Step =
    | StartChat(chatId: string, user: string, question: string)
    | StartWriter(rowId: nat, kind: WriterKind)
    | CreateRow(user: string, tier: Tier, cycle: Cycle, autoRenew: bool, now: int)
    | LockUsage(c: nat, month: string)
    | InsertUsage(c: nat)
    | SpendFree(c: nat)
    | QueryRows(c: nat, ids: seq<nat>)
    | LockRow(c: nat)
    | SpendRow(c: nat, now: int)
    | SaveMessage(c: nat, answer: string)
    | SaveLedgerRow(c: nat)
    | Commit(c: nat)
    | Fail(c: nat)
    | ReadRow(w: nat)
    | SaveRow(w: nat)

  /** A cancel request, or one due subscription of a renewal run, charged or declined. */
  datatype WriterKind = CancelRequest | ChargeDeclined(now: int) | ChargeAccepted(now: int)

  /** What the use case asks for, from the row as it was when the run listed it. */
  function UpdateFor(row: Subscription, kind: WriterKind, zone: int): Update {
    match kind
    case CancelRequest => Cancel
    case ChargeDeclined(_) => Deactivate
    case ChargeAccepted(_) => RenewalOf(row, zone)
  }

  predicate UsageFree(chats: seq<Chat>, c: nat, key: (string, string)) {
    forall d :: 0 <= d < |chats| && d != c ==> chats[d].UsageKey() != Some(key)
  }

  predicate RowFree(chats: seq<Chat>, id: nat) {
    forall d :: 0 <= d < |chats| ==> chats[d].RowId() != Some(id)
  }

  /** A result of the ordered query: all matching rows, each once, none after one it outranks. */
  predicate QueryResult(subs: seq<Subscription>, user: string, ids: seq<nat>) {
    && (forall i :: 0 <= i < |ids| ==> ids[i] < |subs| && Matches(subs[ids[i]], user))
    && (forall i, j :: 0 <= i < j < |ids| ==> ids[i] != ids[j] && !RanksBefore(subs[ids[j]], subs[ids[i]]))
    && (forall k :: 0 <= k < |subs| && Matches(subs[k], user) ==> k in ids)
  }

  predicate ChatAt(w: World, c: nat) { c < |w.chats| }

  /** The steps the program and the database can take in a world. */
  predicate Enabled(w: World, step: Step) {
    match step
    case StartChat(_, _, _) => true
    case StartWriter(id, kind) =>
      id < |w.db.subs| && (kind.CancelRequest? || Due(w.db.subs[id], kind.now))
    case CreateRow(_, _, _, _, _) => true
    case LockUsage(c, month) =>
      // waits while another transaction holds the lock of an existing row
      ChatAt(w, c) && w.chats[c].phase.Begun?
      && ((w.chats[c].user, month) in w.db.free ==> UsageFree(w.chats, c, (w.chats[c].user, month)))
    case InsertUsage(c) =>
      // waits while another transaction has inserted the same key and not finished
      ChatAt(w, c) && w.chats[c].phase.NoUsageRow?
      && ((w.chats[c].user, w.chats[c].phase.month) !in w.db.free
          ==> UsageFree(w.chats, c, (w.chats[c].user, w.chats[c].phase.month)))
    case SpendFree(c) => ChatAt(w, c) && w.chats[c].phase.UsageHeld?
    case QueryRows(c, ids) =>
      ChatAt(w, c) && w.chats[c].phase.FreeSpent? && QueryResult(w.db.subs, w.chats[c].user, ids)
    case LockRow(c) =>
      // waits while another transaction holds the lock of the next row
      ChatAt(w, c) && w.chats[c].phase.Queued?
      && (w.chats[c].phase.ids != [] ==> RowFree(w.chats, w.chats[c].phase.ids[0]))
    case SpendRow(c, _) => ChatAt(w, c) && w.chats[c].phase.RowHeld?
    case SaveMessage(c, _) =>
      ChatAt(w, c) && w.chats[c].phase.Working? && w.chats[c].phase.work.message.None?
    case SaveLedgerRow(c) =>
      ChatAt(w, c) && w.chats[c].phase.Working?
      && w.chats[c].phase.work.message.Some? && w.chats[c].phase.work.ledgerRow.None?
    case Commit(c) =>
      ChatAt(w, c) && w.chats[c].phase.Working? && w.chats[c].phase.work.Complete(w.db)
    case Fail(c) => ChatAt(w, c) && !w.chats[c].Finished()
    case ReadRow(n) => n < |w.writers| && w.writers[n].phase.Requested? && w.writers[n].id < |w.db.subs|
    case SaveRow(n) =>
      // waits while a chat transaction holds the row's lock
      n < |w.writers| && w.writers[n].phase.HasRead? && w.writers[n].id < |w.db.subs| && RowFree(w.chats, w.writers[n].id)
  }

  function WithPhase(w: World, c: nat, phase: Phase): World
    requires c < |w.chats|
  {
    w.(chats := w.chats[c := w.chats[c].(phase := phase)])
  }

  /** The free-quota check and increment, on the held row. */
  function AfterFreeCheck(month: string, usage: FreeUsage): Phase {
    if usage.usedMessages >= usage.freeLimit then FreeSpent(month)
    else Working(month, Work(FreeUnit(month), 0, Some(usage.(usedMessages := usage.usedMessages + 1)), None, None, None))
  }

  /** The expiry, tier and balance checks and the decrement, on the held row. */
  function AfterRowCheck(month: string, id: nat, row: Subscription, now: int): Phase {
    if row.endDate <= now then RolledBack
    else if row.IsEnterprise() then Working(month, Work(SubscriptionUnit(id), now, None, None, None, None))
    else if row.remainingMessages.None? || row.remainingMessages.value <= 0 then RolledBack
    else
      var saved := row.(remainingMessages := Some(row.remainingMessages.value - 1));
      Working(month, Work(SubscriptionUnit(id), now, None, Some(saved), None, None))
  }

  /** All the writes of a workspace become visible at once. */
  function Apply(db: Tables, user: string, month: string, work: Work): Tables
    requires work.Complete(db)
  {
    Tables(
      if work.usage.Some? then db.free[(user, month) := work.usage.value] else db.free,
      if work.charge.SubscriptionUnit? && work.row.Some? then db.subs[work.charge.id := work.row.value] else db.subs,
      db.messages + [work.message.value],
      db.ledger + [work.ledgerRow.value])
  }

  function EventFor(id: nat, update: Update, row: Subscription): Event {
    match update
    case Cancel => Cancelling(id)
    case Deactivate => Deactivating(id)
    case Renew(endDate, _, _) => Renewing(id, endDate, row.autoRenew)
  }

  /** The world after an enabled step. */
  function Next(w: World, step: Step, zone: int): World
    requires Enabled(w, step)
  {
    match step
    case StartChat(id, user, question) => w.(chats := w.chats + [Chat(id, user, question, Begun)])
    case StartWriter(id, kind) =>
      w.(writers := w.writers + [Writer(id, UpdateFor(w.db.subs[id], kind, zone), Requested)])
    case CreateRow(user, tier, cycle, autoRenew, now) =>
      var row := NewSubscription(user, tier, cycle, autoRenew, now, zone);
      w.(db := w.db.(subs := w.db.subs + [row]), log := w.log + [Created(row)])
    case LockUsage(c, month) =>
      var key := (w.chats[c].user, month);
      WithPhase(w, c, if key in w.db.free then UsageHeld(month, w.db.free[key]) else NoUsageRow(month))
    case InsertUsage(c) =>
      var month := w.chats[c].phase.month;
      // a row committed meanwhile violates the unique key, and the transaction fails
      WithPhase(w, c, if (w.chats[c].user, month) in w.db.free then RolledBack
                      else UsageHeld(month, FreeUsage(0, FREE_LIMIT)))
    case SpendFree(c) =>
      WithPhase(w, c, AfterFreeCheck(w.chats[c].phase.month, w.chats[c].phase.usage))
    case QueryRows(c, ids) => WithPhase(w, c, Queued(w.chats[c].phase.month, ids))
    case LockRow(c) =>
      var Queued(month, ids) := w.chats[c].phase;
      // the condition is checked again on the locked version; a row that fails it is passed over
      WithPhase(w, c, if ids == [] then RolledBack
                      else if ids[0] < |w.db.subs| && Matches(w.db.subs[ids[0]], w.chats[c].user)
                      then RowHeld(month, ids[0], w.db.subs[ids[0]])
                      else Queued(month, ids[1..]))
    case SpendRow(c, now) =>
      var RowHeld(month, id, row) := w.chats[c].phase;
      WithPhase(w, c, AfterRowCheck(month, id, row, now))
    case SaveMessage(c, answer) =>
      var Working(month, work) := w.chats[c].phase;
      var message := Message(w.chats[c].id, w.chats[c].user, w.chats[c].question, answer, work.charge);
      WithPhase(w, c, Working(month, work.(message := Some(message))))
    case SaveLedgerRow(c) =>
      var Working(month, work) := w.chats[c].phase;
      WithPhase(w, c, Working(month, work.(ledgerRow := Some(LedgerRowFor(work.message.value)))))
    case Commit(c) =>
      var Working(month, work) := w.chats[c].phase;
      var db := Apply(w.db, w.chats[c].user, month, work);
      WithPhase(w, c, Committed).(db := db, log := w.log + [Asked(work.message.value, month, work.at)])
    case Fail(c) => WithPhase(w, c, RolledBack)
    case ReadRow(n) =>
      w.(writers := w.writers[n := w.writers[n].(phase := HasRead(w.db.subs[w.writers[n].id]))])
    case SaveRow(n) =>
      var Writer(id, update, phase) := w.writers[n];
      w.(db := w.db.(subs := w.db.subs[id := Updated(phase.row, update)]),
         writers := w.writers[n := w.writers[n].(phase := Saved)],
         log := w.log + [EventFor(id, update, phase.row)])
  }

  /** A finite execution: every step is enabled where it is taken. */
  predicate IsRun(w: World, steps: seq<Step>, zone: int)
    decreases |steps|, 0
  {
    steps == []
    || (IsRun(w, steps[..|steps| - 1], zone)
        && Enabled(WorldAfter(w, steps[..|steps| - 1], zone), steps[|steps| - 1]))
  }

  function WorldAfter(w: World, steps: seq<Step>, zone: int): World
    requires IsRun(w, steps, zone)
    decreases |steps|, 1
  {
    if steps == [] then w else Next(WorldAfter(w, steps[..|steps| - 1], zone), steps[|steps| - 1], zone)
  }

  lemma RunNothing(w: World, zone: int)
    ensures IsRun(w, [], zone) && WorldAfter(w, [], zone) == w
  {
  }

  lemma RunOneMore(w: World, steps: seq<Step>, step: Step, zone: int)
    requires IsRun(w, steps, zone) && Enabled(WorldAfter(w, steps, zone), step)
    ensures IsRun(w, steps + [step], zone)
    ensures WorldAfter(w, steps + [step], zone) == Next(WorldAfter(w, steps, zone), step, zone)
  {
  }
}
