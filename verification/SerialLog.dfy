/**
 * The serial program: each logged operation as one atomic step on the tables.
 * Interleaved runs, with any number of stale writers, are shown to be explained by
 * replaying their log in commit order.  What an inactive row's counters hold is not
 * observed: no question reads them, and a renewal overwrites them.
 */
module SerialLog {
  import opened Wrappers
  import opened Billing
  import opened Records
  import opened QuotaSpec
  import opened ChatSystem
  import opened ChatInvariant

  function Observed(row: Subscription): Subscription {
    if row.status == Active then row
    else row.(remainingMessages := None, endDate := 0, renewalDate := 0, autoRenew := false)
  }

  function ObservedTables(db: Tables): Tables {
    db.(subs := seq(|db.subs|, i requires 0 <= i < |db.subs| => Observed(db.subs[i])))
  }

  predicate EventLegal(db: Tables, event: Event) {
    match event
    case Created(row) => row.status == Active
    case Asked(message, month, at) => MayCharge(db, message.userId, month, at, message.charge)
    case Cancelling(id) => id < |db.subs|
    case Deactivating(id) => id < |db.subs|
    case Renewing(id, _, _) => id < |db.subs|
  }

  function EventApply(db: Tables, event: Event): Tables
    requires EventLegal(db, event)
  {
    match event
    case Created(row) => db.(subs := db.subs + [row])
    case Asked(message, _, _) => Answered(db, message)
    case Cancelling(id) => db.(subs := db.subs[id := Observed(Updated(db.subs[id], Cancel))])
    case Deactivating(id) => db.(subs := db.subs[id := Observed(Updated(db.subs[id], Deactivate))])
    case Renewing(id, endDate, autoRenew) =>
      var renewed := Updated(db.subs[id], Renew(endDate, endDate, Allotment(db.subs[id].tier)));
      db.(subs := db.subs[id := renewed.(autoRenew := autoRenew)])
  }

  /** Every operation of the log is legal in the tables the operations before it produce. */
  predicate Legal(log: seq<Event>)
    decreases |log|, 0
  {
    log == [] || (Legal(log[..|log| - 1]) && EventLegal(Replay(log[..|log| - 1]), log[|log| - 1]))
  }

  function Replay(log: seq<Event>): Tables
    requires Legal(log)
    decreases |log|, 1
  {
    if log == [] then EMPTY else EventApply(Replay(log[..|log| - 1]), log[|log| - 1])
  }

  predicate Explained(w: World) {
    Legal(w.log) && Replay(w.log) == ObservedTables(w.db)
  }

  lemma ReplayOne(log: seq<Event>, event: Event)
    requires Legal(log) && EventLegal(Replay(log), event)
    ensures Legal(log + [event]) && Replay(log + [event]) == EventApply(Replay(log), event)
  {
  }

  /** A question on the observed tables is the same question. */
  lemma AskIsObserved(db: Tables, month: string, at: int, message: Message)
    requires MayCharge(db, message.userId, month, at, message.charge)
    ensures MayCharge(ObservedTables(db), message.userId, month, at, message.charge)
    ensures ObservedTables(Answered(db, message)) == Answered(ObservedTables(db), message)
  {
  }

  /** Saving a possibly stale snapshot is, observably, the atomic operation on the current row. */
  lemma SaveIsObserved(db: Tables, writer: Writer)
    requires WriterOk(db, writer) && writer.phase.HasRead?
    ensures var event := EventFor(writer.id, writer.update, writer.phase.row);
            && EventLegal(ObservedTables(db), event)
            && ObservedTables(db.(subs := db.subs[writer.id := Updated(writer.phase.row, writer.update)]))
               == EventApply(ObservedTables(db), event)
  {
  }

  lemma StepIsExplained(w: World, step: Step, zone: int)
    requires Inv(w) && Explained(w) && Enabled(w, step)
    ensures Explained(Next(w, step, zone))
  {
    hide ChatOk, LocksExclusive, ObservedTables, EventApply, EventLegal;
    match step
    case CreateRow(user, tier, cycle, autoRenew, now) => CreateIsExplained(w, step, zone);
    case Commit(c) =>
      CommitIsAnAtomicAsk(w, c, zone);
      CommitIsExplained(w, c, zone);
    case SaveRow(n) => SaveRowIsExplained(w, n, zone);
    case _ =>
  }

  lemma CreateIsExplained(w: World, step: Step, zone: int)
    requires Explained(w) && step.CreateRow? && Enabled(w, step)
    ensures Explained(Next(w, step, zone))
  {
    var after := Next(w, step, zone);
    ReplayOne(w.log, after.log[|w.log|]);
    assert ObservedTables(after.db).subs == ObservedTables(w.db).subs + [after.db.subs[|w.db.subs|]];
  }

  lemma CommitIsExplained(w: World, c: nat, zone: int)
    requires Inv(w) && Explained(w) && Enabled(w, Commit(c))
    ensures Explained(Next(w, Commit(c), zone))
  {
    hide Apply, ObservedTables, Inv;
    CommitIsAnAtomicAsk(w, c, zone);
    var Working(month, work) := w.chats[c].phase;
    AskIsObserved(w.db, month, work.at, work.message.value);
    ReplayOne(w.log, Asked(work.message.value, month, work.at));
  }

  lemma SaveRowIsExplained(w: World, n: nat, zone: int)
    requires Inv(w) && Explained(w) && Enabled(w, SaveRow(n))
    ensures Explained(Next(w, SaveRow(n), zone))
  {
    var Writer(id, update, phase) := w.writers[n];
    SaveIsObserved(w.db, w.writers[n]);
    ReplayOne(w.log, EventFor(id, update, phase.row));
  }

  /**
   * Every interleaved run is equivalent to its log, executed serially in commit order:
   * each committed question charged one free unit, or one active, unexpired row of its
   * user with the free quota used up, of the tables at its place in that order.
   */
  lemma {:induction false} RunsAreSerializable(steps: seq<Step>, zone: int)
    requires IsRun(START, steps, zone)
    ensures Legal(WorldAfter(START, steps, zone).log)
    ensures Replay(WorldAfter(START, steps, zone).log) == ObservedTables(WorldAfter(START, steps, zone).db)
    decreases |steps|
  {
    if steps != [] {
      var before := steps[..|steps| - 1];
      RunsAreSerializable(before, zone);
      ReachableInv(before, zone);
      StepIsExplained(WorldAfter(START, before, zone), steps[|steps| - 1], zone);
    }
  }
}
