/**
 * What every step keeps: locks are exclusive, every workspace still fits the committed
 * rows it was computed from, and a waiting writer's snapshot differs from the current
 * row only in what writers may change.
 */
module ChatInvariant {
  import opened Wrappers
  import opened Billing
  import opened Records
  import opened QuotaSpec
  import opened ChatSystem

  predicate LocksExclusive(chats: seq<Chat>) {
    && (forall c, d :: 0 <= c < d < |chats| && chats[c].UsageKey().Some? ==> chats[c].UsageKey() != chats[d].UsageKey())
    && (forall c, d :: 0 <= c < d < |chats| && chats[c].RowId().Some? ==> chats[c].RowId() != chats[d].RowId())
  }

  /** The message and ledger row of a workspace, as far as they are written. */
  predicate PapersOk(chat: Chat, work: Work) {
    && (work.message.Some? ==>
          var m := work.message.value;
          m.id == chat.id && m.userId == chat.user && m.question == chat.question && m.charge == work.charge)
    && (work.ledgerRow.Some? ==> work.message.Some? && work.ledgerRow.value == LedgerRowFor(work.message.value))
  }

  /** The pending writes are the charge, computed from the rows as they are committed now. */
  predicate WorkOk(db: Tables, user: string, month: string, work: Work) {
    && MayCharge(db, user, month, work.at, work.charge)
    && match work.charge
       case FreeUnit(_) =>
         var usage := FreeUsageOf(db, user, month);
         work.row.None? && work.usage == Some(usage.(usedMessages := usage.usedMessages + 1))
       case SubscriptionUnit(id) =>
         var row := db.subs[id];
         work.usage.None?
         && work.row == if row.IsEnterprise() then None
                        else Some(row.(remainingMessages := Some(row.remainingMessages.value - 1)))
  }

  predicate ChatOk(db: Tables, chat: Chat) {
    match chat.phase
    case UsageHeld(month, usage) => usage == FreeUsageOf(db, chat.user, month)
    case FreeSpent(month) => FreeLeft(db, chat.user, month) == 0
    case Queued(month, ids) =>
      FreeLeft(db, chat.user, month) == 0 && forall i :: 0 <= i < |ids| ==> ids[i] < |db.subs|
    case RowHeld(month, id, row) =>
      FreeLeft(db, chat.user, month) == 0 && id < |db.subs| && db.subs[id] == row && Matches(row, chat.user)
    case Working(month, work) => PapersOk(chat, work) && WorkOk(db, chat.user, month, work)
    case _ => true
  }

  predicate WriterOk(db: Tables, writer: Writer) {
    && writer.id < |db.subs|
    && (writer.phase.HasRead? ==> db.subs[writer.id].SameIdentity(writer.phase.row)
                                  && writer.phase.row.renewalDate == writer.phase.row.endDate)
    && (writer.update.Renew? ==> writer.update.remainingMessages == Allotment(db.subs[writer.id].tier)
                                 && writer.update.renewalDate == writer.update.endDate)
  }

  predicate Inv(w: World) {
    && LocksExclusive(w.chats)
    && (forall c :: 0 <= c < |w.chats| ==> ChatOk(w.db, w.chats[c]))
    && (forall n :: 0 <= n < |w.writers| ==> WriterOk(w.db, w.writers[n]))
    && (forall i :: 0 <= i < |w.db.subs| ==>
          w.db.subs[i].maxMessages == Allotment(w.db.subs[i].tier) && w.db.subs[i].renewalDate == w.db.subs[i].endDate)
  }

  // ---- frames ---------------------------------------------------------------

  /** Rows are only added, and keep their identity. */
  predicate RowsPersist(before: seq<Subscription>, after: seq<Subscription>) {
    |before| <= |after| && forall i :: 0 <= i < |before| ==> before[i].SameIdentity(after[i])
  }

  /** A transaction is not disturbed by changes to rows it has not locked. */
  lemma LockedRowsDecide(before: Tables, after: Tables, chat: Chat)
    requires ChatOk(before, chat)
    requires RowsPersist(before.subs, after.subs)
    requires chat.UsageKey().Some? ==>
               FreeUsageOf(before, chat.user, chat.phase.month) == FreeUsageOf(after, chat.user, chat.phase.month)
    requires chat.RowId().Some? && chat.RowId().value < |before.subs| ==>
               before.subs[chat.RowId().value] == after.subs[chat.RowId().value]
    ensures ChatOk(after, chat)
  {
  }

  lemma WritersPersist(before: Tables, after: Tables, writer: Writer)
    requires WriterOk(before, writer) && RowsPersist(before.subs, after.subs)
    ensures WriterOk(after, writer)
  {
  }

  // ---- one step -------------------------------------------------------------

  /** The steps that change nothing but one transaction's own phase. */
  predicate IsLocal(step: Step) {
    step.LockUsage? || step.InsertUsage? || step.SpendFree? || step.QueryRows? || step.LockRow? || step.SpendRow?
    || step.SaveMessage? || step.SaveLedgerRow? || step.Fail?
  }

  /** Such a step leaves the transaction's new phase valid, and takes no lock that is held. */
  predicate StepsWell(w: World, c: nat, chat: Chat) {
    && c < |w.chats|
    && ChatOk(w.db, chat)
    && (chat.UsageKey().None? || chat.UsageKey() == w.chats[c].UsageKey() || UsageFree(w.chats, c, chat.UsageKey().value))
    && (chat.RowId().None? || chat.RowId() == w.chats[c].RowId() || RowFree(w.chats, chat.RowId().value))
  }

  lemma UsageStep(w: World, step: Step, zone: int)
    requires Inv(w) && Enabled(w, step)
    requires step.LockUsage? || step.InsertUsage? || step.SpendFree? || step.QueryRows?
    ensures |Next(w, step, zone).chats| == |w.chats| && step.c < |w.chats|
    ensures var chat := Next(w, step, zone).chats[step.c];
            Next(w, step, zone) == WithPhase(w, step.c, chat.phase) && StepsWell(w, step.c, chat)
  {
    assert ChatOk(w.db, w.chats[step.c]);
  }

  lemma RowStep(w: World, step: Step, zone: int)
    requires Inv(w) && Enabled(w, step)
    requires step.LockRow? || step.SpendRow?
    ensures |Next(w, step, zone).chats| == |w.chats| && step.c < |w.chats|
    ensures var chat := Next(w, step, zone).chats[step.c];
            Next(w, step, zone) == WithPhase(w, step.c, chat.phase) && StepsWell(w, step.c, chat)
  {
    assert ChatOk(w.db, w.chats[step.c]);
  }

  lemma WorkStep(w: World, step: Step, zone: int)
    requires Inv(w) && Enabled(w, step)
    requires step.SaveMessage? || step.SaveLedgerRow? || step.Fail?
    ensures |Next(w, step, zone).chats| == |w.chats| && step.c < |w.chats|
    ensures var chat := Next(w, step, zone).chats[step.c];
            Next(w, step, zone) == WithPhase(w, step.c, chat.phase) && StepsWell(w, step.c, chat)
  {
    assert ChatOk(w.db, w.chats[step.c]);
  }

  lemma LocalStep(w: World, step: Step, zone: int)
    requires Inv(w) && IsLocal(step) && Enabled(w, step)
    ensures |Next(w, step, zone).chats| == |w.chats| && step.c < |w.chats|
    ensures var chat := Next(w, step, zone).chats[step.c];
            Next(w, step, zone) == WithPhase(w, step.c, chat.phase) && StepsWell(w, step.c, chat)
  {
    hide Next, Enabled, StepsWell, Inv;
    if step.LockUsage? || step.InsertUsage? || step.SpendFree? || step.QueryRows? {
      UsageStep(w, step, zone);
    } else if step.LockRow? || step.SpendRow? {
      RowStep(w, step, zone);
    } else {
      WorkStep(w, step, zone);
    }
  }

  lemma LocksStayExclusive(chats: seq<Chat>, c: nat, chat: Chat)
    requires LocksExclusive(chats) && c < |chats|
    requires chat.UsageKey().None? || chat.UsageKey() == chats[c].UsageKey() || UsageFree(chats, c, chat.UsageKey().value)
    requires chat.RowId().None? || chat.RowId() == chats[c].RowId() || RowFree(chats, chat.RowId().value)
    ensures LocksExclusive(chats[c := chat])
  {
  }

  /** A commit makes exactly the atomic question visible. */
  lemma CommitIsAnAtomicAsk(w: World, c: nat, zone: int)
    requires Inv(w) && Enabled(w, Commit(c))
    ensures var Working(month, work) := w.chats[c].phase;
            && MayCharge(w.db, w.chats[c].user, month, work.at, work.charge)
            && work.message.value.userId == w.chats[c].user && work.message.value.charge == work.charge
            && Next(w, Commit(c), zone).db == Answered(w.db, work.message.value)
  {
    assert ChatOk(w.db, w.chats[c]);
    var Working(month, work) := w.chats[c].phase;
    if work.charge.SubscriptionUnit? && work.row.None? {
      assert w.db.subs[work.charge.id].IsEnterprise();
    }
  }

  lemma OtherLocks(chats: seq<Chat>, c: nat, d: nat)
    requires LocksExclusive(chats) && c < |chats| && d < |chats| && c != d
    ensures chats[d].UsageKey().Some? ==> chats[d].UsageKey() != chats[c].UsageKey()
    ensures chats[d].RowId().Some? ==> chats[d].RowId() != chats[c].RowId()
  {
  }

  lemma CommittedIsOk(db: Tables, chat: Chat)
    requires chat.phase.Committed?
    ensures ChatOk(db, chat)
  {
  }

  lemma CommitKeepsInv(w: World, c: nat, zone: int)
    requires Inv(w) && Enabled(w, Commit(c))
    ensures Inv(Next(w, Commit(c), zone))
  {
    hide Apply, ChatOk, WriterOk, LocksExclusive;
    var after := Next(w, Commit(c), zone);
    CommitIsAnAtomicAsk(w, c, zone);
    LocksStayExclusive(w.chats, c, after.chats[c]);
    CommittedIsOk(after.db, after.chats[c]);
    forall d | 0 <= d < |w.chats| && d != c
      ensures ChatOk(after.db, w.chats[d])
    {
      OtherLocks(w.chats, c, d);
      LockedRowsDecide(w.db, after.db, w.chats[d]);
    }
    forall n | 0 <= n < |w.writers| ensures WriterOk(after.db, w.writers[n]) {
      WritersPersist(w.db, after.db, w.writers[n]);
    }
  }

  lemma SaveRowKeepsInv(w: World, n: nat, zone: int)
    requires Inv(w) && Enabled(w, SaveRow(n))
    ensures Inv(Next(w, SaveRow(n), zone))
  {
    var after := Next(w, SaveRow(n), zone);
    assert WriterOk(w.db, w.writers[n]);
    forall d | 0 <= d < |w.chats| ensures ChatOk(after.db, w.chats[d]) {
      LockedRowsDecide(w.db, after.db, w.chats[d]);
    }
    forall m | 0 <= m < |w.writers| ensures WriterOk(after.db, after.writers[m]) {
      WritersPersist(w.db, after.db, w.writers[m]);
    }
  }

  lemma CreateRowKeepsInv(w: World, step: Step, zone: int)
    requires Inv(w) && step.CreateRow? && Enabled(w, step)
    ensures Inv(Next(w, step, zone))
  {
    var after := Next(w, step, zone);
    forall d | 0 <= d < |w.chats| ensures ChatOk(after.db, w.chats[d]) {
      LockedRowsDecide(w.db, after.db, w.chats[d]);
    }
    forall m | 0 <= m < |w.writers| ensures WriterOk(after.db, w.writers[m]) {
      WritersPersist(w.db, after.db, w.writers[m]);
    }
  }

  lemma LocalStepKeepsInv(w: World, step: Step, zone: int)
    requires Inv(w) && IsLocal(step) && Enabled(w, step)
    ensures Inv(Next(w, step, zone))
  {
    hide Next, Enabled, ChatOk;
    var after := Next(w, step, zone);
    LocalStep(w, step, zone);
    LocksStayExclusive(w.chats, step.c, after.chats[step.c]);
  }

  lemma StepKeepsInv(w: World, step: Step, zone: int)
    requires Inv(w) && Enabled(w, step)
    ensures Inv(Next(w, step, zone))
  {
    var after := Next(w, step, zone);
    match step
    case StartChat(_, _, _) =>
    case StartWriter(id, kind) => assert WriterOk(w.db, after.writers[|w.writers|]);
    case CreateRow(_, _, _, _, _) => CreateRowKeepsInv(w, step, zone);
    case Commit(c) => CommitKeepsInv(w, c, zone);
    case ReadRow(n) => assert WriterOk(w.db, w.writers[n]);
    case SaveRow(n) => SaveRowKeepsInv(w, n, zone);
    case _ => LocalStepKeepsInv(w, step, zone);
  }

  lemma {:induction false} RunKeepsInv(w: World, steps: seq<Step>, zone: int)
    requires Inv(w) && IsRun(w, steps, zone)
    ensures Inv(WorldAfter(w, steps, zone))
    decreases |steps|
  {
    if steps != [] {
      RunKeepsInv(w, steps[..|steps| - 1], zone);
      StepKeepsInv(WorldAfter(w, steps[..|steps| - 1], zone), steps[|steps| - 1], zone);
    }
  }

  /** Every world a run from the empty tables reaches satisfies the invariant. */
  lemma ReachableInv(steps: seq<Step>, zone: int)
    requires IsRun(START, steps, zone)
    ensures Inv(WorldAfter(START, steps, zone))
  {
    RunKeepsInv(START, steps, zone);
  }

  /** Whatever stale writers save, a row falls due exactly when its period ends. */
  lemma RowsFallDueAtPeriodEnd(steps: seq<Step>, zone: int, id: nat)
    requires IsRun(START, steps, zone) && id < |WorldAfter(START, steps, zone).db.subs|
    ensures WorldAfter(START, steps, zone).db.subs[id].renewalDate == WorldAfter(START, steps, zone).db.subs[id].endDate
  {
    ReachableInv(steps, zone);
  }
}
