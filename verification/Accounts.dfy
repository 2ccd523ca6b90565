/**
 * Bookkeeping over whole runs: what has been charged, counted from the log of committed
 * operations, against what the counters still allow.
 */
module Accounts {
  import opened Wrappers
  import opened Billing
  import opened Records
  import opened QuotaSpec
  import opened ChatSystem
  import opened ChatInvariant

  // ---- counting the log -----------------------------------------------------

  predicate Charges(event: Event, id: nat) {
    event.Asked? && event.message.charge == SubscriptionUnit(id)
  }

  predicate Grants(event: Event, id: nat) {
    event.Renewing? && event.id == id
  }

  /** Messages charged to row `id`. */
  function ChargeCount(log: seq<Event>, id: nat): nat {
    if log == [] then 0
    else ChargeCount(log[..|log| - 1], id) + if Charges(log[|log| - 1], id) then 1 else 0
  }

  /** Renewals granted to row `id`. */
  function GrantCount(log: seq<Event>, id: nat): nat {
    if log == [] then 0
    else GrantCount(log[..|log| - 1], id) + if Grants(log[|log| - 1], id) then 1 else 0
  }

  /** Messages charged to row `id` since its allotment was last granted. */
  function SpentSinceGrant(log: seq<Event>, id: nat): nat {
    if log == [] then 0
    else if Grants(log[|log| - 1], id) then 0
    else SpentSinceGrant(log[..|log| - 1], id) + if Charges(log[|log| - 1], id) then 1 else 0
  }

  /** Free messages of one user in one month. */
  function FreeCount(log: seq<Event>, user: string, month: string): nat {
    if log == [] then 0
    else
      var last := log[|log| - 1];
      FreeCount(log[..|log| - 1], user, month)
      + if last.Asked? && last.message.userId == user && last.message.charge == FreeUnit(month) then 1 else 0
  }

  /** The ledger rows of the committed questions, in commit order. */
  function LedgerOf(log: seq<Event>): seq<LedgerRow> {
    if log == [] then []
    else
      var last := log[|log| - 1];
      LedgerOf(log[..|log| - 1]) + if last.Asked? then [LedgerRowFor(last.message)] else []
  }

  function LedgerCount(ledger: seq<LedgerRow>, id: nat): nat {
    if ledger == [] then 0
    else LedgerCount(ledger[..|ledger| - 1], id) + if ledger[|ledger| - 1].subscriptionId == Some(id) then 1 else 0
  }

  lemma {:induction false} LedgerCountIsChargeCount(log: seq<Event>, id: nat)
    ensures LedgerCount(LedgerOf(log), id) == ChargeCount(log, id)
  {
    if log != [] {
      LedgerCountIsChargeCount(log[..|log| - 1], id);
      var ledger, last := LedgerOf(log), log[|log| - 1];
      if last.Asked? {
        assert ledger[..|ledger| - 1] == LedgerOf(log[..|log| - 1]);
      } else {
        assert ledger == LedgerOf(log[..|log| - 1]);
      }
    }
  }

  // ---- the books ------------------------------------------------------------

  /** One row against its charges: `spent` since the last grant, `charged` in all, `grants` renewals. */
  predicate RowBalanced(row: Subscription, spent: nat, charged: nat, grants: nat) {
    && row.WellFormed()
    && (row.maxMessages.Some? ==>
          && spent <= row.maxMessages.value
          && (row.status == Active ==> row.remainingMessages.value + spent == row.maxMessages.value)
          && charged <= spent + row.maxMessages.value * grants)
  }

  predicate BalancedAt(w: World, id: nat)
    requires id < |w.db.subs|
  {
    RowBalanced(w.db.subs[id], SpentSinceGrant(w.log, id), ChargeCount(w.log, id), GrantCount(w.log, id))
  }

  predicate RowsBalanced(w: World) {
    && (forall id :: 0 <= id < |w.db.subs| ==> BalancedAt(w, id))
    && (forall n :: 0 <= n < |w.writers| && w.writers[n].phase.HasRead? ==> w.writers[n].phase.row.WellFormed())
  }

  ghost predicate NothingLoggedFrom(log: seq<Event>, rows: nat) {
    forall id: nat :: id >= rows ==> SpentSinceGrant(log, id) == ChargeCount(log, id) == GrantCount(log, id) == 0
  }

  ghost predicate FreeBalanced(w: World) {
    forall user, month ::
      && FreeUsageOf(w.db, user, month) == FreeUsage(FreeCount(w.log, user, month), FREE_LIMIT)
      && FreeCount(w.log, user, month) <= FREE_LIMIT
  }

  ghost predicate Books(w: World) {
    RowsBalanced(w) && NothingLoggedFrom(w.log, |w.db.subs|) && FreeBalanced(w) && w.db.ledger == LedgerOf(w.log)
  }

  // ---- one step -------------------------------------------------------------

  lemma CountsAfter(log: seq<Event>, event: Event, id: nat)
    ensures ChargeCount(log + [event], id) == ChargeCount(log, id) + if Charges(event, id) then 1 else 0
    ensures GrantCount(log + [event], id) == GrantCount(log, id) + if Grants(event, id) then 1 else 0
    ensures SpentSinceGrant(log + [event], id)
            == if Grants(event, id) then 0 else SpentSinceGrant(log, id) + if Charges(event, id) then 1 else 0
  {
  }

  lemma FreeCountAfter(log: seq<Event>, event: Event, user: string, month: string)
    ensures FreeCount(log + [event], user, month)
            == FreeCount(log, user, month)
               + if event.Asked? && event.message.userId == user && event.message.charge == FreeUnit(month) then 1 else 0
  {
  }

  lemma LedgerAfter(log: seq<Event>, event: Event)
    ensures LedgerOf(log + [event]) == LedgerOf(log) + if event.Asked? then [LedgerRowFor(event.message)] else []
  {
  }

  /** Granting the allotment anew settles what was spent. */
  lemma GrantBalances(row: Subscription, renewed: Subscription, spent: nat, charged: nat, grants: nat)
    requires RowBalanced(row, spent, charged, grants)
    requires renewed.SameIdentity(row) && renewed.remainingMessages == Allotment(row.tier)
    ensures RowBalanced(renewed, 0, charged, grants + 1)
  {
  }

  lemma SaveRowKeepsRows(w: World, n: nat, zone: int)
    requires Inv(w) && Books(w) && Enabled(w, SaveRow(n))
    ensures RowsBalanced(Next(w, SaveRow(n), zone))
  {
    hide SpentSinceGrant, ChargeCount, GrantCount, ChatOk, LocksExclusive, FreeBalanced, LedgerOf;
    var after := Next(w, SaveRow(n), zone);
    var writer := w.writers[n];
    assert WriterOk(w.db, writer);
    forall id | 0 <= id < |w.db.subs| ensures BalancedAt(after, id) {
      CountsAfter(w.log, after.log[|w.log|], id);
      assert BalancedAt(w, id);
      if id == writer.id && writer.update.Renew? {
        GrantBalances(w.db.subs[id], after.db.subs[id],
                      SpentSinceGrant(w.log, id), ChargeCount(w.log, id), GrantCount(w.log, id));
      }
    }
  }

  lemma CommitKeepsRows(w: World, c: nat, zone: int)
    requires Inv(w) && Books(w) && Enabled(w, Commit(c))
    ensures RowsBalanced(Next(w, Commit(c), zone))
  {
    hide SpentSinceGrant, ChargeCount, GrantCount, Inv, FreeBalanced, LedgerOf, Apply;
    CommitIsAnAtomicAsk(w, c, zone);
    var after := Next(w, Commit(c), zone);
    forall id | 0 <= id < |w.db.subs| ensures BalancedAt(after, id) {
      CountsAfter(w.log, after.log[|w.log|], id);
      assert BalancedAt(w, id);
    }
  }

  lemma CommitKeepsFree(w: World, c: nat, zone: int)
    requires Inv(w) && Books(w) && Enabled(w, Commit(c))
    ensures FreeBalanced(Next(w, Commit(c), zone))
  {
    hide Inv, RowsBalanced, LedgerOf, Apply, FreeCount;
    CommitIsAnAtomicAsk(w, c, zone);
    var after := Next(w, Commit(c), zone);
    forall user, month
      ensures FreeUsageOf(after.db, user, month) == FreeUsage(FreeCount(after.log, user, month), FREE_LIMIT)
              && FreeCount(after.log, user, month) <= FREE_LIMIT
    {
      FreeCountAfter(w.log, after.log[|w.log|], user, month);
      assert FreeUsageOf(w.db, user, month) == FreeUsage(FreeCount(w.log, user, month), FREE_LIMIT);
    }
  }

  lemma OtherStepsKeepFree(w: World, step: Step, zone: int)
    requires Books(w) && Enabled(w, step) && !step.Commit?
    ensures FreeBalanced(Next(w, step, zone))
  {
    hide RowsBalanced, LedgerOf, FreeCount;
    var after := Next(w, step, zone);
    forall user, month
      ensures FreeUsageOf(after.db, user, month) == FreeUsage(FreeCount(after.log, user, month), FREE_LIMIT)
              && FreeCount(after.log, user, month) <= FREE_LIMIT
    {
      assert FreeUsageOf(w.db, user, month) == FreeUsage(FreeCount(w.log, user, month), FREE_LIMIT);
      if after.log != w.log {
        FreeCountAfter(w.log, after.log[|w.log|], user, month);
      }
    }
  }

  lemma CreateKeepsRows(w: World, step: Step, zone: int)
    requires Books(w) && Enabled(w, step) && step.CreateRow?
    ensures RowsBalanced(Next(w, step, zone))
  {
    hide SpentSinceGrant, ChargeCount, GrantCount, FreeBalanced, LedgerOf, CycleEnd;
    var after := Next(w, step, zone);
    forall id | 0 <= id < |after.db.subs| ensures BalancedAt(after, id) {
      CountsAfter(w.log, after.log[|w.log|], id);
      assert id < |w.db.subs| ==> BalancedAt(w, id);
    }
  }

  lemma OtherStepsKeepRows(w: World, step: Step, zone: int)
    requires Books(w) && Enabled(w, step) && !step.Commit? && !step.SaveRow? && !step.CreateRow?
    ensures RowsBalanced(Next(w, step, zone))
  {
    hide SpentSinceGrant, ChargeCount, GrantCount, FreeBalanced, LedgerOf, CycleEnd;
    var after := Next(w, step, zone);
    forall id | 0 <= id < |w.db.subs| ensures BalancedAt(after, id) {
      assert BalancedAt(w, id);
    }
    assert step.ReadRow? ==> BalancedAt(w, w.writers[step.w].id);
  }

  lemma StepKeepsLedger(w: World, step: Step, zone: int)
    requires Inv(w) && Books(w) && Enabled(w, step)
    ensures Next(w, step, zone).db.ledger == LedgerOf(Next(w, step, zone).log)
    ensures NothingLoggedFrom(Next(w, step, zone).log, |Next(w, step, zone).db.subs|)
  {
    hide ChatOk, LocksExclusive, RowsBalanced, FreeBalanced, SpentSinceGrant, ChargeCount, GrantCount, LedgerOf, Apply;
    var after := Next(w, step, zone);
    if step.Commit? {
      CommitIsAnAtomicAsk(w, step.c, zone);
    }
    if after.log != w.log {
      LedgerAfter(w.log, after.log[|w.log|]);
      forall id: nat | id >= |after.db.subs|
        ensures SpentSinceGrant(after.log, id) == ChargeCount(after.log, id) == GrantCount(after.log, id) == 0
      {
        CountsAfter(w.log, after.log[|w.log|], id);
      }
    }
  }

  lemma StepKeepsBooks(w: World, step: Step, zone: int)
    requires Inv(w) && Books(w) && Enabled(w, step)
    ensures Books(Next(w, step, zone))
  {
    hide Inv, RowsBalanced, NothingLoggedFrom, FreeBalanced, Next, Enabled;
    StepKeepsLedger(w, step, zone);
    if step.Commit? {
      CommitKeepsRows(w, step.c, zone);
      CommitKeepsFree(w, step.c, zone);
    } else {
      OtherStepsKeepFree(w, step, zone);
      if step.SaveRow? {
        SaveRowKeepsRows(w, step.w, zone);
      } else if step.CreateRow? {
        CreateKeepsRows(w, step, zone);
      } else {
        OtherStepsKeepRows(w, step, zone);
      }
    }
  }

  lemma {:induction false} ReachableBooks(steps: seq<Step>, zone: int)
    requires IsRun(START, steps, zone)
    ensures Books(WorldAfter(START, steps, zone))
    decreases |steps|
  {
    if steps != [] {
      var before := steps[..|steps| - 1];
      ReachableBooks(before, zone);
      ReachableInv(before, zone);
      StepKeepsBooks(WorldAfter(START, before, zone), steps[|steps| - 1], zone);
    }
  }

  // ---- what it means --------------------------------------------------------

  /**
   * No double spend: in every reachable world a metered active row has paid out exactly
   * what is missing from its allotment since the last grant, and the ledger never holds
   * more rows for it than its allotment times one plus its renewals.
   */
  lemma NoDoubleSpend(steps: seq<Step>, zone: int, id: nat)
    requires IsRun(START, steps, zone)
    requires id < |WorldAfter(START, steps, zone).db.subs|
    requires WorldAfter(START, steps, zone).db.subs[id].maxMessages.Some?
    ensures var w := WorldAfter(START, steps, zone);
            var row := w.db.subs[id];
            && row.remainingMessages.Some? && row.remainingMessages.value >= 0
            && (row.status == Active ==>
                  row.remainingMessages.value + SpentSinceGrant(w.log, id) == row.maxMessages.value)
            && LedgerCount(w.db.ledger, id) <= row.maxMessages.value * (1 + GrantCount(w.log, id))
  {
    ReachableBooks(steps, zone);
    var w := WorldAfter(START, steps, zone);
    var row := w.db.subs[id];
    LedgerCountIsChargeCount(w.log, id);
    assert BalancedAt(w, id);
    var grants := GrantCount(w.log, id);
    assert row.maxMessages.value * (1 + grants) == row.maxMessages.value + row.maxMessages.value * grants;
  }

  /**
   * The free counter of every user and month, in every reachable world, is the number of
   * free questions committed for them, and never above the limit.
   */
  lemma FreeCounterIsExact(steps: seq<Step>, zone: int, user: string, month: string)
    requires IsRun(START, steps, zone)
    ensures var w := WorldAfter(START, steps, zone);
            && FreeUsageOf(w.db, user, month).usedMessages == FreeCount(w.log, user, month) <= FREE_LIMIT
            && w.db.ledger == LedgerOf(w.log)
  {
    ReachableBooks(steps, zone);
    var w := WorldAfter(START, steps, zone);
    assert FreeUsageOf(w.db, user, month) == FreeUsage(FreeCount(w.log, user, month), FREE_LIMIT);
  }
}
