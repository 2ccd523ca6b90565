/**
 * Chats alone, all in one usage month.  The lock on the free counter is taken before any
 * subscription row and kept to the end, so one user's transactions follow one another:
 * each commits, or is refused, exactly as the atomic question would.
 */
module AtomicQuestions {
  import opened Wrappers
  import opened Billing
  import opened Records
  import opened QuotaSpec
  import opened ChatSystem
  import opened ChatInvariant

  /** Steps of chat transactions that read the clock in `month`; no creates, no writers. */
  predicate IsChatStep(step: Step, month: string) {
    && !step.CreateRow? && !step.StartWriter? && !step.ReadRow? && !step.SaveRow?
    && (step.LockUsage? ==> step.month == month)
  }

  predicate AllChatSteps(steps: seq<Step>, month: string) {
    forall i :: 0 <= i < |steps| ==> IsChatStep(steps[i], month)
  }

  /** No chat is under way beyond its start. */
  predicate Calm(w: World) {
    forall c :: 0 <= c < |w.chats| ==> w.chats[c].Finished() || w.chats[c].phase.Begun?
  }

  /** What a transaction has seen of its user's rows is still what the query would give. */
  predicate Undisturbed(db: Tables, chat: Chat, month: string) {
    match chat.phase
    case NoUsageRow(m) => m == month
    case UsageHeld(m, _) => m == month
    case FreeSpent(m) => m == month
    case Queued(m, ids) => m == month && QueryResult(db.subs, chat.user, ids)
    case RowHeld(m, id, _) => m == month && IsTop(db.subs, chat.user, id)
    case Working(m, work) => m == month && (work.charge.SubscriptionUnit? ==> IsTop(db.subs, chat.user, work.charge.id))
    case _ => true
  }

  predicate AllUndisturbed(w: World, month: string) {
    forall c :: 0 <= c < |w.chats| ==> Undisturbed(w.db, w.chats[c], month)
  }

  lemma FirstOfQueryIsTop(subs: seq<Subscription>, user: string, ids: seq<nat>)
    requires QueryResult(subs, user, ids) && ids != []
    ensures IsTop(subs, user, ids[0])
  {
  }

  /** Another user's rows do not enter the query. */
  lemma OtherUsersDoNotMatter(before: Tables, after: Tables, chat: Chat, month: string)
    requires Undisturbed(before, chat, month) && |before.subs| == |after.subs|
    requires forall i :: 0 <= i < |before.subs| ==>
               before.subs[i] == after.subs[i] || (before.subs[i].userId != chat.user && after.subs[i].userId != chat.user)
    ensures Undisturbed(after, chat, month)
  {
  }

  lemma LocalStepLeavesUndisturbed(w: World, step: Step, zone: int, month: string)
    requires Inv(w) && AllUndisturbed(w, month)
    requires IsLocal(step) && Enabled(w, step) && IsChatStep(step, month)
    ensures Undisturbed(w.db, Next(w, step, zone).chats[step.c], month)
  {
    assert Undisturbed(w.db, w.chats[step.c], month);
    if step.LockRow? && w.chats[step.c].phase.ids != [] {
      FirstOfQueryIsTop(w.db.subs, w.chats[step.c].user, w.chats[step.c].phase.ids);
    }
  }

  /** Transactions of one user do not both hold the month's counter. */
  lemma CommitLeavesUndisturbed(w: World, c: nat, zone: int, month: string)
    requires Inv(w) && AllUndisturbed(w, month) && Enabled(w, Commit(c))
    ensures AllUndisturbed(Next(w, Commit(c), zone), month)
  {
    hide ChatOk, Apply, QueryResult, IsTop, WorkOk;
    CommitIsAnAtomicAsk(w, c, zone);
    var after := Next(w, Commit(c), zone);
    forall d | 0 <= d < |w.chats| && d != c ensures Undisturbed(after.db, w.chats[d], month) {
      assert Undisturbed(w.db, w.chats[d], month) && Undisturbed(w.db, w.chats[c], month);
      assert w.chats[d].UsageKey().Some? ==> w.chats[d].UsageKey() != w.chats[c].UsageKey();
      if w.chats[d].UsageKey().Some? {
        OtherUsersDoNotMatter(w.db, after.db, w.chats[d], month);
      }
    }
  }

  lemma ChatStepLeavesUndisturbed(w: World, step: Step, zone: int, month: string)
    requires Inv(w) && AllUndisturbed(w, month) && Enabled(w, step) && IsChatStep(step, month)
    ensures AllUndisturbed(Next(w, step, zone), month)
  {
    hide Inv, ChatOk, Undisturbed, QueryResult, IsTop;
    if step.Commit? {
      CommitLeavesUndisturbed(w, step.c, zone, month);
    } else if step.StartChat? {
      NewChatIsUndisturbed(w.db, Chat(step.chatId, step.user, step.question, Begun), month);
    } else {
      LocalStepLeavesUndisturbed(w, step, zone, month);
    }
  }

  lemma NewChatIsUndisturbed(db: Tables, chat: Chat, month: string)
    requires chat.phase.Begun? || chat.Finished()
    ensures Undisturbed(db, chat, month)
  {
  }

  lemma {:induction false} ChatsStayUndisturbed(w: World, steps: seq<Step>, zone: int, month: string, k: nat)
    requires Inv(w) && Calm(w) && IsRun(w, steps, zone) && AllChatSteps(steps, month) && k <= |steps|
    ensures IsRun(w, steps[..k], zone)
    ensures Inv(WorldAfter(w, steps[..k], zone)) && AllUndisturbed(WorldAfter(w, steps[..k], zone), month)
    ensures k < |steps| ==> Enabled(WorldAfter(w, steps[..k], zone), steps[k])
    decreases |steps|, k
  {
    hide Inv, Undisturbed, Next, Enabled;
    PrefixIsRun(w, steps, zone, k);
    RunKeepsInv(w, steps[..k], zone);
    if k == 0 {
      forall c | 0 <= c < |w.chats| ensures Undisturbed(w.db, w.chats[c], month) {
        NewChatIsUndisturbed(w.db, w.chats[c], month);
      }
    } else {
      ChatsStayUndisturbed(w, steps, zone, month, k - 1);
      assert steps[..k][..k - 1] == steps[..k - 1];
      ChatStepLeavesUndisturbed(WorldAfter(w, steps[..k - 1], zone), steps[k - 1], zone, month);
    }
  }

  lemma {:induction false} PrefixIsRun(w: World, steps: seq<Step>, zone: int, k: nat)
    requires IsRun(w, steps, zone) && k <= |steps|
    ensures IsRun(w, steps[..k], zone)
    ensures k < |steps| ==> Enabled(WorldAfter(w, steps[..k], zone), steps[k])
    decreases |steps|
  {
    hide Next, Enabled;
    if k < |steps| {
      var before := steps[..|steps| - 1];
      if k < |before| {
        assert before[..k] == steps[..k];
        PrefixIsRun(w, before, zone, k);
      } else {
        assert before == steps[..k];
      }
    } else {
      assert steps[..k] == steps;
    }
  }

  /** The world before step `k` of a run. */
  function WorldAt(w: World, steps: seq<Step>, zone: int, k: nat): World
    requires IsRun(w, steps, zone) && k <= |steps|
  {
    PrefixIsRun(w, steps, zone, k);
    WorldAfter(w, steps[..k], zone)
  }

  lemma WorldAtStep(w: World, steps: seq<Step>, zone: int, k: nat)
    requires IsRun(w, steps, zone) && k < |steps|
    ensures Enabled(WorldAt(w, steps, zone, k), steps[k])
    ensures WorldAt(w, steps, zone, k + 1) == Next(WorldAt(w, steps, zone, k), steps[k], zone)
  {
    hide Next, Enabled;
    PrefixIsRun(w, steps, zone, k);
    PrefixIsRun(w, steps, zone, k + 1);
    assert steps[..k + 1][..k] == steps[..k];
  }

  lemma WorldAtEnds(w: World, steps: seq<Step>, zone: int)
    requires IsRun(w, steps, zone)
    ensures WorldAt(w, steps, zone, 0) == w && WorldAt(w, steps, zone, |steps|) == WorldAfter(w, steps, zone)
  {
    assert steps[..|steps|] == steps;
  }

  /** The step ends its transaction without an answer, other than by a failure from outside or on the unique key. */
  predicate Refuses(w: World, step: Step, zone: int)
    requires Enabled(w, step)
  {
    IsLocal(step) && !step.Fail? && !step.InsertUsage? && Next(w, step, zone).chats[step.c].phase == RolledBack
  }

  /**
   * From any reachable calm world, at every step of an interleaved run of chats: a commit
   * is the atomic question's charge, taken from the row the query ranks first now; a
   * rollback that is neither a failure nor a violated key is the atomic question's refusal,
   * at the clock it read; every other step leaves the tables alone.
   */
  lemma ChatsAreAtomicQuestions(w: World, steps: seq<Step>, zone: int, month: string, k: nat)
    requires Inv(w) && Calm(w) && IsRun(w, steps, zone) && AllChatSteps(steps, month) && k < |steps|
    ensures var now := WorldAt(w, steps, zone, k);
            var step := steps[k];
            && Enabled(now, step)
            && (step.Commit? ==>
                  var Working(m, work) := now.chats[step.c].phase;
                  && m == month && work.Complete(now.db) && work.message.value.charge == work.charge
                  && AskOutcome(now.db, now.chats[step.c].user, month, work.at, Some(work.charge))
                  && Next(now, step, zone).db == Answered(now.db, work.message.value)
                  && PaidFrom(now.db, Next(now, step, zone).db, now.chats[step.c].user, month, work.at, work.charge))
            && (Refuses(now, step, zone) ==>
                  forall at :: (step.SpendRow? ==> at == step.now) ==>
                    && AskOutcome(now.db, now.chats[step.c].user, month, at, None)
                    && NothingPays(now.db, now.chats[step.c].user, month, at))
            && (!step.Commit? ==> Next(now, step, zone).db == now.db)
  {
    hide Inv, AllUndisturbed, AskOutcome, NothingPays, PaidFrom, Next, Answered;
    ChatsStayUndisturbed(w, steps, zone, month, k);
    assert IsChatStep(steps[k], month);
    var now, step := WorldAt(w, steps, zone, k), steps[k];
    StepIsAtomicQuestion(now, step, zone, month);
    if step.Commit? {
      CommitPays(now, step.c, zone, month);
    } else if Refuses(now, step, zone) {
      forall at | step.SpendRow? ==> at == step.now
        ensures NothingPays(now.db, now.chats[step.c].user, month, at)
      {
        RefusalInColumns(now.db, now.chats[step.c].user, month, at);
      }
    }
  }

  /** What an allowed commit does to the counters, in their columns. */
  lemma CommitPays(now: World, c: nat, zone: int, month: string)
    requires Inv(now) && Enabled(now, Commit(c))
    requires var Working(m, work) := now.chats[c].phase;
             AskOutcome(now.db, now.chats[c].user, month, work.at, Some(work.charge))
    ensures var Working(m, work) := now.chats[c].phase;
            PaidFrom(now.db, Next(now, Commit(c), zone).db, now.chats[c].user, month, work.at, work.charge)
  {
    hide Inv, ChatOk, AskOutcome, Preferred, CannotPay, FreeMessageLeft, IsTop, Apply;
    CommitIsAnAtomicAsk(now, c, zone);
    var work := now.chats[c].phase.work;
    ChargeInColumns(now.db, now.chats[c].user, month, work.at, work.charge);
  }

  lemma StepIsAtomicQuestion(now: World, step: Step, zone: int, month: string)
    requires Inv(now) && AllUndisturbed(now, month) && Enabled(now, step) && IsChatStep(step, month)
    ensures step.Commit? ==>
              var Working(m, work) := now.chats[step.c].phase;
              && m == month && work.Complete(now.db) && work.message.value.charge == work.charge
              && AskOutcome(now.db, now.chats[step.c].user, month, work.at, Some(work.charge))
              && Next(now, step, zone).db == Answered(now.db, work.message.value)
    ensures Refuses(now, step, zone) ==>
              forall at :: (step.SpendRow? ==> at == step.now) ==>
                AskOutcome(now.db, now.chats[step.c].user, month, at, None)
    ensures !step.Commit? ==> Next(now, step, zone).db == now.db
  {
    if step.Commit? {
      hide Inv, ChatOk, Apply, IsTop, QueryResult, Answered;
      CommitIsAnAtomicAsk(now, step.c, zone);
      assert Undisturbed(now.db, now.chats[step.c], month);
    } else if Refuses(now, step, zone) {
      RefusalIsAtomic(now, step, zone, month);
    }
  }

  lemma RefusalIsAtomic(now: World, step: Step, zone: int, month: string)
    requires Inv(now) && AllUndisturbed(now, month) && Enabled(now, step) && Refuses(now, step, zone)
    ensures forall at :: (step.SpendRow? ==> at == step.now) ==>
              AskOutcome(now.db, now.chats[step.c].user, month, at, None)
  {
    hide RanksBefore, LocksExclusive, WriterOk, WorkOk, PapersOk;
    assert Undisturbed(now.db, now.chats[step.c], month) && ChatOk(now.db, now.chats[step.c]);
    if step.SpendRow? {
      assert IsTop(now.db.subs, now.chats[step.c].user, now.chats[step.c].phase.id);
    }
  }

  // ---- conservation under interleaving --------------------------------------

  /** Committed questions of one user. */
  function AskCount(log: seq<Event>, user: string): nat {
    if log == [] then 0
    else AskCount(log[..|log| - 1], user)
         + if log[|log| - 1].Asked? && log[|log| - 1].message.userId == user then 1 else 0
  }

  /** The user's active rows are metered and well formed. */
  predicate Metered(subs: seq<Subscription>, user: string) {
    forall i :: 0 <= i < |subs| && Matches(subs[i], user) ==> subs[i].WellFormed() && !subs[i].IsEnterprise()
  }

  lemma ChargeUsesOneUnit(db: Tables, asker: string, month: string, at: int, charge: Charge, user: string)
    requires MayCharge(db, asker, month, at, charge) && Metered(db.subs, user)
    ensures Metered(Charged(db, asker, charge).subs, user)
    ensures Capacity(Charged(db, asker, charge), user, month)
            == Capacity(db, user, month) - if asker == user then 1 else 0
  {
    if asker != user {
      AskLeavesOthersAlone(db, asker, month, at, charge, user, month);
    } else if charge.SubscriptionUnit? {
      var row := db.subs[charge.id];
      UnitsLeftUpdate(db.subs, user, charge.id, row.(remainingMessages := Some(row.remainingMessages.value - 1)));
    }
  }

  lemma ChatStepConserves(w: World, step: Step, zone: int, month: string, user: string)
    requires Inv(w) && AllUndisturbed(w, month) && Enabled(w, step) && IsChatStep(step, month) && Metered(w.db.subs, user)
    ensures var after := Next(w, step, zone);
            && Metered(after.db.subs, user)
            && AskCount(after.log, user) + Capacity(after.db, user, month)
               == AskCount(w.log, user) + Capacity(w.db, user, month)
  {
    hide Inv, ChatOk, QueryResult, IsTop, WorkOk, Capacity, Metered, MayCharge, AskOutcome, Apply;
    if step.Commit? {
      StepIsAtomicQuestion(w, step, zone, month);
      CommitIsAnAtomicAsk(w, step.c, zone);
      var Working(m, work) := w.chats[step.c].phase;
      var after := Next(w, step, zone);
      ChargeUsesOneUnit(w.db, w.chats[step.c].user, month, work.at, work.charge, user);
      MeteredIgnoresPapers(after.db, Charged(w.db, w.chats[step.c].user, work.charge), user);
      CapacityIgnoresPapers(after.db, Charged(w.db, w.chats[step.c].user, work.charge), user, month);
      assert after.log[..|after.log| - 1] == w.log;
    }
  }

  lemma MeteredIgnoresPapers(a: Tables, b: Tables, user: string)
    requires a.subs == b.subs
    ensures Metered(a.subs, user) == Metered(b.subs, user)
  {
  }

  /** However the chats interleave, questions answered and units left add up to what there was. */
  lemma {:induction false} ChatsConserveUnits(w: World, steps: seq<Step>, zone: int, month: string, user: string)
    requires Inv(w) && Calm(w) && IsRun(w, steps, zone) && AllChatSteps(steps, month) && Metered(w.db.subs, user)
    ensures var after := WorldAfter(w, steps, zone);
            && Metered(after.db.subs, user)
            && AskCount(after.log, user) - AskCount(w.log, user)
               == Capacity(w.db, user, month) - Capacity(after.db, user, month)
    decreases |steps|
  {
    hide Inv, Next, Enabled, Undisturbed, Metered, Capacity, AskCount;
    if steps != [] {
      var before := steps[..|steps| - 1];
      ChatsConserveUnits(w, before, zone, month, user);
      ChatsStayUndisturbed(w, steps, zone, month, |before|);
      ChatStepConserves(WorldAfter(w, before, zone), steps[|before|], zone, month, user);
    }
  }
}
