/**
 * How a chat can end without an answer when nothing fails from outside: it is refused as
 * the atomic question would be, or the row of the month's free counter was committed by
 * another transaction between this one's locked read and its insert.
 */
module Rollbacks {
  import opened Wrappers
  import opened Billing
  import opened Records
  import opened QuotaSpec
  import opened ChatSystem
  import opened ChatInvariant
  import opened AtomicQuestions

  predicate NoFailures(steps: seq<Step>) { forall i :: 0 <= i < |steps| ==> !steps[i].Fail? }

  /** The runs in question, from a world where no chat is under way. */
  predicate IsChatRun(w: World, steps: seq<Step>, zone: int, month: string) {
    Inv(w) && Calm(w) && IsRun(w, steps, zone) && AllChatSteps(steps, month) && NoFailures(steps)
  }

  /** Step `k` ends chat `c` without an answer. */
  predicate RolledBackAt(w: World, steps: seq<Step>, zone: int, k: nat, c: nat)
    requires IsRun(w, steps, zone) && k < |steps|
  {
    && c < |WorldAt(w, steps, zone, k).chats| && !WorldAt(w, steps, zone, k).chats[c].Finished()
    && c < |WorldAt(w, steps, zone, k + 1).chats| && WorldAt(w, steps, zone, k + 1).chats[c].phase == RolledBack
  }

  /** Step `i` commits the first row of `key`. */
  predicate CommitsKey(w: World, steps: seq<Step>, zone: int, i: nat, key: (string, string))
    requires IsRun(w, steps, zone) && i < |steps|
  {
    steps[i].Commit? && key !in WorldAt(w, steps, zone, i).db.free && key in WorldAt(w, steps, zone, i + 1).db.free
  }

  /** Step `k` inserts chat `c`'s counter row, which was committed after `c` had looked for it. */
  predicate CollidesAt(w: World, steps: seq<Step>, zone: int, month: string, k: nat, c: nat)
    requires IsRun(w, steps, zone) && k < |steps|
  {
    && steps[k] == InsertUsage(c) && c < |WorldAt(w, steps, zone, k).chats|
    && exists j, i :: 0 <= j < i < k && steps[j] == LockUsage(c, month)
                      && CommitsKey(w, steps, zone, i, (WorldAt(w, steps, zone, k).chats[c].user, month))
  }

  // ---- along a run ----------------------------------------------------------

  lemma StepKeepsKeys(w: World, step: Step, zone: int, month: string, key: (string, string))
    requires Enabled(w, step) && IsChatStep(step, month) && key in w.db.free
    ensures key in Next(w, step, zone).db.free
  {
  }

  lemma {:induction false} KeysStay(w: World, steps: seq<Step>, zone: int, month: string, key: (string, string),
                                    i: nat, k: nat)
    requires IsRun(w, steps, zone) && AllChatSteps(steps, month) && i <= k <= |steps|
    requires key in WorldAt(w, steps, zone, i).db.free
    ensures key in WorldAt(w, steps, zone, k).db.free
    decreases k
  {
    hide IsRun, WorldAt, Next, Enabled;
    if i < k {
      KeysStay(w, steps, zone, month, key, i, k - 1);
      WorldAtStep(w, steps, zone, k - 1);
      StepKeepsKeys(WorldAt(w, steps, zone, k - 1), steps[k - 1], zone, month, key);
    }
  }

  lemma OnlyCommitsAddKeys(w: World, step: Step, zone: int, month: string, key: (string, string))
    requires Enabled(w, step) && IsChatStep(step, month)
    requires key !in w.db.free && key in Next(w, step, zone).db.free
    ensures step.Commit?
  {
  }

  lemma {:induction false} KeyWasCommitted(w: World, steps: seq<Step>, zone: int, month: string, key: (string, string),
                                           j: nat, k: nat) returns (i: nat)
    requires IsRun(w, steps, zone) && AllChatSteps(steps, month) && j <= k <= |steps|
    requires key !in WorldAt(w, steps, zone, j).db.free && key in WorldAt(w, steps, zone, k).db.free
    ensures j <= i < k && CommitsKey(w, steps, zone, i, key)
    decreases k
  {
    hide IsRun, WorldAt, Next, Enabled;
    if key in WorldAt(w, steps, zone, k - 1).db.free {
      i := KeyWasCommitted(w, steps, zone, month, key, j, k - 1);
    } else {
      i := k - 1;
      WorldAtStep(w, steps, zone, i);
      OnlyCommitsAddKeys(WorldAt(w, steps, zone, i), steps[i], zone, month, key);
    }
  }

  /** What one step does to another chat, and to the phase in which the row was missed. */
  lemma StepOnMissedRow(w: World, step: Step, zone: int, month: string, c: nat)
    requires Enabled(w, step) && IsChatStep(step, month)
    requires c < |Next(w, step, zone).chats| && Next(w, step, zone).chats[c].phase.NoUsageRow?
    ensures c < |w.chats| && w.chats[c].user == Next(w, step, zone).chats[c].user
    ensures w.chats[c].phase.NoUsageRow?
            || (step == LockUsage(c, month) && (w.chats[c].user, month) !in w.db.free)
  {
  }

  /** A chat that missed the row looked for it at some step, when it was not there. */
  lemma {:induction false} RowWasMissed(w: World, steps: seq<Step>, zone: int, month: string, k: nat, c: nat)
    returns (j: nat)
    requires Calm(w) && IsRun(w, steps, zone) && AllChatSteps(steps, month) && k <= |steps|
    requires c < |WorldAt(w, steps, zone, k).chats| && WorldAt(w, steps, zone, k).chats[c].phase.NoUsageRow?
    ensures j < k && steps[j] == LockUsage(c, month)
    ensures (WorldAt(w, steps, zone, k).chats[c].user, month) !in WorldAt(w, steps, zone, j).db.free
    decreases k
  {
    hide IsRun, WorldAt, Next, Enabled;
    WorldAtEnds(w, steps, zone);
    WorldAtStep(w, steps, zone, k - 1);
    StepOnMissedRow(WorldAt(w, steps, zone, k - 1), steps[k - 1], zone, month, c);
    if WorldAt(w, steps, zone, k - 1).chats[c].phase.NoUsageRow? {
      j := RowWasMissed(w, steps, zone, month, k - 1, c);
    } else {
      j := k - 1;
    }
  }

  // ---- the two ways ---------------------------------------------------------

  /** The steps that can end a transaction without an answer. */
  lemma RollbackSteps(w: World, step: Step, zone: int, c: nat)
    requires Enabled(w, step) && !step.Fail? && c < |w.chats| && !w.chats[c].Finished()
    requires c < |Next(w, step, zone).chats| && Next(w, step, zone).chats[c].phase == RolledBack
    ensures IsLocal(step) && step.c == c
    ensures Refuses(w, step, zone)
            || (step.InsertUsage? && (w.chats[c].user, w.chats[c].phase.month) in w.db.free)
  {
  }

  lemma InsertCollides(w: World, c: nat, zone: int)
    requires Enabled(w, InsertUsage(c)) && (w.chats[c].user, w.chats[c].phase.month) in w.db.free
    ensures !w.chats[c].Finished() && |Next(w, InsertUsage(c), zone).chats| == |w.chats|
    ensures Next(w, InsertUsage(c), zone).chats[c].phase == RolledBack
  {
  }

  /** An insert that fails meets a row committed since its chat looked for it. */
  lemma FailedInsertCollides(w: World, steps: seq<Step>, zone: int, month: string, k: nat, c: nat)
    requires IsChatRun(w, steps, zone, month) && k < |steps| && steps[k].InsertUsage?
    requires RolledBackAt(w, steps, zone, k, c)
    ensures CollidesAt(w, steps, zone, month, k, c)
  {
    hide IsRun, WorldAt, Inv, Undisturbed, Next;
    var now := WorldAt(w, steps, zone, k);
    WorldAtStep(w, steps, zone, k);
    RollbackSteps(now, steps[k], zone, c);
    MissedMonth(w, steps, zone, month, k, c);
    var j := RowWasMissed(w, steps, zone, month, k, c);
    var key := (now.chats[c].user, month);
    var i := KeyWasCommitted(w, steps, zone, month, key, j, k);
    assert j < i;
  }

  /** A chat that is rolled back is refused at that moment, or collides. */
  lemma RefusedOrCollides(w: World, steps: seq<Step>, zone: int, month: string, k: nat, c: nat, at: int)
    requires IsChatRun(w, steps, zone, month) && k < |steps| && RolledBackAt(w, steps, zone, k, c)
    requires steps[k].SpendRow? ==> at == steps[k].now
    ensures var now := WorldAt(w, steps, zone, k);
            AskOutcome(now.db, now.chats[c].user, month, at, None) || CollidesAt(w, steps, zone, month, k, c)
  {
    hide IsRun, WorldAt, Inv, Undisturbed, Next, AskOutcome, Refuses, CollidesAt;
    var now := WorldAt(w, steps, zone, k);
    WorldAtStep(w, steps, zone, k);
    RollbackSteps(now, steps[k], zone, c);
    if Refuses(now, steps[k], zone) {
      ChatsAreAtomicQuestions(w, steps, zone, month, k);
    } else {
      FailedInsertCollides(w, steps, zone, month, k, c);
    }
  }

  lemma MissedMonth(w: World, steps: seq<Step>, zone: int, month: string, k: nat, c: nat)
    requires Inv(w) && Calm(w) && IsRun(w, steps, zone) && AllChatSteps(steps, month) && k < |steps|
    requires steps[k] == InsertUsage(c)
    ensures var now := WorldAt(w, steps, zone, k);
            Enabled(now, steps[k]) && now.chats[c].phase == NoUsageRow(month)
  {
    hide IsRun, Inv;
    ChatsStayUndisturbed(w, steps, zone, month, k);
    assert Undisturbed(WorldAt(w, steps, zone, k).db, WorldAt(w, steps, zone, k).chats[c], month);
  }

  lemma CollidingIsRolledBack(w: World, steps: seq<Step>, zone: int, month: string, k: nat, c: nat)
    requires IsChatRun(w, steps, zone, month) && k < |steps| && CollidesAt(w, steps, zone, month, k, c)
    ensures RolledBackAt(w, steps, zone, k, c)
  {
    hide IsRun, WorldAt, Inv, Next, Enabled;
    var now := WorldAt(w, steps, zone, k);
    var key := (now.chats[c].user, month);
    var j, i :| 0 <= j < i < k && steps[j] == LockUsage(c, month) && CommitsKey(w, steps, zone, i, key);
    KeysStay(w, steps, zone, month, key, i + 1, k);
    MissedMonth(w, steps, zone, month, k, c);
    WorldAtStep(w, steps, zone, k);
    InsertCollides(now, c, zone);
  }

  /**
   * Where the atomic question would not be refused, a chat is rolled back exactly when its
   * counter row was committed between its locked read and its insert.
   */
  lemma ChargeableIsRolledBackExactlyWhen(w: World, steps: seq<Step>, zone: int, month: string, k: nat, c: nat, at: int)
    requires IsChatRun(w, steps, zone, month) && k < |steps|
    requires c < |WorldAt(w, steps, zone, k).chats| && (steps[k].SpendRow? ==> at == steps[k].now)
    requires var now := WorldAt(w, steps, zone, k); !AskOutcome(now.db, now.chats[c].user, month, at, None)
    ensures RolledBackAt(w, steps, zone, k, c) <==> CollidesAt(w, steps, zone, month, k, c)
  {
    hide IsRun, WorldAt, Inv, AskOutcome, RolledBackAt, CollidesAt;
    if RolledBackAt(w, steps, zone, k, c) {
      RefusedOrCollides(w, steps, zone, month, k, c, at);
    }
    if CollidesAt(w, steps, zone, month, k, c) {
      CollidingIsRolledBack(w, steps, zone, month, k, c);
    }
  }

  /** Not to be refused is to be charged: one of the two is always an outcome, and for well-formed rows only one. */
  lemma AskIsDecided(db: Tables, user: string, month: string, now: int)
    ensures AskOutcome(db, user, month, now, None) || exists charge :: AskOutcome(db, user, month, now, Some(charge))
    ensures UserWellFormed(db.subs, user) && AskOutcome(db, user, month, now, None)
            ==> forall charge: Charge :: !AskOutcome(db, user, month, now, Some(charge))
  {
    if FreeLeft(db, user, month) > 0 {
      assert AskOutcome(db, user, month, now, Some(FreeUnit(month)));
    } else if k :| 0 <= k < |db.subs| && Matches(db.subs[k], user) {
      var top := SomeRowIsTop(db.subs, user, k);
      if db.subs[top].Usable(now) {
        assert AskOutcome(db, user, month, now, Some(SubscriptionUnit(top)));
      }
    }
  }

  /** With the month's row there at the start nobody collides. */
  lemma NoCollisionWithTheRowThere(w: World, steps: seq<Step>, zone: int, month: string, k: nat, c: nat)
    requires IsChatRun(w, steps, zone, month) && k < |steps| && CollidesAt(w, steps, zone, month, k, c)
    ensures (WorldAt(w, steps, zone, k).chats[c].user, month) !in w.db.free
  {
    hide IsRun, WorldAt, Inv;
    var key := (WorldAt(w, steps, zone, k).chats[c].user, month);
    if key in w.db.free {
      var j, i :| 0 <= j < i < k && steps[j] == LockUsage(c, month) && CommitsKey(w, steps, zone, i, key);
      WorldAtEnds(w, steps, zone);
      KeysStay(w, steps, zone, month, key, 0, i);
      assert false;
    }
  }

  /** So every rollback is then a refusal. */
  lemma WithTheRowThereEveryRollbackIsARefusal(w: World, steps: seq<Step>, zone: int, month: string,
                                              k: nat, c: nat, at: int)
    requires IsChatRun(w, steps, zone, month) && k < |steps| && RolledBackAt(w, steps, zone, k, c)
    requires steps[k].SpendRow? ==> at == steps[k].now
    requires (WorldAt(w, steps, zone, k).chats[c].user, month) in w.db.free
    ensures var now := WorldAt(w, steps, zone, k); AskOutcome(now.db, now.chats[c].user, month, at, None)
  {
    hide IsRun, WorldAt, Inv, AskOutcome, CollidesAt;
    RefusedOrCollides(w, steps, zone, month, k, c, at);
    if CollidesAt(w, steps, zone, month, k, c) {
      NoCollisionWithTheRowThere(w, steps, zone, month, k, c);
    }
  }

  lemma StepKeepsRolledBack(w: World, step: Step, zone: int, c: nat)
    requires Enabled(w, step) && c < |Next(w, step, zone).chats| && Next(w, step, zone).chats[c].phase == RolledBack
    ensures c < |w.chats| && (w.chats[c].phase == RolledBack || !w.chats[c].Finished())
  {
  }

  /** A chat found rolled back at the end, and not so at the start, was rolled back at some step. */
  lemma {:induction false} RolledBackSomewhere(w: World, steps: seq<Step>, zone: int, c: nat, n: nat) returns (k: nat)
    requires IsRun(w, steps, zone) && n <= |steps| && c < |WorldAt(w, steps, zone, n).chats|
    requires WorldAt(w, steps, zone, n).chats[c].phase == RolledBack
    requires c < |w.chats| ==> !w.chats[c].Finished()
    ensures k < n && RolledBackAt(w, steps, zone, k, c)
    decreases n
  {
    hide IsRun, WorldAt, Next, Enabled;
    WorldAtEnds(w, steps, zone);
    k := n - 1;
    WorldAtStep(w, steps, zone, k);
    StepKeepsRolledBack(WorldAt(w, steps, zone, k), steps[k], zone, c);
    if WorldAt(w, steps, zone, k).chats[c].phase == RolledBack {
      k := RolledBackSomewhere(w, steps, zone, c, k);
    }
  }

  /** Every chat that ends a run unanswered was refused when the atomic question would be, or collided. */
  lemma HowChatsEndUnanswered(w: World, steps: seq<Step>, zone: int, month: string, c: nat) returns (k: nat)
    requires IsChatRun(w, steps, zone, month) && (c < |w.chats| ==> !w.chats[c].Finished())
    requires c < |WorldAfter(w, steps, zone).chats| && WorldAfter(w, steps, zone).chats[c].phase == RolledBack
    ensures k < |steps| && RolledBackAt(w, steps, zone, k, c)
    ensures var now := WorldAt(w, steps, zone, k);
            CollidesAt(w, steps, zone, month, k, c)
            || forall at :: (steps[k].SpendRow? ==> at == steps[k].now) ==>
                 AskOutcome(now.db, now.chats[c].user, month, at, None)
  {
    hide IsRun, WorldAt, Inv, AskOutcome, CollidesAt;
    WorldAtEnds(w, steps, zone);
    k := RolledBackSomewhere(w, steps, zone, c, |steps|);
    var now := WorldAt(w, steps, zone, k);
    if !CollidesAt(w, steps, zone, month, k, c) {
      forall at | steps[k].SpendRow? ==> at == steps[k].now
        ensures AskOutcome(now.db, now.chats[c].user, month, at, None)
      {
        RefusedOrCollides(w, steps, zone, month, k, c, at);
      }
    }
  }

  // ---- a collision ----------------------------------------------------------

  /** Two first questions of a month, both past the locked read that found no row. */
  lemma TwoFirstQuestions(zone: int, month: string) returns (steps: seq<Step>)
    ensures IsRun(START, steps, zone) && NoFailures(steps)
    ensures WorldAfter(START, steps, zone)
            == World(EMPTY, [Chat("a", "u", "", NoUsageRow(month)), Chat("b", "u", "", NoUsageRow(month))], [], [])
  {
    hide IsRun, WorldAfter;
    var s1 := [StartChat("a", "u", "")];
    RunNothing(START, zone);
    RunOneMore(START, [], StartChat("a", "u", ""), zone);
    assert [] + s1 == s1;
    RunOneMore(START, s1, StartChat("b", "u", ""), zone);
    var s2 := s1 + [StartChat("b", "u", "")];
    RunOneMore(START, s2, LockUsage(0, month), zone);
    RunOneMore(START, s2 + [LockUsage(0, month)], LockUsage(1, month), zone);
    steps := s2 + [LockUsage(0, month)] + [LockUsage(1, month)];
  }

  /** The first of them inserts the row and takes a message from it. */
  lemma FirstOfTwoSpends(zone: int, month: string) returns (steps: seq<Step>)
    ensures IsRun(START, steps, zone) && NoFailures(steps)
    ensures WorldAfter(START, steps, zone)
            == var work := Work(FreeUnit(month), 0, Some(FreeUsage(1, FREE_LIMIT)), None, None, None);
               World(EMPTY, [Chat("a", "u", "", Working(month, work)), Chat("b", "u", "", NoUsageRow(month))], [], [])
  {
    hide IsRun, WorldAfter;
    var s4 := TwoFirstQuestions(zone, month);
    RunOneMore(START, s4, InsertUsage(0), zone);
    var s5 := s4 + [InsertUsage(0)];
    RunOneMore(START, s5, SpendFree(0), zone);
    steps := s5 + [SpendFree(0)];
  }

  /** It is answered and committed. */
  lemma FirstOfTwoCommits(zone: int, month: string) returns (steps: seq<Step>)
    ensures IsRun(START, steps, zone) && NoFailures(steps)
    ensures var w := WorldAfter(START, steps, zone);
            && w.db.free == map[("u", month) := FreeUsage(1, FREE_LIMIT)]
            && w.chats == [Chat("a", "u", "", Committed), Chat("b", "u", "", NoUsageRow(month))]
  {
    hide IsRun, WorldAfter;
    var s6 := FirstOfTwoSpends(zone, month);
    RunOneMore(START, s6, SaveMessage(0, ""), zone);
    var s7 := s6 + [SaveMessage(0, "")];
    RunOneMore(START, s7, SaveLedgerRow(0), zone);
    var s8 := s7 + [SaveLedgerRow(0)];
    RunOneMore(START, s8, Commit(0), zone);
    steps := s8 + [Commit(0)];
  }

  /** The second one then fails on the unique key, although two free messages are left. */
  lemma SecondOfTwoFails(zone: int, month: string) returns (steps: seq<Step>)
    ensures IsRun(START, steps, zone) && NoFailures(steps)
    ensures var w := WorldAfter(START, steps, zone);
            && |w.chats| == 2 && w.chats[1].phase == RolledBack
            && FreeLeft(w.db, "u", month) == 2
  {
    hide IsRun, WorldAfter;
    var before := FirstOfTwoCommits(zone, month);
    RunOneMore(START, before, InsertUsage(1), zone);
    steps := before + [InsertUsage(1)];
  }
}
