/**
 * Capacity under concurrency: with the user's rows metered and unexpired, as many of the
 * user's questions are answered as there are units, however the transactions interleave.
 * Only a collision on the unique key ends a question for which there would be a unit.
 */
module ConcurrentCapacity {
  import opened Wrappers
  import opened Billing
  import opened Records
  import opened QuotaSpec
  import opened ChatSystem
  import opened ChatInvariant
  import opened AtomicQuestions
  import opened Rollbacks

  /** The user's rows are metered, well formed and unexpired at every clock a check in the run reads. */
  predicate CurrentThroughout(subs: seq<Subscription>, user: string, steps: seq<Step>) {
    && Metered(subs, user)
    && forall i :: 0 <= i < |steps| && steps[i].SpendRow? ==> MeteredAndCurrent(subs, user, steps[i].now)
  }

  function AnsweredChats(chats: seq<Chat>, user: string): nat {
    if chats == [] then 0
    else AnsweredChats(chats[..|chats| - 1], user)
         + if chats[|chats| - 1].user == user && chats[|chats| - 1].phase.Committed? then 1 else 0
  }

  function RefusedChats(chats: seq<Chat>, user: string): nat {
    if chats == [] then 0
    else RefusedChats(chats[..|chats| - 1], user)
         + if chats[|chats| - 1].user == user && chats[|chats| - 1].phase.RolledBack? then 1 else 0
  }

  function FinishedChats(chats: seq<Chat>, user: string): nat {
    if chats == [] then 0
    else FinishedChats(chats[..|chats| - 1], user)
         + if chats[|chats| - 1].user == user && chats[|chats| - 1].Finished() then 1 else 0
  }

  lemma {:induction false} FinishedIsAnsweredOrRefused(chats: seq<Chat>, user: string)
    ensures FinishedChats(chats, user) == AnsweredChats(chats, user) + RefusedChats(chats, user)
  {
    if chats != [] {
      FinishedIsAnsweredOrRefused(chats[..|chats| - 1], user);
    }
  }

  lemma {:induction false} CountsUpdate(chats: seq<Chat>, c: nat, chat: Chat, user: string)
    requires c < |chats| && chat.user == chats[c].user && !chats[c].Finished()
    ensures AnsweredChats(chats[c := chat], user)
            == AnsweredChats(chats, user) + if chat.user == user && chat.phase.Committed? then 1 else 0
    ensures RefusedChats(chats[c := chat], user)
            == RefusedChats(chats, user) + if chat.user == user && chat.phase.RolledBack? then 1 else 0
  {
    var last := |chats| - 1;
    if c < last {
      CountsUpdate(chats[..last], c, chat, user);
      assert chats[c := chat][..last] == chats[..last][c := chat];
    } else {
      assert chats[c := chat][..last] == chats[..last];
    }
  }

  /** A step answers the user's chat with a log entry, or refuses it, or leaves both counts. */
  lemma StepCounts(w: World, step: Step, zone: int, month: string, user: string)
    requires Enabled(w, step) && IsChatStep(step, month) && !step.Fail? && Inv(w)
    ensures var after := Next(w, step, zone);
            && AnsweredChats(after.chats, user) - AnsweredChats(w.chats, user)
               == AskCount(after.log, user) - AskCount(w.log, user)
            && AskCount(after.log, user) >= AskCount(w.log, user)
            && RefusedChats(after.chats, user) - RefusedChats(w.chats, user)
               == if Refusal(w, step, zone, user) then 1 else 0
  {
    hide Inv, Apply, QueryResult, AnsweredChats, RefusedChats;
    var after := Next(w, step, zone);
    if step.StartChat? {
      CountsAppend(w.chats, Chat(step.chatId, step.user, step.question, Begun), user);
    } else {
      if step.Commit? {
        CommitIsAnAtomicAsk(w, step.c, zone);
        assert after.log[..|after.log| - 1] == w.log;
      }
      CountsUpdate(w.chats, step.c, after.chats[step.c], user);
    }
  }

  lemma CountsAppend(chats: seq<Chat>, chat: Chat, user: string)
    requires chat.phase.Begun?
    ensures AnsweredChats(chats + [chat], user) == AnsweredChats(chats, user)
    ensures RefusedChats(chats + [chat], user) == RefusedChats(chats, user)
  {
    assert (chats + [chat])[..|chats|] == chats;
  }

  /** The step ends a chat of the user without an answer. */
  predicate Refusal(w: World, step: Step, zone: int, user: string)
    requires Enabled(w, step)
  {
    IsLocal(step) && w.chats[step.c].user == user && Next(w, step, zone).chats[step.c].phase == RolledBack
  }

  lemma CommitKeepsCurrent(db: Tables, asker: string, month: string, at: int, charge: Charge, user: string, now: int)
    requires MayCharge(db, asker, month, at, charge) && MeteredAndCurrent(db.subs, user, now)
    ensures MeteredAndCurrent(Charged(db, asker, charge).subs, user, now)
  {
  }

  lemma StepKeepsCurrent(w: World, step: Step, zone: int, month: string, user: string, now: int)
    requires Inv(w) && Enabled(w, step) && IsChatStep(step, month) && MeteredAndCurrent(w.db.subs, user, now)
    ensures MeteredAndCurrent(Next(w, step, zone).db.subs, user, now)
  {
    hide Inv, MeteredAndCurrent, MayCharge, Apply, Charged;
    if step.Commit? {
      CommitIsAnAtomicAsk(w, step.c, zone);
      var work := w.chats[step.c].phase.work;
      CommitKeepsCurrent(w.db, w.chats[step.c].user, w.chats[step.c].phase.month, work.at, work.charge, user, now);
      AnsweredSubs(w.db, work.message.value);
    }
  }

  lemma AnsweredSubs(db: Tables, message: Message)
    requires message.charge.SubscriptionUnit? ==> message.charge.id < |db.subs|
    ensures Answered(db, message).subs == Charged(db, message.userId, message.charge).subs
  {
  }

  lemma {:induction false} StaysCurrent(w: World, steps: seq<Step>, zone: int, month: string, user: string, now: int,
                                        k: nat)
    requires IsChatRun(w, steps, zone, month) && k <= |steps| && MeteredAndCurrent(w.db.subs, user, now)
    ensures MeteredAndCurrent(WorldAt(w, steps, zone, k).db.subs, user, now)
    decreases k
  {
    hide IsRun, WorldAt, Inv, Next, Enabled, MeteredAndCurrent;
    WorldAtEnds(w, steps, zone);
    if k > 0 {
      StaysCurrent(w, steps, zone, month, user, now, k - 1);
      WorldAtStep(w, steps, zone, k - 1);
      UndisturbedAt(w, steps, zone, month, k - 1);
      StepKeepsCurrent(WorldAt(w, steps, zone, k - 1), steps[k - 1], zone, month, user, now);
    }
  }

  lemma UndisturbedAt(w: World, steps: seq<Step>, zone: int, month: string, k: nat)
    requires IsChatRun(w, steps, zone, month) && k <= |steps|
    ensures Inv(WorldAt(w, steps, zone, k)) && AllUndisturbed(WorldAt(w, steps, zone, k), month)
  {
    hide IsRun, Inv, AllUndisturbed;
    ChatsStayUndisturbed(w, steps, zone, month, k);
  }

  lemma RefusalRollsBack(w: World, step: Step, zone: int, user: string)
    requires Enabled(w, step) && Refusal(w, step, zone, user)
    ensures |Next(w, step, zone).chats| == |w.chats| && step.c < |w.chats| && !w.chats[step.c].Finished()
  {
  }

  /** The step ends a chat of the user on the unique key. */
  predicate UserCollidesAt(w: World, steps: seq<Step>, zone: int, month: string, user: string, k: nat)
    requires IsRun(w, steps, zone) && k < |steps|
  {
    && steps[k].InsertUsage? && CollidesAt(w, steps, zone, month, k, steps[k].c)
    && WorldAt(w, steps, zone, k).chats[steps[k].c].user == user
  }

  /** How many chats of the user have collided before step `k`. */
  function Collisions(w: World, steps: seq<Step>, zone: int, month: string, user: string, k: nat): nat
    requires IsRun(w, steps, zone) && k <= |steps|
    decreases k
  {
    if k == 0 then 0
    else Collisions(w, steps, zone, month, user, k - 1)
         + if UserCollidesAt(w, steps, zone, month, user, k - 1) then 1 else 0
  }

  lemma CollisionIsARefusal(w: World, steps: seq<Step>, zone: int, month: string, user: string, k: nat)
    requires IsChatRun(w, steps, zone, month) && k < |steps| && UserCollidesAt(w, steps, zone, month, user, k)
    requires Enabled(WorldAt(w, steps, zone, k), steps[k])
    ensures Refusal(WorldAt(w, steps, zone, k), steps[k], zone, user)
  {
    hide IsRun, WorldAt, Inv, CollidesAt, Next;
    WorldAtStep(w, steps, zone, k);
    CollidingIsRolledBack(w, steps, zone, month, k, steps[k].c);
  }

  /** Nobody of the user is refused while a unit is left, except on the unique key. */
  lemma RefusedOnlyWhenNothingIsLeft(w: World, steps: seq<Step>, zone: int, month: string, user: string, k: nat)
    requires IsChatRun(w, steps, zone, month) && k < |steps| && CurrentThroughout(w.db.subs, user, steps)
    requires Enabled(WorldAt(w, steps, zone, k), steps[k]) && Refusal(WorldAt(w, steps, zone, k), steps[k], zone, user)
    requires !UserCollidesAt(w, steps, zone, month, user, k)
    ensures Capacity(WorldAt(w, steps, zone, k).db, user, month) == 0
  {
    hide IsRun, WorldAt, Inv, AskOutcome, Next, Capacity, CollidesAt;
    var now, step := WorldAt(w, steps, zone, k), steps[k];
    WorldAtStep(w, steps, zone, k);
    assert RolledBackAt(w, steps, zone, k, step.c) by { RefusalRollsBack(now, step, zone, user); }
    if step.InsertUsage? {
      FailedInsertCollides(w, steps, zone, month, k, step.c);
      assert false;
    } else if step.SpendRow? {
      RefusedOrCollides(w, steps, zone, month, k, step.c, step.now);
      StaysCurrent(w, steps, zone, month, user, step.now, k);
      OnlyInsertsCollide(w, steps, zone, month, k, step.c);
      AskUsesOneUnit(now.db, user, month, step.now, None);
    } else {
      RefusedOrCollides(w, steps, zone, month, k, step.c, 0);
      OnlyInsertsCollide(w, steps, zone, month, k, step.c);
      RefusedWithoutClock(w, steps, zone, month, user, k);
      AskUsesOneUnit(now.db, user, month, 0, None);
    }
  }

  lemma OnlyInsertsCollide(w: World, steps: seq<Step>, zone: int, month: string, k: nat, c: nat)
    requires IsRun(w, steps, zone) && k < |steps| && !steps[k].InsertUsage?
    ensures !CollidesAt(w, steps, zone, month, k, c)
  {
  }

  /** A refusal that reads no clock has found no row at all. */
  lemma RefusedWithoutClock(w: World, steps: seq<Step>, zone: int, month: string, user: string, k: nat)
    requires IsChatRun(w, steps, zone, month) && k < |steps|
    requires Enabled(WorldAt(w, steps, zone, k), steps[k]) && Refusal(WorldAt(w, steps, zone, k), steps[k], zone, user)
    requires !steps[k].SpendRow? && !steps[k].InsertUsage?
    ensures MeteredAndCurrent(WorldAt(w, steps, zone, k).db.subs, user, 0)
  {
    hide IsRun, WorldAt, Inv, IsTop;
    var now, step := WorldAt(w, steps, zone, k), steps[k];
    UndisturbedAt(w, steps, zone, month, k);
    assert Undisturbed(now.db, now.chats[step.c], month);
  }

  /** Answers are log entries and units used up; the first refusal but a collision comes when there is none left. */
  lemma {:induction false} CountsAlongTheRun(w: World, steps: seq<Step>, zone: int, month: string, user: string, k: nat)
    requires IsChatRun(w, steps, zone, month) && k <= |steps| && CurrentThroughout(w.db.subs, user, steps)
    ensures var now := WorldAt(w, steps, zone, k);
            var answered := AskCount(now.log, user) - AskCount(w.log, user);
            var refused := RefusedChats(now.chats, user) - RefusedChats(w.chats, user);
            var collided := Collisions(w, steps, zone, month, user, k);
            && Metered(now.db.subs, user)
            && answered == AnsweredChats(now.chats, user) - AnsweredChats(w.chats, user)
            && 0 <= answered == Capacity(w.db, user, month) - Capacity(now.db, user, month)
            && refused >= collided
            && (refused > collided ==> Capacity(now.db, user, month) == 0)
    decreases k
  {
    hide IsRun, WorldAt, Inv, Next, Enabled, Metered, Capacity, AskCount, AnsweredChats, RefusedChats, Refusal;
    hide MeteredAndCurrent, AllUndisturbed, UserCollidesAt;
    WorldAtEnds(w, steps, zone);
    if k > 0 {
      CountsAlongTheRun(w, steps, zone, month, user, k - 1);
      var before, step := WorldAt(w, steps, zone, k - 1), steps[k - 1];
      WorldAtStep(w, steps, zone, k - 1);
      UndisturbedAt(w, steps, zone, month, k - 1);
      ChatStepConserves(before, step, zone, month, user);
      StepCounts(before, step, zone, month, user);
      if UserCollidesAt(w, steps, zone, month, user, k - 1) {
        CollisionIsARefusal(w, steps, zone, month, user, k - 1);
      } else if Refusal(before, step, zone, user) {
        RefusedOnlyWhenNothingIsLeft(w, steps, zone, month, user, k - 1);
      }
    }
  }

  /**
   * However the transactions interleave, no unit is lost and none is left unused that was
   * asked for: of the user's questions that have come to an end, not counting collisions on
   * the unique key, all are answered, or when they are more than the units, one for each unit.
   */
  lemma AsManyAnswersAsUnits(w: World, steps: seq<Step>, zone: int, month: string, user: string)
    requires IsChatRun(w, steps, zone, month) && CurrentThroughout(w.db.subs, user, steps)
    ensures var after := WorldAfter(w, steps, zone);
            var answered := AskCount(after.log, user) - AskCount(w.log, user);
            var ended := FinishedChats(after.chats, user) - FinishedChats(w.chats, user);
            var decided := ended - Collisions(w, steps, zone, month, user, |steps|);
            var units := Capacity(w.db, user, month);
            && answered == (if decided <= units then decided else units)
            && Capacity(after.db, user, month) == units - answered
  {
    hide IsRun, WorldAt, WorldAfter, Inv, Metered, Capacity, AskCount, AnsweredChats, RefusedChats, FinishedChats;
    WorldAtEnds(w, steps, zone);
    CountsAlongTheRun(w, steps, zone, month, user, |steps|);
    FinishedIsAnsweredOrRefused(w.chats, user);
    FinishedIsAnsweredOrRefused(WorldAfter(w, steps, zone).chats, user);
  }

  /** With the month's counter row there at the start nothing collides, and the count is exact as it stands. */
  lemma {:induction false} NothingCollidesWithTheRowThere(w: World, steps: seq<Step>, zone: int, month: string,
                                                          user: string, k: nat)
    requires IsChatRun(w, steps, zone, month) && (user, month) in w.db.free && k <= |steps|
    ensures Collisions(w, steps, zone, month, user, k) == 0
    decreases k
  {
    hide IsRun, WorldAt, Inv, CollidesAt;
    if k > 0 {
      NothingCollidesWithTheRowThere(w, steps, zone, month, user, k - 1);
      if UserCollidesAt(w, steps, zone, month, user, k - 1) {
        NoCollisionWithTheRowThere(w, steps, zone, month, k - 1, steps[k - 1].c);
      }
    }
  }

  /** Concurrent capacity: with the row there, the smaller of questions ended and units is answered. */
  lemma SmallerOfQuestionsAndUnits(w: World, steps: seq<Step>, zone: int, month: string, user: string)
    requires IsChatRun(w, steps, zone, month) && CurrentThroughout(w.db.subs, user, steps)
    requires (user, month) in w.db.free
    ensures var after := WorldAfter(w, steps, zone);
            var ended := FinishedChats(after.chats, user) - FinishedChats(w.chats, user);
            var units := Capacity(w.db, user, month);
            AskCount(after.log, user) - AskCount(w.log, user) == if ended <= units then ended else units
  {
    hide IsRun, WorldAfter, Inv, Capacity, AskCount, FinishedChats, Collisions;
    AsManyAnswersAsUnits(w, steps, zone, month, user);
    NothingCollidesWithTheRowThere(w, steps, zone, month, user, |steps|);
  }

  // ---- unlimited users ------------------------------------------------------

  lemma StepKeepsUnlimited(w: World, step: Step, zone: int, month: string, user: string, now: int, i: nat)
    requires Inv(w) && Enabled(w, step) && IsChatStep(step, month) && HasUnlimited(w.db.subs, user, now, i)
    ensures HasUnlimited(Next(w, step, zone).db.subs, user, now, i)
  {
    hide Inv, HasUnlimited, MayCharge, Apply, Charged;
    if step.Commit? {
      CommitIsAnAtomicAsk(w, step.c, zone);
      var work := w.chats[step.c].phase.work;
      ChargeKeepsUnlimited(w.db, w.chats[step.c].user, w.chats[step.c].phase.month, work.at, work.charge, user, now, i);
      AnsweredSubs(w.db, work.message.value);
    }
  }

  lemma ChargeKeepsUnlimited(db: Tables, asker: string, month: string, at: int, charge: Charge,
                             user: string, now: int, i: nat)
    requires MayCharge(db, asker, month, at, charge) && HasUnlimited(db.subs, user, now, i)
    ensures HasUnlimited(Charged(db, asker, charge).subs, user, now, i)
  {
  }

  lemma {:induction false} StaysUnlimited(w: World, steps: seq<Step>, zone: int, month: string, user: string, now: int,
                                          i: nat, k: nat)
    requires IsChatRun(w, steps, zone, month) && k <= |steps| && HasUnlimited(w.db.subs, user, now, i)
    ensures HasUnlimited(WorldAt(w, steps, zone, k).db.subs, user, now, i)
    decreases k
  {
    hide IsRun, WorldAt, Inv, Next, Enabled, HasUnlimited;
    WorldAtEnds(w, steps, zone);
    if k > 0 {
      StaysUnlimited(w, steps, zone, month, user, now, i, k - 1);
      WorldAtStep(w, steps, zone, k - 1);
      UndisturbedAt(w, steps, zone, month, k - 1);
      StepKeepsUnlimited(WorldAt(w, steps, zone, k - 1), steps[k - 1], zone, month, user, now, i);
    }
  }

  /**
   * A chat of a user with an unlimited row, unexpired at every clock a check reads, is never
   * rolled back once the month's counter row is there.
   */
  lemma UnlimitedChatsAreNeverRolledBack(w: World, steps: seq<Step>, zone: int, month: string, user: string, i: nat,
                                         k: nat, c: nat)
    requires IsChatRun(w, steps, zone, month) && k < |steps| && (user, month) in w.db.free
    requires exists now :: HasUnlimited(w.db.subs, user, now, i)
    requires forall n :: 0 <= n < |steps| && steps[n].SpendRow? ==> HasUnlimited(w.db.subs, user, steps[n].now, i)
    requires c < |WorldAt(w, steps, zone, k).chats| && WorldAt(w, steps, zone, k).chats[c].user == user
    ensures !RolledBackAt(w, steps, zone, k, c)
  {
    hide IsRun, WorldAt, Inv, AskOutcome, HasUnlimited;
    if RolledBackAt(w, steps, zone, k, c) {
      var at :| HasUnlimited(w.db.subs, user, at, i);
      var now := if steps[k].SpendRow? then steps[k].now else at;
      WithTheRowThereEveryRollbackIsARefusal(w, steps, zone, month, k, c, now);
      StaysUnlimited(w, steps, zone, month, user, now, i, k);
      UnlimitedIsNeverRefused(WorldAt(w, steps, zone, k).db, user, month, now, i, None);
    }
  }
}
