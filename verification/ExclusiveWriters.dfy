/**
 * Pending writers and what they can still do.  With one writer at a time on each row (no
 * cancel request and no second renewal run while one is under way for the row) stale
 * snapshots do no harm and renewals extend the current period.  In any run at all, whether
 * a cancelled row can change again depends on the writers pending at that moment.
 */
module ExclusiveWriters {
  import opened Wrappers
  import opened Billing
  import opened Records
  import opened QuotaSpec
  import opened ChatSystem
  import opened ChatInvariant
  import opened SerialLog

  predicate RowIdle(writers: seq<Writer>, id: nat) {
    forall n :: 0 <= n < |writers| && writers[n].id == id ==> writers[n].phase.Saved?
  }

  predicate IsExclusiveRun(steps: seq<Step>, zone: int)
    decreases |steps|
  {
    && IsRun(START, steps, zone)
    && (steps != [] ==>
          var before, last := steps[..|steps| - 1], steps[|steps| - 1];
          && IsExclusiveRun(before, zone)
          && (last.StartWriter? ==> RowIdle(WorldAfter(START, before, zone).writers, last.rowId)))
  }

  predicate SameButRemaining(a: Subscription, b: Subscription) {
    a == b.(remainingMessages := a.remainingMessages)
  }

  /** What a pending writer was started for still holds, whatever chats have charged meanwhile. */
  predicate WriterCurrent(db: Tables, writer: Writer, zone: int) {
    writer.phase.Saved? ||
    (&& writer.id < |db.subs|
     && var row := db.subs[writer.id];
     && (writer.phase.HasRead? ==> SameButRemaining(writer.phase.row, row))
     && (writer.update.Deactivate? ==> row.status == Active)
     && (writer.update.Renew? ==> row.status == Active && row.autoRenew
                                  && writer.update.endDate == CycleEnd(row.endDate, row.billingCycle, zone)))
  }

  predicate WritersCurrent(w: World, zone: int) {
    && (forall n :: 0 <= n < |w.writers| ==> WriterCurrent(w.db, w.writers[n], zone))
    && (forall n, m :: 0 <= n < m < |w.writers| && !w.writers[n].phase.Saved? && !w.writers[m].phase.Saved?
          ==> w.writers[n].id != w.writers[m].id)
  }

  /** The operation, in the tables it is applied to, is the program's own, with nothing stale in it. */
  predicate EventExact(db: Tables, event: Event, zone: int) {
    match event
    case Deactivating(id) => id < |db.subs| && db.subs[id].status == Active
    case Renewing(id, endDate, autoRenew) =>
      && id < |db.subs|
      && db.subs[id].status == Active && db.subs[id].autoRenew && autoRenew
      && endDate == CycleEnd(db.subs[id].endDate, db.subs[id].billingCycle, zone)
    case _ => true
  }

  predicate LegalExactly(log: seq<Event>, zone: int)
    requires Legal(log)
    decreases |log|
  {
    log == [] || (LegalExactly(log[..|log| - 1], zone) && EventExact(Replay(log[..|log| - 1]), log[|log| - 1], zone))
  }

  lemma CommitKeepsWritersCurrent(w: World, c: nat, zone: int)
    requires Inv(w) && WritersCurrent(w, zone) && Enabled(w, Commit(c))
    ensures WritersCurrent(Next(w, Commit(c), zone), zone)
  {
    hide Inv, Apply, CycleEnd;
    CommitIsAnAtomicAsk(w, c, zone);
    var after := Next(w, Commit(c), zone);
    assert |after.db.subs| == |w.db.subs|;
    assert forall i :: 0 <= i < |w.db.subs| ==> SameButRemaining(w.db.subs[i], after.db.subs[i]);
  }

  lemma StepKeepsWritersCurrent(w: World, step: Step, zone: int)
    requires Inv(w) && WritersCurrent(w, zone) && Enabled(w, step)
    requires step.StartWriter? ==> RowIdle(w.writers, step.rowId)
    ensures WritersCurrent(Next(w, step, zone), zone)
  {
    hide Inv, CycleEnd, ChatOk, LocksExclusive;
    var after := Next(w, step, zone);
    if step.Commit? {
      CommitKeepsWritersCurrent(w, step.c, zone);
    } else if step.SaveRow? {
      forall m | 0 <= m < |w.writers| && m != step.w ensures WriterCurrent(after.db, after.writers[m], zone) {
        assert WriterCurrent(w.db, w.writers[m], zone);
      }
    } else {
      forall m | 0 <= m < |w.writers| ensures WriterCurrent(after.db, after.writers[m], zone) {
        assert WriterCurrent(w.db, w.writers[m], zone);
      }
    }
  }

  lemma {:induction false} ExclusiveRunKeepsWritersCurrent(steps: seq<Step>, zone: int)
    requires IsExclusiveRun(steps, zone)
    ensures WritersCurrent(WorldAfter(START, steps, zone), zone)
    decreases |steps|
  {
    hide Inv, Next, Enabled;
    if steps != [] {
      var before := steps[..|steps| - 1];
      ExclusiveRunKeepsWritersCurrent(before, zone);
      ReachableInv(before, zone);
      StepKeepsWritersCurrent(WorldAfter(START, before, zone), steps[|steps| - 1], zone);
    }
  }

  lemma SaveIsExact(w: World, n: nat, zone: int)
    requires WritersCurrent(w, zone) && Enabled(w, SaveRow(n))
    ensures EventExact(ObservedTables(w.db), EventFor(w.writers[n].id, w.writers[n].update, w.writers[n].phase.row), zone)
  {
  }

  lemma StepIsExact(w: World, step: Step, zone: int)
    requires Inv(w) && WritersCurrent(w, zone) && Explained(w) && Enabled(w, step)
    requires LegalExactly(w.log, zone)
    ensures Explained(Next(w, step, zone)) && LegalExactly(Next(w, step, zone).log, zone)
  {
    hide Inv, WritersCurrent, CycleEnd, Apply, ObservedTables, Replay, Legal;
    var after := Next(w, step, zone);
    StepIsExplained(w, step, zone);
    if after.log != w.log {
      assert after.log[..|after.log| - 1] == w.log;
      if step.SaveRow? {
        SaveIsExact(w, step.w, zone);
      }
    }
  }

  /** With one writer per row at a time, every interleaved run is the serial program, operation by operation. */
  lemma {:induction false} ExclusiveRunsAreExact(steps: seq<Step>, zone: int)
    requires IsExclusiveRun(steps, zone)
    ensures Explained(WorldAfter(START, steps, zone))
    ensures LegalExactly(WorldAfter(START, steps, zone).log, zone)
    decreases |steps|
  {
    if steps != [] {
      var before := steps[..|steps| - 1];
      ExclusiveRunsAreExact(before, zone);
      ExclusiveRunKeepsWritersCurrent(before, zone);
      ReachableInv(before, zone);
      StepIsExact(WorldAfter(START, before, zone), steps[|steps| - 1], zone);
    }
  }

  // ---- is cancelled terminal? ------------------------------------------------

  /** A renewal of the row has been asked for and not saved. */
  predicate RenewalPending(writers: seq<Writer>, id: nat) {
    exists n :: 0 <= n < |writers| && writers[n].id == id && writers[n].update.Renew? && !writers[n].phase.Saved?
  }

  /** So has anything but a cancellation. */
  predicate ChangePending(writers: seq<Writer>, id: nat) {
    exists n :: 0 <= n < |writers| && writers[n].id == id && !writers[n].update.Cancel? && !writers[n].phase.Saved?
  }

  /** Only a save changes the status of a row that is not active, and no renewal of it can be started. */
  lemma StepOnInactiveRow(w: World, step: Step, zone: int, id: nat)
    requires Inv(w) && Enabled(w, step) && id < |w.db.subs| && w.db.subs[id].status != Active
    ensures var after := Next(w, step, zone);
            && id < |after.db.subs|
            && after.db.subs[id].status
               == (if step.SaveRow? && w.writers[step.w].id == id
                   then Updated(w.writers[step.w].phase.row, w.writers[step.w].update).status else w.db.subs[id].status)
            && (RenewalPending(after.writers, id) ==> RenewalPending(w.writers, id))
            && (ChangePending(after.writers, id) ==> ChangePending(w.writers, id))
  {
    hide Inv, CycleEnd, Apply;
    if step.Commit? {
      CommitIsAnAtomicAsk(w, step.c, zone);
    }
  }

  lemma {:induction false} NotRevived(w: World, steps: seq<Step>, zone: int, id: nat)
    requires Inv(w) && IsRun(w, steps, zone) && id < |w.db.subs| && w.db.subs[id].status != Active
    requires !RenewalPending(w.writers, id)
    ensures var after := WorldAfter(w, steps, zone);
            id < |after.db.subs| && after.db.subs[id].status != Active && !RenewalPending(after.writers, id)
    decreases |steps|
  {
    hide Inv, Next, Enabled, RenewalPending, ChangePending;
    if steps != [] {
      var before := steps[..|steps| - 1];
      NotRevived(w, before, zone, id);
      RunKeepsInv(w, before, zone);
      SaveOfNonRenewal(WorldAfter(w, before, zone), steps[|before|], zone, id);
    }
  }

  lemma SaveOfNonRenewal(w: World, step: Step, zone: int, id: nat)
    requires Inv(w) && Enabled(w, step) && id < |w.db.subs| && w.db.subs[id].status != Active
    requires !RenewalPending(w.writers, id)
    ensures var after := Next(w, step, zone);
            id < |after.db.subs| && after.db.subs[id].status != Active && !RenewalPending(after.writers, id)
  {
    StepOnInactiveRow(w, step, zone, id);
  }

  lemma {:induction false} StaysCancelled(w: World, steps: seq<Step>, zone: int, id: nat)
    requires Inv(w) && IsRun(w, steps, zone) && id < |w.db.subs| && w.db.subs[id].status == Cancelled
    requires !ChangePending(w.writers, id)
    ensures var after := WorldAfter(w, steps, zone);
            id < |after.db.subs| && after.db.subs[id].status == Cancelled && !ChangePending(after.writers, id)
    decreases |steps|
  {
    hide Inv, Next, Enabled, RenewalPending, ChangePending;
    if steps != [] {
      var before := steps[..|steps| - 1];
      StaysCancelled(w, before, zone, id);
      RunKeepsInv(w, before, zone);
      SaveOfCancel(WorldAfter(w, before, zone), steps[|before|], zone, id);
    }
  }

  lemma SaveOfCancel(w: World, step: Step, zone: int, id: nat)
    requires Inv(w) && Enabled(w, step) && id < |w.db.subs| && w.db.subs[id].status == Cancelled
    requires !ChangePending(w.writers, id)
    ensures var after := Next(w, step, zone);
            id < |after.db.subs| && after.db.subs[id].status == Cancelled && !ChangePending(after.writers, id)
  {
    StepOnInactiveRow(w, step, zone, id);
  }

  /** A pending writer of a row that is not active is blocked by no chat, and can save. */
  lemma PendingWriterCanSave(w: World, n: nat, zone: int) returns (steps: seq<Step>)
    requires Inv(w) && n < |w.writers| && !w.writers[n].phase.Saved?
    requires w.writers[n].id < |w.db.subs| && w.db.subs[w.writers[n].id].status != Active
    ensures IsRun(w, steps, zone)
    ensures var id, after := w.writers[n].id, WorldAfter(w, steps, zone);
            && id < |after.db.subs|
            && (w.writers[n].update.Renew? ==> after.db.subs[id].status == Active)
            && (w.writers[n].update.Deactivate? ==> after.db.subs[id].status == Inactive)
  {
    hide IsRun, WorldAfter, LocksExclusive, WriterOk;
    var id := w.writers[n].id;
    assert RowFree(w.chats, id) by {
      forall d | 0 <= d < |w.chats| ensures w.chats[d].RowId() != Some(id) {
        assert ChatOk(w.db, w.chats[d]);
      }
    }
    RunNothing(w, zone);
    steps := [];
    if w.writers[n].phase.Requested? {
      RunOneMore(w, [], ReadRow(n), zone);
      steps := [] + [ReadRow(n)];
    }
    RunOneMore(w, steps, SaveRow(n), zone);
    steps := steps + [SaveRow(n)];
  }

  ghost predicate CanBecomeActive(w: World, zone: int, id: nat) {
    exists steps :: IsRun(w, steps, zone)
                    && id < |WorldAfter(w, steps, zone).db.subs|
                    && WorldAfter(w, steps, zone).db.subs[id].status == Active
  }

  /** In whatever world a row is cancelled or inactive: some run revives it, exactly when a renewal of it is under way. */
  lemma RevivedExactlyWhenRenewalPending(w: World, zone: int, id: nat)
    requires Inv(w) && id < |w.db.subs| && w.db.subs[id].status != Active
    ensures CanBecomeActive(w, zone, id) <==> RenewalPending(w.writers, id)
  {
    hide Inv, IsRun, WorldAfter;
    if RenewalPending(w.writers, id) {
      var n :| 0 <= n < |w.writers| && w.writers[n].id == id && w.writers[n].update.Renew? && !w.writers[n].phase.Saved?;
      var steps := PendingWriterCanSave(w, n, zone);
    } else if CanBecomeActive(w, zone, id) {
      var steps :| IsRun(w, steps, zone)
                   && id < |WorldAfter(w, steps, zone).db.subs|
                   && WorldAfter(w, steps, zone).db.subs[id].status == Active;
      NotRevived(w, steps, zone, id);
      assert false;
    }
  }

  ghost predicate AlwaysCancelled(w: World, zone: int, id: nat) {
    forall steps :: IsRun(w, steps, zone) ==>
      id < |WorldAfter(w, steps, zone).db.subs| && WorldAfter(w, steps, zone).db.subs[id].status == Cancelled
  }

  /** Cancelled is terminal exactly when no renewal and no deactivation of the row is under way at that moment. */
  lemma CancelledIsTerminalExactlyWhen(w: World, zone: int, id: nat)
    requires Inv(w) && id < |w.db.subs| && w.db.subs[id].status == Cancelled
    ensures AlwaysCancelled(w, zone, id) <==> !ChangePending(w.writers, id)
  {
    hide Inv, IsRun, WorldAfter;
    if ChangePending(w.writers, id) {
      var n :| 0 <= n < |w.writers| && w.writers[n].id == id && !w.writers[n].update.Cancel? && !w.writers[n].phase.Saved?;
      var steps := PendingWriterCanSave(w, n, zone);
      assert WorldAfter(w, steps, zone).db.subs[id].status != Cancelled;
    } else {
      forall steps | IsRun(w, steps, zone)
        ensures id < |WorldAfter(w, steps, zone).db.subs| && WorldAfter(w, steps, zone).db.subs[id].status == Cancelled
      {
        StaysCancelled(w, steps, zone, id);
      }
    }
  }

  /** With one writer per row at a time up to the cancellation, it is terminal whatever runs later. */
  lemma CancelledStaysCancelled(steps: seq<Step>, zone: int, id: nat)
    requires IsExclusiveRun(steps, zone)
    requires var w := WorldAfter(START, steps, zone); id < |w.db.subs| && w.db.subs[id].status == Cancelled
    ensures AlwaysCancelled(WorldAfter(START, steps, zone), zone, id)
  {
    hide Inv, IsRun, WorldAfter, AlwaysCancelled;
    var w := WorldAfter(START, steps, zone);
    ExclusiveRunKeepsWritersCurrent(steps, zone);
    ReachableInv(steps, zone);
    CancelledIsTerminalExactlyWhen(w, zone, id);
    assert !ChangePending(w.writers, id) by {
      assert forall n :: 0 <= n < |w.writers| ==> WriterCurrent(w.db, w.writers[n], zone);
    }
  }

  /** A renewal of the only row, between its read and its save. */
  lemma RenewalUnderWay(zone: int) returns (steps: seq<Step>)
    ensures IsRun(START, steps, zone)
    ensures var row := NewSubscription("u", Basic, Monthly, true, 0, zone);
            var end := CycleEnd(row.endDate, Monthly, zone);
            var w := WorldAfter(START, steps, zone);
            && w.db == EMPTY.(subs := [row]) && w.chats == []
            && w.writers == [Writer(0, Renew(end, end, Some(10)), HasRead(row))]
  {
    hide CycleEnd, IsRun, WorldAfter;
    var row := NewSubscription("u", Basic, Monthly, true, 0, zone);
    var create, start := CreateRow("u", Basic, Monthly, true, 0), StartWriter(0, ChargeAccepted(row.endDate));
    RunNothing(START, zone);
    RunOneMore(START, [], create, zone);
    RunOneMore(START, [] + [create], start, zone);
    RunOneMore(START, [] + [create] + [start], ReadRow(0), zone);
    steps := [] + [create] + [start] + [ReadRow(0)];
  }

  /** A cancellation that lands there is undone, auto-renewal included. */
  lemma CancellationCanBeUndone(zone: int) returns (before: seq<Step>, steps: seq<Step>)
    ensures before <= steps && IsRun(START, before, zone) && IsRun(START, steps, zone)
    ensures var w := WorldAfter(START, before, zone);
            |w.db.subs| == 1 && w.db.subs[0].status == Cancelled && !w.db.subs[0].autoRenew
    ensures var w := WorldAfter(START, steps, zone);
            |w.db.subs| == 1 && w.db.subs[0].status == Active && w.db.subs[0].autoRenew
  {
    hide CycleEnd, IsRun, WorldAfter;
    var underWay := RenewalUnderWay(zone);
    RunOneMore(START, underWay, StartWriter(0, CancelRequest), zone);
    var requested := underWay + [StartWriter(0, CancelRequest)];
    RunOneMore(START, requested, ReadRow(1), zone);
    RunOneMore(START, requested + [ReadRow(1)], SaveRow(1), zone);
    before := requested + [ReadRow(1)] + [SaveRow(1)];
    RunOneMore(START, before, SaveRow(0), zone);
    steps := before + [SaveRow(0)];
  }
}
