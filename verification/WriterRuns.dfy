/** The life of one unlocked writer in an interleaved run: started, read, saved. */
module WriterRuns {
  import opened Wrappers
  import opened Billing
  import opened Records
  import opened ChatSystem
  import opened AtomicQuestions

  /** Writer `n`, started in step `k`, before step `j`: not read yet, read in some step since, or done. */
  ghost predicate OnItsWay(w: World, steps: seq<Step>, zone: int, k: nat, n: nat, j: nat)
    requires IsRun(w, steps, zone) && k < j <= |steps| && steps[k].StartWriter?
  {
    && Enabled(WorldAt(w, steps, zone, k), steps[k])
    && n < |WorldAt(w, steps, zone, j).writers|
    && var writer := WorldAt(w, steps, zone, j).writers[n];
    && writer.id == steps[k].rowId
    && writer.update == UpdateFor(WorldAt(w, steps, zone, k).db.subs[steps[k].rowId], steps[k].kind, zone)
    && (writer.phase.HasRead? ==> exists r :: k < r < j && ReadAt(w, steps, zone, n, r, writer.id, writer.phase.row))
  }

  predicate ReadAt(w: World, steps: seq<Step>, zone: int, n: nat, r: nat, id: nat, row: Subscription)
    requires IsRun(w, steps, zone) && r < |steps|
  {
    steps[r] == ReadRow(n) && id < |WorldAt(w, steps, zone, r).db.subs| && row == WorldAt(w, steps, zone, r).db.subs[id]
  }

  lemma StepOnWriter(w: World, step: Step, zone: int, n: nat)
    requires Enabled(w, step) && n < |w.writers|
    ensures var after := Next(w, step, zone);
            && n < |after.writers|
            && after.writers[n].id == w.writers[n].id && after.writers[n].update == w.writers[n].update
            && (after.writers[n].phase.HasRead? ==>
                  || after.writers[n].phase == w.writers[n].phase
                  || (step == ReadRow(n) && w.writers[n].id < |w.db.subs|
                      && after.writers[n].phase.row == w.db.subs[w.writers[n].id]))
  {
  }

  lemma {:induction false} WriterGoesOn(w: World, steps: seq<Step>, zone: int, k: nat, j: nat)
    requires IsRun(w, steps, zone) && k < j <= |steps| && steps[k].StartWriter?
    ensures OnItsWay(w, steps, zone, k, |WorldAt(w, steps, zone, k).writers|, j)
    decreases j
  {
    hide IsRun, WorldAt, UpdateFor;
    var n := |WorldAt(w, steps, zone, k).writers|;
    WorldAtStep(w, steps, zone, k);
    WorldAtStep(w, steps, zone, j - 1);
    if j > k + 1 {
      WriterGoesOn(w, steps, zone, k, j - 1);
      StepOnWriter(WorldAt(w, steps, zone, j - 1), steps[j - 1], zone, n);
      hide Next, Enabled;
      var writer := WorldAt(w, steps, zone, j).writers[n];
      if writer.phase.HasRead? {
        if writer.phase == WorldAt(w, steps, zone, j - 1).writers[n].phase {
          var r :| k < r < j - 1 && ReadAt(w, steps, zone, n, r, writer.id, writer.phase.row);
        } else {
          assert ReadAt(w, steps, zone, n, j - 1, writer.id, writer.phase.row);
        }
      }
    }
  }

  /** The row a writer saves: as it read it, but for what its use case assigns from the row it was started with. */
  function SavedBy(listed: Subscription, read: Subscription, kind: WriterKind, zone: int): Subscription {
    match kind
    case CancelRequest => read.(status := Cancelled, autoRenew := false)
    case ChargeDeclined(_) => read.(status := Inactive, autoRenew := false)
    case ChargeAccepted(_) =>
      var end := CycleEnd(listed.endDate, listed.billingCycle, zone);
      read.(endDate := end, renewalDate := end, remainingMessages := Allotment(listed.tier), status := Active)
  }

  lemma SavesAsAsked(listed: Subscription, read: Subscription, kind: WriterKind, zone: int)
    ensures Updated(read, UpdateFor(listed, kind, zone)) == SavedBy(listed, read, kind, zone)
  {
  }

  lemma SaveInWorld(w: World, n: nat, zone: int)
    requires Enabled(w, SaveRow(n))
    ensures n < |w.writers| && w.writers[n].phase.HasRead? && w.writers[n].id < |w.db.subs|
    ensures Next(w, SaveRow(n), zone).db
            == w.db.(subs := w.db.subs[w.writers[n].id := Updated(w.writers[n].phase.row, w.writers[n].update)])
  {
  }

  /**
   * Between its start in step `k` and its save in step `m` a writer has read its row, at some
   * step `r`, and saves that version changed as its use case says, and no other row.
   */
  lemma WritersSaveWhatTheyRead(w: World, steps: seq<Step>, zone: int, k: nat, m: nat) returns (r: nat)
    requires IsRun(w, steps, zone) && k < m < |steps| && steps[k].StartWriter?
    requires steps[m] == SaveRow(|WorldAt(w, steps, zone, k).writers|)
    ensures k < r < m && steps[r] == ReadRow(|WorldAt(w, steps, zone, k).writers|)
    ensures var id := steps[k].rowId;
            && id < |WorldAt(w, steps, zone, k).db.subs| && id < |WorldAt(w, steps, zone, r).db.subs|
            && id < |WorldAt(w, steps, zone, m).db.subs|
            && WorldAt(w, steps, zone, m + 1).db
               == WorldAt(w, steps, zone, m).db.(subs := WorldAt(w, steps, zone, m).db.subs[id :=
                    SavedBy(WorldAt(w, steps, zone, k).db.subs[id], WorldAt(w, steps, zone, r).db.subs[id],
                            steps[k].kind, zone)])
  {
    hide IsRun, WorldAt, UpdateFor, SavedBy, Updated, Next;
    var n := |WorldAt(w, steps, zone, k).writers|;
    WriterGoesOn(w, steps, zone, k, m);
    WorldAtStep(w, steps, zone, m);
    var now := WorldAt(w, steps, zone, m);
    SaveInWorld(now, n, zone);
    r :| k < r < m && ReadAt(w, steps, zone, n, r, now.writers[n].id, now.writers[n].phase.row);
    SavesAsAsked(WorldAt(w, steps, zone, k).db.subs[steps[k].rowId], now.writers[n].phase.row, steps[k].kind, zone);
  }
}
