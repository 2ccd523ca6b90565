/**
 * No deadlock: chats take the free counter before at most one subscription row, and
 * writers take one row at a time, so somebody can always move, and every schedule in
 * which nobody new arrives ends after a bounded number of steps with all finished.
 */
module Progress {
  import opened Wrappers
  import opened Billing
  import opened Records
  import opened QuotaSpec
  import opened ChatSystem
  import opened ChatInvariant

  /** Steps that carry on with what has been started; no arrivals, and no failures from outside. */
  predicate IsProgress(step: Step) {
    !step.StartChat? && !step.StartWriter? && !step.CreateRow? && !step.Fail?
  }

  predicate AllFinished(w: World) {
    && (forall c :: 0 <= c < |w.chats| ==> w.chats[c].Finished())
    && (forall n :: 0 <= n < |w.writers| ==> w.writers[n].phase.Saved?)
  }

  // ---- the measure ----------------------------------------------------------

  /** Steps a chat may still take when there are `rows` subscription rows. */
  function ChatRank(phase: Phase, rows: nat): nat {
    match phase
    case Begun => rows + 9
    case NoUsageRow(_) => rows + 8
    case UsageHeld(_, _) => rows + 7
    case FreeSpent(_) => rows + 6
    case Queued(_, ids) => |ids| + 5
    case RowHeld(_, _, _) => 4
    case Working(_, work) => if work.message.None? then 3 else if work.ledgerRow.None? then 2 else 1
    case Committed => 0
    case RolledBack => 0
  }

  function WriterRank(phase: WriterPhase): nat {
    match phase
    case Requested => 2
    case HasRead(_) => 1
    case Saved => 0
  }

  function ChatsRank(chats: seq<Chat>, rows: nat): nat {
    if chats == [] then 0 else ChatsRank(chats[..|chats| - 1], rows) + ChatRank(chats[|chats| - 1].phase, rows)
  }

  function WritersRank(writers: seq<Writer>): nat {
    if writers == [] then 0 else WritersRank(writers[..|writers| - 1]) + WriterRank(writers[|writers| - 1].phase)
  }

  function Rank(w: World): nat { ChatsRank(w.chats, |w.db.subs|) + WritersRank(w.writers) }

  lemma {:induction false} ChatsRankUpdate(chats: seq<Chat>, rows: nat, c: nat, chat: Chat)
    requires c < |chats|
    ensures ChatsRank(chats[c := chat], rows)
            == ChatsRank(chats, rows) - ChatRank(chats[c].phase, rows) + ChatRank(chat.phase, rows)
  {
    var last := |chats| - 1;
    if c < last {
      ChatsRankUpdate(chats[..last], rows, c, chat);
      assert chats[c := chat][..last] == chats[..last][c := chat];
    } else {
      assert chats[c := chat][..last] == chats[..last];
    }
  }

  lemma {:induction false} WritersRankUpdate(writers: seq<Writer>, n: nat, writer: Writer)
    requires n < |writers|
    ensures WritersRank(writers[n := writer])
            == WritersRank(writers) - WriterRank(writers[n].phase) + WriterRank(writer.phase)
  {
    var last := |writers| - 1;
    if n < last {
      WritersRankUpdate(writers[..last], n, writer);
      assert writers[n := writer][..last] == writers[..last][n := writer];
    } else {
      assert writers[n := writer][..last] == writers[..last];
    }
  }

  /** A query returns no more rows than there are. */
  lemma {:induction false} DistinctBelow(ids: seq<nat>, n: nat)
    requires forall i :: 0 <= i < |ids| ==> ids[i] < n
    requires forall i, j :: 0 <= i < j < |ids| ==> ids[i] != ids[j]
    ensures |ids| <= n
  {
    if ids != [] {
      assert ids[0] < n;
      if n - 1 in ids {
        var p :| 0 <= p < |ids| && ids[p] == n - 1;
        DistinctBelow(ids[..p] + ids[p + 1..], n - 1);
      } else {
        DistinctBelow(ids, n - 1);
      }
    }
  }

  lemma ChatRankDrops(w: World, step: Step, zone: int)
    requires IsLocal(step) && !step.Fail? && Enabled(w, step)
    ensures ChatRank(Next(w, step, zone).chats[step.c].phase, |w.db.subs|) < ChatRank(w.chats[step.c].phase, |w.db.subs|)
  {
    if step.QueryRows? {
      DistinctBelow(step.ids, |w.db.subs|);
    }
  }

  lemma ProgressLowersRank(w: World, step: Step, zone: int)
    requires Inv(w) && Enabled(w, step) && IsProgress(step)
    ensures Rank(Next(w, step, zone)) < Rank(w)
  {
    hide ChatOk, LocksExclusive, ChatsRank, WritersRank, QueryResult;
    var after := Next(w, step, zone);
    if step.ReadRow? || step.SaveRow? {
      WritersRankUpdate(w.writers, step.w, after.writers[step.w]);
    } else if step.Commit? {
      CommitIsAnAtomicAsk(w, step.c, zone);
      ChatsRankUpdate(w.chats, |w.db.subs|, step.c, after.chats[step.c]);
    } else {
      ChatRankDrops(w, step, zone);
      ChatsRankUpdate(w.chats, |w.db.subs|, step.c, after.chats[step.c]);
    }
  }

  // ---- the query has a result -----------------------------------------------

  /** `ids` lists matching rows below `n`, each once, none after one it outranks. */
  predicate Ordered(subs: seq<Subscription>, user: string, ids: seq<nat>, n: nat) {
    && (forall i :: 0 <= i < |ids| ==> ids[i] < n && ids[i] < |subs| && Matches(subs[ids[i]], user))
    && (forall i, j :: 0 <= i < j < |ids| ==> ids[i] != ids[j] && !RanksBefore(subs[ids[j]], subs[ids[i]]))
  }

  lemma RankingIsStrict(a: Subscription, b: Subscription, c: Subscription)
    ensures RanksBefore(a, b) ==> !RanksBefore(b, a)
    ensures RanksBefore(a, b) && RanksBefore(b, c) ==> RanksBefore(a, c)
  {
  }

  lemma InsertInOrder(subs: seq<Subscription>, user: string, ids: seq<nat>, n: nat) returns (longer: seq<nat>)
    requires n < |subs| && Ordered(subs, user, ids, n) && Matches(subs[n], user)
    ensures Ordered(subs, user, longer, n + 1)
    ensures n in longer && forall k :: k in ids ==> k in longer
  {
    hide RanksBefore, Matches;
    var p := 0;
    while p < |ids| && !RanksBefore(subs[n], subs[ids[p]])
      invariant 0 <= p <= |ids|
      invariant forall i :: 0 <= i < p ==> !RanksBefore(subs[n], subs[ids[i]])
    {
      p := p + 1;
    }
    forall j | p <= j < |ids| ensures !RanksBefore(subs[ids[j]], subs[n]) {
      RankingIsStrict(subs[n], subs[ids[p]], subs[n]);
      RankingIsStrict(subs[ids[j]], subs[n], subs[ids[p]]);
    }
    longer := ids[..p] + [n] + ids[p..];
    assert longer[p] == n;
    InsertKeepsMembers(ids, p, n);
  }

  lemma InsertKeepsMembers(ids: seq<nat>, p: nat, n: nat)
    requires p <= |ids|
    ensures forall k :: k in ids ==> k in ids[..p] + [n] + ids[p..]
  {
  }

  /** The query always has a result: rows can be put in the order it asks for. */
  lemma {:induction false} QueryHasResult(subs: seq<Subscription>, user: string) returns (ids: seq<nat>)
    ensures QueryResult(subs, user, ids)
  {
    hide RanksBefore;
    ids := [];
    for n := 0 to |subs|
      invariant Ordered(subs, user, ids, n)
      invariant forall k :: 0 <= k < n && Matches(subs[k], user) ==> k in ids
    {
      if Matches(subs[n], user) {
        ids := InsertInOrder(subs, user, ids, n);
      }
    }
  }

  /** Of rows that tie, the database may put any first: every preferred row can head the result. */
  lemma AnyPreferredRowMayComeFirst(subs: seq<Subscription>, user: string, i: nat) returns (ids: seq<nat>)
    requires Preferred(subs, user, i)
    ensures QueryResult(subs, user, ids) && ids != [] && ids[0] == i
  {
    TopIsPreferred(subs, user, i);
    TopMatches(subs, user, i);
    hide RanksBefore, Preferred, Matches, IsTop;
    var all := QueryHasResult(subs, user);
    assert i in all;
    var p :| 0 <= p < |all| && all[p] == i;
    ids := [i] + all[..p] + all[p + 1..];
    TopToTheFront(subs, user, all, p);
  }

  lemma TopToTheFront(subs: seq<Subscription>, user: string, ids: seq<nat>, p: nat)
    requires QueryResult(subs, user, ids) && p < |ids| && IsTop(subs, user, ids[p])
    ensures QueryResult(subs, user, [ids[p]] + ids[..p] + ids[p + 1..])
  {
    hide RanksBefore, Matches;
    var front := [ids[p]] + ids[..p] + ids[p + 1..];
    InFront(ids, p);
    forall i | 0 < i < |front|
      ensures front[i] == ids[if i <= p then i - 1 else i] && !RanksBefore(subs[front[i]], subs[ids[p]])
    {
    }
  }

  lemma InFront(ids: seq<nat>, p: nat)
    requires p < |ids|
    ensures forall k :: k in ids ==> k in [ids[p]] + ids[..p] + ids[p + 1..]
  {
  }

  // ---- what is waited for -----------------------------------------------------

  /** The step reads `month` from the clock, if it reads the month at all. */
  predicate InMonth(step: Step, month: string) { step.LockUsage? ==> step.month == month }

  /** The chat's next step needs a lock that another transaction holds. */
  predicate Waits(w: World, c: nat, month: string)
    requires c < |w.chats|
  {
    match w.chats[c].phase
    case Begun =>
      (w.chats[c].user, month) in w.db.free && HeldByAnother(w.chats, c, (w.chats[c].user, month))
    case NoUsageRow(m) =>
      (w.chats[c].user, m) !in w.db.free && HeldByAnother(w.chats, c, (w.chats[c].user, m))
    case Queued(_, ids) => ids != [] && exists d :: 0 <= d < |w.chats| && w.chats[d].RowId() == Some(ids[0])
    case _ => false
  }

  predicate HeldByAnother(chats: seq<Chat>, c: nat, key: (string, string)) {
    exists d :: 0 <= d < |chats| && d != c && chats[d].UsageKey() == Some(key)
  }

  ghost predicate CanMove(w: World, c: nat, month: string) {
    exists step :: IsLocalOrCommit(step) && step.c == c && InMonth(step, month) && Enabled(w, step)
  }

  /** The steps of a chat that carry on with it. */
  predicate IsLocalOrCommit(step: Step) { step.Commit? || (IsLocal(step) && !step.Fail?) }

  /** In every reachable world an unfinished chat can take its next step exactly when it waits for no lock. */
  lemma ChatsWaitExactlyForLocks(w: World, c: nat, month: string)
    requires Inv(w) && c < |w.chats| && !w.chats[c].Finished()
    ensures CanMove(w, c, month) <==> !Waits(w, c, month)
  {
    hide QueryResult, Inv;
    if Waits(w, c, month) {
      forall step | IsLocalOrCommit(step) && step.c == c && InMonth(step, month) ensures !Enabled(w, step) {
      }
    } else {
      var step := NextStep(w, c, month);
      assert IsLocalOrCommit(step) && step.c == c && InMonth(step, month) && Enabled(w, step);
    }
  }

  lemma NextStep(w: World, c: nat, month: string) returns (step: Step)
    requires Inv(w) && c < |w.chats| && !w.chats[c].Finished() && !Waits(w, c, month)
    ensures IsLocalOrCommit(step) && step.c == c && InMonth(step, month) && Enabled(w, step)
  {
    hide QueryResult;
    assert ChatOk(w.db, w.chats[c]);
    match w.chats[c].phase
    case Begun => step := LockUsage(c, month);
    case NoUsageRow(_) => step := InsertUsage(c);
    case UsageHeld(_, _) => step := SpendFree(c);
    case FreeSpent(_) =>
      var ids := QueryHasResult(w.db.subs, w.chats[c].user);
      step := QueryRows(c, ids);
    case Queued(_, ids) => step := LockRow(c);
    case RowHeld(_, _, _) => step := SpendRow(c, 0);
    case Working(_, work) =>
      step := if work.message.None? then SaveMessage(c, "")
              else if work.ledgerRow.None? then SaveLedgerRow(c)
              else Commit(c);
  }

  /** A writer can always read, and can save exactly when no transaction holds its row. */
  lemma WritersWaitExactlyForLocks(w: World, n: nat)
    requires Inv(w) && n < |w.writers|
    ensures w.writers[n].phase.Requested? ==> Enabled(w, ReadRow(n))
    ensures w.writers[n].phase.HasRead? ==>
              (Enabled(w, SaveRow(n))
               <==> forall d :: 0 <= d < |w.chats| ==> w.chats[d].RowId() != Some(w.writers[n].id))
  {
    assert WriterOk(w.db, w.writers[n]);
  }

  /** Arrivals wait for nothing: a chat or a row of any kind, a cancellation of any row, a renewal of any due row. */
  lemma ArrivalsAreFree(w: World, step: Step)
    requires step.StartChat? || step.StartWriter? || step.CreateRow?
    ensures Enabled(w, step)
            <==> (step.StartWriter? ==>
                    && step.rowId < |w.db.subs|
                    && (step.kind.CancelRequest?
                        || (w.db.subs[step.rowId].status == Active && w.db.subs[step.rowId].autoRenew
                            && w.db.subs[step.rowId].renewalDate <= step.kind.now)))
  {
  }

  // ---- somebody can move ----------------------------------------------------

  /** Deadlock freedom, in whatever month: while anything is unfinished, some step that carries on is enabled. */
  lemma SomebodyCanMove(w: World, month: string) returns (step: Step)
    requires Inv(w) && !AllFinished(w)
    ensures IsProgress(step) && Enabled(w, step) && InMonth(step, month)
  {
    hide Inv, Enabled;
    if c :| 0 <= c < |w.chats| && w.chats[c].RowId().Some? {
      step := NextStep(w, c, month);
    } else if n :| 0 <= n < |w.writers| && !w.writers[n].phase.Saved? {
      WritersWaitExactlyForLocks(w, n);
      step := if w.writers[n].phase.Requested? then ReadRow(n) else SaveRow(n);
    } else if c :| 0 <= c < |w.chats| && w.chats[c].UsageKey().Some? {
      step := NextStep(w, c, month);
    } else {
      var c :| 0 <= c < |w.chats| && !w.chats[c].Finished();
      step := NextStep(w, c, month);
    }
  }

  // ---- everybody can finish -------------------------------------------------

  predicate AllInMonth(steps: seq<Step>, month: string) {
    forall i :: 0 <= i < |steps| ==> InMonth(steps[i], month)
  }

  predicate AllProgress(steps: seq<Step>) {
    forall i :: 0 <= i < |steps| ==> IsProgress(steps[i])
  }

  /** No schedule can go on for more steps than the rank it starts from. */
  lemma {:induction false} SchedulesAreBounded(w: World, steps: seq<Step>, zone: int)
    requires Inv(w) && IsRun(w, steps, zone) && AllProgress(steps)
    ensures |steps| + Rank(WorldAfter(w, steps, zone)) <= Rank(w)
    decreases |steps|
  {
    hide Inv, Rank, Next, Enabled;
    if steps != [] {
      var before := steps[..|steps| - 1];
      SchedulesAreBounded(w, before, zone);
      RunKeepsInv(w, before, zone);
      ProgressLowersRank(WorldAfter(w, before, zone), steps[|steps| - 1], zone);
    }
  }

  /** From every reachable world, the started work can be carried to its end within the month the clock shows. */
  lemma {:induction false} EverybodyCanFinish(w: World, before: seq<Step>, zone: int, month: string)
    returns (steps: seq<Step>)
    requires Inv(w) && IsRun(w, before, zone) && AllProgress(before) && AllInMonth(before, month)
    ensures before <= steps && IsRun(w, steps, zone) && AllProgress(steps) && AllInMonth(steps, month)
    ensures AllFinished(WorldAfter(w, steps, zone))
    ensures |steps| <= Rank(w)
    decreases Rank(WorldAfter(w, before, zone))
  {
    hide Inv, Rank, Next, Enabled, AllFinished;
    var now := WorldAfter(w, before, zone);
    RunKeepsInv(w, before, zone);
    if AllFinished(now) {
      steps := before;
      SchedulesAreBounded(w, steps, zone);
    } else {
      var step := SomebodyCanMove(now, month);
      var longer := before + [step];
      assert longer[..|longer| - 1] == before;
      ProgressLowersRank(now, step, zone);
      steps := EverybodyCanFinish(w, longer, zone, month);
    }
  }
}
