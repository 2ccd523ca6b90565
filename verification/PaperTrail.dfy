/**
 * What the stored messages and ledger rows say, in every reachable world: which chat each
 * message belongs to, which ledger row each message has, and what the rows add up to.
 */
module PaperTrail {
  import opened Wrappers
  import opened Billing
  import opened Records
  import opened QuotaSpec
  import opened ChatSystem
  import opened ChatInvariant
  import opened Accounts

  /** The ledger row of a message: whose it is, what it paid for, from which source, one unit. */
  predicate IsRowOf(row: LedgerRow, message: Message) {
    && row.userId == message.userId && row.chatMessageId == message.id && row.amount == 1
    && row.source == (if message.charge.FreeUnit? then FromFree else FromSubscription)
    && row.subscriptionId == (if message.charge.FreeUnit? then None else Some(message.charge.id))
  }

  predicate Paired(messages: seq<Message>, ledger: seq<LedgerRow>) {
    |ledger| == |messages| && forall k :: 0 <= k < |messages| ==> IsRowOf(ledger[k], messages[k])
  }

  /** The amounts of the ledger rows that charge one user's free messages of one month. */
  function FreeAmount(messages: seq<Message>, ledger: seq<LedgerRow>, user: string, month: string): int
    requires |ledger| == |messages|
  {
    if ledger == [] then 0
    else
      var k := |ledger| - 1;
      FreeAmount(messages[..k], ledger[..k], user, month)
      + if ledger[k].source == FromFree && ledger[k].userId == user && messages[k].charge == FreeUnit(month)
        then ledger[k].amount else 0
  }

  /** The amounts of the ledger rows that charge one subscription. */
  function RowAmount(ledger: seq<LedgerRow>, id: nat): int {
    if ledger == [] then 0
    else
      var k := |ledger| - 1;
      RowAmount(ledger[..k], id)
      + if ledger[k].source == FromSubscription && ledger[k].subscriptionId == Some(id) then ledger[k].amount else 0
  }

  /** The committed questions' messages, in commit order. */
  function MessagesOf(log: seq<Event>): seq<Message> {
    if log == [] then []
    else
      var last := log[|log| - 1];
      MessagesOf(log[..|log| - 1]) + if last.Asked? then [last.message] else []
  }

  lemma MessagesAfter(log: seq<Event>, event: Event)
    ensures MessagesOf(log + [event]) == MessagesOf(log) + if event.Asked? then [event.message] else []
  {
  }

  lemma {:induction false} MessagesAreLogged(steps: seq<Step>, zone: int)
    requires IsRun(START, steps, zone)
    ensures WorldAfter(START, steps, zone).db.messages == MessagesOf(WorldAfter(START, steps, zone).log)
    decreases |steps|
  {
    hide MessagesOf, Enabled, Next, Inv;
    if steps == [] {
      assert MessagesOf([]) == [] by { NoMessages(); }
    } else {
      var before := steps[..|steps| - 1];
      MessagesAreLogged(before, zone);
      ReachableInv(before, zone);
      StepLogsMessages(WorldAfter(START, before, zone), steps[|before|], zone);
    }
  }

  lemma NoMessages()
    ensures MessagesOf([]) == []
  {
  }

  lemma StepLogsMessages(w: World, step: Step, zone: int)
    requires Inv(w) && Enabled(w, step) && w.db.messages == MessagesOf(w.log)
    ensures Next(w, step, zone).db.messages == MessagesOf(Next(w, step, zone).log)
  {
    hide Inv, MessagesOf, Apply;
    var after := Next(w, step, zone);
    if step.Commit? {
      CommitIsAnAtomicAsk(w, step.c, zone);
    }
    if after.log != w.log {
      MessagesAfter(w.log, after.log[|w.log|]);
    }
  }

  lemma LogAfter(log: seq<Event>)
    requires log != []
    ensures var last := log[|log| - 1];
            && MessagesOf(log) == MessagesOf(log[..|log| - 1]) + (if last.Asked? then [last.message] else [])
            && LedgerOf(log) == LedgerOf(log[..|log| - 1]) + (if last.Asked? then [LedgerRowFor(last.message)] else [])
  {
  }

  /** Along the log, rows and messages pair up, */
  lemma {:induction false} LogIsPaired(log: seq<Event>)
    ensures Paired(MessagesOf(log), LedgerOf(log))
  {
    if log != [] {
      LogIsPaired(log[..|log| - 1]);
      LogAfter(log);
    }
  }

  lemma FreeAmountOfOneMore(messages: seq<Message>, ledger: seq<LedgerRow>, message: Message, row: LedgerRow,
                            user: string, month: string)
    requires |ledger| == |messages|
    ensures FreeAmount(messages + [message], ledger + [row], user, month)
            == FreeAmount(messages, ledger, user, month)
               + if row.source == FromFree && row.userId == user && message.charge == FreeUnit(month) then row.amount else 0
  {
    assert (messages + [message])[..|messages|] == messages && (ledger + [row])[..|ledger|] == ledger;
  }

  lemma RowAmountOfOneMore(ledger: seq<LedgerRow>, row: LedgerRow, id: nat)
    ensures RowAmount(ledger + [row], id)
            == RowAmount(ledger, id)
               + if row.source == FromSubscription && row.subscriptionId == Some(id) then row.amount else 0
  {
    assert (ledger + [row])[..|ledger|] == ledger;
  }

  /** and the rows' amounts are the counts of the log. */
  lemma {:induction false} AmountsAreCounts(log: seq<Event>, user: string, month: string, id: nat)
    ensures |LedgerOf(log)| == |MessagesOf(log)|
    ensures FreeAmount(MessagesOf(log), LedgerOf(log), user, month) == FreeCount(log, user, month)
    ensures RowAmount(LedgerOf(log), id) == ChargeCount(log, id)
  {
    LogIsPaired(log);
    if log != [] {
      var before, last := log[..|log| - 1], log[|log| - 1];
      AmountsAreCounts(before, user, month, id);
      LogAfter(log);
      hide FreeAmount, RowAmount, MessagesOf, LedgerOf;
      if last.Asked? {
        FreeAmountOfOneMore(MessagesOf(before), LedgerOf(before), last.message, LedgerRowFor(last.message), user, month);
        RowAmountOfOneMore(LedgerOf(before), LedgerRowFor(last.message), id);
      } else {
        assert MessagesOf(log) == MessagesOf(before) && LedgerOf(log) == LedgerOf(before);
      }
    }
  }

  /**
   * In every reachable world: each message has its ledger row, and there are no others; the
   * month's free counter is the sum of the amounts charged to it, at most three; and an
   * active metered row has never paid more than its allotment for each of its periods.
   */
  lemma LedgerAddsUp(steps: seq<Step>, zone: int, user: string, month: string, id: nat)
    requires IsRun(START, steps, zone)
    ensures var db := WorldAfter(START, steps, zone).db;
            && Paired(db.messages, db.ledger)
            && FreeAmount(db.messages, db.ledger, user, month)
               == (if (user, month) in db.free then db.free[(user, month)].usedMessages else 0) <= 3
            && (id < |db.subs| && db.subs[id].maxMessages.Some? ==>
                  RowAmount(db.ledger, id)
                  <= db.subs[id].maxMessages.value * (1 + GrantCount(WorldAfter(START, steps, zone).log, id)))
  {
    hide IsRun, WorldAfter, Paired, FreeAmount, RowAmount, GrantCount, FreeCount;
    var w := WorldAfter(START, steps, zone);
    MessagesAreLogged(steps, zone);
    FreeCounterIsExact(steps, zone, user, month);
    LogIsPaired(w.log);
    AmountsAreCounts(w.log, user, month, id);
    LedgerCountIsChargeCount(w.log, id);
    if id < |w.db.subs| && w.db.subs[id].maxMessages.Some? {
      NoDoubleSpend(steps, zone, id);
    }
  }

  // ---- messages and chats ---------------------------------------------------

  /** The message answers a committed chat: its id, user and question, and the answer saved for it in the run. */
  ghost predicate Answers(message: Message, chats: seq<Chat>, steps: seq<Step>, c: int) {
    && 0 <= c < |chats| && chats[c].phase.Committed?
    && message.id == chats[c].id && message.userId == chats[c].user && message.question == chats[c].question
    && SaveMessage(c, message.answer) in steps
  }

  ghost predicate Told(message: Message, chats: seq<Chat>, steps: seq<Step>) {
    exists c :: Answers(message, chats, steps, c)
  }

  predicate WorkTold(chats: seq<Chat>, steps: seq<Step>) {
    forall c :: 0 <= c < |chats| && chats[c].phase.Working? && chats[c].phase.work.message.Some? ==>
      SaveMessage(c, chats[c].phase.work.message.value.answer) in steps
  }

  ghost predicate AllTold(w: World, steps: seq<Step>) {
    && (forall k :: 0 <= k < |w.db.messages| ==> Told(w.db.messages[k], w.chats, steps))
    && WorkTold(w.chats, steps)
  }

  lemma StillAnswers(message: Message, before: seq<Chat>, after: seq<Chat>, steps: seq<Step>, step: Step, c: int)
    requires Answers(message, before, steps, c)
    requires |before| <= |after| && (before[c].phase.Committed? ==> after[c] == before[c])
    ensures Answers(message, after, steps + [step], c)
  {
  }

  lemma CommittedStays(w: World, step: Step, zone: int, c: nat)
    requires Enabled(w, step) && c < |w.chats| && w.chats[c].phase.Committed?
    ensures |w.chats| <= |Next(w, step, zone).chats| && Next(w, step, zone).chats[c] == w.chats[c]
  {
  }

  lemma StepTells(w: World, steps: seq<Step>, step: Step, zone: int)
    requires Inv(w) && Enabled(w, step) && AllTold(w, steps)
    ensures AllTold(Next(w, step, zone), steps + [step])
  {
    hide Inv, Answers, WorkTold, Next, Enabled;
    var after := Next(w, step, zone);
    forall k | 0 <= k < |after.db.messages| ensures Told(after.db.messages[k], after.chats, steps + [step]) {
      if k < |w.db.messages| {
        MessagesGrow(w, step, zone, k);
        var c :| Answers(w.db.messages[k], w.chats, steps, c);
        AnswererIsCommitted(w.db.messages[k], w.chats, steps, c);
        CommittedStays(w, step, zone, c);
        StillAnswers(w.db.messages[k], w.chats, after.chats, steps, step, c);
      } else {
        CommitTells(w, steps, step, zone, k);
      }
    }
    WorkIsTold(w, steps, step, zone);
  }

  lemma AnswererIsCommitted(message: Message, chats: seq<Chat>, steps: seq<Step>, c: int)
    requires Answers(message, chats, steps, c)
    ensures 0 <= c < |chats| && chats[c].phase.Committed?
  {
  }

  lemma MessagesGrow(w: World, step: Step, zone: int, k: nat)
    requires Enabled(w, step) && k < |w.db.messages|
    ensures k < |Next(w, step, zone).db.messages| && Next(w, step, zone).db.messages[k] == w.db.messages[k]
  {
  }

  lemma CommitTells(w: World, steps: seq<Step>, step: Step, zone: int, k: nat)
    requires Inv(w) && Enabled(w, step) && AllTold(w, steps)
    requires |w.db.messages| <= k < |Next(w, step, zone).db.messages|
    ensures Told(Next(w, step, zone).db.messages[k], Next(w, step, zone).chats, steps + [step])
  {
    hide WorkOk, LocksExclusive, WriterOk;
    assert step.Commit? && k == |w.db.messages|;
    assert ChatOk(w.db, w.chats[step.c]);
    assert Answers(Next(w, step, zone).db.messages[k], Next(w, step, zone).chats, steps + [step], step.c);
  }

  lemma WorkIsTold(w: World, steps: seq<Step>, step: Step, zone: int)
    requires Enabled(w, step) && WorkTold(w.chats, steps)
    ensures WorkTold(Next(w, step, zone).chats, steps + [step])
  {
    hide Apply, QueryResult;
  }

  lemma {:induction false} RunTells(steps: seq<Step>, zone: int)
    requires IsRun(START, steps, zone)
    ensures AllTold(WorldAfter(START, steps, zone), steps)
    decreases |steps|
  {
    hide Inv, Next, Enabled, Answers;
    if steps != [] {
      var before := steps[..|steps| - 1];
      RunTells(before, zone);
      ReachableInv(before, zone);
      StepTells(WorldAfter(START, before, zone), before, steps[|before|], zone);
      assert before + [steps[|before|]] == steps;
    }
  }

  /** Every stored message belongs to a committed chat, with its question and the answer that was saved for it. */
  lemma MessagesAnswerTheirChats(steps: seq<Step>, zone: int, k: nat) returns (c: nat)
    requires IsRun(START, steps, zone) && k < |WorldAfter(START, steps, zone).db.messages|
    ensures var w := WorldAfter(START, steps, zone);
            && c < |w.chats| && w.chats[c].phase.Committed?
            && w.db.messages[k].id == w.chats[c].id
            && w.db.messages[k].userId == w.chats[c].user
            && w.db.messages[k].question == w.chats[c].question
            && SaveMessage(c, w.db.messages[k].answer) in steps
  {
    hide IsRun, WorldAfter;
    RunTells(steps, zone);
    assert Told(WorldAfter(START, steps, zone).db.messages[k], WorldAfter(START, steps, zone).chats, steps);
    c :| Answers(WorldAfter(START, steps, zone).db.messages[k], WorldAfter(START, steps, zone).chats, steps, c);
  }
}
