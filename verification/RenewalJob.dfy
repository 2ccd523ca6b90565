/** One subscription charged and renewed or deactivated, and the run over all that are due. */
module RenewalJob {
  import opened Wrappers
  import opened Calendar
  import opened Billing
  import opened Records
  import opened QuotaService
  import opened SubscriptionRepository

  datatype CardCharge = CardCharge(subscriptionId: nat, amountCents: int)

  /** Accepts or declines as it likes, but never accepts an amount that is not positive. */
  class PaymentGateway {
    var accepted: seq<CardCharge>

    constructor ()
      ensures accepted == []
    {
      accepted := [];
    }

    method ChargeCard(subscriptionId: nat, amountCents: int) returns (success: bool)
      modifies this
      ensures success ==> amountCents > 0
      ensures accepted == old(accepted) + if success then [CardCharge(subscriptionId, amountCents)] else []
    {
      success := false;
      if amountCents > 0 {
        success := *;
      }
      if success {
        accepted := accepted + [CardCharge(subscriptionId, amountCents)];
      }
    }
  }

  datatype Outcome =
    | Renewed(subscriptionId: nat, newEndDate: int)
    | PaymentFailed(subscriptionId: nat)

  /** What the use case asks the repository to save after an outcome. */
  function UpdateOf(item: Listed, outcome: Outcome): Update {
    match outcome
    case Renewed(_, newEndDate) => Renew(newEndDate, newEndDate, Allotment(item.row.tier))
    case PaymentFailed(_) => Deactivate
  }

  /** The listed row after an outcome. */
  function Settled(item: Listed, outcome: Outcome): Subscription { Updated(item.row, UpdateOf(item, outcome)) }

  /** The outcome extends the period that the row had when it was listed. */
  predicate Extends(item: Listed, outcome: Outcome, zone: int) {
    outcome.Renewed? ==> outcome.newEndDate == CycleEnd(item.row.endDate, item.row.billingCycle, zone)
  }

  lemma SettledInColumns(item: Listed, outcome: Outcome, zone: int)
    requires Extends(item, outcome, zone)
    ensures var end := CycleEnd(item.row.endDate, item.row.billingCycle, zone);
            Settled(item, outcome)
            == if outcome.Renewed?
               then item.row.(endDate := end, renewalDate := end, remainingMessages := Allotment(item.row.tier),
                              status := Active)
               else item.row.(status := Inactive, autoRenew := false)
  {
  }

  class RenewSubscriptionUseCase {
    var repository: SubscriptionRepository
    var gateway: PaymentGateway

    constructor (repository: SubscriptionRepository, gateway: PaymentGateway)
      ensures this.repository == repository && this.gateway == gateway
    {
      this.repository, this.gateway := repository, gateway;
    }

    /**
     * Charges first; a row that does not exist is only noticed afterwards, when its price may
     * have been taken.  The new period and allotment come from the listed row, everything else
     * from the row as it is by then.
     */
    method Execute(item: Listed, zone: int) returns (r: Result<Outcome, AppError>)
      modifies repository.db, gateway
      ensures item.id >= |old(repository.db.subs)| ==>
                && r == Err(NotFound) && repository.db.Contents() == old(repository.db.Contents())
                && (gateway.accepted == old(gateway.accepted)
                    || (item.row.priceCents > 0
                        && gateway.accepted == old(gateway.accepted) + [CardCharge(item.id, item.row.priceCents)]))
      ensures item.id < |old(repository.db.subs)| ==>
                && r.Ok? && r.value.subscriptionId == item.id
                && var row := old(repository.db.subs)[item.id];
                && Extends(item, r.value, zone)
                && repository.db.subs == old(repository.db.subs)[item.id :=
                     if r.value.Renewed?
                     then row.(endDate := CycleEnd(item.row.endDate, item.row.billingCycle, zone),
                               renewalDate := CycleEnd(item.row.endDate, item.row.billingCycle, zone),
                               remainingMessages := Allotment(item.row.tier), status := Active)
                     else row.(status := Inactive, autoRenew := false)]
                && repository.db.Contents() == old(repository.db.Contents()).(subs := repository.db.subs)
                && gateway.accepted
                   == old(gateway.accepted) + if r.value.Renewed? then [CardCharge(item.id, item.row.priceCents)] else []
    {
      hide CycleEnd;
      var success := gateway.ChargeCard(item.id, item.row.priceCents);
      if !success {
        var d := repository.Deactivate(item.id);
        return if d.Ok? then Ok(PaymentFailed(item.id)) else Err(d.error);
      }
      var end := new JsDate(item.row.endDate);
      end := ComputeCycleEndDate(end, item.row.billingCycle, zone);
      var renewed := repository.Renew(item.id, end.time, end.time, Allotment(item.row.tier));
      r := if renewed.Ok? then Ok(Renewed(renewed.value.id, renewed.value.row.endDate)) else Err(renewed.error);
    }
  }

  datatype Summary = Summary(due: nat, renewed: nat, failed: nat, outcomes: seq<Outcome>)

  function RenewedCount(outcomes: seq<Outcome>): nat {
    if outcomes == [] then 0
    else RenewedCount(outcomes[..|outcomes| - 1]) + if outcomes[|outcomes| - 1].Renewed? then 1 else 0
  }

  function FailedCount(outcomes: seq<Outcome>): nat {
    if outcomes == [] then 0
    else FailedCount(outcomes[..|outcomes| - 1]) + if outcomes[|outcomes| - 1].PaymentFailed? then 1 else 0
  }

  /** The charges that a list of outcomes stands for, at the listed prices. */
  function ChargesOf(due: seq<Listed>, outcomes: seq<Outcome>): seq<CardCharge>
    requires |outcomes| <= |due|
  {
    if outcomes == [] then []
    else
      var k := |outcomes| - 1;
      ChargesOf(due, outcomes[..k]) + if outcomes[k].Renewed? then [CardCharge(due[k].id, due[k].row.priceCents)] else []
  }

  /** The listed rows up to `n` are settled by their outcomes; every other row is as before. */
  predicate SettledUpTo(before: seq<Subscription>, after: seq<Subscription>, due: seq<Listed>, outcomes: seq<Outcome>,
                        n: nat, zone: int)
    requires |outcomes| == n <= |due|
  {
    && |after| == |before|
    && (forall k :: 0 <= k < n ==>
          && outcomes[k].subscriptionId == due[k].id < |after|
          && after[due[k].id] == Settled(due[k], outcomes[k])
          && Extends(due[k], outcomes[k], zone))
    && (forall i :: 0 <= i < |before| && (forall k :: 0 <= k < n ==> due[k].id != i) ==> after[i] == before[i])
  }

  /** The whole run, on the rows alone. */
  predicate JobRun(before: seq<Subscription>, after: seq<Subscription>, now: int, zone: int,
                   due: seq<Listed>, outcomes: seq<Outcome>)
  {
    IsDueList(before, now, due) && |outcomes| == |due| && SettledUpTo(before, after, due, outcomes, |due|, zone)
  }

  lemma NothingSettledYet(before: seq<Subscription>, due: seq<Listed>, zone: int)
    ensures SettledUpTo(before, before, due, [], 0, zone)
  {
  }

  /** No row is listed twice, so the run meets each as it was listed. */
  lemma NextRowIsAsListed(before: seq<Subscription>, now: int, during: seq<Subscription>, due: seq<Listed>,
                          outcomes: seq<Outcome>, zone: int)
    requires IsDueList(before, now, due) && |outcomes| < |due|
    requires SettledUpTo(before, during, due, outcomes, |outcomes|, zone)
    ensures due[|outcomes|].id < |during| && during[due[|outcomes|].id] == due[|outcomes|].row
  {
  }

  lemma SettleOneMore(before: seq<Subscription>, now: int, during: seq<Subscription>, due: seq<Listed>,
                      outcomes: seq<Outcome>, outcome: Outcome, zone: int)
    requires IsDueList(before, now, due) && |outcomes| < |due|
    requires SettledUpTo(before, during, due, outcomes, |outcomes|, zone)
    requires var item := due[|outcomes|];
             && outcome.subscriptionId == item.id
             && Extends(item, outcome, zone)
    ensures var item := due[|outcomes|];
            && item.id < |during|
            && SettledUpTo(before, during[item.id := Settled(item, outcome)], due,
                           outcomes + [outcome], |outcomes| + 1, zone)
  {
  }

  method RunRenewalJob(repository: SubscriptionRepository, gateway: PaymentGateway, now: int, zone: int)
    returns (summary: Summary, ghost due: seq<Listed>)
    modifies repository.db, gateway
    ensures JobRun(old(repository.db.subs), repository.db.subs, now, zone, due, summary.outcomes)
    ensures repository.db.Contents() == old(repository.db.Contents()).(subs := repository.db.subs)
    ensures gateway.accepted == old(gateway.accepted) + ChargesOf(due, summary.outcomes)
    ensures summary.due == |due|
    ensures summary.renewed == RenewedCount(summary.outcomes) && summary.failed == FailedCount(summary.outcomes)
  {
    hide CycleEnd, Due, Updated, UpdateOf, Extends, SettledUpTo;
    var renewSubscription := new RenewSubscriptionUseCase(repository, gateway);
    var dueSubscriptions := repository.FindDueForRenewal(now);
    due := dueSubscriptions;
    ghost var before := repository.db.subs;
    var outcomes: seq<Outcome> := [];
    NothingSettledYet(before, due, zone);
    for k := 0 to |dueSubscriptions|
      invariant renewSubscription.repository == repository && renewSubscription.gateway == gateway
      invariant repository.db == old(repository.db)
      invariant |outcomes| == k
      invariant SettledUpTo(before, repository.db.subs, due, outcomes, k, zone)
      invariant repository.db.Contents() == old(repository.db.Contents()).(subs := repository.db.subs)
      invariant gateway.accepted == old(gateway.accepted) + ChargesOf(due, outcomes)
    {
      ghost var during := repository.db.subs;
      NextRowIsAsListed(before, now, during, due, outcomes, zone);
      var outcome := renewSubscription.Execute(dueSubscriptions[k], zone);
      var longer := outcomes + [outcome.value];
      SettledInColumns(due[k], outcome.value, zone);
      SettleOneMore(before, now, during, due, outcomes, outcome.value, zone);
      assert longer[..k] == outcomes;
      outcomes := longer;
    }
    summary := Summary(|dueSubscriptions|, RenewedCount(outcomes), FailedCount(outcomes), outcomes);
  }

  // ---- conservation ---------------------------------------------------------

  /** due = renewed + failed, and there are as many charges as renewals. */
  lemma {:induction false} CountsAddUp(due: seq<Listed>, outcomes: seq<Outcome>)
    requires |outcomes| <= |due|
    ensures RenewedCount(outcomes) + FailedCount(outcomes) == |outcomes|
    ensures |ChargesOf(due, outcomes)| == RenewedCount(outcomes)
  {
    if outcomes != [] {
      CountsAddUp(due, outcomes[..|outcomes| - 1]);
    }
  }

  /**
   * A run leaves every row that was not due alone; a due row ends renewed, active with a
   * full allotment and a later end, or inactive without auto-renewal and so never due again.
   */
  lemma JobSettlesEveryDueRow(before: seq<Subscription>, after: seq<Subscription>, now: int, zone: int,
                              due: seq<Listed>, outcomes: seq<Outcome>, i: nat)
    requires JobRun(before, after, now, zone, due, outcomes) && i < |before|
    ensures |after| == |before| && |outcomes| == |due|
    ensures if before[i].status == Active && before[i].autoRenew && before[i].renewalDate <= now
            then exists k :: 0 <= k < |due| && due[k].id == i && SettledBy(before[i], after[i], outcomes[k], i, zone)
            else after[i] == before[i]
  {
    hide CycleEnd;
    if Due(before[i], now) {
      assert IsListed(due, i);
      var k :| 0 <= k < |due| && due[k].id == i;
      PeriodIsAtLeast28Days(before[i].endDate, before[i].billingCycle, zone);
      assert SettledBy(before[i], after[i], outcomes[k], i, zone);
    }
  }

  /** One more period from the row's own end and a full allotment; or, declined, inactive and off auto-renewal. */
  predicate SettledBy(row: Subscription, after: Subscription, outcome: Outcome, id: nat, zone: int) {
    && outcome.subscriptionId == id
    && if outcome.Renewed?
       then && outcome.newEndDate == CycleEnd(row.endDate, row.billingCycle, zone) > row.endDate
            && after == row.(endDate := outcome.newEndDate, renewalDate := outcome.newEndDate,
                             remainingMessages := Allotment(row.tier))
       else after == row.(status := Inactive, autoRenew := false)
  }

  /** Charged are the listed prices of the renewed rows, and nothing else. */
  lemma {:induction false} ChargedAreTheRenewed(due: seq<Listed>, outcomes: seq<Outcome>, charge: CardCharge)
    requires |outcomes| <= |due|
    ensures charge in ChargesOf(due, outcomes)
            <==> exists k :: 0 <= k < |outcomes| && outcomes[k].Renewed?
                             && charge.subscriptionId == due[k].id && charge.amountCents == due[k].row.priceCents
  {
    if outcomes != [] {
      var n := |outcomes| - 1;
      ChargedAreTheRenewed(due, outcomes[..n], charge);
      if charge in ChargesOf(due, outcomes[..n]) {
        var k :| 0 <= k < n && outcomes[..n][k].Renewed?
                 && charge.subscriptionId == due[k].id && charge.amountCents == due[k].row.priceCents;
        assert outcomes[k].Renewed?;
      }
    }
  }

  // ---- catching up ----------------------------------------------------------

  /** Successive runs at one instant in which every charge succeeds. */
  predicate CatchUpRuns(history: seq<seq<Subscription>>, dues: seq<seq<Listed>>, outcomes: seq<seq<Outcome>>,
                        now: int, zone: int)
  {
    && |history| == |dues| + 1 == |outcomes| + 1
    && forall r {:trigger dues[r]} :: 0 <= r < |dues| ==>
         && JobRun(history[r], history[r + 1], now, zone, dues[r], outcomes[r])
         && forall k :: 0 <= k < |outcomes[r]| ==> outcomes[r][k].Renewed?
  }

  /**
   * After n runs a row's end is a boundary of its own period sequence; while it is still
   * due, every run has advanced it by one period.
   */
  lemma {:induction false} RunsFollowTheBoundaries(
    history: seq<seq<Subscription>>, dues: seq<seq<Listed>>, outcomes: seq<seq<Outcome>>,
    now: int, zone: int, i: nat, n: nat) returns (periods: nat)
    requires CatchUpRuns(history, dues, outcomes, now, zone) && n <= |dues|
    requires i < |history[0]| && history[0][i].renewalDate == history[0][i].endDate
    ensures |history[n]| == |history[0]|
    ensures var row := history[n][i];
            periods <= n && (row.status == Active && row.autoRenew && row.renewalDate <= now ==> periods == n)
    ensures var row, start := history[n][i], history[0][i];
            row.billingCycle == start.billingCycle && row.status == start.status && row.autoRenew == start.autoRenew
    ensures history[n][i].renewalDate == history[n][i].endDate
            == Boundary(history[0][i].endDate, history[0][i].billingCycle, zone, periods)
  {
    hide CycleEnd;
    periods := 0;
    if n > 0 {
      periods := RunsFollowTheBoundaries(history, dues, outcomes, now, zone, i, n - 1);
      assert JobRun(history[n - 1], history[n], now, zone, dues[n - 1], outcomes[n - 1]);
      SuccessfulRunRenews(history[n - 1], history[n], now, zone, dues[n - 1], outcomes[n - 1], i);
      if Due(history[n - 1][i], now) {
        periods := periods + 1;
      }
    }
  }

  lemma SuccessfulRunRenews(before: seq<Subscription>, after: seq<Subscription>, now: int, zone: int,
                            due: seq<Listed>, outcomes: seq<Outcome>, i: nat)
    requires JobRun(before, after, now, zone, due, outcomes) && i < |before|
    requires forall k :: 0 <= k < |outcomes| ==> outcomes[k].Renewed?
    ensures |after| == |before|
    ensures var row, end := before[i], CycleEnd(before[i].endDate, before[i].billingCycle, zone);
            after[i] == if row.status == Active && row.autoRenew && row.renewalDate <= now
                        then row.(endDate := end, renewalDate := end, remainingMessages := Allotment(row.tier))
                        else row
  {
  }

  /** A row that lags D days behind `now` is not due any more after D / 28 + 1 runs, nor after any further ones. */
  lemma CatchUpEnds(history: seq<seq<Subscription>>, dues: seq<seq<Listed>>, outcomes: seq<seq<Outcome>>,
                    now: int, zone: int, i: nat, n: nat)
    requires CatchUpRuns(history, dues, outcomes, now, zone) && n <= |dues|
    requires i < |history[0]| && history[0][i].renewalDate == history[0][i].endDate
    requires history[0][i].status == Active && history[0][i].autoRenew && history[0][i].renewalDate <= now
    requires n >= (now - history[0][i].renewalDate) / MS_PER_DAY / 28 + 1
    ensures |history[n]| == |history[0]| && history[n][i].renewalDate > now
    ensures history[n][i].status == Active && history[n][i].autoRenew
  {
    hide CycleEnd, Boundary, JobRun;
    var periods := RunsFollowTheBoundaries(history, dues, outcomes, now, zone, i, n);
    BoundariesGrow(history[0][i].endDate, history[0][i].billingCycle, zone, 0, periods);
    BoundaryZero(history[0][i].endDate, history[0][i].billingCycle, zone);
    LagInDays(now - history[0][i].renewalDate, n);
  }

  lemma BoundaryZero(start: int, cycle: Cycle, zone: int)
    ensures Boundary(start, cycle, zone, 0) == start
  {
  }

  lemma LagInDays(lag: nat, n: nat)
    requires n >= lag / MS_PER_DAY / 28 + 1
    ensures 28 * MS_PER_DAY * n > lag
  {
  }
}
