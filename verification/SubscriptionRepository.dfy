/** The subscription use cases on the tables, one after the other, and the renewal run over all due rows. */
module SubscriptionRepository {
  import opened Wrappers
  import opened Billing
  import opened Records
  import opened QuotaService

  /** A row as the program hands it around, with its id. */
  datatype Listed = Listed(id: nat, row: Subscription)

  /** The due rows, each once, in the order of their renewal dates. */
  predicate IsDueList(subs: seq<Subscription>, now: int, due: seq<Listed>) {
    && (forall k :: 0 <= k < |due| ==> due[k].id < |subs| && due[k].row == subs[due[k].id] && Due(due[k].row, now))
    && (forall j, k :: 0 <= j < k < |due| ==> due[j].id != due[k].id && due[j].row.renewalDate <= due[k].row.renewalDate)
    && (forall i :: 0 <= i < |subs| && Due(subs[i], now) ==> IsListed(due, i))
  }

  predicate IsListed(due: seq<Listed>, id: nat) {
    exists k :: 0 <= k < |due| && due[k].id == id
  }

  class SubscriptionRepository {
    var db: Database

    constructor (db: Database)
      ensures this.db == db
    {
      this.db := db;
    }

    method Create(row: Subscription) returns (created: Listed)
      modifies db
      ensures created == Listed(|old(db.subs)|, row)
      ensures db.Contents() == old(db.Contents()).(subs := old(db.subs) + [row])
    {
      db.subs := db.subs + [row];
      created := Listed(|db.subs| - 1, row);
    }

    method Cancel(id: nat) returns (r: Result<Listed, AppError>)
      modifies db
      ensures if id < |old(db.subs)|
              then var row := old(db.subs)[id].(status := Cancelled, autoRenew := false);
                   r == Ok(Listed(id, row)) && db.Contents() == old(db.Contents()).(subs := old(db.subs)[id := row])
              else r == Err(NotFound) && db.Contents() == old(db.Contents())
    {
      if id >= |db.subs| {
        return Err(NotFound);
      }
      var subscription := db.subs[id];
      subscription := subscription.(autoRenew := false);
      subscription := subscription.(status := Cancelled);
      db.subs := db.subs[id := subscription];
      r := Ok(Listed(id, subscription));
    }

    method Renew(id: nat, endDate: int, renewalDate: int, remaining: Option<int>) returns (r: Result<Listed, AppError>)
      modifies db
      ensures if id < |old(db.subs)|
              then var row := old(db.subs)[id].(endDate := endDate, renewalDate := renewalDate,
                                                remainingMessages := remaining, status := Active);
                   r == Ok(Listed(id, row)) && db.Contents() == old(db.Contents()).(subs := old(db.subs)[id := row])
              else r == Err(NotFound) && db.Contents() == old(db.Contents())
    {
      if id >= |db.subs| {
        return Err(NotFound);
      }
      var subscription := db.subs[id];
      subscription := subscription.(endDate := endDate);
      subscription := subscription.(renewalDate := renewalDate);
      subscription := subscription.(remainingMessages := remaining);
      subscription := subscription.(status := Active);
      db.subs := db.subs[id := subscription];
      r := Ok(Listed(id, subscription));
    }

    method Deactivate(id: nat) returns (r: Result<Listed, AppError>)
      modifies db
      ensures if id < |old(db.subs)|
              then var row := old(db.subs)[id].(status := Inactive, autoRenew := false);
                   r == Ok(Listed(id, row)) && db.Contents() == old(db.Contents()).(subs := old(db.subs)[id := row])
              else r == Err(NotFound) && db.Contents() == old(db.Contents())
    {
      if id >= |db.subs| {
        return Err(NotFound);
      }
      var subscription := db.subs[id];
      subscription := subscription.(status := Inactive);
      subscription := subscription.(autoRenew := false);
      db.subs := db.subs[id := subscription];
      r := Ok(Listed(id, subscription));
    }

    /** find with ORDER BY renewalDate: the rows are put in order as the database would. */
    method FindDueForRenewal(now: int) returns (due: seq<Listed>)
      ensures IsDueList(db.subs, now, due)
      ensures forall i :: 0 <= i < |db.subs| ==>
                (IsListed(due, i)
                 <==> db.subs[i].status == Active && db.subs[i].autoRenew && db.subs[i].renewalDate <= now)
      ensures forall k :: 0 <= k < |due| ==> due[k].id < |db.subs| && due[k].row == db.subs[due[k].id]
      ensures forall j, k :: 0 <= j < k < |due| ==>
                due[j].id != due[k].id && due[j].row.renewalDate <= due[k].row.renewalDate
    {
      due := [];
      for i := 0 to |db.subs|
        invariant IsDueList(db.subs[..i], now, due)
      {
        assert db.subs[..i + 1][..i] == db.subs[..i];
        if Due(db.subs[i], now) {
          due := InsertByRenewalDate(db.subs[..i + 1], now, due, i);
        }
      }
      assert db.subs[..|db.subs|] == db.subs;
    }
  }

  method InsertByRenewalDate(subs: seq<Subscription>, now: int, due: seq<Listed>, i: nat) returns (longer: seq<Listed>)
    requires |subs| == i + 1 && Due(subs[i], now) && IsDueList(subs[..i], now, due)
    ensures IsDueList(subs, now, longer)
  {
    hide Due, IsListed;
    var p := 0;
    while p < |due| && due[p].row.renewalDate <= subs[i].renewalDate
      invariant 0 <= p <= |due|
      invariant forall k :: 0 <= k < p ==> due[k].row.renewalDate <= subs[i].renewalDate
    {
      p := p + 1;
    }
    longer := due[..p] + [Listed(i, subs[i])] + due[p..];
    forall j | 0 <= j < |subs| && Due(subs[j], now) ensures IsListed(longer, j) {
      if j < i {
        assert subs[..i][j] == subs[j];
      }
      StillListed(due, p, Listed(i, subs[i]), j);
    }
    forall k | p <= k < |due| ensures subs[i].renewalDate <= due[k].row.renewalDate {
      assert due[p].row.renewalDate <= due[k].row.renewalDate;
    }
  }

  lemma StillListed(due: seq<Listed>, p: nat, item: Listed, id: nat)
    requires p <= |due| && (id == item.id || IsListed(due, id))
    ensures IsListed(due[..p] + [item] + due[p..], id)
  {
    var longer := due[..p] + [item] + due[p..];
    if id == item.id {
      assert longer[p].id == id;
    } else {
      var k :| 0 <= k < |due| && due[k].id == id;
      assert longer[if k < p then k else k + 1].id == id;
    }
  }

  /** CreateSubscriptionUseCase: the period, the price and the allotment come from the policy. */
  method CreateSubscription(repository: SubscriptionRepository, userId: string, tier: Tier, cycle: Cycle,
                            autoRenew: bool, now: int, zone: int) returns (created: Listed)
    modifies repository.db
    ensures created == Listed(|old(repository.db.subs)|, NewSubscription(userId, tier, cycle, autoRenew, now, zone))
    ensures var row := created.row;
            && row.userId == userId && row.tier == tier && row.billingCycle == cycle && row.autoRenew == autoRenew
            && row.startDate == now && row.renewalDate == row.endDate == CycleEnd(now, cycle, zone)
            && row.status == Active
            && row.maxMessages == row.remainingMessages
               == (match tier case Basic => Some(10) case Pro => Some(100) case Enterprise => None)
            && row.priceCents == (match tier case Basic => 500 case Pro => 2000 case Enterprise => 10000)
                                 * (if cycle == Monthly then 1 else 10)
    ensures repository.db.Contents()
            == old(repository.db.Contents()).(subs := old(repository.db.subs) + [created.row])
  {
    var clock := new JsDate(now);
    var end := ComputeCycleEndDate(clock, cycle, zone);
    var maxMessages := Allotment(tier);
    var priceCents := PriceCents(tier, cycle);
    created := repository.Create(
      Subscription(userId, tier, cycle, maxMessages, maxMessages, priceCents, now, end.time, end.time, autoRenew, Active));
  }

  /** A new row is usable at once, well formed, and its dates agree. */
  lemma NewSubscriptionIsUsable(userId: string, tier: Tier, cycle: Cycle, autoRenew: bool, now: int, zone: int)
    ensures var row := NewSubscription(userId, tier, cycle, autoRenew, now, zone);
            && row.WellFormed() && row.Usable(now) && row.priceCents > 0
            && row.renewalDate == row.endDate && !Due(row, now)
  {
    PeriodIsAtLeast28Days(now, cycle, zone);
  }
}
