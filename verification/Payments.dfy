/**
  Payments, activation and the member lifecycle (apps/api/src/payments/payments.service.ts,
  apps/api/src/members/member-activation.util.ts, apps/api/src/applications/applications.service.ts,
  apps/api/src/members/member-expiry.scheduler.ts, `submitInternal` of
  apps/api/src/members/members.service.ts).

  Each function below is one database transaction or statement on the tables, and the methods of
  `Database` carry these out. How the transactions of many callers interleave is in `PaymentRuns`.
 */
module Payments {
  import opened Wrappers
  import opened Membership
  import Calendar

  type Id = nat

  /** `months` is absent or 0 on a plan without a configured validity. */
  datatype Plan = Plan(id: Id, lifetime: bool, months: Option<nat>)

  datatype Member = Member(status: Status, plan: Option<Plan>, joiningDate: Option<int>, validUntil: Option<int>,
                           number: Option<nat>, referrer: Option<Id>)

  /** `upgrade` tells a charge for a better plan from a fee, as the row's remark does. */
  datatype Payment = Payment(member: Id, gatewayId: Option<string>, receipt: nat, paidAt: int, upgrade: bool := false)

  /** A StatusHistory row; the remark of an upgrade names the receipt, if there was a charge. */
  datatype Change = Change(member: Id, before: Status, after: Status, receipt: Option<nat> := None)

  /**
    `credits` lists the referred members whose activation has been credited to their referrer.
    `numbers` and `receipts` have been drawn from the counters by transactions still under way.
   */
  datatype Tables = Tables(members: map<Id, Member>, payments: seq<Payment>, history: seq<Change>, credits: seq<Id>,
                           lastNumber: nat, lastReceipt: nat, numbers: set<nat> := {}, receipts: set<nat> := {})

  // ---- Lookups and checks ----

  predicate AwaitsActivation(status: Status) { status == AWAITING_PAYMENT || status == SUBMITTED }

  predicate Payable(m: Member) {
    (AwaitsActivation(m.status) || m.status == ACTIVE || m.status == EXPIRED) && m.plan.Some?
  }

  function FindPayment(payments: seq<Payment>, gatewayId: string): (r: Option<Payment>)
    ensures r.Some? ==> r.value in payments && r.value.gatewayId == Some(gatewayId)
    ensures r.None? ==> forall p :: p in payments ==> p.gatewayId != Some(gatewayId)
  {
    if payments == [] then None
    else if payments[0].gatewayId == Some(gatewayId) then Some(payments[0])
    else FindPayment(payments[1..], gatewayId)
  }

  /** The unique constraint on the gateway payment id would be violated. */
  predicate Taken(payments: seq<Payment>, gatewayId: Option<string>) {
    gatewayId.Some? && FindPayment(payments, gatewayId.value).Some?
  }

  predicate Overdue(m: Member, now: int) { m.validUntil.Some? && m.validUntil.value < now }

  // ---- `finalizePayment` ----

  /** The end of a membership that starts at `start`; `months` counts only on a plan with a term. */
  function Term(start: int, plan: Option<Plan>): Option<int> {
    if plan.Some? && !plan.value.lifetime && plan.value.months.Some? && plan.value.months.value > 0
    then Some(Calendar.Moved(start, plan.value.months.value)) else None
  }

  /** `activateMemberOnce`, past its compare-and-swap: `seen` is the member as loaded before the transaction. */
  function Activated(current: Member, seen: Member, number: nat, now: int): Member {
    var joined := if seen.joiningDate.Some? then seen.joiningDate.value else now;
    current.(status := ACTIVE, number := Some(number), joiningDate := Some(joined),
             validUntil := Term(joined, seen.plan))
  }

  predicate ValidityMissing(seen: Member) {
    seen.plan.Some? && !seen.plan.value.lifetime && (seen.plan.value.months.None? || seen.plan.value.months.value == 0)
  }

  function Renewed(current: Member, seen: Member, now: int): Member {
    current.(status := ACTIVE, validUntil := Term(now, seen.plan))
  }

  datatype Outcome = Recorded(payment: Payment) | Conflict | NoValidity | Duplicate

  /** What a transaction draws from the counters, which are statements of their own. */
  datatype Ticket = Ticket(number: nat, receipt: nat)

  /** The transaction has passed its checks and got as far as drawing from the counters. */
  predicate Draws(t: Tables, m: Id, seen: Member) {
    StatusIs(t, m, seen.status) && (AwaitsActivation(seen.status) || !ValidityMissing(seen))
  }

  function Used(t: Tables, seen: Member, ticket: Ticket): Tables {
    t.(numbers := if AwaitsActivation(seen.status) then t.numbers - {ticket.number} else t.numbers,
       receipts := t.receipts - {ticket.receipt})
  }

  /** The transaction, given what it draws. A duplicate gateway id rolls the rows back, not the counters. */
  function Settle(t: Tables, m: Id, seen: Member, gatewayId: Option<string>, now: int, ticket: Ticket)
    : (Tables, Outcome)
  {
    if !AwaitsActivation(seen.status) && ValidityMissing(seen) then (t, NoValidity)
    else if !StatusIs(t, m, seen.status) then (t, Conflict)
    else if Taken(t.payments, gatewayId) then (Used(t, seen, ticket), Duplicate)
    else
      var payment := Payment(m, gatewayId, ticket.receipt, now);
      (Committed(Used(t, seen, ticket), m, seen, payment, ticket.number), Recorded(payment))
  }

  /** The rows a payment leaves. */
  function Committed(t: Tables, m: Id, seen: Member, payment: Payment, number: nat): Tables
    requires m in t.members
  {
    if AwaitsActivation(seen.status) then
      t.(members := t.members[m := Activated(t.members[m], seen, number, payment.paidAt)],
         payments := t.payments + [payment],
         history := t.history + [Change(m, seen.status, ACTIVE)])
    else
      t.(members := t.members[m := Renewed(t.members[m], seen, payment.paidAt)],
         payments := t.payments + [payment],
         history := t.history + [Change(m, seen.status, RENEWED), Change(m, RENEWED, ACTIVE)])
  }

  /** The transaction on its own: it draws the next numbers of the counters. */
  function Finalize(t: Tables, m: Id, seen: Member, gatewayId: Option<string>, now: int): (Tables, Outcome) {
    var ticket := Ticket(t.lastNumber + 1, t.lastReceipt + 1);
    var lastNumber := if AwaitsActivation(seen.status) then ticket.number else t.lastNumber;
    var drawn := if Draws(t, m, seen) then t.(lastNumber := lastNumber, lastReceipt := ticket.receipt) else t;
    Settle(drawn, m, seen, gatewayId, now, ticket)
  }

  /** The row of a member whose payment was recorded, before and after. */
  ghost predicate PaidRow(before: Member, after: Member, seen: Member, now: int, number: nat)
    requires seen.plan.Some?
  {
    var activating := seen.status == AWAITING_PAYMENT || seen.status == SUBMITTED;
    && after.status == ACTIVE && after.plan == before.plan && after.referrer == before.referrer
    && after.number == (if activating then Some(number) else before.number)
    && after.joiningDate ==
         (if !activating then before.joiningDate else if seen.joiningDate.Some? then seen.joiningDate else Some(now))
    && (after.validUntil.None? <==> seen.plan.value.lifetime || (activating && NoMonths(seen)))
    && (after.validUntil.Some? ==>
          && seen.plan.value.months.Some?
          && OneTerm(if activating then after.joiningDate.value else now, seen.plan.value.months.value,
                     after.validUntil.value))
    && (!activating || seen.joiningDate.None? ==> after.validUntil.None? || after.validUntil.value > now)
  }

  ghost predicate NoMonths(seen: Member)
    requires seen.plan.Some?
  {
    seen.plan.value.months.None? || seen.plan.value.months.value == 0
  }

  /** The plan's months on, on the same day of the month or the last one, at the same time of day. */
  ghost predicate OneTerm(start: int, months: nat, end: int) {
    var d, e := Calendar.DateOf(Calendar.Day(start)), Calendar.DateOf(Calendar.Day(end));
    var limit := Calendar.DaysInMonth(e.index / 12, e.index % 12);
    && e.index == d.index + months && e.day == (if d.day < limit then d.day else limit)
    && Calendar.TimeWithinDay(end) == Calendar.TimeWithinDay(start) && end > start
  }

  /**
    What a recorded payment buys: a term of as many calendar months as the plan says, from the payment
    on renewal, and on activation from the joining date, which is the payment's if there was none.
   */
  lemma RecordedTerm(t: Tables, m: Id, seen: Member, gatewayId: Option<string>, now: int, ticket: Ticket)
    requires Payable(seen) && Settle(t, m, seen, gatewayId, now, ticket).1.Recorded?
    ensures var (t', outcome) := Settle(t, m, seen, gatewayId, now, ticket);
      && m in t.members && m in t'.members && t'.members - {m} == t.members - {m}
      && PaidRow(t.members[m], t'.members[m], seen, now, ticket.number)
      && outcome.payment == Payment(m, gatewayId, ticket.receipt, now)
      && t'.payments == t.payments + [Payment(m, gatewayId, ticket.receipt, now)]
  {
    hide Term, Taken, OneTerm;
    TermEnd(if AwaitsActivation(seen.status) && seen.joiningDate.Some? then seen.joiningDate.value else now, seen);
  }

  lemma TermEnd(start: int, seen: Member)
    requires Payable(seen)
    ensures Term(start, seen.plan).None? <==> seen.plan.value.lifetime || NoMonths(seen)
    ensures Term(start, seen.plan).Some? ==>
      && seen.plan.value.months.Some? && Term(start, seen.plan).value > start
      && OneTerm(start, seen.plan.value.months.value, Term(start, seen.plan).value)
  {
    hide Calendar.Moved, Calendar.DateOf, Calendar.DaysInMonth;
    if !seen.plan.value.lifetime && !NoMonths(seen) {
      Calendar.MovedLater(start, seen.plan.value.months.value);
      Calendar.MovedDate(start, seen.plan.value.months.value);
    }
  }

  // ---- Edits ----

  /** The check on the member as it was read: past DRAFT, the plan may only be given as it is. */
  predicate MayEdit(seen: Member, plan: Option<Option<Plan>>) {
    Editable(seen.status) && (seen.status == DRAFT || plan.None? || plan.value == seen.plan)
  }

  /** The update itself tests nothing. Absent fields stay. */
  function Edited(t: Tables, m: Id, joined: Option<Option<int>>, plan: Option<Option<Plan>>): Tables {
    if m !in t.members then t
    else
      var row := t.members[m];
      t.(members := t.members[m := row.(joiningDate := if joined.Some? then joined.value else row.joiningDate,
                                        plan := if plan.Some? then plan.value else row.plan)])
  }

  // ---- Lifecycle ----

  predicate StatusIs(t: Tables, m: Id, status: Status) { m in t.members && t.members[m].status == status }

  /** A compare-and-swap on the status alone; its history row is written later. */
  function Swapped(t: Tables, m: Id, before: Status, after: Status): Tables {
    if !StatusIs(t, m, before) then t else t.(members := t.members[m := t.members[m].(status := after)])
  }

  /** A compare-and-swap on the status with its history row. */
  function Transition(t: Tables, m: Id, before: Status, after: Status): Tables {
    if !StatusIs(t, m, before) then t
    else Swapped(t, m, before, after).(history := t.history + [Change(m, before, after)])
  }

  /** `markDeceased`: the history row takes its old status from a read before the compare-and-swap. */
  function MarkDeceased(t: Tables, m: Id, read: Status): Tables {
    if m !in t.members || (t.members[m].status != ACTIVE && t.members[m].status != SUSPENDED) then t
    else t.(members := t.members[m := t.members[m].(status := DECEASED)],
            history := t.history + [Change(m, read, DECEASED)])
  }

  /** The compare-and-swap of `upgradePlan` succeeds: still ACTIVE, and on the plan that was read. */
  predicate Upgradable(t: Tables, m: Id, seen: Member) {
    && StatusIs(t, m, ACTIVE) && t.members[m].plan.Some? && seen.plan.Some?
    && t.members[m].plan.value.id == seen.plan.value.id
  }

  /** The transaction of `upgradePlan`; there is a payment, under a drawn receipt, if the better plan costs more. */
  function Upgraded(t: Tables, m: Id, seen: Member, target: Plan, charged: bool, now: int, receipt: nat): Tables {
    if !Upgradable(t, m, seen) then t
    else
      t.(members := t.members[m := t.members[m].(plan := Some(target))],
         payments := if charged then t.payments + [Payment(m, None, receipt, now, true)] else t.payments,
         history := t.history + [Change(m, ACTIVE, ACTIVE, if charged then Some(receipt) else None)],
         receipts := if charged then t.receipts - {receipt} else t.receipts)
  }

  // ---- The database ----

  method EndOfTerm(start: int, plan: Option<Plan>) returns (until: Option<int>)
    ensures until == Term(start, plan)
  {
    hide Calendar.Moved;
    until := None;
    if plan.Some? && !plan.value.lifetime && plan.value.months.Some? && plan.value.months.value > 0 {
      var end := Calendar.AddMonths(start, plan.value.months.value);
      until := Some(end);
    }
  }

  class Database {
    var members: map<Id, Member>
    var payments: seq<Payment>
    var history: seq<Change>
    var credits: seq<Id>
    var lastNumber: nat
    var lastReceipt: nat

    function View(): Tables
      reads this
    {
      Tables(members, payments, history, credits, lastNumber, lastReceipt)
    }

    /** No number is allocated when the compare-and-swap loses. */
    method ActivateMemberOnce(m: Id, seen: Member, now: int) returns (number: Option<nat>)
      modifies this`members, this`history, this`lastNumber
      ensures if m !in old(members) || old(members)[m].status != seen.status then
          number == None && View() == old(View())
        else
          && number == Some(old(lastNumber) + 1) && lastNumber == old(lastNumber) + 1
          && members == old(members)[m := Activated(old(members)[m], seen, lastNumber, now)]
          && history == old(history) + [Change(m, seen.status, ACTIVE)]
    {
      hide Term;
      if m !in members || members[m].status != seen.status { return None; }
      members := members[m := members[m].(status := ACTIVE)];
      var joined := if seen.joiningDate.Some? then seen.joiningDate.value else now;
      var until := EndOfTerm(joined, seen.plan);
      lastNumber := lastNumber + 1;
      var activated := members[m].(number := Some(lastNumber), validUntil := until, joiningDate := Some(joined));
      members := members[m := activated];
      assert members == old(members)[m := Activated(old(members)[m], seen, lastNumber, now)];
      history := history + [Change(m, seen.status, ACTIVE)];
      return Some(lastNumber);
    }

    method FinalizePayment(m: Id, seen: Member, gatewayId: Option<string>, now: int) returns (outcome: Outcome)
      modifies this`members, this`payments, this`history, this`lastNumber, this`lastReceipt
      ensures View() == Finalize(old(View()), m, seen, gatewayId, now).0
      ensures outcome == Finalize(old(View()), m, seen, gatewayId, now).1
    {
      hide Term, Taken;
      var membersBefore, historyBefore := members, history;
      if AwaitsActivation(seen.status) {
        var number := ActivateMemberOnce(m, seen, now);
        if number.None? { return Conflict; }
      } else {
        if ValidityMissing(seen) { return NoValidity; }
        var validUntil := EndOfTerm(now, seen.plan);
        if m !in members || members[m].status != seen.status { return Conflict; }
        members := members[m := members[m].(status := ACTIVE, validUntil := validUntil)];
      }
      lastReceipt := lastReceipt + 1;
      if Taken(payments, gatewayId) {
        members, history := membersBefore, historyBefore;
        return Duplicate;
      }
      var payment := Payment(m, gatewayId, lastReceipt, now);
      payments := payments + [payment];
      if !AwaitsActivation(seen.status) {
        history := history + [Change(m, seen.status, RENEWED)];
        history := history + [Change(m, RENEWED, ACTIVE)];
        assert history == old(history) + [Change(m, seen.status, RENEWED), Change(m, RENEWED, ACTIVE)];
      }
      return Recorded(payment);
    }

    method UpdateMember(m: Id, seen: Member, joined: Option<Option<int>>, plan: Option<Option<Plan>>)
      returns (allowed: bool)
      requires m in members
      modifies this`members
      ensures allowed == MayEdit(seen, plan)
      ensures View() == if allowed then Edited(old(View()), m, joined, plan) else old(View())
    {
      if !Editable(seen.status) { return false; }
      if seen.status != DRAFT && plan.Some? && plan.value != seen.plan { return false; }
      var row := members[m];
      if joined.Some? { row := row.(joiningDate := joined.value); }
      if plan.Some? { row := row.(plan := plan.value); }
      members := members[m := row];
      return true;
    }

    /** The update of `submitInternal` and of the expiry job, whose history row is a statement of its own. */
    method SwapStatus(m: Id, before: Status, after: Status) returns (changed: bool)
      modifies this`members
      ensures View() == Swapped(old(View()), m, before, after)
      ensures changed == StatusIs(old(View()), m, before)
    {
      if m !in members || members[m].status != before { return false; }
      members := members[m := members[m].(status := after)];
      return true;
    }

    method ChangeStatus(m: Id, before: Status, after: Status) returns (changed: bool)
      modifies this`members, this`history
      ensures View() == Transition(old(View()), m, before, after)
      ensures changed == (m in old(members) && old(members)[m].status == before)
    {
      changed := SwapStatus(m, before, after);
      if changed {
        history := history + [Change(m, before, after)];
      }
    }

    method UpgradeMember(m: Id, seen: Member, target: Plan, charged: bool, now: int) returns (changed: bool)
      modifies this`members, this`payments, this`history, this`lastReceipt
      ensures var t := old(View());
        var drawn := if charged && Upgradable(t, m, seen) then t.(lastReceipt := t.lastReceipt + 1) else t;
        View() == Upgraded(drawn, m, seen, target, charged, now, t.lastReceipt + 1)
      ensures changed == Upgradable(old(View()), m, seen)
    {
      if !Upgradable(View(), m, seen) { return false; }
      members := members[m := members[m].(plan := Some(target))];
      var receiptNumber: Option<nat> := None;
      if charged {
        lastReceipt := lastReceipt + 1;
        receiptNumber := Some(lastReceipt);
        payments := payments + [Payment(m, None, lastReceipt, now, true)];
      }
      history := history + [Change(m, ACTIVE, ACTIVE, receiptNumber)];
      return true;
    }

    /** `read` comes from the lookup before the transaction. */
    method RecordDeath(m: Id, read: Status) returns (changed: bool)
      modifies this`members, this`history
      ensures View() == MarkDeceased(old(View()), m, read)
      ensures changed == (StatusIs(old(View()), m, ACTIVE) || StatusIs(old(View()), m, SUSPENDED))
    {
      if m !in members || (members[m].status != ACTIVE && members[m].status != SUSPENDED) { return false; }
      members := members[m := members[m].(status := DECEASED)];
      history := history + [Change(m, read, DECEASED)];
      return true;
    }

    /**
      The nightly sweep, when nothing else runs meanwhile: exactly the overdue ACTIVE members become
      EXPIRED, each with one history row. `ids` lists the member ids in the order of the query.
     */
    method ExpireOverdueMembers(ids: seq<Id>, now: int) returns (expired: nat)
      requires forall m :: m in members <==> m in ids
      requires forall i, j :: 0 <= i < j < |ids| ==> ids[i] != ids[j]
      modifies this`members, this`history
      ensures members == Swept(old(members), now)
      ensures history == old(history) + SweepRows(old(members), ids, now)
      ensures expired == |SweepRows(old(members), ids, now)|
    {
      expired := 0;
      var all := members;
      for i := 0 to |ids|
        invariant members == SweptUpTo(all, ids, i, now)
        invariant history == old(history) + SweepRows(all, ids[..i], now)
        invariant expired == |SweepRows(all, ids[..i], now)|
      {
        hide *;
        SweepNext(all, ids, i, now);
        var m := ids[i];
        if all[m].status == ACTIVE && Overdue(all[m], now) {
          var changed := SwapStatus(m, ACTIVE, EXPIRED);
          history := history + [Change(m, ACTIVE, EXPIRED)];
          expired := expired + 1;
        }
      }
      assert ids[..|ids|] == ids;
      SweptUpToAll(all, ids, now);
    }
  }

  /** The table after the first `i` members of the list have been handled. */
  ghost function SweptUpTo(members: map<Id, Member>, ids: seq<Id>, i: nat, now: int): map<Id, Member>
    requires i <= |ids| && forall m :: m in ids ==> m in members
  {
    if i == 0 then members
    else
      var before, m := SweptUpTo(members, ids, i - 1, now), ids[i - 1];
      if members[m].status == ACTIVE && Overdue(members[m], now) then before[m := members[m].(status := EXPIRED)]
      else before
  }

  /** The first `i` members of the list have been handled, and no others. */
  ghost predicate SweptPart(members: map<Id, Member>, swept: map<Id, Member>, ids: seq<Id>, i: nat, now: int)
    requires i <= |ids| && forall m :: m in ids ==> m in members
  {
    && swept.Keys == members.Keys
    && (forall j :: 0 <= j < i ==> swept[ids[j]] == SweptMember(members[ids[j]], now))
    && (forall j :: i <= j < |ids| ==> swept[ids[j]] == members[ids[j]])
  }

  lemma SweptOneMore(members: map<Id, Member>, before: map<Id, Member>, ids: seq<Id>, i: nat, now: int)
    requires i < |ids| && forall m :: m in ids ==> m in members
    requires forall j, k :: 0 <= j < k < |ids| ==> ids[j] != ids[k]
    requires SweptPart(members, before, ids, i, now)
    ensures SweptPart(members, before[ids[i] := SweptMember(members[ids[i]], now)], ids, i + 1, now)
  {
    hide SweptMember;
  }

  lemma {:induction false} SweptUpToPart(members: map<Id, Member>, ids: seq<Id>, i: nat, now: int)
    requires i <= |ids| && forall m :: m in ids ==> m in members
    requires forall j, k :: 0 <= j < k < |ids| ==> ids[j] != ids[k]
    ensures SweptPart(members, SweptUpTo(members, ids, i, now), ids, i, now)
  {
    if i > 0 {
      SweptUpToPart(members, ids, i - 1, now);
      var before, m := SweptUpTo(members, ids, i - 1, now), ids[i - 1];
      assert before[m] == members[m];
      SweptOneMore(members, before, ids, i - 1, now);
      hide SweptPart, Overdue;
      assert SweptUpTo(members, ids, i, now) == before[m := SweptMember(members[m], now)];
    }
  }

  lemma SweptUpToAll(members: map<Id, Member>, ids: seq<Id>, now: int)
    requires forall m :: m in members <==> m in ids
    requires forall j, k :: 0 <= j < k < |ids| ==> ids[j] != ids[k]
    ensures SweptUpTo(members, ids, |ids|, now) == Swept(members, now)
  {
    SweptUpToPart(members, ids, |ids|, now);
    hide SweptUpTo, SweptMember;
    var swept := SweptUpTo(members, ids, |ids|, now);
    forall m | m in members
      ensures swept[m] == SweptMember(members[m], now)
    {
      var j :| 0 <= j < |ids| && ids[j] == m;
    }
  }

  /** What one iteration of the sweep does to the table and to the history. */
  lemma SweepNext(members: map<Id, Member>, ids: seq<Id>, i: nat, now: int)
    requires i < |ids| && (forall m :: m in members <==> m in ids)
    requires forall j, k :: 0 <= j < k < |ids| ==> ids[j] != ids[k]
    ensures var m, before := ids[i], SweptUpTo(members, ids, i, now);
      && m in before && before[m] == members[m]
      && if members[m].status == ACTIVE && Overdue(members[m], now) then
           && SweptUpTo(members, ids, i + 1, now) == before[m := members[m].(status := EXPIRED)]
           && SweepRows(members, ids[..i + 1], now) == SweepRows(members, ids[..i], now) + [Change(m, ACTIVE, EXPIRED)]
         else
           && SweptUpTo(members, ids, i + 1, now) == before
           && SweepRows(members, ids[..i + 1], now) == SweepRows(members, ids[..i], now)
  {
    hide SweepRows, Overdue;
    SweepRowsNext(members, ids, i, now);
    SweptUpToPart(members, ids, i, now);
  }

  lemma SweepRowsNext(members: map<Id, Member>, ids: seq<Id>, i: nat, now: int)
    requires i < |ids| && forall m :: m in ids ==> m in members
    ensures var m := ids[i];
      SweepRows(members, ids[..i + 1], now) == SweepRows(members, ids[..i], now)
        + if members[m].status == ACTIVE && Overdue(members[m], now) then [Change(m, ACTIVE, EXPIRED)] else []
  {
    assert ids[..i + 1][..i] == ids[..i];
  }

  function SweptMember(m: Member, now: int): Member {
    if m.status == ACTIVE && Overdue(m, now) then m.(status := EXPIRED) else m
  }

  function Swept(members: map<Id, Member>, now: int): map<Id, Member> {
    map m | m in members :: SweptMember(members[m], now)
  }

  function SweepRows(members: map<Id, Member>, ids: seq<Id>, now: int): seq<Change>
    requires forall m :: m in ids ==> m in members
  {
    if ids == [] then []
    else
      var m := ids[|ids| - 1];
      SweepRows(members, ids[..|ids| - 1], now)
      + if members[m].status == ACTIVE && Overdue(members[m], now) then [Change(m, ACTIVE, EXPIRED)] else []
  }
}
