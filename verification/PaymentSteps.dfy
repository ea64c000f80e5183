/**
  What single requests of `PaymentRuns` do, from the point of view of the member: when a payment is
  recorded, when a status changes, and what an upgrade or a credit leaves behind.
 */
module PaymentSteps {
  import opened Wrappers
  import opened Membership
  import opened Payments
  import opened PaymentRuns

  // ---- Payments ----

  /** A payment may be made before activation, for a renewal, or after the end of the membership, on a plan. */
  ghost predicate MayPay(m: Member) {
    m.plan.Some? && m.status in {AWAITING_PAYMENT, SUBMITTED, ACTIVE, EXPIRED}
  }

  /** A caller goes on to its transaction exactly for such a member, holding the row as it is. */
  lemma LoadExactly(s: State, c: nat, allowed: bool)
    requires c < |s.callers| && s.callers[c].Loading?
    ensures var w, s' := s.callers[c], Next(s, Load(c, allowed));
      && s'.t == s.t && |s'.callers| == |s.callers|
      && s'.callers[c] ==
           if allowed && w.member in s.t.members && MayPay(s.t.members[w.member])
           then Deciding(w.member, w.gatewayId, s.t.members[w.member]) else Ended
  {
  }

  /** A gateway payment that has been recorded is returned as it is, and only one that has not goes on. */
  lemma LookupExactly(s: State, c: nat)
    requires c < |s.callers| && s.callers[c].Looking?
    ensures var w, s' := s.callers[c], Next(s, Lookup(c));
      && s'.t == s.t && |s'.callers| == |s.callers|
      && if exists p :: p in s.t.payments && p.gatewayId == Some(w.gateway) then
           && s'.callers[c].Returned? && s'.callers[c].payment in s.t.payments
           && s'.callers[c].payment.gatewayId == Some(w.gateway)
         else s'.callers[c] == Loading(w.member, Some(w.gateway))
  {
    var r := FindPayment(s.t.payments, s.callers[c].gateway);
    if r.Some? { assert r.value in s.t.payments; }
  }

  /**
    A payment is recorded exactly if the member still has the status that was seen, the gateway
    payment is new, and a renewal has a term. Otherwise no row changes.
   */
  lemma RecordedExactly(t: Tables, m: Id, seen: Member, gatewayId: Option<string>, now: int, ticket: Ticket)
    requires seen.plan.Some?
    ensures var (t', outcome) := Settle(t, m, seen, gatewayId, now, ticket);
      && (outcome.Recorded? <==>
            && m in t.members && t.members[m].status == seen.status
            && (gatewayId.Some? ==> forall p :: p in t.payments ==> p.gatewayId != gatewayId)
            && (seen.status in {AWAITING_PAYMENT, SUBMITTED} || seen.plan.value.lifetime || !NoMonths(seen)))
      && (!outcome.Recorded? ==>
            t'.members == t.members && t'.payments == t.payments && t'.history == t.history)
      && t'.credits == t.credits && t'.lastNumber == t.lastNumber && t'.lastReceipt == t.lastReceipt
  {
    hide Term;
    if gatewayId.Some? {
      var r := FindPayment(t.payments, gatewayId.value);
      if r.Some? { assert r.value in t.payments; }
    }
  }

  /** The history tells an activation in one row, and a renewal in two. */
  lemma RecordedHistory(t: Tables, m: Id, seen: Member, gatewayId: Option<string>, now: int, ticket: Ticket)
    requires Settle(t, m, seen, gatewayId, now, ticket).1.Recorded?
    ensures Settle(t, m, seen, gatewayId, now, ticket).0.history == t.history +
      if seen.status in {AWAITING_PAYMENT, SUBMITTED} then [Change(m, seen.status, ACTIVE)]
      else [Change(m, seen.status, RENEWED), Change(m, RENEWED, ACTIVE)]
  {
    hide Term, Taken;
  }

  /**
    Alone, a transaction takes the next receipt unless it fails before it gets there, and an
    activation the next number; a gateway payment that turns out to be recorded still uses them up.
   */
  lemma SerialCounters(t: Tables, m: Id, seen: Member, gatewayId: Option<string>, now: int)
    requires seen.plan.Some?
    ensures var (t', outcome) := Finalize(t, m, seen, gatewayId, now);
      var activating := seen.status in {AWAITING_PAYMENT, SUBMITTED};
      var failed := outcome.Conflict? || outcome.NoValidity?;
      && (outcome.Recorded? ==> outcome.payment.receipt == t.lastReceipt + 1)
      && t'.lastReceipt == (if failed then t.lastReceipt else t.lastReceipt + 1)
      && t'.lastNumber == (if activating && !failed then t.lastNumber + 1 else t.lastNumber)
      && (outcome.Recorded? && activating ==> m in t'.members && t'.members[m].number == Some(t.lastNumber + 1))
      && (outcome.NoValidity? <==> !activating && !seen.plan.value.lifetime && NoMonths(seen))
      && (outcome.Conflict? <==> !outcome.NoValidity? && (m !in t.members || t.members[m].status != seen.status))
  {
    hide Term, Taken;
  }

  /**
    What a caller holds after its transaction: an activation leaves it to award the credit, a renewal is
    done, a gateway payment recorded meanwhile is to be fetched, and all else ends with an error. Every
    sweep under way counts a recorded payment as a renewal.
   */
  lemma FinishExactly(s: State, c: nat, now: int, ticket: Ticket)
    requires MayFinish(s, c, now, ticket)
    ensures var w, s' := s.callers[c], Next(s, Finish(c, now, ticket));
      var (t', outcome) := Settle(s.t, w.member, w.seen, w.gatewayId, now, ticket);
      && s'.t == t' && s'.clock == now && s'.origins == s.origins
      && |s'.callers| == |s.callers| && (forall d :: 0 <= d < |s.callers| && d != c ==> s'.callers[d] == s.callers[d])
      && s'.callers[c] ==
           (if outcome.Recorded? && w.seen.status in {AWAITING_PAYMENT, SUBMITTED}
              then Awarding(w.member, w.gatewayId, outcome.payment)
            else if outcome.Recorded? then Returned(w.gatewayId, outcome.payment)
            else if outcome.Duplicate? && w.gatewayId.Some? then Refetching(w.member, w.gatewayId.value)
            else Ended)
      && |s'.sweeps| == |s.sweeps|
      && forall k :: 0 <= k < |s.sweeps| ==>
           s'.sweeps[k] == s.sweeps[k].(renewed :=
             if outcome.Recorded? then s.sweeps[k].renewed + {w.member} else s.sweeps[k].renewed)
  {
    hide Settle;
    var w, s' := s.callers[c], Next(s, Finish(c, now, ticket));
    var outcome := Settle(s.t, w.member, w.seen, w.gatewayId, now, ticket).1;
    assert s' == Finished(s, c, now, ticket);
    assert s'.sweeps == if outcome.Recorded? then Renew(s.sweeps, w.member) else s.sweeps;
    hide Renew;
  }

  /** A referral credit is noted exactly if the activating caller may and the member has a referrer. */
  lemma AwardExactly(s: State, c: nat, eligible: bool)
    requires c < |s.callers| && s.callers[c].Awarding?
    ensures var m, s' := s.callers[c].member, Next(s, Award(c, eligible));
      && s'.t == s.t.(credits := s'.t.credits)
      && s'.t.credits == s.t.credits +
           (if eligible && m in s.t.members && s.t.members[m].referrer.Some? then [m] else [])
      && |s'.callers| == |s.callers| && s'.callers[c] == Returned(s.callers[c].gatewayId, s.callers[c].payment)
  {
  }

  // ---- Upgrades ----

  /**
    An upgrade goes through exactly if the member is still ACTIVE and on the plan that was read. It
    changes the plan and nothing else of the member.
   */
  lemma UpgradeExactly(s: State, c: nat, now: int, receipt: nat)
    requires MayUpgrade(s, c, now, receipt)
    ensures var w, t, t' := s.callers[c], s.t, Next(s, Upgrade(c, now, receipt)).t;
      var m := w.member;
      if m in t.members && t.members[m].status == ACTIVE && t.members[m].plan.Some?
        && w.seen.plan.Some? && t.members[m].plan.value.id == w.seen.plan.value.id
      then
        && t'.members == t.members[m := t.members[m].(plan := Some(w.target))]
        && t'.payments == t.payments + (if w.charged then [Payment(m, None, receipt, now, true)] else [])
        && t'.history == t.history + [Change(m, ACTIVE, ACTIVE, if w.charged then Some(receipt) else None)]
      else t' == t
  {
    assert s.t.payments + [] == s.t.payments;
  }

  // ---- Edits ----

  /**
    An edit is refused by the member as it was read, past DRAFT also if it names another plan than the
    one read; else it writes the fields it has, whatever the row has become.
   */
  lemma EditExactly(s: State, c: nat, joined: Option<Option<int>>, plan: Option<Option<Plan>>)
    requires c < |s.callers| && s.callers[c].Editing? && s.callers[c].member in s.t.members
    ensures var w, s' := s.callers[c], Next(s, Edit(c, joined, plan));
      var before := s.t.members[w.member];
      var refused := w.seen.status in {REJECTED, DECEASED, VERIFIED}
        || (w.seen.status != DRAFT && plan.Some? && plan.value != w.seen.plan);
      s' == s.(callers := s.callers[c := Ended], t :=
        if refused then s.t
        else s.t.(members := s.t.members[w.member := Member(
               before.status, if plan.Some? then plan.value else before.plan,
               if joined.Some? then joined.value else before.joiningDate, before.validUntil,
               before.number, before.referrer)]))
  {
  }

  /** Whether the plan of a member past DRAFT may be changed by someone who read it as `seen`. */
  ghost predicate Outdated(seen: Member, row: Member) { seen.status == DRAFT || seen.plan != row.plan }

  /**
    The plan of a member past DRAFT changes exactly by an upgrade, or by an edit that was read before it
    was submitted, or before the last change of plan.
   */
  lemma PlanChangesExactly(s: State, a: Action, m: Id)
    requires m in s.t.members && s.t.members[m].status != DRAFT
    ensures m in Next(s, a).t.members
    ensures var row, row' := s.t.members[m], Next(s, a).t.members[m];
      row'.plan != row.plan <==>
        || (a.Upgrade? && MayUpgrade(s, a.caller, a.now, a.receipt) && s.callers[a.caller].member == m
            && Upgradable(s.t, m, s.callers[a.caller].seen) && row.plan != Some(s.callers[a.caller].target))
        || (a.Edit? && a.caller < |s.callers| && s.callers[a.caller].Editing? && s.callers[a.caller].member == m
            && MayEdit(s.callers[a.caller].seen, a.plan) && Outdated(s.callers[a.caller].seen, row)
            && a.plan.Some? && a.plan.value != row.plan)
  {
    hide Taken, Term, Candidates;
    if a.Finish? {
      hide Draws, Edited, Upgraded;
    } else if a.Upgrade? || a.Edit? {
      hide Settle, Transition, Started;
    } else {
      hide Settle, Edited, Upgraded;
    }
  }

  // ---- The lifecycle ----

  /** The status an action gives a member that has `status` before. */
  ghost function StatusAfter(s: State, a: Action, m: Id, status: Status): Status {
    match a
    case Submit(k) => if k == m && status == DRAFT then AWAITING_PAYMENT else status
    case Suspend(k) => if k == m && status == ACTIVE then SUSPENDED else status
    case Reactivate(k) => if k == m && status == SUSPENDED then ACTIVE else status
    case Die(c) =>
      if c < |s.callers| && s.callers[c].Dying? && s.callers[c].member == m && status in {ACTIVE, SUSPENDED}
      then DECEASED else status
    case Expire(k, n) =>
      if n == m && k < |s.sweeps| && m in s.sweeps[k].left && status == ACTIVE then EXPIRED else status
    case Finish(c, now, ticket) =>
      if MayFinish(s, c, now, ticket) && s.callers[c].member == m
        && Settle(s.t, m, s.callers[c].seen, s.callers[c].gatewayId, now, ticket).1.Recorded?
      then ACTIVE else status
    case _ => status
  }

  /** No other action changes a status, and these do whenever they can. */
  lemma StatusExactly(s: State, a: Action, m: Id)
    requires m in s.t.members
    ensures m in Next(s, a).t.members
    ensures Next(s, a).t.members[m].status == StatusAfter(s, a, m, s.t.members[m].status)
  {
    hide Taken, Term, Candidates;
    if a.Finish? {
      hide Draws;
    } else {
      hide Settle;
    }
  }

  /** ACTIVE, though the membership has ended. */
  ghost predicate Lapsed(m: Member, now: int) {
    m.status == ACTIVE && m.validUntil.Some? && m.validUntil.value < now
  }

  /** A sweep finds exactly the ACTIVE members whose membership has ended. */
  lemma SweepReadExactly(s: State, now: int, m: Id)
    requires s.clock <= now
    ensures var s' := Next(s, SweepRead(now));
      && s'.t == s.t && |s'.sweeps| == |s.sweeps| + 1
      && var w := s'.sweeps[|s.sweeps|];
      && w.readAt == now && w.renewed == {}
      && (m in w.left <==>
            m in s.t.members && Lapsed(s.t.members[m], now))
  {
  }

  /** A sweep that nothing disturbs expires exactly the ACTIVE members whose membership has ended. */
  lemma SweptExactly(members: map<Id, Member>, now: int, m: Id)
    requires m in members
    ensures m in Swept(members, now)
    ensures Swept(members, now)[m] == if Lapsed(members[m], now) then members[m].(status := EXPIRED) else members[m]
  {
  }

  /** It notes one row for each of these, and no other rows. */
  lemma {:induction false} SweepRowsExactly(members: map<Id, Member>, ids: seq<Id>, now: int, m: Id)
    requires forall m :: m in ids ==> m in members
    requires forall j, k :: 0 <= j < k < |ids| ==> ids[j] != ids[k]
    ensures multiset(SweepRows(members, ids, now))[Change(m, ACTIVE, EXPIRED)]
         == if m in ids && Lapsed(members[m], now) then 1 else 0
    ensures forall c :: c in SweepRows(members, ids, now) ==> c == Change(c.member, ACTIVE, EXPIRED)
  {
    if ids != [] {
      var n := |ids| - 1;
      var init, last := ids[..n], ids[n];
      assert ids == init + [last];
      SweepRowsExactly(members, init, now, m);
      var more := if Lapsed(members[last], now) then [Change(last, ACTIVE, EXPIRED)] else [];
      assert SweepRows(members, ids, now) == SweepRows(members, init, now) + more;
      hide SweepRows, Lapsed;
    }
  }

  /** A sweep is done with a member after one update, which leaves a row to be written exactly if it went through. */
  lemma ExpireExactly(s: State, k: nat, m: Id)
    requires k < |s.sweeps| && m in s.sweeps[k].left
    ensures var s' := Next(s, Expire(k, m));
      && s'.sweeps == s.sweeps[k := s.sweeps[k].(left := s.sweeps[k].left - {m})]
      && s'.t.history == s.t.history && s'.t.payments == s.t.payments
      && s'.callers == s.callers +
           if m in s.t.members && s.t.members[m].status == ACTIVE then [Noting(Change(m, ACTIVE, EXPIRED))] else []
  {
    assert s.callers + [] == s.callers;
  }

  /** A submission leaves its row to be written, too; the rows are then written as they were noted. */
  lemma SubmitExactly(s: State, m: Id)
    ensures Next(s, Submit(m)).callers == s.callers +
      if m in s.t.members && s.t.members[m].status == DRAFT then [Noting(Change(m, DRAFT, AWAITING_PAYMENT))] else []
    ensures Next(s, Submit(m)).t.history == s.t.history
  {
    assert s.callers + [] == s.callers;
  }

  lemma NoteExactly(s: State, c: nat)
    requires c < |s.callers| && s.callers[c].Noting?
    ensures Next(s, Note(c)) ==
      s.(t := s.t.(history := s.t.history + [s.callers[c].change]), callers := s.callers[c := Ended])
  {
  }

  /** Upgrades, edits and death reports go on with the row as they read it, if they may. */
  lemma ReadsExactly(s: State, m: Id, target: Plan, charged: bool)
    ensures var rows := s.t.members;
      && Next(s, UpgradeRead(m, target, charged)) == s.(callers := s.callers +
           if m in rows && rows[m].status == ACTIVE && rows[m].plan.Some?
           then [Upgrading(m, rows[m], target, charged)] else [])
      && Next(s, EditRead(m)) == s.(callers := s.callers + if m in rows then [Editing(m, rows[m])] else [])
      && Next(s, DieRead(m)) == s.(callers := s.callers +
           if m in rows && rows[m].status in {ACTIVE, SUSPENDED} then [Dying(m, rows[m].status)] else [])
  {
    assert s.callers + [] == s.callers;
  }

  /** A new member is a DRAFT without a number, whatever else it brings, and nobody is registered twice. */
  lemma RegisterExactly(s: State, m: Id, row: Member)
    ensures var s' := Next(s, Register(m, row));
      if m in s.t.members then s' == s
      else
        && s'.t.members == s.t.members[m := s'.t.members[m]] && s'.origins == s.origins[m := DRAFT]
        && s'.t.members[m] == Member(DRAFT, row.plan, row.joiningDate, row.validUntil, None, row.referrer)
  {
  }

  /** The counters advance by one for each draw. */
  ghost function Drawn(actions: seq<Action>, receipts: bool): nat {
    if actions == [] then 0
    else
      var a := actions[|actions| - 1];
      Drawn(actions[..|actions| - 1], receipts)
      + if (if receipts then a.DrawReceipt? else a.DrawNumber?) then 1 else 0
  }

  lemma CounterSteps(s: State, a: Action)
    ensures Next(s, a).t.lastNumber == s.t.lastNumber + if a.DrawNumber? then 1 else 0
    ensures Next(s, a).t.lastReceipt == s.t.lastReceipt + if a.DrawReceipt? then 1 else 0
  {
    hide Taken, Term, Candidates;
  }

  lemma {:induction false} CountersCount(s: State, actions: seq<Action>)
    ensures Run(s, actions).t.lastNumber == s.t.lastNumber + Drawn(actions, false)
    ensures Run(s, actions).t.lastReceipt == s.t.lastReceipt + Drawn(actions, true)
  {
    if actions != [] {
      CountersCount(s, actions[..|actions| - 1]);
      CounterSteps(Run(s, actions[..|actions| - 1]), actions[|actions| - 1]);
      hide Next;
    }
  }
}
