/**
  What an activation gives a member, over every run of `PaymentRuns`
  (apps/api/src/members/member-activation.util.ts): it goes by the row as it was read, so edits in
  between are lost, it assigns a number, and the term may be over before it begins.
 */
module Activation {
  import opened Wrappers
  import opened Membership
  import opened Payments
  import opened PaymentRuns
  import opened PaymentSteps
  import opened PaymentRaces
  import Calendar

  // ---- An activation is decided on the row as it was read ----

  /** The rows agree but for what an edit may change. */
  ghost predicate SameButEdits(row: Member, row': Member) {
    row' == row.(joiningDate := row'.joiningDate, plan := row'.plan)
  }

  /** A caller about to activate holds the row as it still is, up to edits, unless the member has been activated. */
  ghost predicate FreshCaller(t: Tables, w: Caller) {
    w.Deciding? && AwaitsActivation(w.seen.status) ==>
      && w.member in t.members
      && (SameButEdits(w.seen, t.members[w.member]) || !NotYetActive(t.members[w.member].status))
  }

  ghost predicate Fresh(s: State) { forall c :: 0 <= c < |s.callers| ==> FreshCaller(s.t, s.callers[c]) }

  /** The action is an edit of the member that goes through. */
  ghost predicate Edits(s: State, a: Action, m: Id) {
    && a.Edit? && a.caller < |s.callers| && s.callers[a.caller].Editing? && s.callers[a.caller].member == m
    && MayEdit(s.callers[a.caller].seen, a.plan)
  }

  /** The row of a member awaiting activation changes with its activation and with edits only. */
  lemma AwaitingRowStays(s: State, a: Action, m: Id)
    requires m in s.t.members && AwaitsActivation(s.t.members[m].status)
    ensures m in Next(s, a).t.members
    ensures var row, row' := s.t.members[m], Next(s, a).t.members[m];
      row'.status == ACTIVE || (if Edits(s, a, m) then SameButEdits(row, row') else row' == row)
  {
    hide Taken, Term, Candidates;
    if a.Finish? {
      hide Draws, Transition, Started, Edited;
    } else if a.Edit? {
      hide Settle, MayEdit;
    } else {
      hide Settle, Edited;
    }
  }

  lemma ActivatedStays(s: State, a: Action, m: Id)
    requires m in s.t.members && !NotYetActive(s.t.members[m].status)
    ensures m in Next(s, a).t.members && !NotYetActive(Next(s, a).t.members[m].status)
  {
    StatusExactly(s, a, m);
    hide Next, Settle, MayFinish;
  }

  /** Callers that are about to run their transaction were so before, or have just loaded the row. */
  lemma DecidingFrom(s: State, a: Action, c: nat)
    requires c < |Next(s, a).callers| && Next(s, a).callers[c].Deciding?
    ensures var w := Next(s, a).callers[c];
      || (c < |s.callers| && s.callers[c] == w)
      || (Next(s, a).t == s.t && w.member in s.t.members && s.t.members[w.member] == w.seen)
  {
    hide Taken, Candidates, Settle, Transition, Swapped, MarkDeceased, Upgraded, Edited, MayEdit;
  }

  lemma FreshStep(s: State, a: Action)
    requires Fresh(s)
    ensures Fresh(Next(s, a))
  {
    var s' := Next(s, a);
    hide Next, Edits;
    forall c | 0 <= c < |s'.callers|
      ensures FreshCaller(s'.t, s'.callers[c])
    {
      var w := s'.callers[c];
      if w.Deciding? && AwaitsActivation(w.seen.status) {
        DecidingFrom(s, a, c);
        if c < |s.callers| && s.callers[c] == w {
          assert FreshCaller(s.t, w);
          if NotYetActive(s.t.members[w.member].status) {
            AwaitingRowStays(s, a, w.member);
          } else {
            ActivatedStays(s, a, w.member);
          }
        }
      }
    }
  }

  lemma {:induction false} RunFresh(s: State, actions: seq<Action>)
    requires Fresh(s)
    ensures Fresh(Run(s, actions))
  {
    if actions != [] {
      hide Next, Fresh;
      RunFresh(s, actions[..|actions| - 1]);
      FreshStep(Run(s, actions[..|actions| - 1]), actions[|actions| - 1]);
    }
  }

  /** No edit of the member goes through in the run. */
  ghost predicate Unedited(s: State, actions: seq<Action>, m: Id) {
    forall k :: 0 <= k < |actions| ==> !Edits(Run(s, actions[..k]), actions[k], m)
  }

  /** Without edits, a row awaiting activation stays as it is until the activation. */
  lemma {:induction false} UneditedStays(s: State, actions: seq<Action>, m: Id)
    requires m in s.t.members && AwaitsActivation(s.t.members[m].status) && Unedited(s, actions, m)
    ensures var t := Run(s, actions).t;
      m in t.members && (t.members[m] == s.t.members[m] || !NotYetActive(t.members[m].status))
  {
    if actions != [] {
      var n := |actions| - 1;
      var before := Run(s, actions[..n]);
      assert Run(s, actions) == Next(before, actions[n]);
      assert !Edits(before, actions[n], m);
      assert Unedited(s, actions[..n], m) by {
        assert forall k :: 0 <= k < n ==> actions[..n][..k] == actions[..k] && actions[..n][k] == actions[k];
        hide Run, Edits;
      }
      hide Run, Next, Edits, Unedited;
      UneditedStays(s, actions[..n], m);
      if before.t.members[m] == s.t.members[m] {
        AwaitingRowStays(before, actions[n], m);
      } else {
        ActivatedStays(before, actions[n], m);
      }
    }
  }

  // ---- Numbers ----

  /** Every activation in the history has given its member a number. */
  ghost predicate ActivatedNumbered(t: Tables) {
    forall i :: 0 <= i < |t.history| && IsActivation(t.history[i]) ==>
      t.history[i].member in t.members && t.members[t.history[i].member].number.Some?
  }

  /** A new activation row comes with a number. */
  lemma NumberStep(s: State, a: Action, i: nat)
    requires Inv(s) && i < |Next(s, a).t.history| && IsActivation(Next(s, a).t.history[i])
    ensures var t, t' := s.t, Next(s, a).t;
      || (i < |t.history| && t.history[i] == t'.history[i])
      || (t'.history[i].member in t'.members && t'.members[t'.history[i].member].number.Some?)
  {
    if a.Finish? {
      if MayFinish(s, a.caller, a.now, a.ticket) {
        CallersOfInv(s);
        hide Inv;
        FineCaller(s, a.caller);
        FinishTables(s, a.caller, a.now, a.ticket);
        var w := s.callers[a.caller];
        assert Payable(w.seen);
        hide Next, CallersFine, MayFinish;
        FinishNumbers(s.t, w.member, w.seen, w.gatewayId, a.now, a.ticket, i);
      }
    } else {
      OtherRows(s, a, i);
    }
  }

  lemma FinishNumbers(t: Tables, m: Id, seen: Member, gatewayId: Option<string>, now: int, ticket: Ticket, i: nat)
    requires Payable(seen)
    ensures var t' := Settle(t, m, seen, gatewayId, now, ticket).0;
      i < |t'.history| && IsActivation(t'.history[i]) ==>
      || (i < |t.history| && t.history[i] == t'.history[i])
      || (t'.history[i].member in t'.members && t'.members[t'.history[i].member].number.Some?)
  {
    hide Taken, Term;
  }

  /** Other actions add no activation row. */
  lemma OtherRows(s: State, a: Action, i: nat)
    requires Inv(s) && !a.Finish? && i < |Next(s, a).t.history| && IsActivation(Next(s, a).t.history[i])
    ensures i < |s.t.history| && s.t.history[i] == Next(s, a).t.history[i]
  {
    CallersOfInv(s);
    hide Inv, CallersFine, Next;
    if a.Submit? || a.Suspend? || a.Reactivate? || a.Die? || a.Expire? || a.Note? {
      var m, more := LifeOf(s, a);
    } else if a.Upgrade? {
      UpgradeAddsNone(s, a.caller, a.now, a.receipt, i);
    } else {
      SameHistory(s, a);
    }
  }

  lemma UpgradeAddsNone(s: State, c: nat, now: int, receipt: nat, i: nat)
    ensures var history := Next(s, Upgrade(c, now, receipt)).t.history;
      i < |history| && IsActivation(history[i]) ==> i < |s.t.history| && s.t.history[i] == history[i]
  {
    if MayUpgrade(s, c, now, receipt) {
      var w := s.callers[c];
      UpgradeShape(s.t, w.member, w.seen, w.target, w.charged, now, receipt);
      hide Upgraded;
    }
  }

  lemma SameHistory(s: State, a: Action)
    requires !(a.Finish? || a.Upgrade?)
    requires !(a.Submit? || a.Suspend? || a.Reactivate? || a.Die? || a.Expire? || a.Note?)
    ensures Next(s, a).t.history == s.t.history
  {
    hide Candidates, Taken;
  }

  lemma {:induction false} RunNumbered(s: State, actions: seq<Action>)
    requires Inv(s) && ActivatedNumbered(s.t)
    ensures ActivatedNumbered(Run(s, actions).t)
  {
    if actions != [] {
      var before, a := Run(s, actions[..|actions| - 1]), actions[|actions| - 1];
      assert Run(s, actions) == Next(before, a);
      hide Next, Inv, Run, IsActivation;
      RunNumbered(s, actions[..|actions| - 1]);
      RunKeepsInv(s, actions[..|actions| - 1]);
      forall i | 0 <= i < |Next(before, a).t.history| && IsActivation(Next(before, a).t.history[i])
        ensures Next(before, a).t.history[i].member in Next(before, a).t.members
        ensures Next(before, a).t.members[Next(before, a).t.history[i].member].number.Some?
      {
        NumberStep(before, a, i);
        if i < |before.t.history| && before.t.history[i] == Next(before, a).t.history[i] {
          NextKept(before, a, before.t.history[i].member);
        }
      }
    }
  }

  /** In every run, whoever has been activated has a number, and keeps it. */
  lemma NumberedExactly(members: map<Id, Member>, lastNumber: nat, lastReceipt: nat, clock: int, actions: seq<Action>)
    requires NumberedOnce(Tables(members, [], [], [], lastNumber, lastReceipt))
    ensures var t := Run(Start(members, lastNumber, lastReceipt, clock), actions).t;
      && ActivatedNumbered(t)
      && forall m :: m in t.members && NotYetActive(t.members[m].status) ==> t.members[m].number.None?
  {
    var start := Start(members, lastNumber, lastReceipt, clock);
    assert ActivatedNumbered(start.t);
    hide Run, Start, ActivatedNumbered;
    StartKeepsInv(members, lastNumber, lastReceipt, clock);
    RunNumbered(start, actions);
    RunKeepsInv(start, actions);
    hide Paired, ActivatedOnce, CreditedOnce, Known, CallersFine, SweepsFine;
  }

  // ---- Terms that are over at once ----

  /** The plan's months, counted from a joining date of the member's own, are over before `now`. */
  ghost predicate TermOver(seen: Member, now: int) {
    && seen.joiningDate.Some? && seen.plan.Some? && !seen.plan.value.lifetime && !NoMonths(seen)
    && Calendar.Moved(seen.joiningDate.value, seen.plan.value.months.value) < now
  }

  /**
    What an activation by payment at `now` does to a row, given the row as it was read. An edit of the
    joining date since then survives exactly if it makes no difference.
   */
  ghost predicate ActivatedRow(row: Member, after: Member, seen: Member, now: int, number: nat) {
    && SameButEdits(seen, row) && seen.plan.Some?
    && after.status == ACTIVE && after.number == Some(number)
    && after.plan == row.plan && after.referrer == row.referrer
    && after.joiningDate == (if seen.joiningDate.Some? then seen.joiningDate else Some(now))
    && (after.validUntil.Some? && after.validUntil.value < now <==> TermOver(seen, now))
  }

  /**
    After any run, a caller activates a member. The row was as the caller had seen it, up to edits in
    between, which the activation does not look at: the joining date and the term are as the caller had
    seen them. The new membership is over at the time of the payment exactly if the member had a
    joining date of its own and the plan's months, counted from there, end before the payment.
   */
  lemma OverdueAtOnceExactly(members: map<Id, Member>, lastNumber: nat, lastReceipt: nat, clock: int,
                             actions: seq<Action>, s: State, c: nat, now: int, ticket: Ticket)
    requires NumberedOnce(Tables(members, [], [], [], lastNumber, lastReceipt))
    requires s == Run(Start(members, lastNumber, lastReceipt, clock), actions)
    requires MayFinish(s, c, now, ticket) && AwaitsActivation(s.callers[c].seen.status)
    requires Settle(s.t, s.callers[c].member, s.callers[c].seen, s.callers[c].gatewayId, now, ticket).1.Recorded?
    ensures var m, t' := s.callers[c].member, Next(s, Finish(c, now, ticket)).t;
      && m in s.t.members && m in t'.members
      && ActivatedRow(s.t.members[m], t'.members[m], s.callers[c].seen, now, ticket.number)
  {
    var start := Start(members, lastNumber, lastReceipt, clock);
    assert Fresh(start);
    hide Run, Start, Inv, Fresh, Next, Settle, MayFinish, AwaitsActivation;
    StartKeepsInv(members, lastNumber, lastReceipt, clock);
    RunKeepsInv(start, actions);
    RunFresh(start, actions);
    ActivatesOverdue(s, c, now, ticket);
  }

  lemma FreshOne(s: State, c: nat)
    requires Inv(s) && Fresh(s) && c < |s.callers| && s.callers[c].Deciding?
    ensures Payable(s.callers[c].seen) && FreshCaller(s.t, s.callers[c])
  {
    CallersOfInv(s);
    hide Inv;
    FineCaller(s, c);
  }

  lemma ActivatesOverdue(s: State, c: nat, now: int, ticket: Ticket)
    requires Inv(s) && Fresh(s) && MayFinish(s, c, now, ticket) && AwaitsActivation(s.callers[c].seen.status)
    requires Settle(s.t, s.callers[c].member, s.callers[c].seen, s.callers[c].gatewayId, now, ticket).1.Recorded?
    ensures var m, t' := s.callers[c].member, Next(s, Finish(c, now, ticket)).t;
      && m in s.t.members && m in t'.members
      && ActivatedRow(s.t.members[m], t'.members[m], s.callers[c].seen, now, ticket.number)
  {
    FreshOne(s, c);
    hide Inv, Fresh, Settle, Draws, ActivatedRow, SameButEdits;
    var w := s.callers[c];
    FinishTables(s, c, now, ticket);
    hide Next, MayFinish;
    ActivatesRow(s.t, w.member, w.seen, w.gatewayId, now, ticket);
  }

  lemma FinishTables(s: State, c: nat, now: int, ticket: Ticket)
    requires MayFinish(s, c, now, ticket)
    ensures var w := s.callers[c];
      Next(s, Finish(c, now, ticket)).t == Settle(s.t, w.member, w.seen, w.gatewayId, now, ticket).0
  {
    hide Settle;
  }

  lemma ActivatesRow(t: Tables, m: Id, seen: Member, gatewayId: Option<string>, now: int, ticket: Ticket)
    requires Payable(seen) && AwaitsActivation(seen.status)
    requires m in t.members && (SameButEdits(seen, t.members[m]) || !NotYetActive(t.members[m].status))
    requires Settle(t, m, seen, gatewayId, now, ticket).1.Recorded?
    ensures var t' := Settle(t, m, seen, gatewayId, now, ticket).0;
      m in t'.members && ActivatedRow(t.members[m], t'.members[m], seen, now, ticket.number)
  {
    RecordedTerm(t, m, seen, gatewayId, now, ticket);
    hide Taken, Calendar.Moved, OneTerm;
  }

  /**
    A member with a joining date, on a plan with a term, pays the first fee when that term is over: it
    is activated, numbered and at once expired by the next sweep.
   */
  lemma PaidAndExpired(member: Member, joined: int, months: nat, now: int, first: seq<Action>)
    requires Calendar.Moved(joined, months) < now && now >= 0 && months > 0
    requires member == Member(AWAITING_PAYMENT, Some(Plan(0, false, Some(months))), Some(joined), None, None, None)
    requires first == [Call(0, None), Load(0, true), DrawNumber, DrawReceipt, Finish(0, now, Ticket(1, 1))]
    ensures NumberedOnce(Tables(map[0 := member], [], [], [], 0, 0))
    ensures var t := Run(Start(map[0 := member], 0, 0, 0), first + [SweepRead(now), Expire(0, 0)]).t;
      && t.payments == [Payment(0, None, 1, now)]
      && 0 in t.members && t.members[0].status == EXPIRED && t.members[0].number == Some(1)
  {
    var s := Start(map[0 := member], 0, 0, 0);
    hide *;
    NotNumbered(member);
    PaidLate(s, member, joined, months, now, first);
    RunAppend(s, first, [SweepRead(now), Expire(0, 0)]);
    SweptAtOnce(Run(s, first), joined, months, now);
  }

  lemma PaidLate(s: State, member: Member, joined: int, months: nat, now: int, first: seq<Action>)
    requires now >= 0 && months > 0
    requires member == Member(AWAITING_PAYMENT, Some(Plan(0, false, Some(months))), Some(joined), None, None, None)
    requires first == [Call(0, None), Load(0, true), DrawNumber, DrawReceipt, Finish(0, now, Ticket(1, 1))]
    requires s == Start(map[0 := member], 0, 0, 0)
    ensures var s' := Run(s, first);
      && s'.t.payments == [Payment(0, None, 1, now)] && s'.sweeps == [] && s'.clock == now
      && 0 in s'.t.members
      && s'.t.members[0] ==
           Member(ACTIVE, member.plan, Some(joined), Some(Calendar.Moved(joined, months)), Some(1), None)
  {
    hide Calendar.Moved, Run;
    RunOfFive(s, first);
    CallAndLoad(s, 0);
    assert [] + [Deciding(0, None, member)] == [Deciding(0, None, member)];
    var s2 := Next(Next(s, Call(0, None)), Load(0, true));
    assert s2.t == s.t && s2.callers == [Deciding(0, None, member)] && s2.sweeps == [] && s2.clock == 0;
    var s4 := Next(Next(s2, DrawNumber), DrawReceipt);
    assert s4.t.members == s.t.members && s4.t.payments == [] && s4.callers == s2.callers && s4.sweeps == [];
    assert 1 in s4.t.numbers && 1 in s4.t.receipts && s4.clock == 0;
    hide Next;
    ActivationGoesThrough(s4, member, joined, months, now);
  }

  lemma ActivationGoesThrough(s: State, member: Member, joined: int, months: nat, now: int)
    requires now >= 0 && months > 0
    requires member == Member(AWAITING_PAYMENT, Some(Plan(0, false, Some(months))), Some(joined), None, None, None)
    requires s.t.members == map[0 := member] && s.t.payments == [] && s.clock == 0 && s.sweeps == []
    requires s.callers == [Deciding(0, None, member)] && 1 in s.t.numbers && 1 in s.t.receipts
    ensures var s' := Next(s, Finish(0, now, Ticket(1, 1)));
      && s'.t.payments == [Payment(0, None, 1, now)] && s'.sweeps == [] && s'.clock == now
      && 0 in s'.t.members
      && s'.t.members[0] ==
           Member(ACTIVE, member.plan, Some(joined), Some(Calendar.Moved(joined, months)), Some(1), None)
  {
    hide Calendar.Moved;
  }

  lemma SweptAtOnce(s: State, joined: int, months: nat, now: int)
    requires Calendar.Moved(joined, months) < now && s.sweeps == [] && s.clock == now
    requires 0 in s.t.members && s.t.members[0].status == ACTIVE
    requires s.t.members[0].validUntil == Some(Calendar.Moved(joined, months))
    ensures var t := Run(s, [SweepRead(now), Expire(0, 0)]).t;
      && t.payments == s.t.payments && 0 in t.members
      && t.members[0].status == EXPIRED && t.members[0].number == s.t.members[0].number
  {
    hide Calendar.Moved, Next;
    RunOfTwo(s, SweepRead(now), Expire(0, 0));
    hide Run;
    SweepReadExactly(s, now, 0);
    ExpireStep(Next(s, SweepRead(now)), 0, 0);
  }

  lemma RunOfTwo(s: State, a: Action, b: Action)
    ensures Run(s, [a, b]) == Next(Next(s, a), b)
  {
    hide Next;
    assert [a, b][..2] == [a, b] && [a, b][..0] == [];
    RunNext(s, [a, b], 0);
    RunNext(s, [a, b], 1);
  }
}
