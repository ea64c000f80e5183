/**
  Races between the requests of `PaymentRuns`: two reports of one gateway payment
  (apps/api/src/payments/payments.service.ts), and the expiry job against a renewal
  (apps/api/src/members/member-expiry.scheduler.ts).
 */
module PaymentRaces {
  import opened Wrappers
  import opened Membership
  import opened Payments
  import opened PaymentRuns
  import Calendar

  // ---- Who gets an error in a race for the same gateway payment ----

  /**
    A caller whose gateway payment another one has recorded meanwhile gets that row exactly if its
    transaction still gets as far as the unique constraint: the member has the status that the caller
    saw, and a renewal has a term. Otherwise it ends with an error. It changes no rows in any case.
   */
  lemma LateCallerExactly(s: State, c: nat, now: int, ticket: Ticket)
    requires Inv(s) && MayFinish(s, c, now, ticket)
    requires s.callers[c].gatewayId.Some? && Taken(s.t.payments, s.callers[c].gatewayId)
    ensures var w, s' := s.callers[c], Next(Next(s, Finish(c, now, ticket)), Refetch(c));
      && s'.t.payments == s.t.payments && s'.t.members == s.t.members && s'.t.history == s.t.history
      && c < |s'.callers|
      && if Draws(s.t, w.member, w.seen) then
           && s'.callers[c].Returned? && s'.callers[c].gatewayId == w.gatewayId
           && s'.callers[c].payment in s.t.payments && s'.callers[c].payment.gatewayId == w.gatewayId
         else s'.callers[c] == Ended
  {
    var w, s1 := s.callers[c], Finished(s, c, now, ticket);
    FinishKeepsInv(s, c, now, ticket);
    LateOutcome(s.t, w.member, w.seen, w.gatewayId, now, ticket);
    hide Inv, Settle, Taken, Draws;
    assert s1.callers[c] == if Draws(s.t, w.member, w.seen) then Refetching(w.member, w.gatewayId.value) else Ended;
    assert Next(s, Finish(c, now, ticket)) == s1;
    hide Finished;
    if s1.callers[c].Refetching? { LoserFindsWinner(s1, c); }
  }

  lemma LateOutcome(t: Tables, m: Id, seen: Member, gatewayId: Option<string>, now: int, ticket: Ticket)
    requires Taken(t.payments, gatewayId)
    ensures var (t', outcome) := Settle(t, m, seen, gatewayId, now, ticket);
      && t'.payments == t.payments && t'.members == t.members && t'.history == t.history
      && !outcome.Recorded? && (outcome.Duplicate? <==> Draws(t, m, seen))
  {
    hide Taken;
  }

  lemma FoundByGateway(payments: seq<Payment>, i: nat)
    requires i < |payments| && payments[i].gatewayId.Some?
    ensures Taken(payments, payments[i].gatewayId)
  {
    assert payments[i] in payments;
  }

  lemma OnlyOne(s: State, p: Payment, q: Payment)
    requires Inv(s) && p in s.t.payments && q in s.t.payments && p.gatewayId == q.gatewayId && p.gatewayId.Some?
    ensures p == q
  {
    PaymentsOfInv(s);
    hide Inv;
    var i :| 0 <= i < |s.t.payments| && s.t.payments[i] == p;
    var j :| 0 <= j < |s.t.payments| && s.t.payments[j] == q;
  }

  lemma PaymentsOfInv(s: State)
    requires Inv(s)
    ensures PaymentsFine(s.t.payments, s.t.lastReceipt, s.t.receipts)
  {
  }

  lemma FirstOfTwo(s: State, c: nat, now: int, ticket: Ticket)
    requires MayFinish(s, c, now, ticket)
    requires var v := s.callers[c]; Settle(s.t, v.member, v.seen, v.gatewayId, now, ticket).1.Recorded?
    ensures var v, s1 := s.callers[c], Next(s, Finish(c, now, ticket));
      && s1.t.payments == s.t.payments + [Payment(v.member, v.gatewayId, ticket.receipt, now)]
      && StatusIs(s1.t, v.member, ACTIVE) && |s1.callers| == |s.callers|
      && forall d :: 0 <= d < |s.callers| && d != c ==> s1.callers[d] == s.callers[d]
  {
    hide Taken, Term;
  }

  /**
    Two callers with the same gateway payment have both loaded the member in the same status, and the
    first one records it. The second one gets the first one's row exactly if it renews an ACTIVE
    member; before an activation, and for an EXPIRED member, it gets an error.
   */
  lemma RaceExactly(s: State, c: nat, d: nat, now: int, later: int, ticket: Ticket, other: Ticket)
    requires Inv(s) && MayFinish(s, c, now, ticket) && c != d && d < |s.callers| && s.callers[d].Deciding?
    requires var v, w := s.callers[c], s.callers[d];
      && v.gatewayId == w.gatewayId && v.gatewayId.Some? && v.member == w.member && v.seen.status == w.seen.status
      && Settle(s.t, v.member, v.seen, v.gatewayId, now, ticket).1.Recorded?
    requires MayFinish(Next(s, Finish(c, now, ticket)), d, later, other)
    ensures var w := s.callers[d];
      var s1 := Next(s, Finish(c, now, ticket));
      var s' := Next(Next(s1, Finish(d, later, other)), Refetch(d));
      var won := Payment(w.member, w.gatewayId, ticket.receipt, now);
      && s1.t.payments == s.t.payments + [won] == s'.t.payments && d < |s'.callers|
      && s'.callers[d] ==
           if w.seen.status == ACTIVE && !ValidityMissing(w.seen) then Returned(w.gatewayId, won) else Ended
  {
    var v, w := s.callers[c], s.callers[d];
    var s1 := Next(s, Finish(c, now, ticket));
    var won := Payment(w.member, w.gatewayId, ticket.receipt, now);
    FirstOfTwo(s, c, now, ticket);
    NextKeepsInv(s, Finish(c, now, ticket));
    hide Inv, Settle, Next, Finished;
    FoundByGateway(s1.t.payments, |s.t.payments|);
    LateCallerExactly(s1, d, later, other);
    var s' := Next(Next(s1, Finish(d, later, other)), Refetch(d));
    if s'.callers[d].Returned? { OnlyOne(s1, s'.callers[d].payment, won); }
  }

  /** A callback or webhook delivery up to its transaction. */
  function Delivery(m: Id, gateway: string, caller: nat): seq<Action> {
    [Call(m, Some(gateway)), Lookup(caller), Load(caller, true)]
  }

  lemma CallStep(s: State, m: Id, gatewayId: Option<string>)
    ensures Next(s, Call(m, gatewayId)) ==
      s.(callers := s.callers + [if gatewayId.Some? then Looking(m, gatewayId.value) else Loading(m, None)])
  {
  }

  lemma LookupStep(s: State, c: nat)
    requires c < |s.callers| && s.callers[c].Looking? && !Taken(s.t.payments, Some(s.callers[c].gateway))
    ensures Next(s, Lookup(c)) == Advance(s, c, Loading(s.callers[c].member, Some(s.callers[c].gateway)))
  {
  }

  lemma LoadStep(s: State, c: nat)
    requires c < |s.callers| && s.callers[c].Loading?
    requires s.callers[c].member in s.t.members && Payable(s.t.members[s.callers[c].member])
    ensures var w := s.callers[c];
      Next(s, Load(c, true)) == Advance(s, c, Deciding(w.member, w.gatewayId, s.t.members[w.member]))
  {
  }

  lemma DeliveryLoads(s: State, m: Id, gateway: string)
    requires m in s.t.members && Payable(s.t.members[m]) && !Taken(s.t.payments, Some(gateway))
    ensures Run(s, Delivery(m, gateway, |s.callers|)) ==
      s.(callers := s.callers + [Deciding(m, Some(gateway), s.t.members[m])])
  {
    hide Next, Run, Payable, Taken;
    RunOfThree(s, Delivery(m, gateway, |s.callers|));
    var c := |s.callers|;
    CallStep(s, m, Some(gateway));
    var s1 := s.(callers := s.callers + [Looking(m, gateway)]);
    LookupStep(s1, c);
    var s2 := s.(callers := s.callers + [Loading(m, Some(gateway))]);
    assert s2 == Advance(s1, c, Loading(m, Some(gateway)));
    LoadStep(s2, c);
  }

  /**
    The first fee, reported by callback and webhook at once: the second report ends with an error
    although the fee is recorded.
   */
  lemma SecondReportFails(member: Member, actions: seq<Action>)
    requires member == Member(AWAITING_PAYMENT, Some(Plan(0, true, None)), None, None, None, None)
    requires actions == Delivery(0, "g", 0) + Delivery(0, "g", 1)
      + [DrawNumber, DrawReceipt, Finish(0, 0, Ticket(1, 1))] + [Finish(1, 0, Ticket(0, 0))]
    ensures NumberedOnce(Tables(map[0 := member], [], [], [], 0, 0))
    ensures var s := Run(Start(map[0 := member], 0, 0, 0), actions);
      && s.t.payments == [Payment(0, Some("g"), 1, 0)] && StatusIs(s.t, 0, ACTIVE)
      && |s.callers| == 2 && s.callers[1] == Ended
  {
    var s := Start(map[0 := member], 0, 0, 0);
    assert s.t.members == map[0 := member] && s.t.payments == [] && s.callers == [];
    hide *;
    NotNumbered(member);
    StillPayable(member);
    NoneTaken("g");
    DeliveryLoads(s, 0, "g");
    var s1 := s.(callers := [Deciding(0, Some("g"), member)]);
    assert [] + [Deciding(0, Some("g"), member)] == [Deciding(0, Some("g"), member)];
    DeliveryLoads(s1, 0, "g");
    var both := [Deciding(0, Some("g"), member), Deciding(0, Some("g"), member)];
    assert [Deciding(0, Some("g"), member)] + [Deciding(0, Some("g"), member)] == both;
    var s2 := s.(callers := both);
    StartParts(member);
    FirstReport(s2, member);
    RunAppend(s, Delivery(0, "g", 0), Delivery(0, "g", 1));
    RunAppend(s, Delivery(0, "g", 0) + Delivery(0, "g", 1), [DrawNumber, DrawReceipt, Finish(0, 0, Ticket(1, 1))]);
    RunAppend(s, Delivery(0, "g", 0) + Delivery(0, "g", 1) + [DrawNumber, DrawReceipt, Finish(0, 0, Ticket(1, 1))],
              [Finish(1, 0, Ticket(0, 0))]);
    SecondReport(Run(s2, [DrawNumber, DrawReceipt, Finish(0, 0, Ticket(1, 1))]), member);
  }

  lemma NotNumbered(member: Member)
    requires member.number.None?
    ensures NumberedOnce(Tables(map[0 := member], [], [], [], 0, 0))
  {
  }

  lemma StillPayable(member: Member)
    requires member.status == AWAITING_PAYMENT && member.plan.Some?
    ensures Payable(member)
  {
  }

  lemma NoneTaken(gateway: string)
    ensures !Taken([], Some(gateway))
  {
  }

  lemma StartParts(member: Member)
    ensures var s := Start(map[0 := member], 0, 0, 0);
      s.t == Tables(map[0 := member], [], [], [], 0, 0) && s.clock == 0
  {
  }

  lemma FirstReport(s: State, member: Member)
    requires member == Member(AWAITING_PAYMENT, Some(Plan(0, true, None)), None, None, None, None)
    requires s.t == Tables(map[0 := member], [], [], [], 0, 0) && s.clock == 0
    requires s.callers == [Deciding(0, Some("g"), member), Deciding(0, Some("g"), member)]
    ensures var s' := Run(s, [DrawNumber, DrawReceipt, Finish(0, 0, Ticket(1, 1))]);
      && s'.t.payments == [Payment(0, Some("g"), 1, 0)] && StatusIs(s'.t, 0, ACTIVE) && s'.clock == 0
      && |s'.callers| == 2 && s'.callers[1] == s.callers[1]
  {
    RunOfThree(s, [DrawNumber, DrawReceipt, Finish(0, 0, Ticket(1, 1))]);
    NoneTaken("g");
    hide Run, Taken, Term;
    var s1 := Next(Next(s, DrawNumber), DrawReceipt);
    assert s1.t.members == s.t.members && s1.t.payments == [] && s1.callers == s.callers && s1.clock == 0;
    assert 1 in s1.t.numbers && 1 in s1.t.receipts;
    assert MayFinish(s1, 0, 0, Ticket(1, 1));
    var outcome := Settle(s1.t, 0, member, Some("g"), 0, Ticket(1, 1)).1;
    assert outcome.Recorded?;
    hide Next, Settle;
    FirstOfTwo(s1, 0, 0, Ticket(1, 1));
    FinishClock(s1, 0, 0, Ticket(1, 1));
    assert [] + [Payment(0, Some("g"), 1, 0)] == [Payment(0, Some("g"), 1, 0)];
  }

  lemma FinishClock(s: State, c: nat, now: int, ticket: Ticket)
    requires MayFinish(s, c, now, ticket)
    ensures Next(s, Finish(c, now, ticket)).clock == now
  {
    hide Settle;
  }

  lemma SecondReport(s: State, member: Member)
    requires member.status == AWAITING_PAYMENT && StatusIs(s.t, 0, ACTIVE) && s.clock == 0
    requires |s.callers| == 2 && s.callers[1] == Deciding(0, Some("g"), member)
    ensures var s' := Run(s, [Finish(1, 0, Ticket(0, 0))]);
      s'.t == s.t && |s'.callers| == 2 && s'.callers[1] == Ended
  {
    assert [Finish(1, 0, Ticket(0, 0))][..0] == [];
    hide Taken, Committed;
  }

  // ---- The expiry sweep against renewals ----

  /**
    The sweep updates a member it read as overdue whenever the member is still ACTIVE. The member
    is then still overdue exactly when it has not been renewed since the read.
   */
  lemma SweepExactly(s: State, k: nat, m: Id)
    requires Inv(s) && k < |s.sweeps| && m in s.sweeps[k].left
    ensures m in s.t.members && m in Next(s, Expire(k, m)).t.members
    ensures var before, after := s.t.members[m], Next(s, Expire(k, m)).t.members[m];
      && after == before.(status := if before.status == ACTIVE then EXPIRED else before.status)
      && (Overdue(after, s.sweeps[k].readAt) <==> m !in s.sweeps[k].renewed)
  {
    assert SweepFine(s.t.members, s.sweeps[k], s.clock);
    hide Inv;
  }

  /** An ACTIVE member who renews between the sweep's read and its update ends EXPIRED although paid up. */
  lemma SweepClobbersRenewal(member: Member, actions: seq<Action>)
    requires member == Member(ACTIVE, Some(Plan(0, false, Some(12))), Some(0), Some(10), Some(1), None)
    requires actions == [SweepRead(11), Call(0, None), Load(0, true), DrawReceipt, Finish(0, 11, Ticket(0, 1)),
                         Expire(0, 0)]
    ensures NumberedOnce(Tables(map[0 := member], [], [], [], 1, 0))
    ensures var s := Run(Start(map[0 := member], 1, 0, 0), actions);
      && 0 in s.t.members && s.t.members[0].status == EXPIRED && !Overdue(s.t.members[0], 11)
      && |s.t.payments| == 1 && s.t.payments[0].member == 0
  {
    hide *;
    var s0 := Start(map[0 := member], 1, 0, 0);
    RenewalAfterRead(s0, member, actions);
    RunOfFive(s0, actions[..5]);
    RunNext(s0, actions, 5);
    assert actions[..6] == actions;
    var s5 := Run(s0, actions[..5]);
    PaidUp(member);
    ExpireAfterRenewal(s5, member.(validUntil := Some(Calendar.Moved(11, 12))));
    OneNumbered(member);
  }

  lemma OneNumbered(member: Member)
    requires member.status == ACTIVE && member.number == Some(1)
    ensures NumberedOnce(Tables(map[0 := member], [], [], [], 1, 0))
  {
    hide Next, Run;
  }

  /** The first five steps: the query finds the member, who then loads and pays. */
  lemma RenewalAfterRead(s: State, member: Member, actions: seq<Action>)
    requires member == Member(ACTIVE, Some(Plan(0, false, Some(12))), Some(0), Some(10), Some(1), None)
    requires |actions| == 6 && actions[0] == SweepRead(11) && actions[1] == Call(0, None)
    requires actions[2] == Load(0, true) && actions[3] == DrawReceipt && actions[4] == Finish(0, 11, Ticket(0, 1))
    requires s == Start(map[0 := member], 1, 0, 0)
    ensures var s5 := Next(Next(Next(Next(Next(s, actions[0]), actions[1]), actions[2]), actions[3]), actions[4]);
      && |s5.sweeps| == 1 && s5.sweeps[0].left == {0}
      && s5.t.members == map[0 := member.(validUntil := Some(Calendar.Moved(11, 12)))]
      && s5.t.payments == [Payment(0, None, 1, 11)]
  {
    hide Calendar.Moved;
    var s1 := Next(s, SweepRead(11));
    assert |s1.sweeps| == 1 && s1.sweeps[0].left == {0} && s1.t == s.t && s1.callers == [] && s1.clock == 11;
    hide Start;
    CallAndLoad(s1, 0);
    assert [] + [Deciding(0, None, member)] == [Deciding(0, None, member)];
    var s3 := Next(Next(s1, Call(0, None)), Load(0, true));
    var s4 := Next(s3, DrawReceipt);
    assert s4.t.receipts == {1} && s4.t.members == s3.t.members && s4.callers == s3.callers;
    hide Next;
    RenewalGoesThrough(s4, member);
  }

  /** A manual payment starts and loads its member. */
  lemma CallAndLoad(s: State, m: Id)
    requires m in s.t.members && Payable(s.t.members[m])
    ensures Next(Next(s, Call(m, None)), Load(|s.callers|, true)) ==
      s.(callers := s.callers + [Deciding(m, None, s.t.members[m])])
  {
    hide Next, Payable;
    CallStep(s, m, None);
    LoadStep(s.(callers := s.callers + [Loading(m, None)]), |s.callers|);
  }

  lemma RenewalGoesThrough(s: State, member: Member)
    requires member.status == ACTIVE && member.plan == Some(Plan(0, false, Some(12)))
    requires s.t.members == map[0 := member] && s.t.payments == [] && s.t.receipts == {1} && s.clock <= 11
    requires s.callers == [Deciding(0, None, member)] && |s.sweeps| == 1 && s.sweeps[0].left == {0}
    ensures var s' := Next(s, Finish(0, 11, Ticket(0, 1)));
      && |s'.sweeps| == 1 && s'.sweeps[0].left == {0}
      && s'.t.members == map[0 := member.(validUntil := Some(Calendar.Moved(11, 12)))]
      && s'.t.payments == [Payment(0, None, 1, 11)]
  {
    hide Calendar.Moved;
  }

  /** The last step: the member is still ACTIVE, so the update goes through. */
  lemma ExpireAfterRenewal(s: State, paid: Member)
    requires paid.status == ACTIVE && !Overdue(paid, 11)
    requires |s.sweeps| == 1 && s.sweeps[0].left == {0} && s.t.members == map[0 := paid]
    ensures var s' := Next(s, Expire(0, 0));
      && 0 in s'.t.members && s'.t.members[0].status == EXPIRED && !Overdue(s'.t.members[0], 11)
      && s'.t.payments == s.t.payments
  {
    hide Next;
    ExpireStep(s, 0, 0);
  }

  lemma ExpireStep(s: State, k: nat, m: Id)
    requires k < |s.sweeps| && m in s.sweeps[k].left
    ensures Next(s, Expire(k, m)).t == Swapped(s.t, m, ACTIVE, EXPIRED)
  {
    hide Candidates, Settle, MarkDeceased;
  }

  lemma PaidUp(member: Member)
    ensures !Overdue(member.(validUntil := Some(Calendar.Moved(11, 12))), 11)
  {
    Calendar.MovedLater(11, 12);
    hide Calendar.Moved;
  }

  // ---- Runs of a few actions ----

  lemma RunNext(s: State, actions: seq<Action>, k: nat)
    requires k < |actions|
    ensures Run(s, actions[..k + 1]) == Next(Run(s, actions[..k]), actions[k])
  {
    hide Next;
    assert actions[..k + 1][..k] == actions[..k];
  }

  lemma RunOfFive(s: State, actions: seq<Action>)
    requires |actions| == 5
    ensures Run(s, actions)
         == Next(Next(Next(Next(Next(s, actions[0]), actions[1]), actions[2]), actions[3]), actions[4])
  {
    hide Next;
    assert actions[..5] == actions && actions[..0] == [];
    RunNext(s, actions, 0);
    RunNext(s, actions, 1);
    RunNext(s, actions, 2);
    RunNext(s, actions, 3);
    RunNext(s, actions, 4);
  }

  lemma {:induction false} RunAppend(s: State, first: seq<Action>, more: seq<Action>)
    ensures Run(s, first + more) == Run(Run(s, first), more)
  {
    hide Next;
    if more == [] {
      assert first + more == first;
    } else {
      var init := more[..|more| - 1];
      RunAppend(s, first, init);
      assert (first + more)[..|first| + |init|] == first + init;
    }
  }

  lemma RunOfThree(s: State, actions: seq<Action>)
    requires |actions| == 3
    ensures Run(s, actions) == Next(Next(Next(s, actions[0]), actions[1]), actions[2])
  {
    hide Next;
    assert actions[..3] == actions && actions[..0] == [];
    RunNext(s, actions, 0);
    RunNext(s, actions, 1);
    RunNext(s, actions, 2);
  }
}
