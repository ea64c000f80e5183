/**
  Edits of a member that overlap other requests (`update` of apps/api/src/members/members.service.ts):
  the member is read and checked, and later its fields are written whatever it has become.
 */
module Edits {
  import opened Wrappers
  import opened Membership
  import opened Payments
  import opened PaymentRuns
  import opened PaymentRaces
  import opened PaymentSteps
  import opened Activation

  /** An edit that is written while the row is still as it was read leaves the plan alone, past DRAFT. */
  lemma TimelyEditKeepsPlan(s: State, c: nat, joined: Option<Option<int>>, plan: Option<Option<Plan>>)
    requires c < |s.callers| && s.callers[c].Editing? && s.callers[c].member in s.t.members
    requires s.t.members[s.callers[c].member] == s.callers[c].seen && s.callers[c].seen.status != DRAFT
    ensures var m, t' := s.callers[c].member, Next(s, Edit(c, joined, plan)).t;
      m in t'.members && t'.members[m].plan == s.t.members[m].plan
  {
    PlanChangesExactly(s, Edit(c, joined, plan), s.callers[c].member);
    hide Next;
  }

  /** A draft is read for editing, and submitted; then the edit changes the plan whose fee is due. */
  lemma PlanDrifts(member: Member, plan: Plan, s: State)
    requires member == Member(DRAFT, Some(Plan(0, true, None)), None, None, None, None) && plan.id == 1
    requires s == Run(Start(map[0 := member], 0, 0, 0), [EditRead(0), Submit(0), Edit(0, None, Some(Some(plan)))])
    ensures 0 in s.t.members && s.t.members[0] == member.(status := AWAITING_PAYMENT, plan := Some(plan))
  {
    var start := Start(map[0 := member], 0, 0, 0);
    assert start.t.members == map[0 := member] && start.callers == [];
    RunOfThree(start, [EditRead(0), Submit(0), Edit(0, None, Some(Some(plan)))]);
    hide Run, Start;
    var s1 := Next(start, EditRead(0));
    assert s1.callers == [Editing(0, member)] && s1.t == start.t;
    var s2 := Next(s1, Submit(0));
    SubmitExactly(s1, 0);
    StatusExactly(s1, Submit(0), 0);
    assert s2.t.members == map[0 := member.(status := AWAITING_PAYMENT)];
    hide Next;
    EditExactly(s2, 0, None, Some(Some(plan)));
  }

  /** A joining date entered while a payment is under way is overwritten by the activation. */
  lemma JoiningDateLost(member: Member, s: State)
    requires member == Member(AWAITING_PAYMENT, Some(Plan(0, true, None)), None, None, None, None)
    requires s == Run(Run(Start(map[0 := member], 0, 0, 0), Delivery(0, "g", 0)),
                      [EditRead(0), Edit(1, Some(Some(5)), None)])
    ensures 0 in s.t.members && s.t.members[0].joiningDate == Some(5)
    ensures var t := Run(s, [DrawNumber, DrawReceipt, Finish(0, 10, Ticket(1, 1))]).t;
      0 in t.members && t.members[0].status == ACTIVE && t.members[0].joiningDate == Some(10)
  {
    var start := Start(map[0 := member], 0, 0, 0);
    assert start.t == Tables(map[0 := member], [], [], [], 0, 0) && start.callers == [] && start.clock == 0;
    hide Run, Start, Next;
    StillPayable(member);
    NoneTaken("g");
    DeliveryLoads(start, 0, "g");
    var s1 := Run(start, Delivery(0, "g", 0));
    assert s1 == start.(callers := [Deciding(0, Some("g"), member)]);
    RunOfTwo(s1, EditRead(0), Edit(1, Some(Some(5)), None));
    ReadsExactly(s1, 0, Plan(0, true, None), false);
    EditExactly(Next(s1, EditRead(0)), 1, Some(Some(5)), None);
    assert s.t == start.t.(members := map[0 := member.(joiningDate := Some(5))]);
    assert s.callers == [Deciding(0, Some("g"), member), Ended] && s.clock == 0;
    ActivatedAnyway(s, member);
  }

  lemma ActivatedAnyway(s: State, member: Member)
    requires member == Member(AWAITING_PAYMENT, Some(Plan(0, true, None)), None, None, None, None)
    requires s.t == Tables(map[0 := member.(joiningDate := Some(5))], [], [], [], 0, 0)
    requires s.callers == [Deciding(0, Some("g"), member), Ended] && s.clock == 0
    ensures var t := Run(s, [DrawNumber, DrawReceipt, Finish(0, 10, Ticket(1, 1))]).t;
      0 in t.members && t.members[0].status == ACTIVE && t.members[0].joiningDate == Some(10)
  {
    RunOfThree(s, [DrawNumber, DrawReceipt, Finish(0, 10, Ticket(1, 1))]);
    NoneTaken("g");
    hide Run, Taken, Term;
    var s1 := Next(Next(s, DrawNumber), DrawReceipt);
    assert s1.t.members == s.t.members && s1.t.payments == [] && s1.callers == s.callers && s1.clock == 0;
    assert 1 in s1.t.numbers && 1 in s1.t.receipts;
    assert MayFinish(s1, 0, 10, Ticket(1, 1));
    assert Settle(s1.t, 0, member, Some("g"), 10, Ticket(1, 1)).1.Recorded?;
    hide Next, Settle;
    FinishTables(s1, 0, 10, Ticket(1, 1));
    RecordedTerm(s1.t, 0, member, Some("g"), 10, Ticket(1, 1));
    hide OneTerm, MayFinish;
  }
}
