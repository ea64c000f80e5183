/**
  Deleting a draft (`remove` of apps/api/src/members/members.service.ts): the status is read first, and
  a later transaction deletes the member with its payments and history, whatever its status by then.
 */
module Removal {
  import opened Wrappers
  import opened Membership
  import opened Payments
  import opened PaymentRuns
  import opened PaymentRaces

  function OtherPayments(payments: seq<Payment>, m: Id): seq<Payment> {
    if payments == [] then []
    else
      var init, p := OtherPayments(payments[..|payments| - 1], m), payments[|payments| - 1];
      if p.member == m then init else init + [p]
  }

  function OtherRows(history: seq<Change>, m: Id): seq<Change> {
    if history == [] then []
    else
      var init, c := OtherRows(history[..|history| - 1], m), history[|history| - 1];
      if c.member == m then init else init + [c]
  }

  /** The transaction; credits of referred members stay, without naming them. */
  function Removed(t: Tables, m: Id): Tables {
    t.(members := map x | x in t.members && x != m ::
         if t.members[x].referrer == Some(m) then t.members[x].(referrer := None) else t.members[x],
       payments := OtherPayments(t.payments, m), history := OtherRows(t.history, m))
  }

  /** A payment row of `m` is deleted with the member. */
  predicate Loses(t: Tables, m: Id) { |Removed(t, m).payments| < |t.payments| }

  // ---- Deletion keeps the other rows in order ----

  ghost function OtherDues(dues: seq<Due>, m: Id): seq<Due> {
    if dues == [] then []
    else
      var init, d := OtherDues(dues[..|dues| - 1], m), dues[|dues| - 1];
      if d.member == m then init else init + [d]
  }

  lemma OtherDuesAdd(dues: seq<Due>, d: Due, m: Id)
    ensures OtherDues(dues + [d], m) == OtherDues(dues, m) + if d.member == m then [] else [d]
  {
    assert (dues + [d])[..|dues|] == dues;
  }

  lemma {:induction false} OtherCharges(history: seq<Change>, m: Id)
    ensures Charges(OtherRows(history, m)) == OtherDues(Charges(history), m)
  {
    if history != [] {
      var init, c := history[..|history| - 1], history[|history| - 1];
      OtherCharges(init, m);
      ChargesAdd(OtherRows(init, m), c);
      OtherDuesAdd(Charges(init), Due(c.member, c.receipt.Some?), m);
      hide IsCharge, OtherDues;
      assert Charges(init) + [] == Charges(init);
    }
  }

  lemma {:induction false} OtherPaid(payments: seq<Payment>, m: Id)
    ensures Paid(OtherPayments(payments, m)) == OtherDues(Paid(payments), m)
  {
    if payments != [] {
      var init, p := payments[..|payments| - 1], payments[|payments| - 1];
      OtherPaid(init, m);
      PaidAdd(OtherPayments(init, m), p);
      OtherDuesAdd(Paid(init), Due(p.member, p.upgrade), m);
      hide OtherDues;
    }
  }

  lemma {:induction false} OtherPaymentsIn(payments: seq<Payment>, m: Id)
    ensures forall p :: p in OtherPayments(payments, m) <==> p in payments && p.member != m
    ensures |OtherPayments(payments, m)| <= |payments|
    ensures |OtherPayments(payments, m)| == |payments| <==> forall p :: p in payments ==> p.member != m
  {
    if payments != [] {
      var init, p := payments[..|payments| - 1], payments[|payments| - 1];
      assert payments == init + [p];
      OtherPaymentsIn(init, m);
    }
  }

  lemma {:induction false} OtherPaymentsFine(payments: seq<Payment>, lastReceipt: nat, receipts: set<nat>, m: Id)
    requires PaymentsFine(payments, lastReceipt, receipts)
    ensures PaymentsFine(OtherPayments(payments, m), lastReceipt, receipts)
  {
    if payments != [] {
      var init, p := payments[..|payments| - 1], payments[|payments| - 1];
      OtherPaymentsFine(init, lastReceipt, receipts, m);
      OtherPaymentsIn(init, m);
      LastFine(payments, OtherPayments(init, m), lastReceipt, receipts);
      hide PaymentsFine;
    }
  }

  lemma LastFine(payments: seq<Payment>, others: seq<Payment>, lastReceipt: nat, receipts: set<nat>)
    requires payments != [] && PaymentsFine(payments, lastReceipt, receipts)
    requires PaymentsFine(others, lastReceipt, receipts) && forall q :: q in others ==> q in payments[..|payments| - 1]
    ensures PaymentsFine(others + [payments[|payments| - 1]], lastReceipt, receipts)
  {
    var p := payments[|payments| - 1];
    forall i | 0 <= i < |others|
      ensures others[i].receipt != p.receipt && (others[i].gatewayId.Some? ==> others[i].gatewayId != p.gatewayId)
    {
      assert others[i] in others;
      var j :| 0 <= j < |payments| - 1 && payments[j] == others[i];
    }
  }

  lemma {:induction false} OtherRowsIn(history: seq<Change>, m: Id)
    ensures forall c :: c in OtherRows(history, m) <==> c in history && c.member != m
  {
    if history != [] {
      var init, c := history[..|history| - 1], history[|history| - 1];
      assert history == init + [c];
      OtherRowsIn(init, m);
    }
  }

  ghost predicate DistinctActivations(history: seq<Change>) {
    forall i, j :: 0 <= i < j < |history| && IsActivation(history[i]) && IsActivation(history[j]) ==>
      history[i].member != history[j].member
  }

  lemma {:induction false} OtherActivations(history: seq<Change>, m: Id)
    requires DistinctActivations(history)
    ensures DistinctActivations(OtherRows(history, m))
  {
    hide IsActivation;
    if history != [] {
      var init, c := history[..|history| - 1], history[|history| - 1];
      OtherActivations(init, m);
      OtherRowsIn(init, m);
      var others := OtherRows(init, m);
      forall d | d in others && IsActivation(d) && IsActivation(c)
        ensures d.member != c.member
      {
        var i :| 0 <= i < |init| && init[i] == d;
        assert history[i] == d;
      }
      assert forall i :: 0 <= i < |others| ==> others[i] in others;
    }
  }

  /** Payments still match charges, and activations and numbers are still single, among the members that stay. */
  lemma RemovalKeepsOthers(t: Tables, m: Id)
    requires Paired(t) && ActivatedOnce(t) && NumberedOnce(t)
    ensures Paired(Removed(t, m)) && ActivatedOnce(Removed(t, m)) && NumberedOnce(Removed(t, m))
  {
    OtherCharges(t.history, m);
    OtherPaid(t.payments, m);
    OtherPaymentsFine(t.payments, t.lastReceipt, t.receipts, m);
    RemovalKeepsActivations(t, m);
    RemovalKeepsNumbers(t, m);
    hide Charges, Paid, OtherDues, OtherRows, OtherPayments, PaymentsFine, ActivatedOnce, NumberedOnce;
  }

  lemma RemovalKeepsActivations(t: Tables, m: Id)
    requires ActivatedOnce(t)
    ensures ActivatedOnce(Removed(t, m))
  {
    OtherActivations(t.history, m);
    OtherRowsIn(t.history, m);
    hide OtherPayments, OtherRows, IsActivation, NotYetActive;
    var t' := Removed(t, m);
    forall i | 0 <= i < |t'.history| && IsActivation(t'.history[i])
      ensures t'.history[i].member in t'.members && !NotYetActive(t'.members[t'.history[i].member].status)
    {
      var c := t'.history[i];
      assert c in t'.history;
      var j :| 0 <= j < |t.history| && t.history[j] == c;
    }
  }

  lemma RemovalKeepsNumbers(t: Tables, m: Id)
    requires NumberedOnce(t)
    ensures NumberedOnce(Removed(t, m))
  {
    hide OtherPayments, OtherRows, NotYetActive;
  }

  /** The member goes, with its own rows and no others, and nobody names it as referrer any more. */
  lemma RemovedExactly(t: Tables, m: Id, k: Id, p: Payment, c: Change)
    ensures var t' := Removed(t, m);
      && (k in t'.members <==> k in t.members && k != m)
      && (k in t'.members ==>
            var before := t.members[k];
            t'.members[k] == before.(referrer := if before.referrer == Some(m) then None else before.referrer))
      && multiset(t'.payments)[p] == (if p.member == m then 0 else multiset(t.payments)[p])
      && multiset(t'.history)[c] == (if c.member == m then 0 else multiset(t.history)[c])
      && t'.credits == t.credits && t'.lastNumber == t.lastNumber && t'.lastReceipt == t.lastReceipt
  {
    OtherPaymentsCount(t.payments, m, p);
    OtherRowsCount(t.history, m, c);
  }

  lemma {:induction false} OtherPaymentsCount(payments: seq<Payment>, m: Id, p: Payment)
    ensures multiset(OtherPayments(payments, m))[p] == if p.member == m then 0 else multiset(payments)[p]
  {
    if payments != [] {
      OtherPaymentsCount(payments[..|payments| - 1], m, p);
      assert payments == payments[..|payments| - 1] + [payments[|payments| - 1]];
    }
  }

  lemma {:induction false} OtherRowsCount(history: seq<Change>, m: Id, c: Change)
    ensures multiset(OtherRows(history, m))[c] == if c.member == m then 0 else multiset(history)[c]
  {
    if history != [] {
      OtherRowsCount(history[..|history| - 1], m, c);
      assert history == history[..|history| - 1] + [history[|history| - 1]];
    }
  }

  // ---- When payments are lost ----

  /** The action records a payment of `m`. */
  ghost predicate Pays(s: State, a: Action, m: Id) {
    match a
    case Finish(c, now, ticket) =>
      && MayFinish(s, c, now, ticket) && s.callers[c].member == m
      && Settle(s.t, m, s.callers[c].seen, s.callers[c].gatewayId, now, ticket).1.Recorded?
    case Upgrade(c, now, receipt) =>
      && MayUpgrade(s, c, now, receipt) && s.callers[c].member == m && s.callers[c].charged
      && Upgradable(s.t, m, s.callers[c].seen)
    case _ => false
  }

  ghost predicate HasPaid(payments: seq<Payment>, m: Id) { exists p :: p in payments && p.member == m }

  /** A payment comes from an action that pays, and then the member is ACTIVE. */
  lemma PaymentsFrom(s: State, a: Action, m: Id)
    ensures HasPaid(Next(s, a).t.payments, m) <==> HasPaid(s.t.payments, m) || Pays(s, a, m)
    ensures Pays(s, a, m) ==> StatusIs(Next(s, a).t, m, ACTIVE)
  {
    if a.Finish? && MayFinish(s, a.caller, a.now, a.ticket) {
      FinishPays(s, a.caller, a.now, a.ticket, m);
    } else if a.Upgrade? && MayUpgrade(s, a.caller, a.now, a.receipt) {
      UpgradePays(s, a.caller, a.now, a.receipt, m);
    } else {
      assert Next(s, a).t.payments == s.t.payments by { OthersPayNothing(s, a); }
      hide Next, HasPaid;
    }
  }

  lemma OthersPayNothing(s: State, a: Action)
    requires !(a.Finish? && MayFinish(s, a.caller, a.now, a.ticket))
    requires !(a.Upgrade? && MayUpgrade(s, a.caller, a.now, a.receipt))
    ensures Next(s, a).t.payments == s.t.payments
  {
    hide Settle, Upgraded, Taken, Candidates, MayFinish, MayUpgrade;
  }

  lemma HasPaidAdd(payments: seq<Payment>, p: Payment, m: Id)
    ensures HasPaid(payments + [p], m) <==> HasPaid(payments, m) || p.member == m
  {
    assert p in payments + [p];
    if q :| q in payments && q.member == m { assert q in payments + [p]; }
  }

  lemma FinishPays(s: State, c: nat, now: int, ticket: Ticket, m: Id)
    requires MayFinish(s, c, now, ticket)
    ensures var s' := Next(s, Finish(c, now, ticket));
      && (HasPaid(s'.t.payments, m) <==> HasPaid(s.t.payments, m) || Pays(s, Finish(c, now, ticket), m))
      && (Pays(s, Finish(c, now, ticket), m) ==> StatusIs(s'.t, m, ACTIVE))
  {
    var w := s.callers[c];
    var (t', outcome) := Settle(s.t, w.member, w.seen, w.gatewayId, now, ticket);
    FinalizeShape(s.t, w.member, w.seen, w.gatewayId, now, ticket);
    assert Next(s, Finish(c, now, ticket)).t == t';
    hide Settle, Next, Taken, HasPaid, CommitRows, MayFinish;
    if outcome.Recorded? { HasPaidAdd(s.t.payments, outcome.payment, m); }
  }

  lemma UpgradePays(s: State, c: nat, now: int, receipt: nat, m: Id)
    requires MayUpgrade(s, c, now, receipt)
    ensures var s' := Next(s, Upgrade(c, now, receipt));
      && (HasPaid(s'.t.payments, m) <==> HasPaid(s.t.payments, m) || Pays(s, Upgrade(c, now, receipt), m))
      && (Pays(s, Upgrade(c, now, receipt), m) ==> StatusIs(s'.t, m, ACTIVE))
  {
    var w := s.callers[c];
    var t' := Upgraded(s.t, w.member, w.seen, w.target, w.charged, now, receipt);
    UpgradeShape(s.t, w.member, w.seen, w.target, w.charged, now, receipt);
    assert Next(s, Upgrade(c, now, receipt)).t == t';
    hide Upgraded, Next, HasPaid, MayUpgrade, UpgradeRow;
    HasPaidAdd(s.t.payments, Payment(w.member, None, receipt, now, true), m);
    assert s.t.payments + [] == s.t.payments;
  }

  /** Whoever has paid has been active. */
  ghost predicate PaidWasActive(t: Tables, m: Id) {
    HasPaid(t.payments, m) ==> m in t.members && !NotYetActive(t.members[m].status)
  }

  lemma {:induction false} RunPaidWasActive(s: State, actions: seq<Action>, m: Id)
    requires Inv(s) && PaidWasActive(s.t, m)
    ensures PaidWasActive(Run(s, actions).t, m)
  {
    if actions != [] {
      var init, a := actions[..|actions| - 1], actions[|actions| - 1];
      var r := Run(s, init);
      assert Run(s, actions) == Next(r, a);
      hide Run, Inv, Next, HasPaid, Pays;
      RunPaidWasActive(s, init, m);
      RunKeepsInv(s, init);
      PaymentsFrom(r, a, m);
      if m in r.t.members { NextKept(r, a, m); }
    }
  }

  ghost predicate PaysDuring(s: State, actions: seq<Action>, m: Id) {
    exists k :: 0 <= k < |actions| && Pays(Run(s, actions[..k]), actions[k], m)
  }

  lemma PaysAdd(s: State, actions: seq<Action>, m: Id)
    requires actions != []
    ensures var init, a := actions[..|actions| - 1], actions[|actions| - 1];
      PaysDuring(s, actions, m) <==> PaysDuring(s, init, m) || Pays(Run(s, init), a, m)
  {
    hide Run, Pays;
    var n := |actions| - 1;
    var init := actions[..n];
    assert forall k :: 0 <= k <= n ==> init[..k] == actions[..k];
    if k :| 0 <= k < n && Pays(Run(s, init[..k]), init[k], m) { assert Pays(Run(s, actions[..k]), actions[k], m); }
    if k :| 0 <= k < |actions| && Pays(Run(s, actions[..k]), actions[k], m) {
      assert k < n ==> Pays(Run(s, init[..k]), init[k], m);
    }
    if Pays(Run(s, init), actions[n], m) { assert Pays(Run(s, actions[..n]), actions[n], m); }
  }

  /** Payments of `m` at the end of a run were there before or were recorded by one of its actions. */
  lemma {:induction false} PaidDuring(s: State, actions: seq<Action>, m: Id)
    ensures HasPaid(Run(s, actions).t.payments, m) <==> HasPaid(s.t.payments, m) || PaysDuring(s, actions, m)
  {
    if actions != [] {
      var init, a := actions[..|actions| - 1], actions[|actions| - 1];
      assert Run(s, actions) == Next(Run(s, init), a);
      hide Run, Next, HasPaid, Pays, PaysDuring;
      PaidDuring(s, init, m);
      PaymentsFrom(Run(s, init), a, m);
      PaysAdd(s, actions, m);
    }
  }

  lemma LosesExactly(t: Tables, m: Id)
    ensures Loses(t, m) <==> HasPaid(t.payments, m)
  {
    OtherPaymentsIn(t.payments, m);
    hide OtherRows, OtherPayments;
  }

  /**
    A member is read as a DRAFT after the first actions of a run, and deleted after the rest, in any
    interleaving. Payment rows are lost with it exactly if one of these later actions recorded a
    payment of the member; in particular none are if it is still a DRAFT when it is deleted.
   */
  lemma RemovalLosesExactly(members: map<Id, Member>, lastNumber: nat, lastReceipt: nat, clock: int,
                            before: seq<Action>, after: seq<Action>, m: Id)
    requires NumberedOnce(Tables(members, [], [], [], lastNumber, lastReceipt))
    requires StatusIs(Run(Start(members, lastNumber, lastReceipt, clock), before).t, m, DRAFT)
    ensures var read := Run(Start(members, lastNumber, lastReceipt, clock), before);
      && (Loses(Run(read, after).t, m) <==> PaysDuring(read, after, m))
      && (StatusIs(Run(read, after).t, m, DRAFT) ==> !Loses(Run(read, after).t, m))
  {
    var start := Start(members, lastNumber, lastReceipt, clock);
    assert PaidWasActive(start.t, m);
    hide Run, Inv, HasPaid, PaysDuring, Start, Loses;
    var read := Run(start, before);
    StartKeepsInv(members, lastNumber, lastReceipt, clock);
    RunKeepsInv(start, before);
    RunPaidWasActive(start, before, m);
    assert !HasPaid(read.t.payments, m);
    RunPaidWasActive(read, after, m);
    PaidDuring(read, after, m);
    LosesExactly(Run(read, after).t, m);
  }

  /** A draft submitted and paid for after it was read: the deletion takes the payment along. */
  lemma PaidDraftLost(member: Member, after: seq<Action>)
    requires member == Member(DRAFT, Some(Plan(0, true, None)), None, None, None, None)
    requires after == [Submit(0)] + Delivery(0, "g", 1) + [DrawNumber, DrawReceipt, Finish(1, 0, Ticket(1, 1))]
    ensures var t := Run(Start(map[0 := member], 0, 0, 0), after).t;
      t.payments == [Payment(0, Some("g"), 1, 0)] && Removed(t, 0).payments == []
  {
    var s := Start(map[0 := member], 0, 0, 0);
    var asked := member.(status := AWAITING_PAYMENT);
    assert s.t == Tables(map[0 := member], [], [], [], 0, 0) && s.callers == [] && s.clock == 0;
    hide *;
    Submitted(s, member);
    var s1 := Next(s, Submit(0));
    NoneTaken("g");
    StillPayable(asked);
    DeliveryLoads(s1, 0, "g");
    var s2 := Run(s1, Delivery(0, "g", 1));
    PaidAtOnce(s2, asked);
    RunOne(s, Submit(0));
    RunAppend(s, [Submit(0)], Delivery(0, "g", 1));
    RunAppend(s, [Submit(0)] + Delivery(0, "g", 1), [DrawNumber, DrawReceipt, Finish(1, 0, Ticket(1, 1))]);
    OnlyPayment(Payment(0, Some("g"), 1, 0));
    RemovedPayments(Run(s, after).t, 0);
  }

  lemma RunOne(s: State, a: Action)
    ensures Run(s, [a]) == Next(s, a)
  {
    assert [a][..0] == [];
    hide Next;
  }

  lemma Submitted(s: State, member: Member)
    requires member.status == DRAFT && s.t == Tables(map[0 := member], [], [], [], 0, 0) && s.callers == []
    ensures var s' := Next(s, Submit(0));
      && s'.t == Tables(map[0 := member.(status := AWAITING_PAYMENT)], [], [], [], 0, 0)
      && |s'.callers| == 1 && s'.clock == s.clock
  {
  }

  lemma PaidAtOnce(s: State, member: Member)
    requires member == Member(AWAITING_PAYMENT, Some(Plan(0, true, None)), None, None, None, None)
    requires s.t == Tables(map[0 := member], [], [], [], 0, 0) && s.clock == 0
    requires |s.callers| == 2 && s.callers[1] == Deciding(0, Some("g"), member)
    ensures Run(s, [DrawNumber, DrawReceipt, Finish(1, 0, Ticket(1, 1))]).t.payments == [Payment(0, Some("g"), 1, 0)]
  {
    RunOfThree(s, [DrawNumber, DrawReceipt, Finish(1, 0, Ticket(1, 1))]);
    NoneTaken("g");
    hide Run, Taken, Term;
    var s1 := Next(Next(s, DrawNumber), DrawReceipt);
    assert s1.t.members == s.t.members && s1.t.payments == [] && s1.callers == s.callers && s1.clock == 0;
    assert 1 in s1.t.numbers && 1 in s1.t.receipts;
    assert MayFinish(s1, 1, 0, Ticket(1, 1));
    assert Settle(s1.t, 0, member, Some("g"), 0, Ticket(1, 1)).1.Recorded?;
    hide Next, Settle;
    FirstOfTwo(s1, 1, 0, Ticket(1, 1));
    assert [] + [Payment(0, Some("g"), 1, 0)] == [Payment(0, Some("g"), 1, 0)];
  }

  lemma OnlyPayment(p: Payment)
    ensures OtherPayments([p], p.member) == []
  {
    assert [p][..0] == [];
  }

  lemma RemovedPayments(t: Tables, m: Id)
    ensures Removed(t, m).payments == OtherPayments(t.payments, m)
  {
  }
}
