/** What repeated deliveries and reviews cannot do: exceed the referral cap, or credit anything twice. */
module WalletLimits {
  import opened Wrappers
  import opened Sums
  import opened Wallet
  import opened WalletLaws

  // ---- The referral cap ----

  /** A waiting donation or event row was decided in place. */
  ghost predicate Decided(e: Entry, e': Entry) {
    && (e.reason == DonationReceived || e.reason == EventTargetCompleted)
    && e'.reason == e.reason && e'.related == e.related && e'.member == e.member
  }

  ghost function ReferralTotal(t: Tables, m: Id): int { Sum(t.ledger, ReferralBy(m)) }

  lemma CreditReferralTotal(t: Tables, k: Id, points: int, reason: Reason, related: nat, m: Id)
    requires k in t.accounts
    ensures ReferralTotal(Credit(t, k, points, reason, related), m)
         == ReferralTotal(t, m) + if k == m && reason == ReferralApproved then points else 0
  {
    SumAdd(t.ledger, ReferralBy(m), Entry(k, points, reason, Credited, related));
  }

  lemma DecidedReferralTotal(ledger: seq<Entry>, i: nat, e: Entry, m: Id)
    requires i < |ledger| && Decided(ledger[i], e)
    ensures Sum(ledger[i := e], ReferralBy(m)) == Sum(ledger, ReferralBy(m))
  {
    SumReplace(ledger, ReferralBy(m), i, e);
  }

  lemma EventReferralTotal(t: Tables, k: Id, points: int, registration: nat, m: Id)
    ensures ReferralTotal(CreditEvent(t, k, points, registration), m) == ReferralTotal(t, m)
  {
    hide Sum;
    if k in t.accounts && FindFirst(t.ledger, IsEventCredit(registration)).None? {
      match FindFirst(t.ledger, IsEventOpen(registration))
      case None => CreditReferralTotal(t, k, points, EventTargetCompleted, registration, m);
      case Some(i) =>
        var p := if t.ledger[i].status == Pending then t.ledger[i].points else points;
        DecidedReferralTotal(t.ledger, i, t.ledger[i].(status := Credited, points := p), m);
    }
  }

  /** Only a referral award changes the referral total, and within its cap. */
  lemma ReferralStep(t: Tables, a: Action, m: Id)
    ensures a.Referral? && a.cap.Some? ==>
      ReferralTotal(Apply(t, a), m) <= if ReferralTotal(t, m) > a.cap.value then ReferralTotal(t, m) else a.cap.value
    ensures !a.Referral? ==> ReferralTotal(Apply(t, a), m) == ReferralTotal(t, m)
  {
    hide Sum, SumReal, CreateError, DonationPoints, Available;
    match a
    case Referral(referrer, referred, points, cap) =>
      if referrer in t.accounts {
        CreditReferralTotal(t, referrer, Capped(t, referrer, points, cap), ReferralApproved, referred, m);
      }
    case Evidence(registration, seen, points) =>
      if registration < |t.registrations| {
        var g := t.registrations[registration].(evidence := EvidenceAccepted);
        EventReferralTotal(t.(registrations := t.registrations[registration := g]), g.member, points, registration, m);
      }
    case Claim(k, amount, percent) =>
      var e := Entry(k, DonationPoints(amount, percent), DonationReceived, Pending, |t.donations|);
      SumAdd(t.ledger, ReferralBy(m), e);
    case Received(k, amount, percent, gateway) =>
      var points := DonationPoints(amount, percent);
      if k in t.accounts {
        CreditReferralTotal(t.(donations := t.donations + [Donation(k, points, Accepted, gateway)]),
                            k, points, DonationReceived, |t.donations|, m);
      }
    case Resolve(d) =>
      var found := FindFirst(t.ledger, IsDonationPending(d));
      if found.Some? {
        DecidedReferralTotal(t.ledger, found.value, t.ledger[found.value].(status := Credited), m);
        DecidedReferralTotal(t.ledger, found.value, t.ledger[found.value].(status := Rejected), m);
      }
    case Pay(r, _) => if r < |t.requests| { PaidReferralTotal(t, r, m); }
    case Processed(r) => if r < |t.requests| { PaidReferralTotal(t, r, m); }
    case _ =>
  }

  lemma PaidReferralTotal(t: Tables, r: nat, m: Id)
    requires r < |t.requests|
    ensures ReferralTotal(Paid(t, r), m) == ReferralTotal(t, m)
  {
    var q := t.requests[r];
    SumAdd(t.ledger, ReferralBy(m), Entry(q.member, 0 - q.points, WithdrawalConverted, Converted, r));
  }

  /** Under a fixed cap, no run brings a member's referral points above it. */
  lemma {:induction false} CapRespected(t: Tables, actions: seq<Action>, m: Id, cap: int)
    requires ReferralTotal(t, m) <= cap
    requires forall i :: 0 <= i < |actions| && actions[i].Referral? ==> actions[i].cap == Some(cap)
    ensures ReferralTotal(Run(t, actions), m) <= cap
  {
    if actions != [] {
      hide Apply, ReferralTotal;
      CapRespected(t, actions[..|actions| - 1], m, cap);
      ReferralStep(Run(t, actions[..|actions| - 1]), actions[|actions| - 1], m);
    }
  }

  /** An award credits all its points, or as many as fill the cap exactly, or none when the cap is used up. */
  lemma CapFilled(t: Tables, referrer: Id, referred: nat, points: nat, cap: int)
    requires referrer in t.accounts
    ensures var before := ReferralTotal(t, referrer);
      var after := ReferralTotal(AwardReferral(t, referrer, referred, points, Some(cap)), referrer);
      after == if before + points <= cap then before + points else if before <= cap then cap else before
  {
    hide Sum;
    var p := Capped(t, referrer, points, Some(cap));
    CreditReferralTotal(t, referrer, p, ReferralApproved, referred, referrer);
  }

  // ---- Nothing is credited twice ----

  /** One ledger row per donation, one credited row per event registration, one donation per gateway payment. */
  ghost predicate Once(t: Tables) {
    && EventOnce(t.ledger) && DonationOnce(t.ledger, |t.donations|) && GatewayOnce(t.donations)
  }

  ghost predicate EventOnce(ledger: seq<Entry>) {
    forall i, j :: 0 <= i < j < |ledger| && IsCreditedEvent(ledger[i]) && IsCreditedEvent(ledger[j]) ==>
      ledger[i].related != ledger[j].related
  }

  predicate IsCreditedEvent(e: Entry) { e.reason == EventTargetCompleted && e.status == Credited }

  ghost predicate DonationOnce(ledger: seq<Entry>, donations: nat) {
    && (forall i :: 0 <= i < |ledger| && ledger[i].reason == DonationReceived ==> ledger[i].related < donations)
    && (forall i, j :: 0 <= i < j < |ledger| && ledger[i].reason == ledger[j].reason == DonationReceived ==>
          ledger[i].related != ledger[j].related)
  }

  ghost predicate GatewayOnce(donations: seq<Donation>) {
    forall i, j :: 0 <= i < j < |donations| && donations[i].gateway.Some? ==>
      donations[i].gateway != donations[j].gateway
  }

  lemma EventNotCredited(ledger: seq<Entry>, registration: nat)
    requires FindFirst(ledger, IsEventCredit(registration)).None?
    ensures forall j :: 0 <= j < |ledger| && IsCreditedEvent(ledger[j]) ==> ledger[j].related != registration
  {
    forall j | 0 <= j < |ledger| && IsCreditedEvent(ledger[j]) ensures ledger[j].related != registration {
      assert !IsEventCredit(registration)(ledger[j]);
    }
  }

  lemma EventKeepsOnce(t: Tables, k: Id, points: int, registration: nat)
    requires Once(t)
    ensures Once(CreditEvent(t, k, points, registration))
  {
    if k in t.accounts && FindFirst(t.ledger, IsEventCredit(registration)).None? {
      EventNotCredited(t.ledger, registration);
      var open := FindFirst(t.ledger, IsEventOpen(registration));
      if open.Some? { assert IsEventOpen(registration)(t.ledger[open.value]); }
      hide FindFirst, GatewayOnce;
    }
  }

  /** Accepted evidence for points ends in a credited row, whatever rows the registration had. */
  lemma EvidenceCredits(t: Tables, k: Id, points: int, registration: nat)
    requires k in t.accounts && points > 0
    ensures FindFirst(CreditEvent(t, k, points, registration).ledger, IsEventCredit(registration)).Some?
  {
    var t' := CreditEvent(t, k, points, registration);
    var credited := FindFirst(t.ledger, IsEventCredit(registration));
    var open := FindFirst(t.ledger, IsEventOpen(registration));
    if credited.None? {
      var i := if open.Some? then open.value else |t.ledger|;
      assert open.Some? ==> IsEventOpen(registration)(t.ledger[i]);
      assert IsEventCredit(registration)(t'.ledger[i]);
    }
  }

  lemma ReceivedKeepsOnce(t: Tables, a: Action)
    requires Once(t) && (a.Claim? || a.Received?)
    ensures Once(Apply(t, a))
  {
    hide DonationPoints;
    if a.Received? && a.gateway.Some? {
      assert FindFirst(t.donations, HasGateway(a.gateway.value)).None? ==>
        forall j :: 0 <= j < |t.donations| ==> t.donations[j].gateway != a.gateway by {
        forall j | 0 <= j < |t.donations| && FindFirst(t.donations, HasGateway(a.gateway.value)).None?
          ensures t.donations[j].gateway != a.gateway
        {
          assert !HasGateway(a.gateway.value)(t.donations[j]);
        }
      }
    }
  }

  lemma ResolveKeepsOnce(t: Tables, d: nat)
    requires Once(t)
    ensures Once(ResolveDonation(t, d))
  {
    var found := FindFirst(t.ledger, IsDonationPending(d));
    if found.Some? { assert IsDonationPending(d)(t.ledger[found.value]); }
  }

  /** A resolved review leaves no row of its donation waiting, and credits it exactly if it was accepted. */
  lemma ResolveDecides(t: Tables, d: nat)
    requires Once(t) && Linked(t) && d in t.resolving
    ensures FindFirst(ResolveDonation(t, d).ledger, IsDonationPending(d)).None?
    ensures d !in ResolveDonation(t, d).resolving || d >= |t.donations|
    ensures FindFirst(t.ledger, IsDonationPending(d)).Some? ==>
      exists i :: 0 <= i < |t.ledger| && t.ledger[i].reason == DonationReceived && t.ledger[i].related == d
        && ResolveDonation(t, d).ledger[i].status == if t.resolving[d] then Credited else Rejected
  {
    var t', found := ResolveDonation(t, d), FindFirst(t.ledger, IsDonationPending(d));
    if found.Some? {
      var i := found.value;
      assert IsDonationPending(d)(t.ledger[i]) && EntryLinked(t.ledger[i], t.donations, t.registrations);
      forall j | 0 <= j < |t'.ledger|
        ensures !IsDonationPending(d)(t'.ledger[j])
      {
      }
    }
  }

  lemma ApplyKeepsOnce(t: Tables, a: Action)
    requires Once(t)
    ensures Once(Apply(t, a))
  {
    hide Sum, SumReal, CreateError, DonationPoints, Available, Capped, ComputeCharge, Gross;
    match a
    case Evidence(registration, seen, points) =>
      if registration < |t.registrations| {
        var g := t.registrations[registration].(evidence := EvidenceAccepted);
        EventKeepsOnce(t.(registrations := t.registrations[registration := g]), g.member, points, registration);
        hide CreditEvent;
      }
    case Claim(_, _, _) => ReceivedKeepsOnce(t, a);
    case Received(_, _, _, _) => ReceivedKeepsOnce(t, a);
    case Resolve(d) => ResolveKeepsOnce(t, d);
    case _ =>
  }

  /** Redelivered payments, repeated evidence and repeated reviews credit nothing twice. */
  lemma {:induction false} CreditedOnce(t: Tables, actions: seq<Action>)
    requires Once(t)
    ensures Once(Run(t, actions))
  {
    if actions != [] {
      CreditedOnce(t, actions[..|actions| - 1]);
      ApplyKeepsOnce(Run(t, actions[..|actions| - 1]), actions[|actions| - 1]);
    }
  }
}
