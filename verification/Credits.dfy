/**
  What earns points in `WalletLaws`, and how many: referral awards, events and donations, and over
  whole runs what becomes of the ledger row of a donation.
 */
module Credits {
  import opened Wrappers
  import opened Sums
  import opened Wallet
  import opened WalletLaws
  import opened WalletLimits

  // ---- Points and rows ----

  /** The member's balance grows by `points`, and a credited row says why. */
  ghost predicate Credits(t: Tables, t': Tables, m: Id, points: int, reason: Reason, related: nat)
    requires m in t.accounts
  {
    && t'.accounts == t.accounts[m := t.accounts[m].(balance := t.accounts[m].balance + points)]
    && t'.ledger == t.ledger + [Entry(m, points, reason, Credited, related)]
  }

  /**
    A referral award is worth its points; under a cap, no more than what the member's referral rows
    leave of it. An award worth nothing, or to nobody, leaves no trace.
   */
  lemma AwardExactly(t: Tables, referrer: Id, referred: nat, points: int, cap: Option<int>)
    ensures var t' := AwardReferral(t, referrer, referred, points, cap);
      var worth := if cap.Some? && cap.value - ReferralTotal(t, referrer) < points
                   then cap.value - ReferralTotal(t, referrer) else points;
      && (worth > 0 && referrer in t.accounts ==> Credits(t, t', referrer, worth, ReferralApproved, referred))
      && (worth <= 0 || referrer !in t.accounts ==> t' == t)
      && t' == t.(accounts := t'.accounts, ledger := t'.ledger)
  {
    hide Sum;
  }

  // ---- Events ----

  ghost predicate OfRegistration(e: Entry, registration: nat) {
    e.reason == EventTargetCompleted && e.related == registration
  }

  /** The first row of the registration that is waiting or was rejected. */
  ghost predicate FirstOpen(ledger: seq<Entry>, registration: nat, i: nat) {
    && i < |ledger| && OfRegistration(ledger[i], registration) && ledger[i].status in {Pending, Rejected}
    && forall j :: 0 <= j < i && OfRegistration(ledger[j], registration) ==> ledger[j].status !in {Pending, Rejected}
  }

  ghost predicate NotCredited(ledger: seq<Entry>, registration: nat) {
    forall i :: 0 <= i < |ledger| && OfRegistration(ledger[i], registration) ==> ledger[i].status != Credited
  }

  lemma CreditFound(ledger: seq<Entry>, registration: nat)
    ensures FindFirst(ledger, IsEventCredit(registration)).None? <==> NotCredited(ledger, registration)
  {
    var found := FindFirst(ledger, IsEventCredit(registration));
    match found
    case Some(i) => assert IsEventCredit(registration)(ledger[i]);
    case None =>
      forall j | 0 <= j < |ledger| && OfRegistration(ledger[j], registration)
        ensures ledger[j].status != Credited
      {
        assert !IsEventCredit(registration)(ledger[j]);
      }
  }

  lemma OpenFound(ledger: seq<Entry>, registration: nat)
    ensures match FindFirst(ledger, IsEventOpen(registration))
      case Some(i) => FirstOpen(ledger, registration, i)
      case None => forall i :: 0 <= i < |ledger| && OfRegistration(ledger[i], registration) ==>
        ledger[i].status !in {Pending, Rejected}
  {
    var found := FindFirst(ledger, IsEventOpen(registration));
    if found.Some? { assert IsEventOpen(registration)(ledger[found.value]); }
    forall j | 0 <= j < |ledger| && (found.Some? ==> j < found.value) && OfRegistration(ledger[j], registration)
      ensures ledger[j].status !in {Pending, Rejected}
    {
      assert !IsEventOpen(registration)(ledger[j]);
    }
  }

  /** A registration that has been credited is not credited again. */
  lemma CreditedEventStays(t: Tables, m: Id, points: int, registration: nat, i: nat)
    requires i < |t.ledger| && OfRegistration(t.ledger[i], registration) && t.ledger[i].status == Credited
    ensures CreditEvent(t, m, points, registration) == t
  {
    CreditFound(t.ledger, registration);
    hide FindFirst;
  }

  /** Else an open row is credited, with its own points if it was waiting. */
  lemma OpenEventCredited(t: Tables, m: Id, points: int, registration: nat, i: nat)
    requires m in t.accounts && NotCredited(t.ledger, registration) && FirstOpen(t.ledger, registration, i)
    ensures var worth := if t.ledger[i].status == Pending then t.ledger[i].points else points;
      var t', before := CreditEvent(t, m, points, registration), t.accounts[m].balance;
      && t'.ledger == t.ledger[i := t.ledger[i].(status := Credited, points := worth)]
      && t'.accounts == t.accounts[m := t.accounts[m].(balance := before + if worth > 0 then worth else 0)]
      && t' == t.(accounts := t'.accounts, ledger := t'.ledger)
  {
    CreditFound(t.ledger, registration);
    OpenFound(t.ledger, registration);
    hide FindFirst;
  }

  /** Else a new row is, for points that are worth one. */
  lemma NewEventCredited(t: Tables, m: Id, points: int, registration: nat)
    requires m in t.accounts
    requires forall i :: 0 <= i < |t.ledger| ==>
      !(OfRegistration(t.ledger[i], registration) && t.ledger[i].status in {Pending, Rejected, Credited})
    ensures var t' := CreditEvent(t, m, points, registration);
      && (points > 0 ==> Credits(t, t', m, points, EventTargetCompleted, registration))
      && (points <= 0 ==> t' == t)
      && t' == t.(accounts := t'.accounts, ledger := t'.ledger)
  {
    CreditFound(t.ledger, registration);
    OpenFound(t.ledger, registration);
    hide FindFirst;
  }

  /** Evidence counts exactly if nobody has decided on the registration since it was read, and is then accepted. */
  lemma EvidenceExactly(t: Tables, registration: nat, seen: Wallet.Evidence, points: int)
    ensures var (t', error) := SubmitEvidence(t, registration, seen, points);
      && (error.None? <==>
            && registration < |t.registrations| && seen != EvidenceAccepted
            && t.registrations[registration].evidence == seen)
      && (error.Some? ==> t' == t)
      && (error.None? ==>
            var g := t.registrations[registration].(evidence := EvidenceAccepted);
            var u := t.(registrations := t.registrations[registration := g]);
            t'.registrations == u.registrations && t' == CreditEvent(u, g.member, points, registration))
      && (registration >= |t.registrations| ==> error == Some(NotFound))
      && (registration < |t.registrations| && error.Some? ==>
            error == Some(if seen == EvidenceAccepted then AlreadyAccepted else WrongStatus))
  {
    hide FindFirst;
  }

  /** New members have nothing, and new registrations no evidence. */
  lemma NewcomersExactly(t: Tables, m: Id)
    ensures m !in t.accounts ==> Opened(t, m) == t.(accounts := t.accounts[m := Account(0, 0, 0.0)])
    ensures m in t.accounts ==> Opened(t, m) == t
    ensures m in t.accounts ==> Enrolled(t, m) == t.(registrations := t.registrations + [Registration(m, NotSubmitted)])
    ensures m !in t.accounts ==> Enrolled(t, m) == t
  {
  }

  // ---- Donations, call by call ----

  /** The points of a donation: its percentage of the amount, rounded down. */
  lemma DonationWorth(amount: real, percent: nat)
    ensures var points := DonationPoints(amount, percent) as real;
      100.0 * points <= amount * percent as real < 100.0 * (points + 1.0)
  {
  }

  /** A claim is noted as waiting, and so are the points it is worth, if any; nothing is credited. */
  lemma ClaimExactly(t: Tables, m: Id, amount: real, percent: nat, points: int)
    requires m in t.accounts
    requires 100.0 * points as real <= amount * percent as real < 100.0 * (points as real + 1.0)
    ensures var t' := SubmitDonation(t, m, amount, percent);
      && t' == t.(donations := t.donations + [Donation(m, points, Waiting, None)], ledger := t'.ledger)
      && t'.ledger == t.ledger +
           if points > 0 then [Entry(m, points, DonationReceived, Pending, |t.donations|)] else []
  {
    DonationWorth(amount, percent);
    SameWorth(points, DonationPoints(amount, percent), amount * percent as real);
    hide DonationPoints;
    assert t.ledger + [] == t.ledger;
  }

  lemma SameWorth(x: int, y: int, z: real)
    requires 100.0 * x as real <= z < 100.0 * (x as real + 1.0) && 100.0 * y as real <= z < 100.0 * (y as real + 1.0)
    ensures x == y
  {
    assert (x as real) < y as real + 1.0 && (y as real) < x as real + 1.0;
  }

  /** Confirmed money is credited at once, unless its gateway payment has been recorded. */
  lemma ReceivedExactly(t: Tables, m: Id, amount: real, percent: nat, gateway: Option<string>, points: int)
    requires m in t.accounts
    requires 100.0 * points as real <= amount * percent as real < 100.0 * (points as real + 1.0)
    ensures var t' := RecordDonation(t, m, amount, percent, gateway);
      if gateway.Some? && exists i :: 0 <= i < |t.donations| && t.donations[i].gateway == gateway then t' == t
      else
        && t'.donations == t.donations + [Donation(m, points, Accepted, gateway)]
        && t' == t.(donations := t'.donations, accounts := t'.accounts, ledger := t'.ledger)
        && (points > 0 ==> Credits(t, t', m, points, DonationReceived, |t.donations|))
        && (points <= 0 ==> t'.accounts == t.accounts && t'.ledger == t.ledger)
  {
    DonationWorth(amount, percent);
    SameWorth(points, DonationPoints(amount, percent), amount * percent as real);
    hide DonationPoints;
    if gateway.Some? {
      var found := FindFirst(t.donations, HasGateway(gateway.value));
      if found.Some? {
        assert HasGateway(gateway.value)(t.donations[found.value]);
      } else {
        forall i | 0 <= i < |t.donations|
          ensures t.donations[i].gateway != gateway
        {
          assert !HasGateway(gateway.value)(t.donations[i]);
        }
      }
    }
    hide FindFirst;
  }

  // ---- Donations, over whole runs ----

  ghost predicate OfDonation(e: Entry, d: nat) { e.reason == DonationReceived && e.related == d }

  /** What the row of a donation says: waiting until its verdict has been carried out, then as the verdict. */
  ghost predicate RowFollows(e: Entry, donation: Donation, undecided: bool) {
    && e.member == donation.member && e.points == donation.points
    && e.status ==
         if donation.review == Waiting || undecided then Pending
         else if donation.review == Accepted then Credited else Rejected
  }

  /** Every donation worth points has one row, which follows its review; others have none. */
  ghost predicate Followed(t: Tables, d: nat) {
    && (forall i :: 0 <= i < |t.ledger| && OfDonation(t.ledger[i], d) ==>
          d < |t.donations| && t.donations[d].points > 0 && RowFollows(t.ledger[i], t.donations[d], d in t.resolving))
    && (forall i, j :: 0 <= i < j < |t.ledger| ==> !(OfDonation(t.ledger[i], d) && OfDonation(t.ledger[j], d)))
    && (d < |t.donations| && t.donations[d].points > 0 ==>
          exists i :: 0 <= i < |t.ledger| && OfDonation(t.ledger[i], d))
    && (d in t.resolving ==>
          && d < |t.donations| && t.donations[d].review != Waiting
          && (t.resolving[d] <==> t.donations[d].review == Accepted))
  }

  /** Nothing about the donation changes. */
  ghost predicate SameDonation(t: Tables, t': Tables, d: nat) {
    && (d < |t.donations| <==> d < |t'.donations|)
    && (d < |t.donations| ==> t'.donations[d] == t.donations[d])
    && (d in t.resolving <==> d in t'.resolving) && (d in t.resolving ==> t'.resolving[d] == t.resolving[d])
    && |t.ledger| <= |t'.ledger|
    && (forall i :: 0 <= i < |t.ledger| && (OfDonation(t.ledger[i], d) || OfDonation(t'.ledger[i], d)) ==>
          t'.ledger[i] == t.ledger[i])
    && (forall i :: |t.ledger| <= i < |t'.ledger| ==> !OfDonation(t'.ledger[i], d))
  }

  lemma SameFollowed(t: Tables, t': Tables, d: nat)
    requires Followed(t, d) && SameDonation(t, t', d)
    ensures Followed(t', d)
  {
    hide RowFollows;
    if d < |t.donations| && t.donations[d].points > 0 {
      var i :| 0 <= i < |t.ledger| && OfDonation(t.ledger[i], d);
      assert OfDonation(t'.ledger[i], d);
    }
  }

  /** Steps that are not about donations. */
  lemma OtherSteps(t: Tables, a: Action, d: nat)
    requires !(a.Claim? || a.Received? || a.Review? || a.Resolve?)
    ensures SameDonation(t, Apply(t, a), d)
  {
    hide Sum, SumReal, CreateError, Capped;
    if a.Evidence? && a.registration < |t.registrations| {
      var open := FindFirst(t.ledger, IsEventOpen(a.registration));
      if open.Some? { assert IsEventOpen(a.registration)(t.ledger[open.value]); }
      hide FindFirst;
    } else {
      hide CreditEvent, FindFirst;
    }
  }

  /** A new donation comes with its row, if it is worth one. */
  lemma AddedFollowed(t: Tables, t': Tables, d: nat, donation: Donation)
    requires Followed(t, d) && t'.resolving == t.resolving
    requires t'.donations == t.donations + [donation]
    requires donation.points <= 0 ==> t'.ledger == t.ledger
    requires donation.points > 0 ==>
      exists e :: t'.ledger == t.ledger + [e] && OfDonation(e, |t.donations|) && RowFollows(e, donation, false)
    ensures Followed(t', d)
  {
    if d == |t.donations| {
      assert d !in t.resolving;
      assert forall i :: 0 <= i < |t.ledger| ==> !OfDonation(t.ledger[i], d);
      if donation.points > 0 { assert OfDonation(t'.ledger[|t.ledger|], d); }
      hide RowFollows;
    } else {
      hide RowFollows;
      SameFollowed(t, t', d);
    }
  }

  lemma DonationFollowed(t: Tables, a: Action, d: nat)
    requires Followed(t, d) && (a.Claim? || a.Received?)
    ensures Followed(Apply(t, a), d)
  {
    hide DonationPoints, Followed, FindFirst;
    var t' := Apply(t, a);
    if t' != t {
      var points := DonationPoints(a.amount, a.percent);
      var donation := if a.Claim? then Donation(a.member, points, Waiting, None)
                      else Donation(a.member, points, Accepted, a.gateway);
      if points > 0 {
        var e := Entry(a.member, points, DonationReceived, if a.Claim? then Pending else Credited, |t.donations|);
        assert t'.ledger == t.ledger + [e];
      }
      AddedFollowed(t, t', d, donation);
    }
  }

  /** A verdict leaves the row as it is: it is now to be carried out. */
  lemma ReviewFollowed(t: Tables, k: nat, accept: bool, d: nat)
    requires Followed(t, d)
    ensures Followed(ReviewDonation(t, k, accept).0, d)
  {
    var t' := ReviewDonation(t, k, accept).0;
    if t' != t && k == d {
      forall i | 0 <= i < |t'.ledger| && OfDonation(t'.ledger[i], d)
        ensures RowFollows(t'.ledger[i], t'.donations[d], true)
      {
        assert RowFollows(t.ledger[i], t.donations[d], d in t.resolving);
      }
    } else {
      SameFollowed(t, t', d);
    }
  }

  lemma ResolveFollowed(t: Tables, k: nat, d: nat)
    requires Followed(t, d) && Linked(t)
    ensures Followed(ResolveDonation(t, k), d)
  {
    var t' := ResolveDonation(t, k);
    var pending := FindFirst(t.ledger, IsDonationPending(k));
    if pending.Some? { assert IsDonationPending(k)(t.ledger[pending.value]); }
    if k == d && d in t.resolving {
      assert t.donations[d].member in t.accounts;
      hide Linked;
      if pending.None? {
        forall i | 0 <= i < |t.ledger|
          ensures !OfDonation(t.ledger[i], d)
        {
          assert !IsDonationPending(d)(t.ledger[i]);
        }
      } else {
        ResolvedRow(t, d, pending.value);
      }
    } else {
      hide Linked, FindFirst, Followed;
      SameFollowed(t, t', d);
    }
  }

  lemma ResolvedRow(t: Tables, d: nat, p: nat)
    requires Followed(t, d) && d in t.resolving && t.donations[d].member in t.accounts
    requires FindFirst(t.ledger, IsDonationPending(d)) == Some(p) && OfDonation(t.ledger[p], d)
    ensures Followed(ResolveDonation(t, d), d)
  {
    hide FindFirst;
    var t' := ResolveDonation(t, d);
    assert RowFollows(t.ledger[p], t.donations[d], true);
    assert OfDonation(t'.ledger[p], d) && RowFollows(t'.ledger[p], t'.donations[d], false);
    assert forall i :: 0 <= i < |t'.ledger| && OfDonation(t'.ledger[i], d) ==> i == p by {
      assert forall i :: 0 <= i < |t.ledger| && i != p ==> t'.ledger[i] == t.ledger[i];
    }
  }

  lemma StepFollowed(t: Tables, a: Action, d: nat)
    requires Followed(t, d) && Linked(t)
    ensures Followed(Apply(t, a), d)
  {
    if a.Claim? || a.Received? {
      DonationFollowed(t, a, d);
    } else if a.Review? {
      ReviewFollowed(t, a.donation, a.accept, d);
    } else if a.Resolve? {
      ResolveFollowed(t, a.donation, d);
    } else {
      OtherSteps(t, a, d);
      hide Apply, Followed;
      SameFollowed(t, Apply(t, a), d);
    }
  }

  /**
    In every run, a donation worth points has exactly one ledger row, for its member and its points. The
    row waits until the verdict has been carried out; then it is credited exactly if the donation was
    accepted, and else rejected.
   */
  lemma {:induction false} DonationsFollow(t: Tables, actions: seq<Action>, d: nat)
    requires Inv(t) && Followed(t, d)
    ensures Followed(Run(t, actions), d)
  {
    if actions != [] {
      var n := |actions| - 1;
      assert Run(t, actions) == Apply(Run(t, actions[..n]), actions[n]);
      hide Run, Apply, Followed, Inv;
      DonationsFollow(t, actions[..n], d);
      WalletConserved(t, actions[..n]);
      LinkedOf(Run(t, actions[..n]));
      StepFollowed(Run(t, actions[..n]), actions[n], d);
    }
  }

  lemma LinkedOf(t: Tables)
    requires Inv(t)
    ensures Linked(t)
  {
  }

  // ---- Verdicts ----

  /** The first verdict counts: a donation is decided exactly if it was waiting, and as the verdict says. */
  lemma ReviewExactly(t: Tables, d: nat, accept: bool)
    ensures var (t', error) := ReviewDonation(t, d, accept);
      && (error.None? <==> d < |t.donations| && t.donations[d].review == Waiting)
      && (error.None? ==>
            && t'.donations == t.donations[d := t.donations[d].(review := if accept then Accepted else Refused)]
            && t'.resolving == t.resolving[d := accept])
      && t' == t.(donations := t'.donations, resolving := t'.resolving)
      && (error.Some? ==> t' == t && error == Some(if d < |t.donations| then AlreadyReviewed else NotFound))
  {
  }

  /** What a step does to a donation: only a verdict on a waiting one changes it. */
  lemma VerdictStep(t: Tables, a: Action, d: nat)
    requires d < |t.donations|
    ensures d < |Apply(t, a).donations|
    ensures Apply(t, a).donations[d] ==
      if a.Review? && a.donation == d && t.donations[d].review == Waiting
      then t.donations[d].(review := if a.accept then Accepted else Refused) else t.donations[d]
  {
    hide Sum, SumReal, CreateError, Capped, DonationPoints, FindFirst;
  }

  /** A verdict is final. */
  lemma {:induction false} VerdictStays(t: Tables, actions: seq<Action>, d: nat)
    requires d < |t.donations| && t.donations[d].review != Waiting
    ensures d < |Run(t, actions).donations| && Run(t, actions).donations[d] == t.donations[d]
  {
    if actions != [] {
      VerdictStays(t, actions[..|actions| - 1], d);
      VerdictStep(Run(t, actions[..|actions| - 1]), actions[|actions| - 1], d);
      hide Apply;
    }
  }
}
