/** Conservation and spending laws of the points wallet, over every run. */
module WalletLaws {
  import opened Wrappers
  import opened Sums
  import opened Wallet

  /** Operations in any order, repeated or not. */
  datatype Action =
    | Open(member: Id)
    | Enroll(member: Id)
    | Referral(referrer: Id, referred: nat, points: nat, cap: Option<int>)
    | Evidence(registration: nat, seen: Wallet.Evidence, points: nat)
    | Claim(member: Id, amount: real, percent: nat)
    | Received(member: Id, amount: real, percent: nat, gateway: Option<string>)
    | Review(donation: nat, accept: bool)
    | Resolve(donation: nat)
    | Create(member: Id, points: nat, kyc: bool, complete: bool, settings: Settings, now: int)
    | Pay(request: nat, eligible: bool)
    | Process(request: nat, payout: string, eligible: bool)
    | Processed(request: nat)      // its payout id may have been looked up any time before
    | Failed(payout: string)

  function Apply(t: Tables, a: Action): Tables {
    match a
    case Open(m) => Opened(t, m)
    case Enroll(m) => Enrolled(t, m)
    case Referral(referrer, referred, points, cap) => AwardReferral(t, referrer, referred, points, cap)
    case Evidence(registration, seen, points) => SubmitEvidence(t, registration, seen, points).0
    case Claim(m, amount, percent) => SubmitDonation(t, m, amount, percent)
    case Received(m, amount, percent, gateway) => RecordDonation(t, m, amount, percent, gateway)
    case Review(d, accept) => ReviewDonation(t, d, accept).0
    case Resolve(d) => ResolveDonation(t, d)
    case Create(m, points, kyc, complete, s, now) => CreateRequest(t, m, points, kyc, complete, s, now).0
    case Pay(r, eligible) => MarkPaid(t, r, eligible).0
    case Process(r, payout, eligible) => MarkProcessing(t, r, payout, eligible).0
    case Processed(r) => ConfirmPayout(t, r)
    case Failed(payout) => FailPayout(t, payout)
  }

  function Run(t: Tables, actions: seq<Action>): Tables {
    if actions == [] then t else Apply(Run(t, actions[..|actions| - 1]), actions[|actions| - 1])
  }

  // ---- Conservation ----

  /** The cached columns of one member agree with the ledger and the requests. */
  ghost predicate Agrees(a: Account, ledger: seq<Entry>, requests: seq<Request>, m: Id) {
    && a.balance == Sum(ledger, EarnedBy(m))
    && a.converted == Sum(requests, PaidBy(m)) == -Sum(ledger, ConvertedBy(m))
    && a.withdrawn == SumReal(requests, NetPaidBy(m))
  }

  ghost predicate Conserved(t: Tables) {
    forall m :: m in t.accounts ==> Agrees(t.accounts[m], t.ledger, t.requests, m)
  }

  /** Rows refer to members that exist; a waiting row belongs to the member of its donation or registration. */
  ghost predicate Linked(t: Tables) {
    && (forall i :: 0 <= i < |t.requests| ==> t.requests[i].member in t.accounts)
    && (forall i :: 0 <= i < |t.donations| ==> t.donations[i].member in t.accounts)
    && (forall i :: 0 <= i < |t.registrations| ==> t.registrations[i].member in t.accounts)
    && (forall i :: 0 <= i < |t.ledger| ==>
          t.ledger[i].member in t.accounts && EntryLinked(t.ledger[i], t.donations, t.registrations))
  }

  ghost predicate EntryLinked(e: Entry, donations: seq<Donation>, registrations: seq<Registration>) {
    && (e.reason == DonationReceived ==>
          e.related < |donations| && donations[e.related].member == e.member && e.points > 0)
    && (e.reason == EventTargetCompleted ==>
          e.related < |registrations| && registrations[e.related].member == e.member && e.points >= 0)
  }

  ghost predicate Inv(t: Tables) { Linked(t) && Conserved(t) }

  /** What one entry adds to the earned and converted totals of `m`. */
  lemma EntryAdded(t: Tables, e: Entry, m: Id)
    ensures Sum(t.ledger + [e], EarnedBy(m)) == Sum(t.ledger, EarnedBy(m)) + EarnedBy(m)(e)
    ensures Sum(t.ledger + [e], ConvertedBy(m)) == Sum(t.ledger, ConvertedBy(m)) + ConvertedBy(m)(e)
  {
    SumAdd(t.ledger, EarnedBy(m), e);
    SumAdd(t.ledger, ConvertedBy(m), e);
  }

  lemma EntryReplaced(t: Tables, i: nat, e: Entry, m: Id)
    requires i < |t.ledger|
    ensures Sum(t.ledger[i := e], EarnedBy(m)) == Sum(t.ledger, EarnedBy(m)) - EarnedBy(m)(t.ledger[i]) + EarnedBy(m)(e)
    ensures Sum(t.ledger[i := e], ConvertedBy(m))
         == Sum(t.ledger, ConvertedBy(m)) - ConvertedBy(m)(t.ledger[i]) + ConvertedBy(m)(e)
  {
    SumReplace(t.ledger, EarnedBy(m), i, e);
    SumReplace(t.ledger, ConvertedBy(m), i, e);
  }

  lemma RequestAdded(t: Tables, q: Request, m: Id)
    ensures Sum(t.requests + [q], PaidBy(m)) == Sum(t.requests, PaidBy(m)) + PaidBy(m)(q)
    ensures Sum(t.requests + [q], LockedBy(m)) == Sum(t.requests, LockedBy(m)) + LockedBy(m)(q)
    ensures SumReal(t.requests + [q], NetPaidBy(m)) == SumReal(t.requests, NetPaidBy(m)) + NetPaidBy(m)(q)
  {
    SumAdd(t.requests, PaidBy(m), q);
    SumAdd(t.requests, LockedBy(m), q);
    SumRealAdd(t.requests, NetPaidBy(m), q);
  }

  lemma RequestReplaced(t: Tables, i: nat, q: Request, m: Id)
    requires i < |t.requests|
    ensures Sum(t.requests[i := q], PaidBy(m)) == Sum(t.requests, PaidBy(m)) - PaidBy(m)(t.requests[i]) + PaidBy(m)(q)
    ensures Sum(t.requests[i := q], LockedBy(m))
         == Sum(t.requests, LockedBy(m)) - LockedBy(m)(t.requests[i]) + LockedBy(m)(q)
    ensures SumReal(t.requests[i := q], NetPaidBy(m))
         == SumReal(t.requests, NetPaidBy(m)) - NetPaidBy(m)(t.requests[i]) + NetPaidBy(m)(q)
  {
    SumReplace(t.requests, PaidBy(m), i, q);
    SumReplace(t.requests, LockedBy(m), i, q);
    SumRealReplace(t.requests, NetPaidBy(m), i, q);
  }

  lemma CreditKeeps(t: Tables, m: Id, points: int, reason: Reason, related: nat)
    requires Inv(t) && reason != WithdrawalConverted
    requires EntryLinked(Entry(m, points, reason, Credited, related), t.donations, t.registrations)
    ensures Inv(Credit(t, m, points, reason, related))
  {
    var e := Entry(m, points, reason, Credited, related);
    hide Sum, SumReal;
    forall k | k in t.accounts
      ensures m in t.accounts ==>
        Agrees(Credit(t, m, points, reason, related).accounts[k], t.ledger + [e], t.requests, k)
    {
      EntryAdded(t, e, k);
    }
  }

  /** A waiting row that is accepted, with the balance raised by its points. */
  lemma AcceptKeeps(t: Tables, i: nat, e: Entry, accounts: map<Id, Account>)
    requires Inv(t) && i < |t.ledger|
    requires t.ledger[i].status == Pending || t.ledger[i].status == Rejected
    requires e == t.ledger[i].(status := Credited, points := e.points) && EntryLinked(e, t.donations, t.registrations)
    requires e.member in t.accounts
    requires var a := t.accounts[e.member];
      accounts == t.accounts[e.member := a.(balance := a.balance + e.points)]
    ensures Inv(t.(ledger := t.ledger[i := e], accounts := accounts))
  {
    hide Sum, SumReal;
    forall k | k in t.accounts
      ensures Agrees(accounts[k], t.ledger[i := e], t.requests, k)
    {
      EntryReplaced(t, i, e, k);
    }
  }

  lemma RefuseKeeps(t: Tables, i: nat)
    requires Inv(t) && i < |t.ledger| && t.ledger[i].status == Pending
    ensures Inv(t.(ledger := t.ledger[i := t.ledger[i].(status := Rejected)]))
  {
    var e := t.ledger[i].(status := Rejected);
    hide Sum, SumReal;
    forall k | k in t.accounts
      ensures Agrees(t.accounts[k], t.ledger[i := e], t.requests, k)
    {
      EntryReplaced(t, i, e, k);
    }
  }

  lemma WaitKeeps(t: Tables, e: Entry)
    requires Inv(t) && e.member in t.accounts && e.status == Pending && EntryLinked(e, t.donations, t.registrations)
    ensures Inv(t.(ledger := t.ledger + [e]))
  {
    hide Sum, SumReal;
    forall k | k in t.accounts
      ensures Agrees(t.accounts[k], t.ledger + [e], t.requests, k)
    {
      EntryAdded(t, e, k);
    }
  }

  lemma NewRequestKeeps(t: Tables, q: Request)
    requires Inv(t) && q.member in t.accounts && q.status != PAID
    ensures Inv(t.(requests := t.requests + [q]))
  {
    hide Sum, SumReal;
    forall k | k in t.accounts
      ensures Agrees(t.accounts[k], t.ledger, t.requests + [q], k)
    {
      RequestAdded(t, q, k);
    }
  }

  lemma OpenRequestKeeps(t: Tables, i: nat, q: Request)
    requires Inv(t) && i < |t.requests| && q.member == t.requests[i].member
    requires t.requests[i].status != PAID && q.status != PAID
    ensures Inv(t.(requests := t.requests[i := q]))
  {
    hide Sum, SumReal;
    forall k | k in t.accounts
      ensures Agrees(t.accounts[k], t.ledger, t.requests[i := q], k)
    {
      RequestReplaced(t, i, q, k);
    }
  }

  lemma PaidAgrees(t: Tables, r: nat, k: Id)
    requires Conserved(t) && r < |t.requests| && t.requests[r].status != PAID
    requires t.requests[r].member in t.accounts && k in t.accounts
    ensures Agrees(Paid(t, r).accounts[k], Paid(t, r).ledger, Paid(t, r).requests, k)
  {
    var q := t.requests[r].(status := PAID);
    hide Sum, SumReal;
    EntryAdded(t, Entry(q.member, 0 - q.points, WithdrawalConverted, Converted, r), k);
    RequestReplaced(t, r, q, k);
  }

  lemma PaidKeeps(t: Tables, r: nat)
    requires Inv(t) && r < |t.requests| && t.requests[r].status != PAID
    ensures Inv(Paid(t, r))
  {
    hide Sum, SumReal, Agrees;
    forall k | k in t.accounts
      ensures Agrees(Paid(t, r).accounts[k], Paid(t, r).ledger, Paid(t, r).requests, k)
    {
      PaidAgrees(t, r, k);
    }
  }

  lemma EvidenceKeeps(t: Tables, registration: nat, points: nat)
    requires Inv(t) && registration < |t.registrations|
    ensures Inv(CreditEvent(t, t.registrations[registration].member, points, registration))
  {
    hide Sum, SumReal, Conserved;
    var m := t.registrations[registration].member;
    if FindFirst(t.ledger, IsEventCredit(registration)).None? {
      match FindFirst(t.ledger, IsEventOpen(registration))
      case None =>
        if points > 0 { CreditKeeps(t, m, points, EventTargetCompleted, registration); }
      case Some(i) =>
        var p := if t.ledger[i].status == Pending then t.ledger[i].points else points;
        var e := t.ledger[i].(status := Credited, points := p);
        assert EntryLinked(t.ledger[i], t.donations, t.registrations);
        var accounts := t.accounts[m := t.accounts[m].(balance := t.accounts[m].balance + p)];
        AcceptKeeps(t, i, e, accounts);
        assert p == 0 ==> accounts == t.accounts;
    }
  }

  /** More donations or registrations, or new verdicts on them, leave the money alone. */
  lemma OtherRowsKeep(t: Tables, t': Tables)
    requires Inv(t) && t'.accounts == t.accounts && t'.ledger == t.ledger && t'.requests == t.requests
    requires |t'.donations| >= |t.donations| && |t'.registrations| >= |t.registrations|
    requires forall i :: 0 <= i < |t.donations| ==> t'.donations[i].member == t.donations[i].member
    requires forall i :: |t.donations| <= i < |t'.donations| ==> t'.donations[i].member in t.accounts
    requires forall i :: 0 <= i < |t.registrations| ==> t'.registrations[i].member == t.registrations[i].member
    requires forall i :: |t.registrations| <= i < |t'.registrations| ==> t'.registrations[i].member in t.accounts
    ensures Inv(t')
  {
    hide Sum, SumReal, Agrees;
  }

  lemma ResolveKeeps(t: Tables, d: nat)
    requires Inv(t)
    ensures Inv(ResolveDonation(t, d))
  {
    hide Sum, SumReal, Conserved;
    if d in t.resolving && d < |t.donations| {
      OtherRowsKeep(t, t.(resolving := t.resolving - {d}));
      var u := t.(resolving := t.resolving - {d});
      match FindFirst(t.ledger, IsDonationPending(d))
      case None =>
      case Some(i) =>
        assert EntryLinked(t.ledger[i], t.donations, t.registrations);
        if t.resolving[d] {
          var e := t.ledger[i].(status := Credited);
          var a := u.accounts[e.member];
          AcceptKeeps(u, i, e, u.accounts[e.member := a.(balance := a.balance + e.points)]);
        } else {
          RefuseKeeps(u, i);
        }
    }
  }

  lemma DonationKeeps(t: Tables, a: Action)
    requires Inv(t) && (a.Claim? || a.Received?)
    ensures Inv(Apply(t, a))
  {
    hide Sum, SumReal, Conserved, DonationPoints;
    if a.member in t.accounts {
      var points := DonationPoints(a.amount, a.percent);
      var d := if a.Claim? then Donation(a.member, points, Waiting, None)
               else Donation(a.member, points, Accepted, a.gateway);
      var added := t.(donations := t.donations + [d]);
      OtherRowsKeep(t, added);
      if points > 0 {
        if a.Claim? {
          WaitKeeps(added, Entry(a.member, points, DonationReceived, Pending, |t.donations|));
        } else {
          CreditKeeps(added, a.member, points, DonationReceived, |t.donations|);
        }
      }
    }
  }

  /** A member that does not exist yet has no rows. */
  lemma {:induction false} NoRows(ledger: seq<Entry>, requests: seq<Request>, m: Id)
    requires forall i :: 0 <= i < |ledger| ==> ledger[i].member != m
    requires forall i :: 0 <= i < |requests| ==> requests[i].member != m
    ensures Sum(ledger, EarnedBy(m)) == 0 && Sum(ledger, ConvertedBy(m)) == 0
    ensures Sum(requests, PaidBy(m)) == 0 && SumReal(requests, NetPaidBy(m)) == 0.0
  {
    if ledger != [] {
      NoRows(ledger[..|ledger| - 1], requests, m);
    } else if requests != [] {
      NoRows(ledger, requests[..|requests| - 1], m);
    }
  }

  lemma OpenKeeps(t: Tables, m: Id)
    requires Inv(t)
    ensures Inv(Opened(t, m))
  {
    if m !in t.accounts {
      assert forall i :: 0 <= i < |t.ledger| ==> t.ledger[i].member in t.accounts;
      NoRows(t.ledger, t.requests, m);
      hide Sum, SumReal, EntryLinked;
    }
  }

  lemma ApplyKeepsInv(t: Tables, a: Action)
    requires Inv(t)
    ensures Inv(Apply(t, a))
  {
    hide Sum, SumReal, Conserved, Linked, Gross, ComputeCharge, Capped, Paid, CreditEvent, CreateError, Credit;
    match a
    case Open(m) => OpenKeeps(t, m);
    case Enroll(m) => if m in t.accounts { OtherRowsKeep(t, Apply(t, a)); }
    case Referral(referrer, referred, points, cap) =>
      CreditKeeps(t, referrer, Capped(t, referrer, points, cap), ReferralApproved, referred);
    case Evidence(registration, seen, points) =>
      if registration < |t.registrations| {
        var g := t.registrations[registration].(evidence := EvidenceAccepted);
        var u := t.(registrations := t.registrations[registration := g]);
        OtherRowsKeep(t, u);
        EvidenceKeeps(u, registration, points);
      }
    case Claim(_, _, _) => DonationKeeps(t, a);
    case Received(_, _, _, _) => DonationKeeps(t, a);
    case Review(d, accept) =>
      OtherRowsKeep(t, Apply(t, a));
    case Resolve(d) => ResolveKeeps(t, d);
    case Create(m, points, kyc, complete, s, now) =>
      CreateKeeps(t, m, points, kyc, complete, s, now);
    case Pay(r, eligible) =>
      if r < |t.requests| && t.requests[r].status != PAID { PaidKeeps(t, r); }
    case Process(r, payout, eligible) =>
      if r < |t.requests| && MayPay(t.requests[r].status) {
        OpenRequestKeeps(t, r, t.requests[r].(status := PAYOUT_PROCESSING, payout := Some(payout)));
      }
    case Processed(r) =>
      if r < |t.requests| && t.requests[r].status != PAID { PaidKeeps(t, r); }
    case Failed(payout) =>
      var found := FindFirst(t.requests, HasPayout(payout));
      if found.Some? && t.requests[found.value].status == PAYOUT_PROCESSING {
        OpenRequestKeeps(t, found.value, t.requests[found.value].(status := PAYOUT_FAILED));
      }
  }

  lemma CreateKeeps(t: Tables, m: Id, points: nat, kyc: bool, complete: bool, s: Settings, now: int)
    requires Inv(t)
    ensures Inv(CreateRequest(t, m, points, kyc, complete, s, now).0)
  {
    var t' := CreateRequest(t, m, points, kyc, complete, s, now).0;
    if t' != t {
      hide Sum, SumReal, Conserved, Linked, RequestedLately;
      NewRequestKeeps(t, t'.requests[|t.requests|]);
    }
  }

  /**
    In every reachable state the balance is the sum of the credited rows, the converted points are
    those of the paid requests and of the conversion rows, and the withdrawn money is their net.
   */
  lemma {:induction false} WalletConserved(t: Tables, actions: seq<Action>)
    requires Inv(t)
    ensures Inv(Run(t, actions))
  {
    if actions != [] {
      WalletConserved(t, actions[..|actions| - 1]);
      ApplyKeepsInv(Run(t, actions[..|actions| - 1]), actions[|actions| - 1]);
    }
  }

  // ---- Spending ----

  /** An action puts a request of `m` that had failed back in play: it passes every check that is made. */
  predicate Reenters(t: Tables, a: Action, m: Id) {
    && (a.Pay? || a.Process?) && a.eligible && a.request < |t.requests|
    && t.requests[a.request].member == m && t.requests[a.request].status == PAYOUT_FAILED
    && (a.Process? ==>
          var holder := FindFirst(t.requests, HasPayout(a.payout));
          holder.None? || holder.value == a.request)
  }

  /** The check that a retry does not make: its points are still available. */
  predicate Affordable(t: Tables, a: Action, m: Id)
    requires m in t.accounts
  {
    Reenters(t, a, m) ==> t.requests[a.request].points <= Available(t, m)
  }

  lemma CreditAvailable(t: Tables, k: Id, points: nat, reason: Reason, related: nat, m: Id)
    requires m in t.accounts
    ensures m in Credit(t, k, points, reason, related).accounts
    ensures Available(Credit(t, k, points, reason, related), m) >= Available(t, m)
  {
    hide Sum;
  }

  /** Earning never lowers what is available. */
  lemma EarningAvailable(t: Tables, a: Action, m: Id)
    requires Inv(t) && m in t.accounts
    requires a.Open? || a.Enroll? || a.Referral? || a.Evidence? || a.Claim? || a.Received? || a.Review? || a.Resolve?
    ensures m in Apply(t, a).accounts && Available(Apply(t, a), m) >= Available(t, m)
  {
    hide Sum, SumReal, Conserved, Capped, DonationPoints;
    match a
    case Open(_) =>
    case Enroll(_) =>
    case Referral(referrer, referred, points, cap) =>
      var p := Capped(t, referrer, points, cap);
      if p > 0 { CreditAvailable(t, referrer, p, ReferralApproved, referred, m); }
    case Evidence(registration, seen, points) =>
      if registration < |t.registrations| {
        var g := t.registrations[registration].(evidence := EvidenceAccepted);
        var u := t.(registrations := t.registrations[registration := g]);
        EventAvailable(u, g.member, points, registration, m);
      }
    case Received(k, amount, percent, gateway) =>
      var points := DonationPoints(amount, percent);
      var d := Donation(k, points, Accepted, gateway);
      if points > 0 {
        CreditAvailable(t.(donations := t.donations + [d]), k, points, DonationReceived, |t.donations|, m);
      }
    case Resolve(d) =>
      var found := FindFirst(t.ledger, IsDonationPending(d));
      if found.Some? { assert EntryLinked(t.ledger[found.value], t.donations, t.registrations); }
    case Claim(_, _, _) =>
    case Review(_, _) =>
  }

  lemma EventAvailable(t: Tables, k: Id, points: nat, registration: nat, m: Id)
    requires m in t.accounts
    ensures m in CreditEvent(t, k, points, registration).accounts
    ensures Available(CreditEvent(t, k, points, registration), m) >= Available(t, m)
  {
    hide Sum;
    if k in t.accounts { CreditAvailable(t, k, points, EventTargetCompleted, registration, m); }
  }

  /** How moving one request between statuses changes what is available. */
  lemma StatusAvailable(t: Tables, r: nat, q: Request, m: Id)
    requires r < |t.requests| && m in t.accounts
    ensures Available(t.(requests := t.requests[r := q]), m)
         == Available(t, m) + LockedBy(m)(t.requests[r]) - LockedBy(m)(q)
  {
    hide Sum;
    RequestReplaced(t, r, q, m);
  }

  lemma PaidAvailable(t: Tables, r: nat, m: Id)
    requires r < |t.requests| && m in t.accounts && t.requests[r].member in t.accounts
    ensures m in Paid(t, r).accounts
    ensures var q := t.requests[r];
      Available(Paid(t, r), m) == Available(t, m)
        - if q.member != m || Locks(q.status) then 0 else q.points
  {
    hide Sum;
    StatusAvailable(t, r, t.requests[r].(status := PAID), m);
  }

  /**
    A request is created only for points that are available, which it locks, within the limits, and
    the member receives the gross amount less a charge that does not exceed it.
   */
  lemma CreatedRequest(t: Tables, m: Id, points: nat, kyc: bool, complete: bool, s: Settings, now: int)
    requires 0.0 <= s.ratioAmount && 0.0 <= s.chargeValue
    ensures var (t', error) := CreateRequest(t, m, points, kyc, complete, s, now);
      if error.Some? then t' == t
      else
        && m in t.accounts && points <= Available(t, m)
        && t' == t.(requests := t'.requests)
        && |t'.requests| == |t.requests| + 1 && t'.requests[..|t.requests|] == t.requests
        && Available(t', m) == Available(t, m) - points
        && var q := t'.requests[|t.requests|];
        && q.member == m && q.points == points && q.status == APPROVED && q.payout.None? && q.createdAt == now
        && q.gross * s.ratioPoints as real == s.ratioAmount * points as real
        && s.minAmount <= q.gross && (s.maxAmount.Some? ==> q.gross <= s.maxAmount.value)
        && 0.0 <= q.charge && 0.0 <= q.net && q.charge + q.net == q.gross
        && (s.chargeType == NONE ==> q.charge == 0.0)
        && (s.chargeType == FLAT ==> q.charge == if s.chargeValue <= q.gross then s.chargeValue else q.gross)
        && (s.chargeType == PERCENTAGE ==>
              100.0 * q.charge == q.gross * if s.chargeValue <= 100.0 then s.chargeValue else 100.0)
  {
    var (t', error) := CreateRequest(t, m, points, kyc, complete, s, now);
    if error.None? {
      GrossRange(points, s);
      ChargeRange(Gross(points, s), s);
      ChargeOf(Gross(points, s), s);
      RequestAdded(t, t'.requests[|t.requests|], m);
      hide RequestedLately, ComputeCharge, Gross, Sum, SumReal;
    }
  }

  lemma GrossRange(points: nat, s: Settings)
    requires s.ratioPoints > 0 && 0.0 <= s.ratioAmount
    ensures Gross(points, s) * s.ratioPoints as real == s.ratioAmount * points as real
    ensures 0.0 <= Gross(points, s)
  {
    var product := s.ratioAmount * points as real;
    assert product >= 0.0;
    assert product / s.ratioPoints as real >= 0.0;
  }

  lemma ChargeOf(gross: real, s: Settings)
    requires 0.0 <= gross && 0.0 <= s.chargeValue
    ensures s.chargeType == NONE ==> ComputeCharge(gross, s) == 0.0
    ensures s.chargeType == FLAT ==> ComputeCharge(gross, s) == if s.chargeValue <= gross then s.chargeValue else gross
    ensures s.chargeType == PERCENTAGE ==>
      100.0 * ComputeCharge(gross, s) == gross * if s.chargeValue <= 100.0 then s.chargeValue else 100.0
  {
    Percentage(gross, s.chargeValue);
  }

  lemma Percentage(gross: real, percent: real)
    requires 0.0 <= gross && 0.0 <= percent
    ensures 100.0 * Min(gross * percent / 100.0, gross) == gross * if percent <= 100.0 then percent else 100.0
  {
    var share := gross * percent;
    assert share - gross * 100.0 == gross * (percent - 100.0);
    if percent <= 100.0 {
      assert gross * (100.0 - percent) >= 0.0;
      assert share / 100.0 <= gross;
    } else {
      assert gross * (percent - 100.0) >= 0.0;
      assert share / 100.0 >= gross;
    }
  }

  /** Withdrawal steps: a retry takes its points, a new request fits, a failure gives points back. */
  lemma WithdrawalAvailable(t: Tables, a: Action, m: Id)
    requires Inv(t) && m in t.accounts
    requires a.Create? || a.Pay? || a.Process? || a.Processed? || a.Failed?
    ensures m in Apply(t, a).accounts
    ensures Reenters(t, a, m) ==> Available(Apply(t, a), m) == Available(t, m) - t.requests[a.request].points
    ensures !Reenters(t, a, m) ==>
      Available(Apply(t, a), m) >= if Available(t, m) < 0 then Available(t, m) else 0
  {
    hide Sum, SumReal, Conserved, Agrees;
    match a
    case Create(k, points, kyc, complete, s, now) =>
      CreateAvailable(t, k, points, kyc, complete, s, now, m);
    case Pay(r, eligible) =>
      if r < |t.requests| {
        PaidAvailable(t, r, m);
        assert MayPay(t.requests[r].status) && eligible ==> Apply(t, a).requests[r].status == PAID;
        hide Paid;
      }
    case Process(r, payout, eligible) =>
      if r < |t.requests| {
        StatusAvailable(t, r, t.requests[r].(status := PAYOUT_PROCESSING, payout := Some(payout)), m);
      }
    case Processed(r) =>
      if r < |t.requests| { PaidAvailable(t, r, m); }
    case Failed(payout) =>
      var found := FindFirst(t.requests, HasPayout(payout));
      if found.Some? {
        StatusAvailable(t, found.value, t.requests[found.value].(status := PAYOUT_FAILED), m);
      }
  }

  lemma CreateAvailable(t: Tables, k: Id, points: nat, kyc: bool, complete: bool, s: Settings, now: int, m: Id)
    requires m in t.accounts
    ensures var t' := CreateRequest(t, k, points, kyc, complete, s, now).0;
      && m in t'.accounts
      && Available(t', m) >= if Available(t, m) < 0 then Available(t, m) else 0
  {
    var t' := CreateRequest(t, k, points, kyc, complete, s, now).0;
    if t' != t {
      hide RequestedLately, ComputeCharge, Gross, Sum;
      RequestAdded(t, t'.requests[|t.requests|], m);
      assert points <= Available(t, k);
    }
  }

  lemma StepAvailable(t: Tables, a: Action, m: Id)
    requires Inv(t) && m in t.accounts
    ensures m in Apply(t, a).accounts
    ensures Reenters(t, a, m) ==> Available(Apply(t, a), m) == Available(t, m) - t.requests[a.request].points
    ensures !Reenters(t, a, m) ==>
      Available(Apply(t, a), m) >= if Available(t, m) < 0 then Available(t, m) else 0
  {
    hide *;
    if a.Create? || a.Pay? || a.Process? || a.Processed? || a.Failed? {
      WithdrawalAvailable(t, a, m);
    } else {
      EarningAvailable(t, a, m);
      NotReentering(t, a, m);
    }
  }

  lemma NotReentering(t: Tables, a: Action, m: Id)
    requires !a.Pay? && !a.Process?
    ensures !Reenters(t, a, m)
  {
  }

  lemma {:induction false} MemberStays(t: Tables, actions: seq<Action>, m: Id)
    requires Inv(t) && m in t.accounts
    ensures m in Run(t, actions).accounts
  {
    if actions != [] {
      hide Apply;
      MemberStays(t, actions[..|actions| - 1], m);
      WalletConserved(t, actions[..|actions| - 1]);
      StepAvailable(Run(t, actions[..|actions| - 1]), actions[|actions| - 1], m);
    }
  }

  /** Points of `m` that re-entered from PAYOUT_FAILED during a run. */
  ghost function Retried(t: Tables, actions: seq<Action>, m: Id): nat {
    if actions == [] then 0
    else
      var before, a := Run(t, actions[..|actions| - 1]), actions[|actions| - 1];
      Retried(t, actions[..|actions| - 1], m) + if Reenters(before, a, m) then before.requests[a.request].points else 0
  }

  /** Whatever happens, a member is overdrawn by no more than the points that re-entered from failed payouts. */
  lemma {:induction false} OverdraftBound(t: Tables, actions: seq<Action>, m: Id)
    requires Inv(t) && m in t.accounts && Available(t, m) >= 0
    ensures m in Run(t, actions).accounts && Available(Run(t, actions), m) + Retried(t, actions, m) >= 0
  {
    if actions != [] {
      hide Apply, Reenters, Available;
      var init := actions[..|actions| - 1];
      OverdraftBound(t, init, m);
      WalletConserved(t, init);
      StepAvailable(Run(t, init), actions[|actions| - 1], m);
    }
  }

  /** Available points never go negative during a run. */
  ghost predicate NeverOverdrawn(t: Tables, actions: seq<Action>, m: Id)
    requires Inv(t) && m in t.accounts
  {
    forall k: nat :: k <= |actions| ==> (MemberStays(t, actions[..k], m); Available(Run(t, actions[..k]), m) >= 0)
  }

  /** Every retry of the run happens while its points are available. */
  ghost predicate RetriesAffordable(t: Tables, actions: seq<Action>, m: Id)
    requires Inv(t) && m in t.accounts
  {
    forall k: nat :: k < |actions| ==>
      (MemberStays(t, actions[..k], m); Affordable(Run(t, actions[..k]), actions[k], m))
  }

  lemma RunNext(t: Tables, actions: seq<Action>, k: nat)
    requires k < |actions|
    ensures Run(t, actions[..k + 1]) == Apply(Run(t, actions[..k]), actions[k])
  {
    assert actions[..k + 1][..k] == actions[..k];
  }

  /** No member ever overspends exactly when every retry of a failed payout is affordable at its time. */
  lemma OverspendExactly(t: Tables, actions: seq<Action>, m: Id)
    requires Inv(t) && m in t.accounts && Available(t, m) >= 0
    ensures NeverOverdrawn(t, actions, m) <==> RetriesAffordable(t, actions, m)
  {
    if NeverOverdrawn(t, actions, m) {
      forall k: nat | k < |actions|
        ensures (MemberStays(t, actions[..k], m); Affordable(Run(t, actions[..k]), actions[k], m))
      {
        NextAvailable(t, actions, k, m);
        assert (MemberStays(t, actions[..k + 1], m); Available(Run(t, actions[..k + 1]), m) >= 0);
      }
    }
    if RetriesAffordable(t, actions, m) {
      forall k: nat | k <= |actions|
        ensures (MemberStays(t, actions[..k], m); Available(Run(t, actions[..k]), m) >= 0)
      {
        StaysSolvent(t, actions, k, m);
      }
    }
  }

  lemma NextAvailable(t: Tables, actions: seq<Action>, k: nat, m: Id)
    requires Inv(t) && m in t.accounts && k < |actions|
    ensures m in Run(t, actions[..k]).accounts && m in Run(t, actions[..k + 1]).accounts
    ensures var before, after := Run(t, actions[..k]), Run(t, actions[..k + 1]);
      && (Affordable(before, actions[k], m) && Available(before, m) >= 0 ==> Available(after, m) >= 0)
      && (Available(after, m) >= 0 ==> Affordable(before, actions[k], m))
  {
    hide Apply, Reenters, Available;
    RunNext(t, actions, k);
    MemberStays(t, actions[..k], m);
    WalletConserved(t, actions[..k]);
    StepAvailable(Run(t, actions[..k]), actions[k], m);
  }

  lemma {:induction false} StaysSolvent(t: Tables, actions: seq<Action>, k: nat, m: Id)
    requires Inv(t) && m in t.accounts && Available(t, m) >= 0 && RetriesAffordable(t, actions, m)
    requires k <= |actions|
    ensures m in Run(t, actions[..k]).accounts && Available(Run(t, actions[..k]), m) >= 0
  {
    hide Apply, Available, Affordable;
    if k > 0 {
      StaysSolvent(t, actions, k - 1, m);
      NextAvailable(t, actions, k - 1, m);
    } else {
      assert actions[..0] == [];
    }
  }

  // ---- An unaffordable retry does overspend ----

  /** One point is one rupee, without limits or charges. */
  const PLAIN: Settings := Settings(1, 1.0, 0.0, None, None, NONE, 0.0)

  /** A wallet with 100 points, all from one referral. */
  ghost function Hundred(requests: seq<Request>): Tables {
    Tables(map[0 := Account(100, 0, 0.0)], [Entry(0, 100, ReferralApproved, Credited, 1)], requests, [], [], map[])
  }

  ghost function Asked(status: RequestStatus, payout: Option<string>): Request {
    Request(0, 100, 100.0, 0.0, 100.0, status, 0, payout)
  }

  lemma SumsOfFew<T>(x: T, y: T, f: T -> int)
    ensures Sum([], f) == 0 && Sum([x], f) == f(x) && Sum([x, y], f) == f(x) + f(y)
  {
    assert [x][..0] == [] && [x, y][..1] == [x];
  }

  lemma AskHundred(requests: seq<Request>)
    requires Available(Hundred(requests), 0) == 100
    ensures Apply(Hundred(requests), ASK) == Hundred(requests + [Asked(APPROVED, None)])
  {
    hide Sum, RequestedLately;
    assert Gross(100, PLAIN) == 100.0 && ComputeCharge(100.0, PLAIN) == 0.0;
  }

  lemma PayHundred(t: Tables, r: nat)
    requires r < |t.requests| && t.requests[r].member == 0 && t.requests[r].points == 100
    requires MayPay(t.requests[r].status)
    requires 0 in t.accounts
    ensures var t' := Apply(t, Pay(r, true));
      && t'.requests == t.requests[r := t.requests[r].(status := PAID)]
      && 0 in t'.accounts && t'.accounts[0].balance == t.accounts[0].balance
      && t'.accounts[0].converted == t.accounts[0].converted + 100
  {
  }

  lemma SendAndFail()
    ensures Apply(Hundred([Asked(APPROVED, None)]), Process(0, "a", true))
         == Hundred([Asked(PAYOUT_PROCESSING, Some("a"))])
    ensures Apply(Hundred([Asked(PAYOUT_PROCESSING, Some("a"))]), Failed("a"))
         == Hundred([Asked(PAYOUT_FAILED, Some("a"))])
  {
    var t := Hundred([Asked(PAYOUT_PROCESSING, Some("a"))]);
    assert FindFirst(t.requests, HasPayout("a")) == Some(0) by { assert HasPayout("a")(t.requests[0]); }
  }

  /** A failed request does not hold its points. */
  lemma FailedHoldsNothing()
    ensures Available(Hundred([Asked(PAYOUT_FAILED, Some("a"))]), 0) == 100
  {
    var failed := Asked(PAYOUT_FAILED, Some("a"));
    SumsOfFew(failed, failed, LockedBy(0));
    hide Sum;
  }

  const ASK: Action := Create(0, 100, true, true, PLAIN, 0)

  /** After a failed first request, a second one for the same points. */
  lemma AskTwice()
    ensures Apply(Apply(Apply(Apply(Hundred([]), ASK), Process(0, "a", true)), Failed("a")), ASK)
         == Hundred([Asked(PAYOUT_FAILED, Some("a")), Asked(APPROVED, None)])
  {
    hide *;
    HundredIsFine();
    FailedHoldsNothing();
    var first, failed := Asked(APPROVED, None), Asked(PAYOUT_FAILED, Some("a"));
    AskHundred([]);
    assert [] + [first] == [first];
    SendAndFail();
    AskHundred([failed]);
    assert [failed] + [first] == [failed, first];
  }

  /**
    100 points are earned and two requests made for all of them, the second while the first had
    failed. Paying both, the first as a retry, converts 200 points.
   */
  lemma OverspendHappens(actions: seq<Action>)
    requires actions == [ASK, Process(0, "a", true), Failed("a"), ASK, Pay(0, true), Pay(1, true)]
    ensures Inv(Hundred([])) && Available(Hundred([]), 0) == 100
    ensures var t := Run(Hundred([]), actions);
      0 in t.accounts && t.accounts[0].balance == 100 && t.accounts[0].converted == 200
  {
    hide *;
    HundredIsFine();
    AskTwice();
    RunOfSix(Hundred([]), actions);
    PayBoth();
  }

  lemma PayBoth()
    ensures var asked := Hundred([Asked(PAYOUT_FAILED, Some("a")), Asked(APPROVED, None)]);
      var t := Apply(Apply(asked, Pay(0, true)), Pay(1, true));
      0 in t.accounts && t.accounts[0].balance == 100 && t.accounts[0].converted == 200
  {
    var t := Hundred([Asked(PAYOUT_FAILED, Some("a")), Asked(APPROVED, None)]);
    hide Apply;
    PayHundred(t, 0);
    PayHundred(Apply(t, Pay(0, true)), 1);
  }

  lemma RunOfSix(t: Tables, actions: seq<Action>)
    requires |actions| == 6
    ensures var t3 := Apply(Apply(Apply(t, actions[0]), actions[1]), actions[2]);
      Run(t, actions) == Apply(Apply(Apply(t3, actions[3]), actions[4]), actions[5])
  {
    hide Apply;
    assert actions[..6] == actions && actions[..0] == [];
    RunNext(t, actions, 0);
    RunNext(t, actions, 1);
    RunNext(t, actions, 2);
    RunNext(t, actions, 3);
    RunNext(t, actions, 4);
    RunNext(t, actions, 5);
  }

  lemma HundredIsFine()
    ensures Inv(Hundred([])) && Available(Hundred([]), 0) == 100
  {
    var e := Hundred([]).ledger[0];
    var q := Asked(APPROVED, None);
    SumsOfFew(e, e, EarnedBy(0));
    SumsOfFew(e, e, ConvertedBy(0));
    SumsOfFew(q, q, LockedBy(0));
    SumsOfFew(q, q, PaidBy(0));
  }
}
