/**
  The points wallet: earning (apps/api/src/referrals/referrals.service.ts, apps/api/src/donations,
  apps/api/src/events/events.service.ts) and withdrawal
  (apps/api/src/withdrawals/withdrawals.service.ts).

  `Tables` holds the rows, a row's id being its position. Each operation is a function on the
  tables, and a method of `WalletService` that carries it out.
 */
module Wallet {
  import opened Wrappers
  import opened Sums
  import Calendar

  type Id = nat

  /** The cached columns of a member: points earned, points converted, money withdrawn. */
  datatype Account = Account(balance: int, converted: int, withdrawn: real)

  datatype Reason = ReferralApproved | EventTargetCompleted | DonationReceived | WithdrawalConverted

  datatype EntryStatus = Pending | Credited | Converted | Rejected

  /** A ledger row; `related` is the referred member, registration, donation or withdrawal request. */
  datatype Entry = Entry(member: Id, points: int, reason: Reason, status: EntryStatus, related: nat)

  datatype RequestStatus = PENDING | APPROVED | REJECTED | PAYOUT_PROCESSING | PAYOUT_FAILED | PAID

  datatype Request = Request(member: Id, points: nat, gross: real, charge: real, net: real,
                             status: RequestStatus, createdAt: int, payout: Option<string>)

  datatype Review = Waiting | Accepted | Refused

  datatype Donation = Donation(member: Id, points: int, review: Review, gateway: Option<string>)

  datatype Evidence = NotSubmitted | PendingReview | EvidenceAccepted | EvidenceRejected

  datatype Registration = Registration(member: Id, evidence: Evidence)

  datatype Tables = Tables(accounts: map<Id, Account>, ledger: seq<Entry>, requests: seq<Request>,
                           donations: seq<Donation>, registrations: seq<Registration>,
                           resolving: map<nat, bool>)  // reviewed donations whose ledger row is still to be resolved

  datatype WalletError =
    | NotFound | KycMissing | KycOutdated | RatioInvalid | BelowMinimum | AboveMaximum | TooSoon
    | InsufficientBalance | NotEligible | WrongStatus | PayoutIdTaken | AlreadyReviewed | AlreadyAccepted

  // ---- Row selections ----

  function EarnedBy(m: Id): Entry -> int {
    (e: Entry) => if e.member == m && e.status == Credited then e.points else 0
  }

  function ConvertedBy(m: Id): Entry -> int {
    (e: Entry) => if e.member == m && e.status == Converted then e.points else 0
  }

  function ReferralBy(m: Id): Entry -> int {
    (e: Entry) => if e.member == m && e.reason == ReferralApproved then e.points else 0
  }

  predicate Locks(status: RequestStatus) { status == PENDING || status == APPROVED || status == PAYOUT_PROCESSING }

  function LockedBy(m: Id): Request -> int {
    (r: Request) => if r.member == m && Locks(r.status) then r.points else 0
  }

  function PaidBy(m: Id): Request -> int {
    (r: Request) => if r.member == m && r.status == PAID then r.points else 0
  }

  function NetPaidBy(m: Id): Request -> real {
    (r: Request) => if r.member == m && r.status == PAID then r.net else 0.0
  }

  function IsEventCredit(registration: nat): Entry -> bool {
    (e: Entry) => e.reason == EventTargetCompleted && e.related == registration && e.status == Credited
  }

  function IsEventOpen(registration: nat): Entry -> bool {
    (e: Entry) =>
      e.reason == EventTargetCompleted && e.related == registration && (e.status == Pending || e.status == Rejected)
  }

  function IsDonationPending(donation: nat): Entry -> bool {
    (e: Entry) => e.reason == DonationReceived && e.related == donation && e.status == Pending
  }

  function HasPayout(payout: string): Request -> bool { (r: Request) => r.payout == Some(payout) }

  function HasGateway(payment: string): Donation -> bool { (d: Donation) => d.gateway == Some(payment) }

  /** Points a member can still ask for. */
  function Available(t: Tables, m: Id): int
    requires m in t.accounts
  {
    t.accounts[m].balance - t.accounts[m].converted - Sum(t.requests, LockedBy(m))
  }

  // ---- Members and registrations ----

  /** A new member starts with empty columns. */
  function Opened(t: Tables, m: Id): Tables {
    if m in t.accounts then t else t.(accounts := t.accounts[m := Account(0, 0, 0.0)])
  }

  function Enrolled(t: Tables, m: Id): Tables {
    if m !in t.accounts then t else t.(registrations := t.registrations + [Registration(m, NotSubmitted)])
  }

  // ---- Earning ----

  /** `creditPoints` */
  function Credit(t: Tables, m: Id, points: int, reason: Reason, related: nat): Tables {
    if m !in t.accounts then t
    else t.(accounts := t.accounts[m := t.accounts[m].(balance := t.accounts[m].balance + points)],
            ledger := t.ledger + [Entry(m, points, reason, Credited, related)])
  }

  /** `applyReferralCap` */
  function Capped(t: Tables, referrer: Id, points: int, cap: Option<int>): int {
    match cap
    case None => points
    case Some(c) =>
      var room := c - Sum(t.ledger, ReferralBy(referrer));
      var p := if points < room then points else room;
      if p > 0 then p else 0
  }

  function AwardReferral(t: Tables, referrer: Id, referred: nat, points: int, cap: Option<int>): Tables {
    var p := Capped(t, referrer, points, cap);
    if p <= 0 then t else Credit(t, referrer, p, ReferralApproved, referred)
  }

  /** `creditEventPoints` */
  function CreditEvent(t: Tables, m: Id, points: int, registration: nat): Tables {
    if m !in t.accounts || FindFirst(t.ledger, IsEventCredit(registration)).Some? then t
    else
      match FindFirst(t.ledger, IsEventOpen(registration))
      case Some(i) =>
        var p := if t.ledger[i].status == Pending then t.ledger[i].points else points;
        var a := t.accounts[m];
        t.(accounts := if p <= 0 then t.accounts else t.accounts[m := a.(balance := a.balance + p)],
           ledger := t.ledger[i := t.ledger[i].(status := Credited, points := p)])
      case None => if points <= 0 then t else Credit(t, m, points, EventTargetCompleted, registration)
  }

  /** `submitEvidence`: `seen` is the evidence status as read before the transaction. */
  function SubmitEvidence(t: Tables, registration: nat, seen: Evidence, points: int): (Tables, Option<WalletError>) {
    if registration >= |t.registrations| then (t, Some(NotFound))
    else if seen == EvidenceAccepted then (t, Some(AlreadyAccepted))
    else if t.registrations[registration].evidence != seen then (t, Some(WrongStatus))
    else
      var g := t.registrations[registration];
      (CreditEvent(t.(registrations := t.registrations[registration := g.(evidence := EvidenceAccepted)]),
                   g.member, points, registration), None)
  }

  /** `computePoints` */
  function DonationPoints(amount: real, percent: nat): int { (amount * percent as real / 100.0).Floor }

  /** `submitMine`: the claim waits for review, and its points wait with it. */
  function SubmitDonation(t: Tables, m: Id, amount: real, percent: nat): Tables {
    if m !in t.accounts then t
    else
      var points := DonationPoints(amount, percent);
      t.(donations := t.donations + [Donation(m, points, Waiting, None)],
         ledger := if points <= 0 then t.ledger
                   else t.ledger + [Entry(m, points, DonationReceived, Pending, |t.donations|)])
  }

  /** `recordDirect` and `recordApprovedDonation`: confirmed money is credited at once. */
  function RecordDonation(t: Tables, m: Id, amount: real, percent: nat, gateway: Option<string>): Tables {
    if m !in t.accounts || (gateway.Some? && FindFirst(t.donations, HasGateway(gateway.value)).Some?) then t
    else
      var points := DonationPoints(amount, percent);
      var added := t.(donations := t.donations + [Donation(m, points, Accepted, gateway)]);
      if points <= 0 then added else Credit(added, m, points, DonationReceived, |t.donations|)
  }

  /** The compare-and-swap of `approve` and `reject`. */
  function ReviewDonation(t: Tables, d: nat, accept: bool): (Tables, Option<WalletError>) {
    if d >= |t.donations| then (t, Some(NotFound))
    else if t.donations[d].review != Waiting then (t, Some(AlreadyReviewed))
    else
      (t.(donations := t.donations[d := t.donations[d].(review := if accept then Accepted else Refused)],
          resolving := t.resolving[d := accept]), None)
  }

  /** `resolveDonation`, which follows the compare-and-swap as a step of its own. */
  function ResolveDonation(t: Tables, d: nat): Tables {
    if d !in t.resolving || d >= |t.donations| then t
    else
      var m, done := t.donations[d].member, t.resolving - {d};
      match FindFirst(t.ledger, IsDonationPending(d))
      case None => t.(resolving := done)
      case Some(i) =>
        var e := t.ledger[i];
        if m in t.accounts && t.resolving[d] then
          t.(resolving := done, ledger := t.ledger[i := e.(status := Credited)],
             accounts := t.accounts[m := t.accounts[m].(balance := t.accounts[m].balance + e.points)])
        else
          t.(resolving := done, ledger := t.ledger[i := e.(status := Rejected)])
  }

  // ---- Withdrawal ----

  datatype ChargeType = NONE | FLAT | PERCENTAGE

  datatype Settings = Settings(ratioPoints: int, ratioAmount: real, minAmount: real, maxAmount: Option<real>,
                               frequencyDays: Option<int>, chargeType: ChargeType, chargeValue: real)

  function Min(x: real, y: real): real { if x < y then x else y }

  /** `computeGrossAmount`, past its check of the ratio. */
  function Gross(points: nat, s: Settings): real
    requires s.ratioPoints > 0
  {
    s.ratioAmount * points as real / s.ratioPoints as real
  }

  function ComputeCharge(gross: real, s: Settings): real {
    match s.chargeType
    case NONE => 0.0
    case FLAT => Min(s.chargeValue, gross)
    case PERCENTAGE => Min(gross * s.chargeValue / 100.0, gross)
  }

  /** The charge never exceeds the gross amount, so the net amount is never negative. */
  lemma ChargeRange(gross: real, s: Settings)
    requires 0.0 <= gross && 0.0 <= s.chargeValue
    ensures 0.0 <= ComputeCharge(gross, s) <= gross
  {
    var x := gross * s.chargeValue;
    assert x >= 0.0;
    var y := x / 100.0;
    assert 0.0 <= y;
    assert s.chargeType == PERCENTAGE ==> ComputeCharge(gross, s) == Min(y, gross);
  }

  /** A request of the member that was not rejected is still too recent. */
  predicate RequestedLately(t: Tables, m: Id, now: int, days: int) {
    exists i :: 0 <= i < |t.requests| && t.requests[i].member == m && t.requests[i].status != REJECTED
      && now - t.requests[i].createdAt < days * Calendar.MS_PER_DAY
  }

  function CreateError(t: Tables, m: Id, points: nat, kyc: bool, complete: bool, s: Settings, now: int)
    : Option<WalletError>
  {
    if m !in t.accounts then Some(NotFound)
    else if !kyc then Some(KycMissing)
    else if !complete then Some(KycOutdated)
    else if s.ratioPoints <= 0 then Some(RatioInvalid)
    else if Gross(points, s) < s.minAmount then Some(BelowMinimum)
    else if s.maxAmount.Some? && Gross(points, s) > s.maxAmount.value then Some(AboveMaximum)
    else if s.frequencyDays.Some? && RequestedLately(t, m, now, s.frequencyDays.value) then Some(TooSoon)
    else if points > Available(t, m) then Some(InsufficientBalance)
    else None
  }

  function CreateRequest(t: Tables, m: Id, points: nat, kyc: bool, complete: bool, s: Settings, now: int)
    : (Tables, Option<WalletError>)
  {
    var error := CreateError(t, m, points, kyc, complete, s, now);
    if error.Some? then (t, error)
    else
      var gross := Gross(points, s);
      var charge := ComputeCharge(gross, s);
      (t.(requests := t.requests + [Request(m, points, gross, charge, gross - charge, APPROVED, now, None)]), None)
  }

  predicate MayPay(status: RequestStatus) { status == APPROVED || status == PAYOUT_FAILED }

  /** The move to PAID with `applyPaidSideEffects`. */
  function Paid(t: Tables, r: nat): Tables
    requires r < |t.requests|
  {
    var q := t.requests[r];
    if q.member !in t.accounts then t
    else
      var a := t.accounts[q.member];
      t.(requests := t.requests[r := q.(status := PAID)],
         accounts := t.accounts[q.member := a.(converted := a.converted + q.points, withdrawn := a.withdrawn + q.net)],
         ledger := t.ledger + [Entry(q.member, 0 - q.points, WithdrawalConverted, Converted, r)])
  }

  /** `markPaid` */
  function MarkPaid(t: Tables, r: nat, eligible: bool): (Tables, Option<WalletError>) {
    if r >= |t.requests| then (t, Some(NotFound))
    else if !eligible then (t, Some(NotEligible))
    else if !MayPay(t.requests[r].status) then (t, Some(WrongStatus))
    else (Paid(t, r), None)
  }

  /** `markPayoutProcessing`; payout ids are unique. */
  function MarkProcessing(t: Tables, r: nat, payout: string, eligible: bool): (Tables, Option<WalletError>) {
    if r >= |t.requests| then (t, Some(NotFound))
    else if !eligible then (t, Some(NotEligible))
    else if !MayPay(t.requests[r].status) then (t, Some(WrongStatus))
    else
      var holder := FindFirst(t.requests, HasPayout(payout));
      if holder.Some? && holder.value != r then (t, Some(PayoutIdTaken))
      else (t.(requests := t.requests[r := t.requests[r].(status := PAYOUT_PROCESSING, payout := Some(payout))]), None)
  }

  /** The transaction of `markPaidFromPayout`, for the request found by payout id before it. */
  function ConfirmPayout(t: Tables, r: nat): Tables {
    if r >= |t.requests| || t.requests[r].status != PAYOUT_PROCESSING then t else Paid(t, r)
  }

  /** `markPayoutFailed` */
  function FailPayout(t: Tables, payout: string): Tables {
    match FindFirst(t.requests, HasPayout(payout))
    case None => t
    case Some(r) =>
      if t.requests[r].status != PAYOUT_PROCESSING then t
      else t.(requests := t.requests[r := t.requests[r].(status := PAYOUT_FAILED)])
  }

  // ---- The service ----

  class WalletService {
    var accounts: map<Id, Account>
    var ledger: seq<Entry>
    var requests: seq<Request>
    var donations: seq<Donation>
    var registrations: seq<Registration>
    /** Reviews past their compare-and-swap whose ledger row is still to be resolved. */
    var resolving: map<nat, bool>

    function View(): Tables
      reads this
    {
      Tables(accounts, ledger, requests, donations, registrations, resolving)
    }

    method CreditPoints(m: Id, points: int, reason: Reason, related: nat)
      requires m in accounts
      modifies this`accounts, this`ledger
      ensures View() == Credit(old(View()), m, points, reason, related)
    {
      accounts := accounts[m := accounts[m].(balance := accounts[m].balance + points)];
      ledger := ledger + [Entry(m, points, reason, Credited, related)];
    }

    method AwardPointsForApproval(referrer: Id, referred: nat, points: int, cap: Option<int>)
      modifies this`accounts, this`ledger
      ensures View() == AwardReferral(old(View()), referrer, referred, points, cap)
    {
      var capped := points;
      if cap.Some? {
        var room := cap.value - Sum(ledger, ReferralBy(referrer));
        capped := if points < room then points else room;
        if capped < 0 { capped := 0; }
      }
      if capped <= 0 || referrer !in accounts { return; }
      CreditPoints(referrer, capped, ReferralApproved, referred);
    }

    method CreditEventPoints(m: Id, points: int, registration: nat)
      modifies this`accounts, this`ledger
      ensures View() == CreditEvent(old(View()), m, points, registration)
    {
      if m !in accounts { return; }
      var credited := FindFirst(ledger, IsEventCredit(registration));
      if credited.Some? { return; }
      var open := FindFirst(ledger, IsEventOpen(registration));
      if open.Some? {
        var row := ledger[open.value];
        var pointsToCredit := if row.status == Pending then row.points else points;
        ledger := ledger[open.value := row.(status := Credited, points := pointsToCredit)];
        if pointsToCredit <= 0 { return; }
        accounts := accounts[m := accounts[m].(balance := accounts[m].balance + pointsToCredit)];
        return;
      }
      if points <= 0 { return; }
      CreditPoints(m, points, EventTargetCompleted, registration);
    }

    method SubmitEventEvidence(registration: nat, seen: Evidence, points: int) returns (error: Option<WalletError>)
      modifies this`accounts, this`ledger, this`registrations
      ensures (View(), error) == SubmitEvidence(old(View()), registration, seen, points)
    {
      if registration >= |registrations| { return Some(NotFound); }
      if seen == EvidenceAccepted { return Some(AlreadyAccepted); }
      if registrations[registration].evidence != seen { return Some(WrongStatus); }
      registrations := registrations[registration := registrations[registration].(evidence := EvidenceAccepted)];
      CreditEventPoints(registrations[registration].member, points, registration);
      return None;
    }

    method SubmitMine(m: Id, amount: real, percent: nat)
      requires m in accounts
      modifies this`donations, this`ledger
      ensures View() == SubmitDonation(old(View()), m, amount, percent)
    {
      var points := (amount * percent as real / 100.0).Floor;
      donations := donations + [Donation(m, points, Waiting, None)];
      if points > 0 {
        ledger := ledger + [Entry(m, points, DonationReceived, Pending, |donations| - 1)];
      }
    }

    method RecordApprovedDonation(m: Id, amount: real, percent: nat, gateway: Option<string>)
      requires m in accounts
      modifies this`accounts, this`ledger, this`donations
      ensures View() == RecordDonation(old(View()), m, amount, percent, gateway)
    {
      if gateway.Some? {
        var existing := FindFirst(donations, HasGateway(gateway.value));
        if existing.Some? { return; }
      }
      var points := (amount * percent as real / 100.0).Floor;
      donations := donations + [Donation(m, points, Accepted, gateway)];
      if points > 0 {
        CreditPoints(m, points, DonationReceived, |donations| - 1);
      }
    }

    /** The first half of `approve` and `reject`. */
    method MarkReviewed(d: nat, accept: bool) returns (error: Option<WalletError>)
      modifies this`donations, this`resolving
      ensures (View(), error) == ReviewDonation(old(View()), d, accept)
    {
      if d >= |donations| { return Some(NotFound); }
      if donations[d].review != Waiting { return Some(AlreadyReviewed); }
      donations := donations[d := donations[d].(review := if accept then Accepted else Refused)];
      resolving := resolving[d := accept];
      return None;
    }

    /** The second half of `approve` and `reject`. */
    method Resolve(d: nat)
      requires d in resolving && d < |donations|
      modifies this`accounts, this`ledger, this`resolving
      ensures View() == ResolveDonation(old(View()), d)
    {
      var approved := resolving[d];
      var m := donations[d].member;
      resolving := resolving - {d};
      var pending := FindFirst(ledger, IsDonationPending(d));
      if pending.None? { return; }
      var row := ledger[pending.value];
      if !approved || m !in accounts {
        ledger := ledger[pending.value := row.(status := Rejected)];
        return;
      }
      accounts := accounts[m := accounts[m].(balance := accounts[m].balance + row.points)];
      ledger := ledger[pending.value := row.(status := Credited)];
    }

    /** Looks up the member's latest request that was not rejected, and compares its age. */
    method IsTooSoon(m: Id, now: int, days: int) returns (tooSoon: bool)
      ensures tooSoon == RequestedLately(View(), m, now, days)
    {
      var last: Option<int> := None;
      for i := 0 to |requests|
        invariant last.Some? ==>
          (exists j :: 0 <= j < i && requests[j].member == m && requests[j].status != REJECTED
                       && requests[j].createdAt == last.value)
        invariant forall j :: 0 <= j < i && requests[j].member == m && requests[j].status != REJECTED ==>
          last.Some? && requests[j].createdAt <= last.value
      {
        var q := requests[i];
        if q.member == m && q.status != REJECTED && (last.None? || last.value < q.createdAt) {
          last := Some(q.createdAt);
        }
      }
      tooSoon := last.Some? && now - last.value < days * Calendar.MS_PER_DAY;
    }

    method CreateWithdrawal(m: Id, points: nat, kyc: bool, complete: bool, s: Settings, now: int)
      returns (error: Option<WalletError>)
      modifies this`requests
      ensures View() == CreateRequest(old(View()), m, points, kyc, complete, s, now).0
      ensures error == CreateRequest(old(View()), m, points, kyc, complete, s, now).1
    {
      ghost var t := View();
      hide RequestedLately, ComputeCharge, Gross, Sum;
      if m !in accounts { return Some(NotFound); }
      if !kyc { return Some(KycMissing); }
      if !complete { return Some(KycOutdated); }
      if s.ratioPoints <= 0 { return Some(RatioInvalid); }
      var grossAmount := Gross(points, s);
      if grossAmount < s.minAmount { return Some(BelowMinimum); }
      if s.maxAmount.Some? && grossAmount > s.maxAmount.value { return Some(AboveMaximum); }
      var tooSoon := false;
      if s.frequencyDays.Some? {
        tooSoon := IsTooSoon(m, now, s.frequencyDays.value);
      }
      assert View() == t;
      assert tooSoon == (s.frequencyDays.Some? && RequestedLately(t, m, now, s.frequencyDays.value));
      if tooSoon { return Some(TooSoon); }
      assert Available(t, m) == accounts[m].balance - accounts[m].converted - Sum(requests, LockedBy(m));
      var locked := Sum(requests, LockedBy(m));
      var availableBalance := accounts[m].balance - accounts[m].converted - locked;
      if points > availableBalance { return Some(InsufficientBalance); }
      var chargeAmount := ComputeCharge(grossAmount, s);
      var netAmount := grossAmount - chargeAmount;
      requests := requests + [Request(m, points, grossAmount, chargeAmount, netAmount, APPROVED, now, None)];
      return None;
    }

    method ApplyPaidSideEffects(r: nat)
      requires r < |requests| && requests[r].member in accounts
      modifies this`accounts, this`ledger
      ensures View() == Paid(old(View()), r).(requests := old(requests))
    {
      var request := requests[r];
      var a := accounts[request.member];
      accounts := accounts[request.member :=
        a.(converted := a.converted + request.points, withdrawn := a.withdrawn + request.net)];
      ledger := ledger + [Entry(request.member, 0 - request.points, WithdrawalConverted, Converted, r)];
    }

    method MarkRequestPaid(r: nat, eligible: bool) returns (error: Option<WalletError>)
      requires r < |requests| ==> requests[r].member in accounts
      modifies this`accounts, this`ledger, this`requests
      ensures (View(), error) == MarkPaid(old(View()), r, eligible)
    {
      if r >= |requests| { return Some(NotFound); }
      if !eligible { return Some(NotEligible); }
      if requests[r].status != APPROVED && requests[r].status != PAYOUT_FAILED { return Some(WrongStatus); }
      requests := requests[r := requests[r].(status := PAID)];
      ApplyPaidSideEffects(r);
      return None;
    }

    method MarkPayoutProcessing(r: nat, payout: string, eligible: bool) returns (error: Option<WalletError>)
      modifies this`requests
      ensures (View(), error) == MarkProcessing(old(View()), r, payout, eligible)
    {
      if r >= |requests| { return Some(NotFound); }
      if !eligible { return Some(NotEligible); }
      if requests[r].status != APPROVED && requests[r].status != PAYOUT_FAILED { return Some(WrongStatus); }
      var holder := FindFirst(requests, HasPayout(payout));
      if holder.Some? && holder.value != r { return Some(PayoutIdTaken); }
      requests := requests[r := requests[r].(status := PAYOUT_PROCESSING, payout := Some(payout))];
      return None;
    }

    /** `markPaidFromPayout` after its lookup: a request that has moved on is left alone. */
    method MarkPaidFromPayout(r: nat) returns (paid: bool)
      requires r < |requests| && requests[r].member in accounts
      modifies this`accounts, this`ledger, this`requests
      ensures View() == ConfirmPayout(old(View()), r) && paid == (old(requests)[r].status == PAYOUT_PROCESSING)
    {
      if requests[r].status != PAYOUT_PROCESSING { return false; }
      requests := requests[r := requests[r].(status := PAID)];
      ApplyPaidSideEffects(r);
      return true;
    }

    method MarkPayoutFailed(payout: string)
      modifies this`requests
      ensures View() == FailPayout(old(View()), payout)
    {
      var found := FindFirst(requests, HasPayout(payout));
      if found.Some? && requests[found.value].status == PAYOUT_PROCESSING {
        requests := requests[found.value := requests[found.value].(status := PAYOUT_FAILED)];
      }
    }
  }
}
