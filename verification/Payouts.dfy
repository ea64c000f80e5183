/**
  What becomes of withdrawal requests over the runs of `WalletLaws`: which steps move a request, which
  pay it, and that it is paid for once exactly if one of these reached it.
 */
module Payouts {
  import opened Wrappers
  import opened Sums
  import opened Wallet
  import opened WalletLaws

  // ---- Which status a step gives a request ----

  /** Payout ids are unique. */
  ghost predicate PayoutOnce(requests: seq<Request>) {
    forall i, j :: 0 <= i < j < |requests| && requests[i].payout.Some? ==> requests[i].payout != requests[j].payout
  }

  /** The step sends request `r` to the gateway under a payout id that no other request has. */
  ghost predicate Sends(t: Tables, a: Action, r: nat)
    requires r < |t.requests|
  {
    && a.Process? && a.request == r && a.eligible && t.requests[r].status in {APPROVED, PAYOUT_FAILED}
    && forall k :: 0 <= k < |t.requests| && k != r ==> t.requests[k].payout != Some(a.payout)
  }

  /** The step pays request `r`: by hand once approved or failed, or by the gateway's confirmation while under way. */
  ghost predicate Pays(t: Tables, a: Action, r: nat) {
    && r < |t.requests| && (a.Pay? || a.Processed?) && a.request == r
    && if a.Pay? then a.eligible && t.requests[r].status in {APPROVED, PAYOUT_FAILED}
       else t.requests[r].status == PAYOUT_PROCESSING
  }

  /** The gateway reports the payout of request `r`, which is under way, as failed. */
  ghost predicate Fails(t: Tables, a: Action, r: nat)
    requires r < |t.requests|
  {
    a.Failed? && t.requests[r].payout == Some(a.payout) && t.requests[r].status == PAYOUT_PROCESSING
  }

  /** With unique payout ids, the first request with an id is the one that has it. */
  lemma HolderIs(requests: seq<Request>, payout: string, r: nat)
    requires PayoutOnce(requests) && r < |requests|
    ensures requests[r].payout == Some(payout) <==> FindFirst(requests, HasPayout(payout)) == Some(r)
  {
    var found := FindFirst(requests, HasPayout(payout));
    if found.Some? {
      assert HasPayout(payout)(requests[found.value]);
    } else {
      assert !HasPayout(payout)(requests[r]);
    }
  }

  /** Nobody else holds the payout id exactly if the holder found, if any, is the request itself. */
  lemma FreeForExactly(requests: seq<Request>, payout: string, r: nat)
    requires PayoutOnce(requests) && r < |requests|
    ensures (forall k :: 0 <= k < |requests| && k != r ==> requests[k].payout != Some(payout))
       <==> var holder := FindFirst(requests, HasPayout(payout)); holder.None? || holder.value == r
  {
    var holder := FindFirst(requests, HasPayout(payout));
    if holder.None? {
      forall k | 0 <= k < |requests|
        ensures requests[k].payout != Some(payout)
      {
        assert !HasPayout(payout)(requests[k]);
      }
    } else {
      assert HasPayout(payout)(requests[holder.value]);
    }
  }

  /** A request moves by being sent, paid or failed, and not otherwise. */
  lemma RequestExactly(t: Tables, a: Action, r: nat)
    requires Linked(t) && PayoutOnce(t.requests) && r < |t.requests|
    ensures r < |Apply(t, a).requests|
    ensures Apply(t, a).requests[r] ==
      if Sends(t, a, r) then t.requests[r].(status := PAYOUT_PROCESSING, payout := Some(a.payout))
      else if Pays(t, a, r) then t.requests[r].(status := PAID)
      else if Fails(t, a, r) then t.requests[r].(status := PAYOUT_FAILED)
      else t.requests[r]
  {
    hide Sum, SumReal, CreateError, Capped, DonationPoints, PayoutOnce, FindFirst;
    assert t.requests[r].member in t.accounts;
    if a.Process? { FreeForExactly(t.requests, a.payout, r); }
    if a.Failed? { HolderIs(t.requests, a.payout, r); }
    hide Linked;
  }

  lemma OnlyCreateAdds(t: Tables, a: Action)
    ensures |Apply(t, a).requests| == |t.requests| + if a.Create? && |Apply(t, a).requests| > |t.requests| then 1 else 0
  {
    hide Sum, SumReal, CreateError, Capped, DonationPoints, FindFirst;
  }

  /** A new request is APPROVED and has no payout id. */
  lemma CreatedFresh(t: Tables, a: Action)
    requires |Apply(t, a).requests| > |t.requests|
    ensures var q := Apply(t, a).requests[|t.requests|]; q.status == APPROVED && q.payout.None?
  {
    hide Sum, SumReal, CreateError, Capped, DonationPoints, FindFirst;
  }

  lemma StepKeepsPayoutOnce(t: Tables, a: Action)
    requires Linked(t) && PayoutOnce(t.requests)
    ensures PayoutOnce(Apply(t, a).requests)
  {
    var q := Apply(t, a).requests;
    OnlyCreateAdds(t, a);
    if |q| > |t.requests| { CreatedFresh(t, a); }
    hide Apply, PayoutOnce, Linked, Fails;
    forall k | 0 <= k < |t.requests|
      ensures q[k].payout == t.requests[k].payout || (Sends(t, a, k) && q[k].payout == Some(a.payout))
    {
      RequestExactly(t, a, k);
    }
    assert PayoutOnce(q) by { PayoutsApart(t, a, q); }
  }

  lemma PayoutsApart(t: Tables, a: Action, q: seq<Request>)
    requires PayoutOnce(t.requests) && |t.requests| <= |q| <= |t.requests| + 1
    requires |q| > |t.requests| ==> q[|t.requests|].payout.None?
    requires forall k :: 0 <= k < |t.requests| ==>
      q[k].payout == t.requests[k].payout || (Sends(t, a, k) && q[k].payout == Some(a.payout))
    ensures PayoutOnce(q)
  {
  }

  /** The answers of the calls that find nothing to do. */
  lemma PayoutErrors(t: Tables, r: nat, payout: string, eligible: bool)
    requires PayoutOnce(t.requests)
    ensures var error :=
        if r >= |t.requests| then Some(NotFound)
        else if !eligible then Some(NotEligible)
        else if t.requests[r].status !in {APPROVED, PAYOUT_FAILED} then Some(WrongStatus)
        else None;
      && MarkPaid(t, r, eligible).1 == error
      && MarkProcessing(t, r, payout, eligible).1 ==
           (if error.None? && exists k :: 0 <= k < |t.requests| && k != r && t.requests[k].payout == Some(payout)
            then Some(PayoutIdTaken) else error)
      && (error.Some? ==> MarkPaid(t, r, eligible).0 == t)
      && (MarkProcessing(t, r, payout, eligible).1.Some? ==> MarkProcessing(t, r, payout, eligible).0 == t)
  {
    hide Paid;
    if r < |t.requests| { FreeForExactly(t.requests, payout, r); }
    hide PayoutOnce, FindFirst;
  }

  // ---- What paying a request does ----

  /** Points converted and money withdrawn go up by the request's, and a conversion row takes the points. */
  lemma PaidEffects(t: Tables, a: Action, r: nat)
    requires Linked(t) && Pays(t, a, r)
    ensures var t', q := Apply(t, a), t.requests[r];
      && q.member in t.accounts && t'.accounts.Keys == t.accounts.Keys
      && (forall m :: m in t.accounts && m != q.member ==> t'.accounts[m] == t.accounts[m])
      && var before, after := t.accounts[q.member], t'.accounts[q.member];
      && after.balance == before.balance
      && after.converted == before.converted + q.points
      && after.withdrawn == before.withdrawn + q.net
      && t'.ledger == t.ledger + [Entry(q.member, -(q.points as int), WithdrawalConverted, Converted, r)]
  {
    assert t.requests[r].member in t.accounts;
    hide Linked, Sum, SumReal;
  }

  /** Nothing else changes what was converted or withdrawn, or adds a conversion row. */
  lemma OnlyPaying(t: Tables, a: Action, m: Id, r: nat)
    requires Linked(t) && m in t.accounts && forall k :: !Pays(t, a, k)
    ensures var t' := Apply(t, a);
      && m in t'.accounts
      && t'.accounts[m].converted == t.accounts[m].converted && t'.accounts[m].withdrawn == t.accounts[m].withdrawn
  {
    if a.Pay? || a.Processed? { assert !Pays(t, a, a.request); }
    hide Sum, SumReal, CreateError, Capped, DonationPoints, FindFirst, Linked;
  }

  // ---- Conversion rows ----

  function IsConversion(r: nat): Entry -> int {
    (e: Entry) => if e.reason == WithdrawalConverted && e.related == r then 1 else 0
  }

  /** How many conversion rows there are for request `r`. */
  ghost function Conversions(ledger: seq<Entry>, r: nat): int { Sum(ledger, IsConversion(r)) }

  /** Other rows are added, or decided in place. */
  ghost predicate OtherRows(ledger: seq<Entry>, ledger': seq<Entry>) {
    || ledger' == ledger
    || (|ledger'| == |ledger| + 1 && ledger' == ledger + [ledger'[|ledger|]]
        && ledger'[|ledger|].reason != WithdrawalConverted)
    || (exists i :: 0 <= i < |ledger| && ReplacedAt(ledger, ledger', i))
  }

  ghost predicate ReplacedAt(ledger: seq<Entry>, ledger': seq<Entry>, i: nat)
    requires i < |ledger|
  {
    && |ledger'| == |ledger| && ledger' == ledger[i := ledger'[i]]
    && ledger[i].reason != WithdrawalConverted && ledger'[i].reason != WithdrawalConverted
  }

  lemma ConversionsOther(ledger: seq<Entry>, ledger': seq<Entry>, r: nat)
    requires OtherRows(ledger, ledger')
    ensures Conversions(ledger', r) == Conversions(ledger, r)
  {
    if i :| 0 <= i < |ledger| && ReplacedAt(ledger, ledger', i) {
      SumReplace(ledger, IsConversion(r), i, ledger'[i]);
    } else if ledger' != ledger {
      SumAdd(ledger, IsConversion(r), ledger'[|ledger|]);
    }
  }

  lemma CreditRows(t: Tables, m: Id, points: int, reason: Reason, related: nat)
    requires reason != WithdrawalConverted
    ensures OtherRows(t.ledger, Credit(t, m, points, reason, related).ledger)
  {
  }

  lemma EventRows(t: Tables, m: Id, points: int, registration: nat)
    ensures OtherRows(t.ledger, CreditEvent(t, m, points, registration).ledger)
  {
    var open := FindFirst(t.ledger, IsEventOpen(registration));
    if open.Some? {
      assert IsEventOpen(registration)(t.ledger[open.value]);
      assert ReplacedAt(t.ledger, CreditEvent(t, m, points, registration).ledger, open.value)
        || CreditEvent(t, m, points, registration).ledger == t.ledger;
    }
  }

  lemma ResolveRows(t: Tables, d: nat)
    ensures OtherRows(t.ledger, ResolveDonation(t, d).ledger)
  {
    var pending := FindFirst(t.ledger, IsDonationPending(d));
    if pending.Some? {
      assert IsDonationPending(d)(t.ledger[pending.value]);
      assert ReplacedAt(t.ledger, ResolveDonation(t, d).ledger, pending.value)
        || ResolveDonation(t, d).ledger == t.ledger;
    }
  }

  lemma OtherRowsOf(t: Tables, a: Action)
    requires forall k :: !Pays(t, a, k)
    ensures OtherRows(t.ledger, Apply(t, a).ledger)
  {
    hide CreditEvent, ResolveDonation, Credit, OtherRows, Sum, SumReal, CreateError, Capped, DonationPoints, FindFirst;
    match a
    case Referral(referrer, referred, points, cap) =>
      CreditRows(t, referrer, Capped(t, referrer, points, cap), ReferralApproved, referred);
      SameRows(t.ledger);
    case Evidence(registration, seen, points) =>
      SameRows(t.ledger);
      if registration < |t.registrations| {
        var g := t.registrations[registration].(evidence := EvidenceAccepted);
        EventRows(t.(registrations := t.registrations[registration := g]), g.member, points, registration);
      }
    case Claim(m, amount, percent) =>
      SameRows(t.ledger);
      OneRow(t.ledger, Entry(m, DonationPoints(amount, percent), DonationReceived, Pending, |t.donations|));
    case Received(m, amount, percent, gateway) =>
      SameRows(t.ledger);
      var points := DonationPoints(amount, percent);
      CreditRows(t.(donations := t.donations + [Donation(m, points, Accepted, gateway)]),
                 m, points, DonationReceived, |t.donations|);
    case Resolve(d) => ResolveRows(t, d);
    case Pay(r, _) => assert !Pays(t, a, r); SameRows(t.ledger);
    case Processed(r) => assert !Pays(t, a, r); SameRows(t.ledger);
    case _ => SameRows(t.ledger);
  }

  lemma SameRows(ledger: seq<Entry>)
    ensures OtherRows(ledger, ledger)
  {
  }

  lemma OneRow(ledger: seq<Entry>, e: Entry)
    requires e.reason != WithdrawalConverted
    ensures OtherRows(ledger, ledger + [e])
  {
  }

  // ---- Over whole runs ----

  const EMPTY: Tables := Tables(map[], [], [], [], [], map[])

  /** Some step of the run pays request `r`. */
  ghost predicate PaidIn(actions: seq<Action>, r: nat) {
    exists k :: 0 <= k < |actions| && PaysAt(actions, k, r)
  }

  ghost predicate PaysAt(actions: seq<Action>, k: nat, r: nat)
    requires k < |actions|
  {
    Pays(Run(EMPTY, actions[..k]), actions[k], r)
  }

  lemma PaidInAdd(actions: seq<Action>, r: nat)
    requires actions != []
    ensures var n := |actions| - 1;
      PaidIn(actions, r) <==> PaidIn(actions[..n], r) || Pays(Run(EMPTY, actions[..n]), actions[n], r)
  {
    hide Run, Pays;
    var n := |actions| - 1;
    forall k | 0 <= k < n
      ensures PaysAt(actions[..n], k, r) == PaysAt(actions, k, r)
    {
      assert actions[..n][..k] == actions[..k];
    }
    assert PaysAt(actions, n, r) == Pays(Run(EMPTY, actions[..n]), actions[n], r);
    hide PaysAt;
    if PaidIn(actions[..n], r) {
      var k :| 0 <= k < n && PaysAt(actions[..n], k, r);
      assert PaysAt(actions, k, r);
    }
  }

  /** The status tells whether the request was paid, and so does the number of its conversion rows. */
  ghost predicate Settled(t: Tables, r: nat, paid: bool) {
    && (paid <==> r < |t.requests| && t.requests[r].status == PAID)
    && Conversions(t.ledger, r) == (if paid then 1 else 0)
    && (paid ==>
          && r < |t.requests|
          && Entry(t.requests[r].member, -(t.requests[r].points as int), WithdrawalConverted, Converted, r) in t.ledger)
  }

  lemma StepSettles(t: Tables, a: Action, r: nat, paid: bool)
    requires Linked(t) && PayoutOnce(t.requests) && Settled(t, r, paid)
    ensures Settled(Apply(t, a), r, paid || Pays(t, a, r))
  {
    StatusSettles(t, a, r);
    hide Apply, PayoutOnce, Linked, Sum, OtherRows, Pays;
    if k: nat :| Pays(t, a, k) {
      PayingSettles(t, a, k, r, paid);
    } else {
      OtherRowsOf(t, a);
      ConversionsOther(t.ledger, Apply(t, a).ledger, r);
      RowsStay(t.ledger, Apply(t, a).ledger);
    }
  }

  lemma StatusSettles(t: Tables, a: Action, r: nat)
    requires Linked(t) && PayoutOnce(t.requests)
    ensures var t' := Apply(t, a);
      && |t.requests| <= |t'.requests|
      && (r < |t'.requests| && t'.requests[r].status == PAID <==>
            (r < |t.requests| && t.requests[r].status == PAID) || Pays(t, a, r))
      && (r < |t.requests| ==>
            t'.requests[r].member == t.requests[r].member && t'.requests[r].points == t.requests[r].points)
  {
    OnlyCreateAdds(t, a);
    if |Apply(t, a).requests| > |t.requests| { CreatedFresh(t, a); }
    if r < |t.requests| { RequestExactly(t, a, r); }
    hide Apply, Linked, PayoutOnce;
  }

  lemma PayingSettles(t: Tables, a: Action, k: nat, r: nat, paid: bool)
    requires Linked(t) && Pays(t, a, k)
    requires Conversions(t.ledger, r) == if paid then 1 else 0
    requires paid ==> r < |t.requests| && t.requests[r].status == PAID
    ensures Conversions(Apply(t, a).ledger, r) == if paid || Pays(t, a, r) then 1 else 0
    ensures forall e :: e in t.ledger ==> e in Apply(t, a).ledger
    ensures Pays(t, a, r) ==>
      Entry(t.requests[r].member, -(t.requests[r].points as int), WithdrawalConverted, Converted, r)
        in Apply(t, a).ledger
  {
    PaidEffects(t, a, k);
    var e := Entry(t.requests[k].member, -(t.requests[k].points as int), WithdrawalConverted, Converted, k);
    SumAdd(t.ledger, IsConversion(r), e);
    hide Apply, Linked, Sum;
    assert e in Apply(t, a).ledger;
    assert Pays(t, a, r) ==> k == r;
  }

  lemma RowsStay(ledger: seq<Entry>, ledger': seq<Entry>)
    requires OtherRows(ledger, ledger')
    ensures forall e :: e in ledger && e.reason == WithdrawalConverted ==> e in ledger'
  {
    forall e | e in ledger && e.reason == WithdrawalConverted
      ensures e in ledger'
    {
      var i :| 0 <= i < |ledger| && ledger[i] == e;
      assert ledger'[i] == e;
    }
  }

  /**
    From an empty wallet, in every run: a request is PAID exactly if some payment by hand met it
    approved or failed, or some confirmation met it under way. It then has exactly one conversion row,
    and it stays PAID; otherwise it has none. Payout ids stay unique.
   */
  lemma {:induction false} PaidExactly(actions: seq<Action>, r: nat)
    ensures Settled(Run(EMPTY, actions), r, PaidIn(actions, r))
    ensures PayoutOnce(Run(EMPTY, actions).requests) && Linked(Run(EMPTY, actions))
  {
    if actions != [] {
      var n := |actions| - 1;
      var t := Run(EMPTY, actions[..n]);
      assert Run(EMPTY, actions) == Apply(t, actions[n]);
      EmptyInv();
      hide Run, Apply, Settled, PaidIn, Pays, Inv, PayoutOnce, Linked;
      PaidExactly(actions[..n], r);
      PaidInAdd(actions, r);
      WalletConserved(EMPTY, actions);
      LinkedOfInv(Run(EMPTY, actions));
      StepSettles(t, actions[n], r, PaidIn(actions[..n], r));
      StepKeepsPayoutOnce(t, actions[n]);
    }
  }

  lemma EmptyInv()
    ensures Inv(EMPTY)
  {
  }

  lemma LinkedOfInv(t: Tables)
    requires Inv(t)
    ensures Linked(t)
  {
  }

  /** A request once PAID is PAID for good. */
  lemma PaidForGood(actions: seq<Action>, k: nat, r: nat)
    requires k <= |actions|
    requires var t := Run(EMPTY, actions[..k]); r < |t.requests| && t.requests[r].status == PAID
    ensures var t := Run(EMPTY, actions); r < |t.requests| && t.requests[r].status == PAID
  {
    hide Run, Pays;
    PaidExactly(actions[..k], r);
    PaidExactly(actions, r);
    var i :| 0 <= i < k && PaysAt(actions[..k], i, r);
    assert actions[..k][..i] == actions[..i];
    assert PaysAt(actions, i, r);
  }

  // ---- When a request is created ----

  /** The points of the member's requests that are neither decided nor failed. */
  ghost function HeldBy(m: Id): Request -> int {
    (q: Request) => if q.member == m && q.status in {PENDING, APPROVED, PAYOUT_PROCESSING} then q.points else 0
  }

  /** A request of the member's that was not rejected is less than `days` days old. */
  ghost predicate Recent(t: Tables, m: Id, now: int, days: int) {
    exists i :: 0 <= i < |t.requests| && t.requests[i].member == m && t.requests[i].status != REJECTED
      && now < t.requests[i].createdAt + days * 86_400_000
  }

  /**
    A withdrawal is granted exactly with checked KYC, for an amount by the ratio within the limits,
    after the waiting time, and for points that were earned and are neither converted nor held; the
    first of these that is missing is the reason of the refusal.
   */
  lemma CreatedExactly(t: Tables, m: Id, points: nat, kyc: bool, complete: bool, s: Settings, now: int, gross: real)
    requires s.ratioPoints > 0 ==> gross * s.ratioPoints as real == s.ratioAmount * points as real
    ensures CreateRequest(t, m, points, kyc, complete, s, now).1 ==
      if m !in t.accounts then Some(NotFound)
      else if !kyc then Some(KycMissing)
      else if !complete then Some(KycOutdated)
      else if s.ratioPoints <= 0 then Some(RatioInvalid)
      else if gross < s.minAmount then Some(BelowMinimum)
      else if s.maxAmount.Some? && s.maxAmount.value < gross then Some(AboveMaximum)
      else if s.frequencyDays.Some? && Recent(t, m, now, s.frequencyDays.value) then Some(TooSoon)
      else if points > t.accounts[m].balance - t.accounts[m].converted - Sum(t.requests, HeldBy(m))
        then Some(InsufficientBalance)
      else None
  {
    SameSum(t.requests, HeldBy(m), LockedBy(m));
    if s.ratioPoints > 0 {
      assert Gross(points, s) * s.ratioPoints as real == s.ratioAmount * points as real;
      SameQuotient(gross, Gross(points, s), s.ratioPoints as real);
    }
    if s.frequencyDays.Some? { RecentExactly(t, m, now, s.frequencyDays.value); }
    hide Sum, Gross, RequestedLately, Recent, ComputeCharge;
  }

  lemma SameQuotient(x: real, y: real, z: real)
    requires z > 0.0 && x * z == y * z
    ensures x == y
  {
    assert (x - y) * z == 0.0;
  }

  lemma RecentExactly(t: Tables, m: Id, now: int, days: int)
    ensures Recent(t, m, now, days) <==> RequestedLately(t, m, now, days)
  {
  }
}
