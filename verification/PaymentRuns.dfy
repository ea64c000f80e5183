/**
  The payment protocol: any number of manual payments, verify callbacks and webhook deliveries,
  upgrades, edits, death reports, submissions and nightly expiry sweeps, each split into its reads, its
  transactions and its single statements, all interleaved.
 */
module PaymentRuns {
  import opened Wrappers
  import opened Membership
  import opened Payments
  import Calendar

  /** How far a caller has come; `gatewayId` is absent for a manual payment. */
  datatype Caller =
    | Looking(member: Id, gateway: string)                           // about to look the payment up
    | Loading(member: Id, gatewayId: Option<string>)                 // about to load the member
    | Deciding(member: Id, gatewayId: Option<string>, seen: Member)  // about to run the transaction
    | Refetching(member: Id, gateway: string)                        // lost on the unique constraint
    | Awarding(member: Id, gatewayId: Option<string>, payment: Payment)  // activated: referral credit to come
    | Returned(gatewayId: Option<string>, payment: Payment)
    | Upgrading(member: Id, seen: Member, target: Plan, charged: bool)   // has loaded the member to upgrade
    | Editing(member: Id, seen: Member)                              // has loaded the member to edit
    | Dying(member: Id, read: Status)                                // has loaded the member to mark deceased
    | Noting(change: Change)                                         // status updated, its history row to come
    | Ended

  /**
    A run of the expiry job: the members that its query found at `readAt` and it has not handled yet,
    and the members renewed since.
   */
  datatype Sweep = Sweep(left: set<Id>, readAt: int, renewed: set<Id>)

  /** `origins` holds each member's first status. */
  datatype State = State(t: Tables, callers: seq<Caller>, origins: map<Id, Status>, sweeps: seq<Sweep>, clock: int)

  datatype Action =
    | Register(member: Id, row: Member)
    | Call(member: Id, gatewayId: Option<string>)
    | Lookup(caller: nat)
    | Load(caller: nat, allowed: bool)   // jurisdiction, and the amount check of a manual payment
    | DrawNumber                         // some transaction advances a counter
    | DrawReceipt
    | Finish(caller: nat, now: int, ticket: Ticket)
    | Refetch(caller: nat)
    | Award(caller: nat, eligible: bool) // program settings and the referrer's standing
    | UpgradeRead(member: Id, target: Plan, charged: bool)  // past the checks on the plans and tiers
    | Upgrade(caller: nat, now: int, receipt: nat)
    | EditRead(member: Id)
    | Edit(caller: nat, joined: Option<Option<int>>, plan: Option<Option<Plan>>)
    | Submit(member: Id)
    | Suspend(member: Id)
    | Reactivate(member: Id)
    | DieRead(member: Id)
    | Die(caller: nat)
    | SweepRead(now: int)
    | Expire(sweep: nat, member: Id)
    | Note(caller: nat)

  function Advance(s: State, c: nat, caller: Caller): State
    requires c < |s.callers|
  {
    s.(callers := s.callers[c := caller])
  }

  function Joined(s: State, caller: Caller): State { s.(callers := s.callers + [caller]) }

  function LookedUp(s: State, c: nat): State
    requires c < |s.callers| && s.callers[c].Looking?
  {
    match FindPayment(s.t.payments, s.callers[c].gateway)
    case Some(p) => Advance(s, c, Returned(Some(s.callers[c].gateway), p))
    case None => Advance(s, c, Loading(s.callers[c].member, Some(s.callers[c].gateway)))
  }

  function Loaded(s: State, c: nat, allowed: bool): State
    requires c < |s.callers| && s.callers[c].Loading?
  {
    var m := s.callers[c].member;
    if m !in s.t.members || !allowed || !Payable(s.t.members[m]) then Advance(s, c, Ended)
    else Advance(s, c, Deciding(m, s.callers[c].gatewayId, s.t.members[m]))
  }

  /** A payment counts as a renewal for every sweep under way. */
  function Renew(sweeps: seq<Sweep>, m: Id): (r: seq<Sweep>)
    ensures |r| == |sweeps|
    ensures forall k :: 0 <= k < |r| ==> r[k] == sweeps[k].(renewed := sweeps[k].renewed + {m})
  {
    if sweeps == [] then [] else [sweeps[0].(renewed := sweeps[0].renewed + {m})] + Renew(sweeps[1..], m)
  }

  function Finished(s: State, c: nat, now: int, ticket: Ticket): State
    requires c < |s.callers| && s.callers[c].Deciding?
  {
    var w := s.callers[c];
    var (t, outcome) := Settle(s.t, w.member, w.seen, w.gatewayId, now, ticket);
    var next := match outcome
      case Recorded(p) =>
        if AwaitsActivation(w.seen.status) then Awarding(w.member, w.gatewayId, p) else Returned(w.gatewayId, p)
      case Duplicate => if w.gatewayId.Some? then Refetching(w.member, w.gatewayId.value) else Ended
      case _ => Ended;
    var sweeps := if outcome.Recorded? then Renew(s.sweeps, w.member) else s.sweeps;
    Advance(s, c, next).(t := t, clock := now, sweeps := sweeps)
  }

  function Refetched(s: State, c: nat): State
    requires c < |s.callers| && s.callers[c].Refetching?
  {
    match FindPayment(s.t.payments, s.callers[c].gateway)
    case Some(p) => Advance(s, c, Returned(Some(s.callers[c].gateway), p))
    case None => Advance(s, c, Ended)
  }

  /** `awardPointsForApproval`, which the activating caller runs once. */
  function AwardedTo(s: State, c: nat, eligible: bool): State
    requires c < |s.callers| && s.callers[c].Awarding?
  {
    var w := s.callers[c];
    var credit := eligible && w.member in s.t.members && s.t.members[w.member].referrer.Some?;
    var credits := if credit then s.t.credits + [w.member] else s.t.credits;
    Advance(s, c, Returned(w.gatewayId, w.payment)).(t := s.t.(credits := credits))
  }

  function Candidates(t: Tables, now: int): set<Id> {
    set m | m in t.members && t.members[m].status == ACTIVE && Overdue(t.members[m], now)
  }

  function Registered(s: State, m: Id, row: Member): State {
    s.(t := s.t.(members := s.t.members[m := row.(status := DRAFT, number := None)]), origins := s.origins[m := DRAFT])
  }

  /** The update of a status, if it succeeds, with its history row left to be written. */
  function Started(s: State, m: Id, before: Status, after: Status): State {
    if !StatusIs(s.t, m, before) then s
    else Joined(s.(t := Swapped(s.t, m, before, after)), Noting(Change(m, before, after)))
  }

  function Noted(s: State, c: nat): State
    requires c < |s.callers| && s.callers[c].Noting?
  {
    Advance(s, c, Ended).(t := s.t.(history := s.t.history + [s.callers[c].change]))
  }

  function UpgradedBy(s: State, c: nat, now: int, receipt: nat): State
    requires c < |s.callers| && s.callers[c].Upgrading?
  {
    var w := s.callers[c];
    Advance(s, c, Ended).(t := Upgraded(s.t, w.member, w.seen, w.target, w.charged, now, receipt), clock := now)
  }

  function EditedBy(s: State, c: nat, joined: Option<Option<int>>, plan: Option<Option<Plan>>): State
    requires c < |s.callers| && s.callers[c].Editing?
  {
    var w := s.callers[c];
    Advance(s, c, Ended).(t := if MayEdit(w.seen, plan) then Edited(s.t, w.member, joined, plan) else s.t)
  }

  function Died(s: State, c: nat): State
    requires c < |s.callers| && s.callers[c].Dying?
  {
    Advance(s, c, Ended).(t := MarkDeceased(s.t, s.callers[c].member, s.callers[c].read))
  }

  /** A transaction that gets as far as drawing from the counters uses what has been drawn and not used yet. */
  predicate MayFinish(s: State, c: nat, now: int, ticket: Ticket) {
    && c < |s.callers| && s.callers[c].Deciding? && s.clock <= now
    && (Draws(s.t, s.callers[c].member, s.callers[c].seen) ==>
          && ticket.receipt in s.t.receipts
          && (AwaitsActivation(s.callers[c].seen.status) ==> ticket.number in s.t.numbers))
  }

  predicate MayUpgrade(s: State, c: nat, now: int, receipt: nat) {
    && c < |s.callers| && s.callers[c].Upgrading? && s.clock <= now
    && (s.callers[c].charged ==> receipt in s.t.receipts)
  }

  function Handled(sweeps: seq<Sweep>, k: nat, m: Id): seq<Sweep>
    requires k < |sweeps|
  {
    sweeps[k := sweeps[k].(left := sweeps[k].left - {m})]
  }

  function Next(s: State, a: Action): State {
    match a
    case Register(m, row) => if m in s.t.members then s else Registered(s, m, row)
    case Call(m, gatewayId) => Joined(s, if gatewayId.Some? then Looking(m, gatewayId.value) else Loading(m, None))
    case Lookup(c) => if c < |s.callers| && s.callers[c].Looking? then LookedUp(s, c) else s
    case Load(c, allowed) => if c < |s.callers| && s.callers[c].Loading? then Loaded(s, c, allowed) else s
    case DrawNumber => s.(t := s.t.(lastNumber := s.t.lastNumber + 1, numbers := s.t.numbers + {s.t.lastNumber + 1}))
    case DrawReceipt =>
      s.(t := s.t.(lastReceipt := s.t.lastReceipt + 1, receipts := s.t.receipts + {s.t.lastReceipt + 1}))
    case Finish(c, now, ticket) => if MayFinish(s, c, now, ticket) then Finished(s, c, now, ticket) else s
    case Refetch(c) => if c < |s.callers| && s.callers[c].Refetching? then Refetched(s, c) else s
    case Award(c, eligible) => if c < |s.callers| && s.callers[c].Awarding? then AwardedTo(s, c, eligible) else s
    case UpgradeRead(m, target, charged) =>
      if StatusIs(s.t, m, ACTIVE) && s.t.members[m].plan.Some? then
        Joined(s, Upgrading(m, s.t.members[m], target, charged))
      else s
    case Upgrade(c, now, receipt) => if MayUpgrade(s, c, now, receipt) then UpgradedBy(s, c, now, receipt) else s
    case EditRead(m) => if m in s.t.members then Joined(s, Editing(m, s.t.members[m])) else s
    case Edit(c, joined, plan) => if c < |s.callers| && s.callers[c].Editing? then EditedBy(s, c, joined, plan) else s
    case Submit(m) => Started(s, m, DRAFT, AWAITING_PAYMENT)
    case Suspend(m) => s.(t := Transition(s.t, m, ACTIVE, SUSPENDED))
    case Reactivate(m) => s.(t := Transition(s.t, m, SUSPENDED, ACTIVE))
    case DieRead(m) =>
      if StatusIs(s.t, m, ACTIVE) || StatusIs(s.t, m, SUSPENDED) then Joined(s, Dying(m, s.t.members[m].status)) else s
    case Die(c) => if c < |s.callers| && s.callers[c].Dying? then Died(s, c) else s
    case SweepRead(now) =>
      if s.clock <= now then s.(sweeps := s.sweeps + [Sweep(Candidates(s.t, now), now, {})], clock := now) else s
    case Expire(k, m) =>
      if k < |s.sweeps| && m in s.sweeps[k].left then
        Started(s, m, ACTIVE, EXPIRED).(sweeps := Handled(s.sweeps, k, m))
      else s
    case Note(c) => if c < |s.callers| && s.callers[c].Noting? then Noted(s, c) else s
  }

  function Run(s: State, actions: seq<Action>): State {
    if actions == [] then s else Next(Run(s, actions[..|actions| - 1]), actions[|actions| - 1])
  }

  // ---- What every step keeps: payment rows and what they are for ----

  ghost predicate IsActivation(c: Change) { AwaitsActivation(c.before) && c.after == ACTIVE }

  /** A history row that stands for an activation, a renewal or a charged upgrade. */
  ghost predicate IsCharge(c: Change) { IsActivation(c) || c.after == RENEWED || c.receipt.Some? }

  /** What a payment is for. */
  datatype Due = Due(member: Id, upgrade: bool)

  ghost function Charges(history: seq<Change>): seq<Due> {
    if history == [] then []
    else
      var c := history[|history| - 1];
      Charges(history[..|history| - 1]) + if IsCharge(c) then [Due(c.member, c.receipt.Some?)] else []
  }

  ghost function Paid(payments: seq<Payment>): seq<Due> {
    if payments == [] then []
    else
      var p := payments[|payments| - 1];
      Paid(payments[..|payments| - 1]) + [Due(p.member, p.upgrade)]
  }

  /** Gateway ids and receipts are unique, and no receipt of a payment is still to be used. */
  ghost predicate PaymentsFine(payments: seq<Payment>, lastReceipt: nat, receipts: set<nat>) {
    && (forall i, j :: 0 <= i < j < |payments| && payments[i].gatewayId.Some? ==>
          payments[i].gatewayId != payments[j].gatewayId)
    && (forall i, j :: 0 <= i < j < |payments| ==> payments[i].receipt != payments[j].receipt)
    && (forall i :: 0 <= i < |payments| ==> payments[i].receipt <= lastReceipt && payments[i].receipt !in receipts)
    && (forall r :: r in receipts ==> r <= lastReceipt)
  }

  /** Besides, the k-th payment belongs to the k-th activation, renewal or charged upgrade. */
  ghost predicate Paired(t: Tables) {
    PaymentsFine(t.payments, t.lastReceipt, t.receipts) && Charges(t.history) == Paid(t.payments)
  }

  lemma ChargesAdd(history: seq<Change>, c: Change)
    ensures Charges(history + [c]) == Charges(history) + if IsCharge(c) then [Due(c.member, c.receipt.Some?)] else []
  {
    assert (history + [c])[..|history|] == history;
  }

  lemma PaidAdd(payments: seq<Payment>, p: Payment)
    ensures Paid(payments + [p]) == Paid(payments) + [Due(p.member, p.upgrade)]
  {
    assert (payments + [p])[..|payments|] == payments;
  }

  lemma PaymentsAdd(payments: seq<Payment>, lastReceipt: nat, receipts: set<nat>, p: Payment)
    requires PaymentsFine(payments, lastReceipt, receipts) && p.receipt in receipts && !Taken(payments, p.gatewayId)
    ensures PaymentsFine(payments + [p], lastReceipt, receipts - {p.receipt})
  {
    assert forall i :: 0 <= i < |payments| ==> payments[i] in payments;
  }

  /** The history rows of a committed payment by a member in `status`. */
  ghost function CommitRows(m: Id, status: Status): seq<Change> {
    if AwaitsActivation(status) then [Change(m, status, ACTIVE)]
    else [Change(m, status, RENEWED), Change(m, RENEWED, ACTIVE)]
  }

  /** What a recorded payment changes. */
  ghost predicate RecordedShape(t: Tables, t': Tables, m: Id, status: Status, gatewayId: Option<string>, p: Payment,
                                ticket: Ticket)
  {
    && StatusIs(t, m, status)
    && p.member == m && p.gatewayId == gatewayId && p.receipt == ticket.receipt && !p.upgrade
    && !Taken(t.payments, gatewayId)
    && t'.payments == t.payments + [p] && t'.history == t.history + CommitRows(m, status) && t'.credits == t.credits
    && m in t'.members && t'.members == t.members[m := t'.members[m]] && t'.members[m].status == ACTIVE
    && t'.lastNumber == t.lastNumber && t'.lastReceipt == t.lastReceipt
    && t'.receipts == t.receipts - {ticket.receipt}
    && t'.numbers == (if AwaitsActivation(status) then t.numbers - {ticket.number} else t.numbers)
    && t'.members[m].number == if AwaitsActivation(status) then Some(ticket.number) else t.members[m].number
  }

  /** Any other outcome loses at most what was drawn. */
  ghost predicate RolledBack(t: Tables, t': Tables) {
    t' == t.(numbers := t'.numbers, receipts := t'.receipts) && t'.numbers <= t.numbers && t'.receipts <= t.receipts
  }

  lemma FinalizeShape(t: Tables, m: Id, seen: Member, gatewayId: Option<string>, now: int, ticket: Ticket)
    ensures var (t', outcome) := Settle(t, m, seen, gatewayId, now, ticket);
      if outcome.Recorded? then RecordedShape(t, t', m, seen.status, gatewayId, outcome.payment, ticket)
      else RolledBack(t, t')
    ensures Settle(t, m, seen, gatewayId, now, ticket).1.Duplicate? ==> Taken(t.payments, gatewayId)
  {
    hide Taken, Term;
  }

  lemma CommitRowsAdd(history: seq<Change>, m: Id, status: Status)
    requires AwaitsActivation(status) || status == ACTIVE || status == EXPIRED
    ensures Charges(history + CommitRows(m, status)) == Charges(history) + [Due(m, false)]
  {
    if AwaitsActivation(status) {
      ChargesAdd(history, Change(m, status, ACTIVE));
    } else {
      var once := history + [Change(m, status, RENEWED)];
      assert history + CommitRows(m, status) == once + [Change(m, RENEWED, ACTIVE)];
      ChargesAdd(history, Change(m, status, RENEWED));
      ChargesAdd(once, Change(m, RENEWED, ACTIVE));
    }
  }

  lemma RecordedDraws(t: Tables, m: Id, seen: Member, gatewayId: Option<string>, now: int, ticket: Ticket)
    requires Settle(t, m, seen, gatewayId, now, ticket).1.Recorded?
    ensures Draws(t, m, seen)
  {
  }

  lemma FinalizeKeepsPaired(t: Tables, m: Id, seen: Member, gatewayId: Option<string>, now: int, ticket: Ticket)
    requires Paired(t) && Payable(seen) && (Draws(t, m, seen) ==> ticket.receipt in t.receipts)
    ensures Paired(Settle(t, m, seen, gatewayId, now, ticket).0)
  {
    FinalizeShape(t, m, seen, gatewayId, now, ticket);
    var (t', outcome) := Settle(t, m, seen, gatewayId, now, ticket);
    hide Settle;
    if outcome.Recorded? {
      CommitRowsAdd(t.history, m, seen.status);
      PaidAdd(t.payments, outcome.payment);
      assert Draws(t, m, seen) by { RecordedDraws(t, m, seen, gatewayId, now, ticket); }
      PaymentsAdd(t.payments, t.lastReceipt, t.receipts, outcome.payment);
      hide PaymentsFine, Charges, Paid, Taken, CommitRows;
    }
  }

  ghost function UpgradeRow(m: Id, charged: bool, receipt: nat): Change {
    Change(m, ACTIVE, ACTIVE, if charged then Some(receipt) else None)
  }

  /** What an upgrade changes. */
  ghost predicate UpgradedShape(t: Tables, t': Tables, m: Id, charged: bool, now: int, receipt: nat) {
    && StatusIs(t, m, ACTIVE)
    && m in t'.members && t'.members == t.members[m := t.members[m].(plan := t'.members[m].plan)]
    && t'.history == t.history + [UpgradeRow(m, charged, receipt)] && t'.credits == t.credits
    && t'.lastNumber == t.lastNumber && t'.lastReceipt == t.lastReceipt && t'.numbers == t.numbers
    && t'.receipts == (if charged then t.receipts - {receipt} else t.receipts)
    && t'.payments == t.payments + if charged then [Payment(m, None, receipt, now, true)] else []
  }

  lemma UpgradeShape(t: Tables, m: Id, seen: Member, target: Plan, charged: bool, now: int, receipt: nat)
    ensures var t' := Upgraded(t, m, seen, target, charged, now, receipt);
      if Upgradable(t, m, seen) then UpgradedShape(t, t', m, charged, now, receipt) else t' == t
  {
    assert t.payments + [] == t.payments;
  }

  lemma UpgradeKeepsPaired(t: Tables, t': Tables, m: Id, charged: bool, now: int, receipt: nat)
    requires Paired(t) && UpgradedShape(t, t', m, charged, now, receipt) && (charged ==> receipt in t.receipts)
    ensures Paired(t')
  {
    hide PaymentsFine, Charges, Paid, FindPayment;
    ChargesAdd(t.history, UpgradeRow(m, charged, receipt));
    if charged {
      var p := Payment(m, None, receipt, now, true);
      PaidAdd(t.payments, p);
      PaymentsAdd(t.payments, t.lastReceipt, t.receipts, p);
    } else {
      assert t'.payments == t.payments;
    }
  }

  // ---- Lifecycle steps: a status, a history row, or both ----

  /** A status change outside payments: it never leads back before the activation. */
  ghost predicate Lifecycle(before: Status, after: Status) {
    || before == after
    || (before == DRAFT && after == AWAITING_PAYMENT)
    || (before == ACTIVE && (after == SUSPENDED || after == EXPIRED || after == DECEASED))
    || (before == SUSPENDED && (after == ACTIVE || after == DECEASED))
  }

  /** The status of `m` may have changed, and one row of `m`'s that stands for no charge may have been added. */
  ghost predicate LifeStep(t: Tables, t': Tables, m: Id, more: seq<Change>) {
    && m in t.members && m in t'.members
    && t' == t.(members := t.members[m := t.members[m].(status := t'.members[m].status)], history := t.history + more)
    && Lifecycle(t.members[m].status, t'.members[m].status)
    && |more| <= 1 && forall c :: c in more ==> c.member == m && !IsCharge(c)
  }

  lemma LifeKeepsPaired(t: Tables, t': Tables, m: Id, more: seq<Change>)
    requires Paired(t) && LifeStep(t, t', m, more)
    ensures Paired(t')
  {
    if |more| == 1 {
      assert more == [more[0]];
      ChargesAdd(t.history, more[0]);
    } else {
      assert t.history + more == t.history;
    }
    hide Charges, IsCharge, PaymentsFine;
  }

  // ---- What every step keeps: one activation, one number, one credit ----

  ghost predicate NotYetActive(status: Status) {
    status != ACTIVE && status != EXPIRED && status != SUSPENDED && status != DECEASED
  }

  ghost predicate HasActivation(history: seq<Change>, m: Id) {
    exists i :: 0 <= i < |history| && history[i].member == m && IsActivation(history[i])
  }

  ghost predicate ActivatedOnce(t: Tables) {
    && (forall i, j :: 0 <= i < j < |t.history| && IsActivation(t.history[i]) && IsActivation(t.history[j]) ==>
          t.history[i].member != t.history[j].member)
    && (forall i :: 0 <= i < |t.history| && IsActivation(t.history[i]) ==>
          t.history[i].member in t.members && !NotYetActive(t.members[t.history[i].member].status))
  }

  ghost predicate NumberedOnce(t: Tables) {
    && (forall m :: m in t.members && NotYetActive(t.members[m].status) ==> t.members[m].number.None?)
    && (forall m :: m in t.members && t.members[m].number.Some? ==>
          t.members[m].number.value <= t.lastNumber && t.members[m].number.value !in t.numbers)
    && (forall n :: n in t.numbers ==> n <= t.lastNumber)
    && (forall m, n :: m in t.members && n in t.members && m != n && t.members[m].number.Some? ==>
          t.members[m].number != t.members[n].number)
  }

  ghost predicate CreditedOnce(t: Tables, callers: seq<Caller>) {
    && (forall i, j :: 0 <= i < j < |t.credits| ==> t.credits[i] != t.credits[j])
    && (forall i :: 0 <= i < |t.credits| ==> HasActivation(t.history, t.credits[i]))
    && (forall c :: 0 <= c < |callers| && callers[c].Awarding? ==>
          HasActivation(t.history, callers[c].member) && callers[c].member !in t.credits)
    && (forall c, d :: 0 <= c < d < |callers| && callers[c].Awarding? && callers[d].Awarding? ==>
          callers[c].member != callers[d].member)
  }

  /** No history row of a member awaiting activation is an activation. */
  lemma AwaitingHasNone(t: Tables, m: Id)
    requires ActivatedOnce(t) && m in t.members && NotYetActive(t.members[m].status)
    ensures !HasActivation(t.history, m)
  {
  }

  /** Rows of one member are added; the first may be its activation, if it was not active before. */
  ghost predicate HistoryStep(t: Tables, t': Tables, m: Id, more: seq<Change>) {
    && m in t.members && m in t'.members && t'.history == t.history + more
    && (forall k :: k != m && k in t.members ==> k in t'.members && t'.members[k].status == t.members[k].status)
    && (forall i :: 0 <= i < |more| ==> more[i].member == m && (IsActivation(more[i]) ==> i == 0))
    && (|more| > 0 && IsActivation(more[0]) ==>
          NotYetActive(t.members[m].status) && !NotYetActive(t'.members[m].status))
    && (!NotYetActive(t.members[m].status) ==> !NotYetActive(t'.members[m].status))
  }

  lemma HistoryKeepsActivatedOnce(t: Tables, t': Tables, m: Id, more: seq<Change>)
    requires ActivatedOnce(t) && HistoryStep(t, t', m, more)
    ensures ActivatedOnce(t')
  {
    var n := |t.history|;
    forall i | 0 <= i < |t'.history| && IsActivation(t'.history[i])
      ensures t'.history[i].member in t'.members && !NotYetActive(t'.members[t'.history[i].member].status)
      ensures forall j :: 0 <= j < i && IsActivation(t'.history[j]) ==> t'.history[j].member != t'.history[i].member
    {
      hide IsActivation, NotYetActive;
      if i >= n {
        assert t'.history[i] == more[i - n] && i == n;
        forall j | 0 <= j < i && IsActivation(t'.history[j])
          ensures t'.history[j].member != m
        {
          assert t'.history[j] == t.history[j];
        }
      } else {
        assert t'.history[i] == t.history[i];
      }
    }
  }

  lemma FinalizeKeepsOnce(t: Tables, m: Id, seen: Member, gatewayId: Option<string>, now: int, ticket: Ticket)
    requires ActivatedOnce(t) && NumberedOnce(t) && Payable(seen)
    requires Draws(t, m, seen) && AwaitsActivation(seen.status) ==> ticket.number in t.numbers
    ensures ActivatedOnce(Settle(t, m, seen, gatewayId, now, ticket).0)
    ensures NumberedOnce(Settle(t, m, seen, gatewayId, now, ticket).0)
  {
    FinalizeShape(t, m, seen, gatewayId, now, ticket);
    var (t', outcome) := Settle(t, m, seen, gatewayId, now, ticket);
    if outcome.Recorded? { RecordedDraws(t, m, seen, gatewayId, now, ticket); }
    hide Settle, Draws;
    if outcome.Recorded? {
      assert HistoryStep(t, t', m, CommitRows(m, seen.status));
      HistoryKeepsActivatedOnce(t, t', m, CommitRows(m, seen.status));
      hide ActivatedOnce, HistoryStep, Taken;
      NumbersAfterPayment(t, t', m);
    }
  }

  lemma NumbersAfterPayment(t: Tables, t': Tables, m: Id)
    requires NumberedOnce(t) && m in t.members && m in t'.members && t'.members == t.members[m := t'.members[m]]
    requires t'.lastNumber == t.lastNumber && t'.numbers <= t.numbers && t'.members[m].status == ACTIVE
    requires t'.members[m].number == t.members[m].number
      || (t'.members[m].number.Some? && t'.members[m].number.value in t.numbers - t'.numbers)
    ensures NumberedOnce(t')
  {
  }

  lemma LifeKeepsOnce(t: Tables, t': Tables, m: Id, more: seq<Change>)
    requires ActivatedOnce(t) && NumberedOnce(t) && LifeStep(t, t', m, more)
    ensures ActivatedOnce(t') && NumberedOnce(t')
  {
    assert forall i :: 0 <= i < |more| ==> more[i] in more;
    assert HistoryStep(t, t', m, more);
    HistoryKeepsActivatedOnce(t, t', m, more);
    hide ActivatedOnce, HistoryStep, IsCharge;
  }

  lemma UpgradeKeepsOnce(t: Tables, t': Tables, m: Id, charged: bool, now: int, receipt: nat)
    requires ActivatedOnce(t) && NumberedOnce(t) && UpgradedShape(t, t', m, charged, now, receipt)
    ensures ActivatedOnce(t') && NumberedOnce(t')
  {
    assert HistoryStep(t, t', m, [UpgradeRow(m, charged, receipt)]);
    HistoryKeepsActivatedOnce(t, t', m, [UpgradeRow(m, charged, receipt)]);
    hide ActivatedOnce, HistoryStep;
    NumbersAfterPayment(t, t', m);
  }

  // ---- What every step keeps: referral credits ----

  /** Recording an activation makes its caller the only one to award it. */
  lemma FinishKeepsCredits(s: State, c: nat, now: int, ticket: Ticket)
    requires ActivatedOnce(s.t) && CreditedOnce(s.t, s.callers)
    requires c < |s.callers| && s.callers[c].Deciding?
    ensures CreditedOnce(Finished(s, c, now, ticket).t, Finished(s, c, now, ticket).callers)
  {
    var w := s.callers[c];
    FinalizeShape(s.t, w.member, w.seen, w.gatewayId, now, ticket);
    var (t', outcome) := Settle(s.t, w.member, w.seen, w.gatewayId, now, ticket);
    var s' := Finished(s, c, now, ticket);
    assert s'.t == t' && s'.callers == s.callers[c := s'.callers[c]];
    assert s'.callers[c].Awarding? ==>
      outcome.Recorded? && AwaitsActivation(w.seen.status) && s'.callers[c].member == w.member;
    hide Settle, Finished;
    if outcome.Recorded? {
      var rows := CommitRows(w.member, w.seen.status);
      MoreHistoryKeepsCredits(s.t, t', s.callers, rows);
      if AwaitsActivation(w.seen.status) {
        AwaitingHasNone(s.t, w.member);
        assert t'.history[|s.t.history|] == rows[0] && IsActivation(rows[0]);
        assert HasActivation(t'.history, w.member);
      }
    }
    hide HasActivation, RecordedShape, CommitRows;
  }

  lemma MoreHistoryKeepsCredits(t: Tables, t': Tables, callers: seq<Caller>, more: seq<Change>)
    requires CreditedOnce(t, callers) && t'.history == t.history + more && t'.credits == t.credits
    ensures CreditedOnce(t', callers)
  {
    forall m | HasActivation(t.history, m)
      ensures HasActivation(t'.history, m)
    {
      var i :| 0 <= i < |t.history| && t.history[i].member == m && IsActivation(t.history[i]);
      assert t'.history[i] == t.history[i];
    }
    hide HasActivation;
  }

  lemma AwardKeepsCredits(s: State, c: nat, eligible: bool)
    requires CreditedOnce(s.t, s.callers) && c < |s.callers| && s.callers[c].Awarding?
    ensures CreditedOnce(AwardedTo(s, c, eligible).t, AwardedTo(s, c, eligible).callers)
  {
    hide HasActivation;
  }

  // ---- What every step keeps: callers and the sweep ----

  /** What a caller holds still fits the tables. */
  ghost predicate CallerFine(t: Tables, w: Caller) {
    match w
    case Deciding(_, _, seen) => Payable(seen)
    case Refetching(_, gateway) => Taken(t.payments, Some(gateway))
    case Awarding(_, gatewayId, p) => p in t.payments && (gatewayId.Some? ==> p.gatewayId == gatewayId)
    case Returned(gatewayId, p) => p in t.payments && (gatewayId.Some? ==> p.gatewayId == gatewayId)
    case Dying(_, read) => read == ACTIVE || read == SUSPENDED
    case Noting(c) =>
      && c.member in t.members
      && (c == Change(c.member, DRAFT, AWAITING_PAYMENT) || c == Change(c.member, ACTIVE, EXPIRED))
    case _ => true
  }

  ghost predicate CallersFine(t: Tables, callers: seq<Caller>) {
    forall c :: 0 <= c < |callers| ==> CallerFine(t, callers[c])
  }

  /** A member still to be swept is overdue, unless it has been renewed since the query. */
  ghost predicate SweepFine(members: map<Id, Member>, w: Sweep, clock: int) {
    && w.readAt <= clock
    && forall m :: m in w.left ==>
         && m in members && !NotYetActive(members[m].status)
         && (Overdue(members[m], w.readAt) <==> m !in w.renewed)
  }

  ghost predicate SweepsFine(s: State) {
    forall k :: 0 <= k < |s.sweeps| ==> SweepFine(s.t.members, s.sweeps[k], s.clock)
  }

  /** Every row belongs to a member. */
  ghost predicate Known(t: Tables, origins: map<Id, Status>) {
    && origins.Keys == t.members.Keys
    && forall i :: 0 <= i < |t.history| ==> t.history[i].member in t.members
  }

  ghost predicate Inv(s: State) {
    && Paired(s.t) && ActivatedOnce(s.t) && NumberedOnce(s.t) && CreditedOnce(s.t, s.callers)
    && Known(s.t, s.origins) && CallersFine(s.t, s.callers) && SweepsFine(s)
  }

  lemma TakenStays(t: Tables, t': Tables, gateway: string)
    requires (forall p :: p in t.payments ==> p in t'.payments) && Taken(t.payments, Some(gateway))
    ensures Taken(t'.payments, Some(gateway))
  {
    var p := FindPayment(t.payments, gateway).value;
    assert p in t'.payments;
  }

  /** Payments and members are only added. */
  ghost predicate Grown(t: Tables, t': Tables) {
    && (forall p :: p in t.payments ==> p in t'.payments)
    && (forall m :: m in t.members ==> m in t'.members)
  }

  lemma CallersStayFine(t: Tables, t': Tables, callers: seq<Caller>)
    requires CallersFine(t, callers) && Grown(t, t')
    ensures CallersFine(t', callers)
  {
    forall c | 0 <= c < |callers|
      ensures CallerFine(t', callers[c])
    {
      if callers[c].Refetching? { TakenStays(t, t', callers[c].gateway); }
      hide Taken;
      assert CallerFine(t, callers[c]);
    }
  }

  lemma FinishKeepsCallers(s: State, c: nat, now: int, ticket: Ticket)
    requires CallersFine(s.t, s.callers) && c < |s.callers| && s.callers[c].Deciding?
    ensures CallersFine(Finished(s, c, now, ticket).t, Finished(s, c, now, ticket).callers)
  {
    var w := s.callers[c];
    FinalizeShape(s.t, w.member, w.seen, w.gatewayId, now, ticket);
    var (t', outcome) := Settle(s.t, w.member, w.seen, w.gatewayId, now, ticket);
    var s' := Finished(s, c, now, ticket);
    hide Settle, Taken, CommitRows;
    assert s'.t == t' && s'.callers == s.callers[c := s'.callers[c]];
    CallersStayFine(s.t, t', s.callers);
    assert CallerFine(t', s'.callers[c]);
    hide CallerFine, Finished;
  }

  /** The paying member is renewed, and no other member changes. */
  lemma PaymentKeepsSweep(t: Tables, t': Tables, m: Id, w: Sweep, clock: int, now: int)
    requires SweepFine(t.members, w, clock) && clock <= now
    requires m in t'.members && t'.members == t.members[m := t'.members[m]] && m in t.members
    requires t'.members[m].status == ACTIVE && (!NotYetActive(t.members[m].status) ==> !Overdue(t'.members[m], now))
    ensures SweepFine(t'.members, w.(renewed := w.renewed + {m}), now)
  {
  }

  lemma SweepLater(members: map<Id, Member>, w: Sweep, clock: int, now: int)
    requires SweepFine(members, w, clock) && clock <= now
    ensures SweepFine(members, w, now)
  {
  }

  lemma FinishKeepsSweep(s: State, c: nat, now: int, ticket: Ticket)
    requires SweepsFine(s) && CallersFine(s.t, s.callers) && s.clock <= now
    requires c < |s.callers| && s.callers[c].Deciding?
    ensures SweepsFine(Finished(s, c, now, ticket))
  {
    var w, s' := s.callers[c], Finished(s, c, now, ticket);
    assert CallerFine(s.t, w);
    var outcome := Settle(s.t, w.member, w.seen, w.gatewayId, now, ticket).1;
    FinalizeShape(s.t, w.member, w.seen, w.gatewayId, now, ticket);
    if outcome.Recorded? { RecordedTerm(s.t, w.member, w.seen, w.gatewayId, now, ticket); }
    assert s'.sweeps == (if outcome.Recorded? then Renew(s.sweeps, w.member) else s.sweeps) && s'.clock == now;
    assert s'.t == Settle(s.t, w.member, w.seen, w.gatewayId, now, ticket).0;
    hide Settle, Finished, Taken, CommitRows, Calendar.DateOf, CallersFine, SweepFine, Overdue;
    forall k | 0 <= k < |s'.sweeps|
      ensures SweepFine(s'.t.members, s'.sweeps[k], now)
    {
      assert SweepFine(s.t.members, s.sweeps[k], s.clock);
      if outcome.Recorded? {
        PaymentKeepsSweep(s.t, s'.t, w.member, s.sweeps[k], s.clock, now);
      } else {
        SweepLater(s.t.members, s.sweeps[k], s.clock, now);
      }
    }
  }

  /** Statuses or plans change, but no one becomes inactive again and no term changes. */
  lemma OthersKeepSweeps(s: State, s': State)
    requires SweepsFine(s) && s'.sweeps == s.sweeps && s.clock <= s'.clock
    requires forall m :: m in s.t.members ==>
      && m in s'.t.members && s'.t.members[m].validUntil == s.t.members[m].validUntil
      && (!NotYetActive(s.t.members[m].status) ==> !NotYetActive(s'.t.members[m].status))
    ensures SweepsFine(s')
  {
    hide NotYetActive;
    forall k | 0 <= k < |s'.sweeps|
      ensures SweepFine(s'.t.members, s'.sweeps[k], s'.clock)
    {
      assert SweepFine(s.t.members, s.sweeps[k], s.clock);
    }
  }

  lemma LifeKeepsInv(s: State, t': Tables, m: Id, more: seq<Change>)
    requires Inv(s) && LifeStep(s.t, t', m, more)
    ensures Inv(s.(t := t'))
  {
    LifeKeepsPaired(s.t, t', m, more);
    LifeKeepsOnce(s.t, t', m, more);
    OthersKeepSweeps(s, s.(t := t'));
    MoreHistoryKeepsCredits(s.t, t', s.callers, more);
    assert Known(t', s.origins);
    CallersStayFine(s.t, t', s.callers);
    hide Lifecycle, Paired, ActivatedOnce, NumberedOnce, SweepsFine, CallersFine, CreditedOnce, Known;
  }

  lemma FinalizeKeepsKnown(t: Tables, origins: map<Id, Status>, m: Id, seen: Member,
                           gatewayId: Option<string>, now: int, ticket: Ticket)
    requires Known(t, origins)
    ensures Known(Settle(t, m, seen, gatewayId, now, ticket).0, origins)
  {
    FinalizeShape(t, m, seen, gatewayId, now, ticket);
    hide Settle, Taken;
  }

  lemma FinishKeepsInv(s: State, c: nat, now: int, ticket: Ticket)
    requires Inv(s) && MayFinish(s, c, now, ticket)
    ensures Inv(Finished(s, c, now, ticket))
  {
    var w := s.callers[c];
    assert CallerFine(s.t, w);
    FinalizeKeepsPaired(s.t, w.member, w.seen, w.gatewayId, now, ticket);
    FinalizeKeepsOnce(s.t, w.member, w.seen, w.gatewayId, now, ticket);
    FinalizeKeepsKnown(s.t, s.origins, w.member, w.seen, w.gatewayId, now, ticket);
    FinishKeepsCredits(s, c, now, ticket);
    FinishKeepsCallers(s, c, now, ticket);
    FinishKeepsSweep(s, c, now, ticket);
    hide Settle, Paired, ActivatedOnce, NumberedOnce, CreditedOnce, Known, CallersFine, SweepsFine;
  }

  /** Steps of a caller that leave the tables alone. */
  lemma AdvanceKeepsInv(s: State, c: nat, w: Caller)
    requires Inv(s) && c < |s.callers| && CallerFine(s.t, w) && !w.Awarding?
    ensures Inv(Advance(s, c, w))
  {
    hide Paired, ActivatedOnce, NumberedOnce, Known, CallerFine, HasActivation;
  }

  lemma JoinKeepsInv(s: State, w: Caller)
    requires Inv(s) && CallerFine(s.t, w) && !w.Awarding?
    ensures Inv(Joined(s, w))
  {
    hide Paired, ActivatedOnce, NumberedOnce, Known, CallerFine, HasActivation;
  }

  lemma AwardKeepsInv(s: State, c: nat, eligible: bool)
    requires Inv(s) && c < |s.callers| && s.callers[c].Awarding?
    ensures Inv(AwardedTo(s, c, eligible))
  {
    AwardKeepsCredits(s, c, eligible);
    var s' := AwardedTo(s, c, eligible);
    assert CallerFine(s.t, s.callers[c]);
    CallersStayFine(s.t, s'.t, s.callers);
    hide HasActivation, CreditedOnce;
  }

  lemma UpgradeKeepsTerms(t: Tables, t': Tables, m: Id, charged: bool, now: int, receipt: nat)
    requires UpgradedShape(t, t', m, charged, now, receipt)
    ensures forall k :: k in t.members ==>
      && k in t'.members && t'.members[k].validUntil == t.members[k].validUntil
      && t'.members[k].status == t.members[k].status
  {
  }

  lemma UpgradeKeepsRows(s: State, t': Tables, m: Id, charged: bool, now: int, receipt: nat)
    requires CallersFine(s.t, s.callers) && CreditedOnce(s.t, s.callers) && Known(s.t, s.origins)
    requires UpgradedShape(s.t, t', m, charged, now, receipt)
    ensures CallersFine(t', s.callers) && CreditedOnce(t', s.callers) && Known(t', s.origins)
  {
    CallersStayFine(s.t, t', s.callers);
    MoreHistoryKeepsCredits(s.t, t', s.callers, [UpgradeRow(m, charged, receipt)]);
    hide CallersFine, CreditedOnce;
  }

  lemma LaterKeepsInv(s: State, now: int)
    requires Inv(s) && s.clock <= now
    ensures Inv(s.(clock := now))
  {
    OthersKeepSweeps(s, s.(clock := now));
    hide Paired, ActivatedOnce, NumberedOnce, CreditedOnce, Known, CallersFine, Overdue;
  }

  lemma UpgradeKeepsInv(s: State, c: nat, now: int, receipt: nat)
    requires Inv(s) && MayUpgrade(s, c, now, receipt)
    ensures Inv(UpgradedBy(s, c, now, receipt))
  {
    var w := s.callers[c];
    var t' := Upgraded(s.t, w.member, w.seen, w.target, w.charged, now, receipt);
    UpgradeShape(s.t, w.member, w.seen, w.target, w.charged, now, receipt);
    hide Upgraded, UpgradedShape, Paired, ActivatedOnce, NumberedOnce, CreditedOnce, Known, CallersFine, SweepsFine;
    if Upgradable(s.t, w.member, w.seen) {
      UpgradeKeepsPaired(s.t, t', w.member, w.charged, now, receipt);
      UpgradeKeepsOnce(s.t, t', w.member, w.charged, now, receipt);
      UpgradeKeepsTerms(s.t, t', w.member, w.charged, now, receipt);
      OthersKeepSweeps(s, s.(t := t'));
      UpgradeKeepsRows(s, t', w.member, w.charged, now, receipt);
    }
    assert Inv(s.(t := t'));
    hide Inv;
    LaterKeepsInv(s.(t := t'), now);
    AdvanceKeepsInv(s.(t := t', clock := now), c, Ended);
  }

  lemma EditKeepsTables(t: Tables, m: Id, joined: Option<Option<int>>, plan: Option<Option<Plan>>)
    requires Paired(t) && ActivatedOnce(t) && NumberedOnce(t)
    ensures var t' := Edited(t, m, joined, plan); Paired(t') && ActivatedOnce(t') && NumberedOnce(t')
  {
    hide IsActivation, NotYetActive, PaymentsFine, Charges, Paid;
  }

  lemma EditKeepsTerms(t: Tables, m: Id, joined: Option<Option<int>>, plan: Option<Option<Plan>>)
    ensures var t' := Edited(t, m, joined, plan);
      && t'.members.Keys == t.members.Keys && t' == t.(members := t'.members)
      && forall k :: k in t.members ==>
           && t'.members[k].validUntil == t.members[k].validUntil && t'.members[k].status == t.members[k].status
           && t'.members[k].number == t.members[k].number && t'.members[k].referrer == t.members[k].referrer
  {
  }

  lemma SameCredits(t: Tables, t': Tables, callers: seq<Caller>)
    requires CreditedOnce(t, callers) && t'.credits == t.credits && t'.history == t.history
    ensures CreditedOnce(t', callers)
  {
    hide HasActivation;
  }

  lemma EditKeepsInv(s: State, c: nat, joined: Option<Option<int>>, plan: Option<Option<Plan>>)
    requires Inv(s) && c < |s.callers| && s.callers[c].Editing?
    ensures Inv(EditedBy(s, c, joined, plan))
  {
    var m := s.callers[c].member;
    var t' := if MayEdit(s.callers[c].seen, plan) then Edited(s.t, m, joined, plan) else s.t;
    EditKeepsTables(s.t, m, joined, plan);
    EditKeepsTerms(s.t, m, joined, plan);
    hide Edited, Paired, ActivatedOnce, NumberedOnce, SweepsFine, CallersFine, CreditedOnce;
    OthersKeepSweeps(s, s.(t := t'));
    CallersStayFine(s.t, t', s.callers);
    SameCredits(s.t, t', s.callers);
    hide NotYetActive, SweepFine;
    assert Inv(s.(t := t'));
    hide Inv;
    AdvanceKeepsInv(s.(t := t'), c, Ended);
  }

  lemma RegisterKeepsInv(s: State, m: Id, row: Member)
    requires Inv(s) && m !in s.t.members
    ensures Inv(Registered(s, m, row))
  {
    RegisterKeepsMembers(s, m, row);
    OthersKeepSweeps(s, Registered(s, m, row));
    CallersStayFine(s.t, Registered(s, m, row).t, s.callers);
    assert Known(Registered(s, m, row).t, Registered(s, m, row).origins);
    hide ActivatedOnce, NumberedOnce, Known, CallersFine, SweepsFine, Charges, Paid, PaymentsFine, HasActivation;
  }

  lemma RegisterKeepsMembers(s: State, m: Id, row: Member)
    requires ActivatedOnce(s.t) && NumberedOnce(s.t) && m !in s.t.members
    ensures ActivatedOnce(Registered(s, m, row).t) && NumberedOnce(Registered(s, m, row).t)
  {
    hide IsActivation;
  }

  lemma SweepReadKeepsInv(s: State, now: int)
    requires Inv(s)
    ensures Inv(Next(s, SweepRead(now)))
  {
    if s.clock <= now {
      OthersKeepSweeps(s, s.(clock := now));
      assert SweepFine(s.t.members, Sweep(Candidates(s.t, now), now, {}), now);
    }
    hide Paired, ActivatedOnce, NumberedOnce, CreditedOnce, Known, CallersFine, SweepFine, Candidates;
  }

  lemma HandledKeepsInv(s: State, k: nat, m: Id)
    requires Inv(s) && k < |s.sweeps|
    ensures Inv(s.(sweeps := Handled(s.sweeps, k, m)))
  {
    assert SweepFine(s.t.members, s.sweeps[k], s.clock);
    assert SweepFine(s.t.members, Handled(s.sweeps, k, m)[k], s.clock);
    hide Paired, ActivatedOnce, NumberedOnce, CreditedOnce, Known, CallersFine, SweepFine;
  }

  lemma StartedKeepsInv(s: State, m: Id, before: Status, after: Status)
    requires Inv(s)
    requires (before == DRAFT && after == AWAITING_PAYMENT) || (before == ACTIVE && after == EXPIRED)
    ensures Inv(Started(s, m, before, after))
  {
    hide Inv, IsCharge;
    if StatusIs(s.t, m, before) {
      var t' := Swapped(s.t, m, before, after);
      assert s.t.history + [] == s.t.history;
      assert LifeStep(s.t, t', m, []);
      LifeKeepsInv(s, t', m, []);
      hide LifeStep;
      JoinKeepsInv(s.(t := t'), Noting(Change(m, before, after)));
    }
  }

  lemma TransitionKeepsInv(s: State, m: Id, before: Status, after: Status)
    requires Inv(s) && Lifecycle(before, after) && after != RENEWED && !AwaitsActivation(before)
    ensures Inv(s.(t := Transition(s.t, m, before, after)))
  {
    hide Inv;
    if StatusIs(s.t, m, before) {
      var t' := Transition(s.t, m, before, after);
      assert LifeStep(s.t, t', m, [Change(m, before, after)]);
      LifeKeepsInv(s, t', m, [Change(m, before, after)]);
    }
  }

  lemma FineCaller(s: State, c: nat)
    requires CallersFine(s.t, s.callers) && c < |s.callers|
    ensures CallerFine(s.t, s.callers[c])
  {
  }

  lemma NoteKeepsInv(s: State, c: nat)
    requires Inv(s) && c < |s.callers| && s.callers[c].Noting?
    ensures Inv(Noted(s, c))
  {
    hide Inv, CallersFine;
    CallersOfInv(s);
    var row := s.callers[c].change;
    assert CallerFine(s.t, s.callers[c]) by { FineCaller(s, c); }
    var t' := s.t.(history := s.t.history + [row]);
    assert LifeStep(s.t, t', row.member, [row]);
    LifeKeepsInv(s, t', row.member, [row]);
    hide LifeStep;
    AdvanceKeepsInv(s.(t := t'), c, Ended);
  }

  lemma DieKeepsInv(s: State, c: nat)
    requires Inv(s) && c < |s.callers| && s.callers[c].Dying?
    ensures Inv(Died(s, c))
  {
    var m, read := s.callers[c].member, s.callers[c].read;
    assert CallerFine(s.t, s.callers[c]);
    var t' := MarkDeceased(s.t, m, read);
    if StatusIs(s.t, m, ACTIVE) || StatusIs(s.t, m, SUSPENDED) {
      assert LifeStep(s.t, t', m, [Change(m, read, DECEASED)]);
      LifeKeepsInv(s, t', m, [Change(m, read, DECEASED)]);
    }
    hide Inv;
    AdvanceKeepsInv(s.(t := t'), c, Ended);
  }

  lemma DrawKeepsTables(t: Tables, t': Tables)
    requires Paired(t) && NumberedOnce(t)
    requires t' == t.(lastNumber := t.lastNumber + 1, numbers := t.numbers + {t.lastNumber + 1})
      || t' == t.(lastReceipt := t.lastReceipt + 1, receipts := t.receipts + {t.lastReceipt + 1})
    ensures Paired(t') && NumberedOnce(t')
  {
    hide Charges, Paid, NotYetActive;
  }

  lemma DrawKeepsInv(s: State, a: Action)
    requires Inv(s) && (a.DrawNumber? || a.DrawReceipt?)
    ensures Inv(Next(s, a))
  {
    var s' := Next(s, a);
    DrawKeepsTables(s.t, s'.t);
    OthersKeepSweeps(s, s');
    CallersStayFine(s.t, s'.t, s.callers);
    hide Paired, NumberedOnce, SweepsFine, CallersFine, HasActivation, IsActivation;
  }

  lemma NextKeepsInv(s: State, a: Action)
    requires Inv(s)
    ensures Inv(Next(s, a))
  {
    hide Inv, Transition, Started, Died, Noted, UpgradedBy, EditedBy, Registered, Finished, AwardedTo, Candidates;
    hide Taken;
    assert CallersFine(s.t, s.callers) by { CallersOfInv(s); }
    match a
    case Register(m, row) => if m !in s.t.members { RegisterKeepsInv(s, m, row); }
    case DrawNumber => DrawKeepsInv(s, a);
    case DrawReceipt => DrawKeepsInv(s, a);
    case Finish(c, now, ticket) => if MayFinish(s, c, now, ticket) { FinishKeepsInv(s, c, now, ticket); }
    case Award(c, eligible) =>
      if c < |s.callers| && s.callers[c].Awarding? { AwardKeepsInv(s, c, eligible); }
    case Upgrade(c, now, receipt) => if MayUpgrade(s, c, now, receipt) { UpgradeKeepsInv(s, c, now, receipt); }
    case Edit(c, joined, plan) =>
      if c < |s.callers| && s.callers[c].Editing? { EditKeepsInv(s, c, joined, plan); }
    case Submit(m) => StartedKeepsInv(s, m, DRAFT, AWAITING_PAYMENT);
    case Suspend(m) => TransitionKeepsInv(s, m, ACTIVE, SUSPENDED);
    case Reactivate(m) => TransitionKeepsInv(s, m, SUSPENDED, ACTIVE);
    case Die(c) => if c < |s.callers| && s.callers[c].Dying? { DieKeepsInv(s, c); }
    case SweepRead(now) => SweepReadKeepsInv(s, now);
    case Expire(k, m) =>
      if k < |s.sweeps| {
        StartedKeepsInv(s, m, ACTIVE, EXPIRED);
        StartedSweeps(s, m);
        HandledKeepsInv(Started(s, m, ACTIVE, EXPIRED), k, m);
      }
    case Note(c) => if c < |s.callers| && s.callers[c].Noting? { NoteKeepsInv(s, c); }
    case _ => CallerStepKeepsInv(s, a);
  }

  /** Calls that start, and reads. */
  lemma CallerStepKeepsInv(s: State, a: Action)
    requires Inv(s)
    requires a.Call? || a.Lookup? || a.Load? || a.Refetch? || a.UpgradeRead? || a.EditRead? || a.DieRead?
    ensures Inv(Next(s, a))
  {
    hide Inv, Transition, Started, Died, Noted, UpgradedBy, EditedBy, Registered, Finished, AwardedTo, Candidates;
    hide Taken;
    assert CallersFine(s.t, s.callers) by { CallersOfInv(s); }
    match a
    case Call(m, gatewayId) => JoinKeepsInv(s, Next(s, a).callers[|s.callers|]);
    case Lookup(c) =>
      if c < |s.callers| && s.callers[c].Looking? { AdvanceKeepsInv(s, c, LookedUp(s, c).callers[c]); }
    case Load(c, allowed) =>
      if c < |s.callers| && s.callers[c].Loading? { AdvanceKeepsInv(s, c, Loaded(s, c, allowed).callers[c]); }
    case Refetch(c) =>
      if c < |s.callers| && s.callers[c].Refetching? { AdvanceKeepsInv(s, c, Refetched(s, c).callers[c]); }
    case UpgradeRead(m, target, charged) =>
      if m in s.t.members { JoinKeepsInv(s, Upgrading(m, s.t.members[m], target, charged)); }
    case EditRead(m) => if m in s.t.members { JoinKeepsInv(s, Editing(m, s.t.members[m])); }
    case DieRead(m) =>
      if StatusIs(s.t, m, ACTIVE) || StatusIs(s.t, m, SUSPENDED) { JoinKeepsInv(s, Dying(m, s.t.members[m].status)); }
  }

  lemma StartedSweeps(s: State, m: Id)
    ensures Started(s, m, ACTIVE, EXPIRED).sweeps == s.sweeps
  {
  }

  lemma CallersOfInv(s: State)
    requires Inv(s)
    ensures CallersFine(s.t, s.callers)
  {
  }

  lemma {:induction false} RunKeepsInv(s: State, actions: seq<Action>)
    requires Inv(s)
    ensures Inv(Run(s, actions))
  {
    if actions != [] {
      hide Inv, Next;
      RunKeepsInv(s, actions[..|actions| - 1]);
      NextKeepsInv(Run(s, actions[..|actions| - 1]), actions[|actions| - 1]);
    }
  }

  // ---- Payments, for every interleaving ----

  /** Before any payment: any members, in any states, whose numbers are distinct and already allocated. */
  ghost function Start(members: map<Id, Member>, lastNumber: nat, lastReceipt: nat, clock: int): State {
    State(Tables(members, [], [], [], lastNumber, lastReceipt), [],
          map m | m in members :: members[m].status, [], clock)
  }

  lemma StartKeepsInv(members: map<Id, Member>, lastNumber: nat, lastReceipt: nat, clock: int)
    requires NumberedOnce(Tables(members, [], [], [], lastNumber, lastReceipt))
    ensures Inv(Start(members, lastNumber, lastReceipt, clock))
  {
  }

  /**
    Each gateway payment id has one payment row at most; payment rows match activations, renewals and
    charged upgrades one to one in order; nobody is activated or credited twice; and numbers are distinct.
   */
  lemma PaymentSafety(members: map<Id, Member>, lastNumber: nat, lastReceipt: nat, clock: int, actions: seq<Action>)
    requires NumberedOnce(Tables(members, [], [], [], lastNumber, lastReceipt))
    ensures var t := Run(Start(members, lastNumber, lastReceipt, clock), actions).t;
      && (forall i, j :: 0 <= i < j < |t.payments| && t.payments[i].gatewayId.Some? ==>
            t.payments[i].gatewayId != t.payments[j].gatewayId)
      && (forall i, j :: 0 <= i < j < |t.payments| ==> t.payments[i].receipt != t.payments[j].receipt)
      && Charges(t.history) == Paid(t.payments)
      && (forall i, j :: 0 <= i < j < |t.history| && IsActivation(t.history[i]) && IsActivation(t.history[j]) ==>
            t.history[i].member != t.history[j].member)
      && (forall i, j :: 0 <= i < j < |t.credits| ==> t.credits[i] != t.credits[j])
      && (forall m, n :: m in t.members && n in t.members && m != n && t.members[m].number.Some? ==>
            t.members[m].number != t.members[n].number)
  {
    hide Run, Start;
    StartKeepsInv(members, lastNumber, lastReceipt, clock);
    RunKeepsInv(Start(members, lastNumber, lastReceipt, clock), actions);
    hide SweepsFine, Known, CallersFine, Charges, Paid, HasActivation, IsActivation, NotYetActive;
  }

  /** A caller that loses on the unique constraint always finds the winner's row for the same gateway payment. */
  lemma LoserFindsWinner(s: State, c: nat)
    requires Inv(s) && c < |s.callers| && s.callers[c].Refetching?
    ensures var s' := Next(s, Refetch(c));
      && s'.callers[c].Returned? && s'.callers[c].gatewayId == Some(s.callers[c].gateway)
      && s'.callers[c].payment in s.t.payments
      && s'.callers[c].payment.gatewayId == Some(s.callers[c].gateway)
      && s'.t == s.t
  {
    assert CallerFine(s.t, s.callers[c]);
  }

  // ---- What no run undoes ----

  /** A deceased member stays so, no activation is undone, a number stays, and payments and credits are only added. */
  ghost predicate Kept(t: Tables, t': Tables, m: Id) {
    && m in t.members && m in t'.members
    && (t.members[m].status == DECEASED ==> t'.members[m].status == DECEASED)
    && (!NotYetActive(t.members[m].status) ==> !NotYetActive(t'.members[m].status))
    && (t.members[m].number.Some? ==> t'.members[m].number == t.members[m].number)
    && t.payments <= t'.payments && t.credits <= t'.credits
  }

  lemma FinalizeKept(t: Tables, k: Id, seen: Member, gatewayId: Option<string>, now: int, ticket: Ticket, m: Id)
    requires NumberedOnce(t) && Payable(seen) && m in t.members
    ensures Kept(t, Settle(t, k, seen, gatewayId, now, ticket).0, m)
  {
    FinalizeShape(t, k, seen, gatewayId, now, ticket);
    hide Settle, Taken, CommitRows;
  }

  lemma LifeKept(t: Tables, t': Tables, k: Id, more: seq<Change>, m: Id)
    requires LifeStep(t, t', k, more) && m in t.members
    ensures Kept(t, t', m)
  {
  }

  lemma FinishKept(s: State, c: nat, now: int, ticket: Ticket, m: Id)
    requires Inv(s) && m in s.t.members && c < |s.callers| && s.callers[c].Deciding?
    ensures Kept(s.t, Finished(s, c, now, ticket).t, m)
  {
    hide Settle, Kept;
    var w := s.callers[c];
    assert CallerFine(s.t, w);
    FinalizeKept(s.t, w.member, w.seen, w.gatewayId, now, ticket, m);
  }

  /** The lifecycle step that an action takes, if it takes one. */
  lemma LifeOf(s: State, a: Action) returns (m: Id, more: seq<Change>)
    requires CallersFine(s.t, s.callers)
    requires a.Submit? || a.Suspend? || a.Reactivate? || a.Die? || a.Expire? || a.Note?
    ensures Next(s, a).t == s.t || LifeStep(s.t, Next(s, a).t, m, more)
  {
    if a.Die? || a.Note? {
      hide Next, LifeStep;
      m, more := LifeOfCaller(s, a);
    } else {
      hide Taken, CallersFine;
      assert s.t.history + [] == s.t.history;
      m := a.member;
      more := if a.Suspend? then [Change(m, ACTIVE, SUSPENDED)]
              else if a.Reactivate? then [Change(m, SUSPENDED, ACTIVE)] else [];
    }
  }

  lemma LifeOfCaller(s: State, a: Action) returns (m: Id, more: seq<Change>)
    requires CallersFine(s.t, s.callers) && (a.Die? || a.Note?)
    ensures Next(s, a).t == s.t || LifeStep(s.t, Next(s, a).t, m, more)
  {
    m, more := 0, [];
    if a.caller < |s.callers| {
      var w := s.callers[a.caller];
      assert CallerFine(s.t, w);
      hide CallersFine, Taken;
      if w.Dying? { m, more := w.member, [Change(w.member, w.read, DECEASED)]; }
      if w.Noting? { m, more := w.change.member, [w.change]; }
    }
  }

  lemma UpgradeKept(t: Tables, t': Tables, k: Id, charged: bool, now: int, receipt: nat, m: Id)
    requires UpgradedShape(t, t', k, charged, now, receipt) && m in t.members
    ensures Kept(t, t', m)
  {
  }

  /** Steps that neither pay nor change a status. */
  lemma OtherKept(s: State, a: Action, m: Id)
    requires m in s.t.members
    requires !(a.Finish? || a.Submit? || a.Suspend? || a.Reactivate? || a.Die? || a.Expire? || a.Note?)
    ensures Kept(s.t, Next(s, a).t, m)
  {
    hide Upgraded, Candidates, Taken, NotYetActive;
    if a.Upgrade? && a.caller < |s.callers| && s.callers[a.caller].Upgrading? {
      var w := s.callers[a.caller];
      UpgradeShape(s.t, w.member, w.seen, w.target, w.charged, a.now, a.receipt);
      hide UpgradedShape;
      if Upgradable(s.t, w.member, w.seen) {
        UpgradeKept(s.t, Upgraded(s.t, w.member, w.seen, w.target, w.charged, a.now, a.receipt),
                    w.member, w.charged, a.now, a.receipt, m);
      }
    }
  }

  lemma NextKept(s: State, a: Action, m: Id)
    requires Inv(s) && m in s.t.members
    ensures Kept(s.t, Next(s, a).t, m)
  {
    CallersOfInv(s);
    SameKept(s.t, m);
    hide Inv, CallersFine, Kept;
    if a.Submit? || a.Suspend? || a.Reactivate? || a.Die? || a.Expire? || a.Note? {
      hide Next;
      var k, more := LifeOf(s, a);
      if Next(s, a).t != s.t { LifeKept(s.t, Next(s, a).t, k, more, m); }
    } else if a.Finish? {
      hide Finished;
      if a.caller < |s.callers| && s.callers[a.caller].Deciding? { FinishKept(s, a.caller, a.now, a.ticket, m); }
    } else {
      hide Next;
      OtherKept(s, a, m);
    }
  }

  lemma SameKept(t: Tables, m: Id)
    requires m in t.members
    ensures Kept(t, t, m)
  {
  }

  lemma OriginsStay(s: State, a: Action, m: Id)
    requires s.origins.Keys == s.t.members.Keys && m in s.t.members
    ensures m in Next(s, a).origins && Next(s, a).origins[m] == s.origins[m]
  {
    hide Settle, Transition, Swapped, Upgraded, MarkDeceased, Candidates;
  }

  /** In every run a deceased member stays so, no activation is undone, and no number, payment or credit is lost. */
  lemma {:induction false} RunLaws(s: State, actions: seq<Action>, m: Id)
    requires Inv(s) && m in s.t.members
    ensures Kept(s.t, Run(s, actions).t, m)
    ensures m in s.origins && m in Run(s, actions).origins && Run(s, actions).origins[m] == s.origins[m]
  {
    OriginsOfInv(s);
    if actions != [] {
      hide Inv, Next, NotYetActive;
      var before := Run(s, actions[..|actions| - 1]);
      RunLaws(s, actions[..|actions| - 1], m);
      RunKeepsInv(s, actions[..|actions| - 1]);
      OriginsOfInv(before);
      NextKept(before, actions[|actions| - 1], m);
      OriginsStay(before, actions[|actions| - 1], m);
    }
  }

  lemma OriginsOfInv(s: State)
    requires Inv(s)
    ensures s.origins.Keys == s.t.members.Keys
  {
  }
}
