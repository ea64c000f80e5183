/**
  Plan upgrades and tier rewards (`upgradePlan` of apps/api/src/payments/payments.service.ts,
  `awardBatchRewardForTier` of apps/api/src/referrals/referrals.service.ts,
  apps/api/src/referrals/volunteer-batch.util.ts). An upgrade reads the member, and later
  commits against whatever the row has become. Fees are reals.
 */
module Upgrades {
  import opened Wrappers
  import opened Sums

  // ---- Tiers ----

  datatype Tier = BRONZE | SILVER | GOLD | PLATINUM

  const PLAN_TIER_ORDER: seq<Tier> := [BRONZE, SILVER, GOLD, PLATINUM]

  function Rank(t: Tier): (i: nat)
    ensures i < |PLAN_TIER_ORDER| && PLAN_TIER_ORDER[i] == t
  {
    match t case BRONZE => 0 case SILVER => 1 case GOLD => 2 case PLATINUM => 3
  }

  function TiersUpTo(t: Tier): (tiers: seq<Tier>)
    ensures forall u :: u in tiers <==> Rank(u) <= Rank(t)
  {
    var tiers := PLAN_TIER_ORDER[..Rank(t) + 1];
    assert forall u :: Rank(u) <= Rank(t) ==> tiers[Rank(u)] == u;
    tiers
  }

  /** One reward row per tier: an existing row is left alone. */
  function Upsert(rewards: seq<Tier>, t: Tier): seq<Tier> { if t in rewards then rewards else rewards + [t] }

  function UpsertAll(rewards: seq<Tier>, tiers: seq<Tier>): seq<Tier> {
    if tiers == [] then rewards else Upsert(UpsertAll(rewards, tiers[..|tiers| - 1]), tiers[|tiers| - 1])
  }

  function Awarded(rewards: seq<Tier>, tier: Option<Tier>): seq<Tier> {
    match tier case None => rewards case Some(t) => UpsertAll(rewards, TiersUpTo(t))
  }

  /** From the rewards of one tier, awarding a higher one gives exactly the rewards of that tier. */
  lemma AwardedFrom(t: Tier, u: Tier)
    requires Rank(t) <= Rank(u)
    ensures Awarded(TiersUpTo(t), Some(u)) == TiersUpTo(u)
    ensures Awarded([], Some(u)) == TiersUpTo(u)
  {
    UpsertPrefix(Rank(t) + 1, Rank(u) + 1);
    UpsertPrefix(0, Rank(u) + 1);
  }

  lemma {:induction false} UpsertPrefix(i: nat, j: nat)
    requires i <= |PLAN_TIER_ORDER| && j <= |PLAN_TIER_ORDER|
    ensures UpsertAll(PLAN_TIER_ORDER[..i], PLAN_TIER_ORDER[..j]) == PLAN_TIER_ORDER[..if i <= j then j else i]
  {
    if j > 0 {
      UpsertPrefix(i, j - 1);
      assert PLAN_TIER_ORDER[..j][..j - 1] == PLAN_TIER_ORDER[..j - 1];
      OneMore(if i <= j - 1 then j - 1 else i, j - 1);
      hide Upsert;
    }
  }

  /** A tier is already among the first `have` exactly if it comes before them in the order. */
  lemma OneMore(have: nat, k: nat)
    requires have <= |PLAN_TIER_ORDER| && k < |PLAN_TIER_ORDER| && k <= have
    ensures Upsert(PLAN_TIER_ORDER[..have], PLAN_TIER_ORDER[k]) == PLAN_TIER_ORDER[..if k < have then have else k + 1]
  {
    var t := PLAN_TIER_ORDER[k];
    assert Rank(t) == k;
    if k < have {
      assert PLAN_TIER_ORDER[..have][k] == t;
    } else {
      forall i | 0 <= i < have ensures PLAN_TIER_ORDER[i] != t { assert Rank(PLAN_TIER_ORDER[i]) == i; }
      assert PLAN_TIER_ORDER[..have] + [t] == PLAN_TIER_ORDER[..k + 1];
    }
  }

  // ---- Upgrades ----

  datatype Plan = Plan(tier: Option<Tier>, fee: real, isActive: bool)

  type Plans = map<nat, Plan>

  /** The member columns an upgrade reads. */
  datatype Member = Member(active: bool, planId: Option<nat>, feeOverride: Option<real>)

  function EffectiveFee(plans: Plans, m: Member): real {
    match m.feeOverride
    case Some(fee) => fee
    case None => if m.planId.Some? && m.planId.value in plans then plans[m.planId.value].fee else 0.0
  }

  datatype UpgradeError = NotActive | NoPlan | TargetNotFound | SamePlan | NotHigher | JustChanged

  /** The checks on the member as it was read. */
  function Refused(plans: Plans, seen: Member, target: nat): Option<UpgradeError> {
    if !seen.active then Some(NotActive)
    else if seen.planId.None? || seen.planId.value !in plans then Some(NoPlan)
    else if target !in plans || !plans[target].isActive then Some(TargetNotFound)
    else if target == seen.planId.value then Some(SamePlan)
    else
      var current, next := plans[seen.planId.value].tier, plans[target].tier;
      if current.Some? && next.Some? && Rank(next.value) <= Rank(current.value) then Some(NotHigher) else None
  }

  function Charge(plans: Plans, seen: Member, target: nat): real
    requires target in plans
  {
    var due := plans[target].fee - EffectiveFee(plans, seen);
    if due > 0.0 then due else 0.0
  }

  datatype State = State(member: Member, payments: seq<real>, rewards: seq<Tier>)

  /** The transaction: compare-and-swap on status and plan, then payment and rewards. */
  function Commit(plans: Plans, s: State, seen: Member, target: nat): (State, Option<UpgradeError>) {
    var refused := Refused(plans, seen, target);
    if refused.Some? then (s, refused)
    else if !s.member.active || s.member.planId != seen.planId then (s, Some(JustChanged))
    else
      var amount := Charge(plans, seen, target);
      (State(s.member.(planId := Some(target), feeOverride := None),
             if amount > 0.0 then s.payments + [amount] else s.payments,
             Awarded(s.rewards, plans[target].tier)), None)
  }

  class MemberAccount {
    const plans: Plans
    var member: Member
    var payments: seq<real>
    var rewards: seq<Tier>

    method AwardBatchRewardForTier(tier: Option<Tier>)
      modifies this`rewards
      ensures rewards == Awarded(old(rewards), tier)
    {
      if tier.None? { return; }
      var tiers := TiersUpTo(tier.value);
      for i := 0 to |tiers|
        invariant rewards == UpsertAll(old(rewards), tiers[..i])
      {
        assert tiers[..i + 1][..i] == tiers[..i];
        if tiers[i] !in rewards {
          rewards := rewards + [tiers[i]];
        }
      }
      assert tiers[..|tiers|] == tiers;
    }

    method UpgradePlan(seen: Member, target: nat) returns (error: Option<UpgradeError>)
      modifies this
      ensures (State(member, payments, rewards), error)
           == Commit(plans, State(old(member), old(payments), old(rewards)), seen, target)
    {
      error := Refused(plans, seen, target);
      if error.Some? { return; }
      if !member.active || member.planId != seen.planId { return Some(JustChanged); }
      member := member.(planId := Some(target), feeOverride := None);
      var amount := plans[target].fee - EffectiveFee(plans, seen);
      if amount > 0.0 {
        payments := payments + [amount];
      }
      AwardBatchRewardForTier(plans[target].tier);
    }
  }

  // ---- Runs: reads, later commits, and status changes in any order ----

  datatype Action =
    | Load                               // an upgrade request reads the member
    | Finish(request: nat, target: nat)  // ... and later commits
    | SetActive(active: bool)            // suspension, expiry, renewal

  /**
    Members read by requests that may still commit, the number of upgrades so far, and whether none
    was to a cheaper plan.
   */
  datatype Run = Run(now: State, waiting: seq<Member>, upgrades: nat, rising: bool)

  ghost function Next(plans: Plans, r: Run, a: Action): Run {
    match a
    case Load => r.(waiting := r.waiting + [r.now.member])
    case SetActive(active) => r.(now := r.now.(member := r.now.member.(active := active)))
    case Finish(request, target) =>
      if request >= |r.waiting| then r
      else
        var seen := r.waiting[request];
        var (s, error) := Commit(plans, r.now, seen, target);
        if error.Some? then r
        else Run(s, r.waiting, r.upgrades + 1, r.rising && plans[target].fee >= EffectiveFee(plans, seen))
  }

  ghost function After(plans: Plans, start: State, actions: seq<Action>): Run {
    if actions == [] then Run(start, [], 0, true)
    else Next(plans, After(plans, start, actions[..|actions| - 1]), actions[|actions| - 1])
  }

  ghost function Total(amounts: seq<real>): real { SumReal(amounts, (x: real) => x) }

  ghost predicate Tiered(plans: Plans) { forall p :: p in plans ==> plans[p].tier.Some? }

  ghost predicate OnPlan(plans: Plans, m: Member) { m.planId.Some? && m.planId.value in plans }

  ghost function TierOf(plans: Plans, m: Member): Tier
    requires Tiered(plans) && OnPlan(plans, m)
  {
    plans[m.planId.value].tier.value
  }

  /** A pending read is of an earlier tier, or still agrees with the row on the fee. */
  ghost predicate ReadFits(plans: Plans, seen: Member, m: Member)
    requires Tiered(plans) && OnPlan(plans, m)
  {
    && OnPlan(plans, seen)
    && (seen.planId == m.planId ==> seen.feeOverride == m.feeOverride)
    && (seen.planId != m.planId ==> Rank(TierOf(plans, seen)) < Rank(TierOf(plans, m)))
  }

  ghost predicate AllFit(plans: Plans, waiting: seq<Member>, m: Member)
    requires Tiered(plans) && OnPlan(plans, m)
  {
    forall i :: 0 <= i < |waiting| ==> ReadFits(plans, waiting[i], m)
  }

  /** The charges cover the rise of the fee, and are no more exactly when no upgrade was to a cheaper plan. */
  ghost predicate Covered(charged: real, gap: real, rising: bool) {
    charged >= gap && (charged == gap <==> rising)
  }

  ghost predicate Inv(plans: Plans, start: State, r: Run)
    requires Tiered(plans) && OnPlan(plans, start.member)
  {
    && OnPlan(plans, r.now.member)
    && AllFit(plans, r.waiting, r.now.member)
    && Rank(TierOf(plans, r.now.member)) >= Rank(TierOf(plans, start.member)) + r.upgrades
    && r.now.rewards == TiersUpTo(TierOf(plans, r.now.member))
    && Covered(Total(r.now.payments) - Total(start.payments),
               EffectiveFee(plans, r.now.member) - EffectiveFee(plans, start.member), r.rising)
  }

  /** A commit that goes through read the row as it still is, up to the status. */
  lemma CommitFits(plans: Plans, s: State, seen: Member, target: nat)
    requires Tiered(plans) && OnPlan(plans, s.member) && ReadFits(plans, seen, s.member)
    requires Commit(plans, s, seen, target).1.None?
    ensures seen.planId == s.member.planId && EffectiveFee(plans, seen) == EffectiveFee(plans, s.member)
    ensures target in plans && Rank(plans[target].tier.value) > Rank(TierOf(plans, s.member))
  {
  }

  /** One more charge keeps the fee rise covered. */
  lemma ChargeCovers(plans: Plans, start: real, payments: seq<real>, first: real, seen: Member,
                     target: nat, rising: bool)
    requires target in plans
    requires Covered(Total(payments) - start, EffectiveFee(plans, seen) - first, rising)
    ensures var amount := Charge(plans, seen, target);
      Covered(Total(if amount > 0.0 then payments + [amount] else payments) - start, plans[target].fee - first,
              rising && plans[target].fee >= EffectiveFee(plans, seen))
  {
    var amount := Charge(plans, seen, target);
    SumRealAdd(payments, (x: real) => x, amount);
    assert Total(payments + [amount]) == Total(payments) + amount;
  }

  /** Pending reads fit a row that has moved to a higher tier. */
  lemma AllStillFit(plans: Plans, waiting: seq<Member>, m: Member, m': Member)
    requires Tiered(plans) && OnPlan(plans, m) && OnPlan(plans, m')
    requires AllFit(plans, waiting, m) && Rank(TierOf(plans, m)) < Rank(TierOf(plans, m'))
    ensures AllFit(plans, waiting, m')
  {
    hide Rank;
  }

  /** The run after an upgrade from `seen`, which passed its checks and won the compare-and-swap. */
  ghost function Upgraded(plans: Plans, r: Run, seen: Member, target: nat): Run
    requires target in plans
  {
    var amount := Charge(plans, seen, target);
    Run(State(r.now.member.(planId := Some(target), feeOverride := None),
              if amount > 0.0 then r.now.payments + [amount] else r.now.payments,
              Awarded(r.now.rewards, plans[target].tier)),
        r.waiting, r.upgrades + 1, r.rising && plans[target].fee >= EffectiveFee(plans, seen))
  }

  lemma UpgradeKeepsInv(plans: Plans, start: State, r: Run, seen: Member, target: nat)
    requires Tiered(plans) && OnPlan(plans, start.member) && Inv(plans, start, r)
    requires target in plans && Rank(plans[target].tier.value) > Rank(TierOf(plans, r.now.member))
    requires EffectiveFee(plans, seen) == EffectiveFee(plans, r.now.member)
    ensures Inv(plans, start, Upgraded(plans, r, seen, target))
  {
    var m := r.now.member;
    var m' := m.(planId := Some(target), feeOverride := None);
    hide AllFit, Awarded, TiersUpTo, Total, Covered, Charge, Rank;
    AllStillFit(plans, r.waiting, m, m');
    AwardedFrom(TierOf(plans, m), plans[target].tier.value);
    ChargeCovers(plans, Total(start.payments), r.now.payments, EffectiveFee(plans, start.member),
                 seen, target, r.rising);
  }

  lemma FinishKeepsInv(plans: Plans, start: State, r: Run, request: nat, target: nat)
    requires Tiered(plans) && OnPlan(plans, start.member) && Inv(plans, start, r)
    ensures Inv(plans, start, Next(plans, r, Finish(request, target)))
  {
    hide Awarded, Charge, EffectiveFee, ReadFits, Refused;
    if request < |r.waiting| && Commit(plans, r.now, r.waiting[request], target).1.None? {
      CommitFits(plans, r.now, r.waiting[request], target);
      UpgradeKeepsInv(plans, start, r, r.waiting[request], target);
      hide Inv;
    }
  }

  lemma {:induction false} RunKeepsInv(plans: Plans, start: State, actions: seq<Action>)
    requires Tiered(plans) && OnPlan(plans, start.member)
    requires start.rewards == TiersUpTo(TierOf(plans, start.member))
    ensures Inv(plans, start, After(plans, start, actions))
  {
    if actions != [] {
      var n := |actions| - 1;
      RunKeepsInv(plans, start, actions[..n]);
      var r := After(plans, start, actions[..n]);
      if actions[n].Finish? { FinishKeepsInv(plans, start, r, actions[n].request, actions[n].target); }
    }
  }

  /**
    Over tiered plans there are at most three upgrades, the charges add up to at least the rise of
    the fee and to exactly that when no upgrade went to a cheaper plan, and the rewards are those
    of the current tier, each once.
   */
  lemma UpgradesBounded(plans: Plans, start: State, actions: seq<Action>)
    requires Tiered(plans) && OnPlan(plans, start.member)
    requires start.rewards == TiersUpTo(TierOf(plans, start.member))
    ensures var r := After(plans, start, actions);
      && r.upgrades <= 3 && OnPlan(plans, r.now.member)
      && r.now.rewards == TiersUpTo(TierOf(plans, r.now.member))
      && var charged := Total(r.now.payments) - Total(start.payments);
      var m, n := start.member, r.now.member;
      var first := if m.feeOverride.Some? then m.feeOverride.value else plans[m.planId.value].fee;
      var last := if n.feeOverride.Some? then n.feeOverride.value else plans[n.planId.value].fee;
      charged >= last - first && (charged == last - first <==> r.rising)
  {
    RunKeepsInv(plans, start, actions);
  }

  /** Going from `seen` to the target's tier leads up, or one of the two plans has no tier. */
  ghost predicate Higher(plans: Plans, seen: nat, target: nat)
    requires seen in plans && target in plans
  {
    plans[seen].tier.None? || plans[target].tier.None?
    || Rank(plans[target].tier.value) > Rank(plans[seen].tier.value)
  }

  /**
    An upgrade goes through exactly if the member was ACTIVE and on a plan when it was read, the target
    is another plan on offer and no lower, and the member is still ACTIVE and on that plan.
   */
  lemma CommitExactly(plans: Plans, s: State, seen: Member, target: nat)
    ensures var (s', error) := Commit(plans, s, seen, target);
      && (error.None? <==>
            && seen.active && OnPlan(plans, seen)
            && target in plans && plans[target].isActive && target != seen.planId.value
            && Higher(plans, seen.planId.value, target)
            && s.member.active && s.member.planId == seen.planId)
      && (error.Some? ==> s' == s)
      && (error == Some(NotActive) <==> !seen.active)
      && (error == Some(NoPlan) <==> seen.active && !OnPlan(plans, seen))
      && (seen.active && OnPlan(plans, seen) ==>
            && (error == Some(TargetNotFound) <==> target !in plans || !plans[target].isActive)
            && (target in plans && plans[target].isActive ==>
                  && (error == Some(SamePlan) <==> target == seen.planId.value)
                  && (error == Some(NotHigher) <==>
                        target != seen.planId.value && !Higher(plans, seen.planId.value, target))))
  {
    hide Awarded, Charge;
  }

  /**
    What an upgrade costs: by how much the target's fee exceeds the fee agreed with the member when it
    was read, or else its plan's; nothing is recorded if it does not. The agreed fee lapses, and the
    rewards of the new tier and those below it are there, with all that were there before.
   */
  lemma ChargedExactly(plans: Plans, s: State, seen: Member, target: nat)
    requires Commit(plans, s, seen, target).1.None?
    ensures OnPlan(plans, seen) && target in plans
    ensures var s' := Commit(plans, s, seen, target).0;
      var due := plans[target].fee - if seen.feeOverride.Some? then seen.feeOverride.value
                                     else plans[seen.planId.value].fee;
      && s'.payments == s.payments + (if due > 0.0 then [due] else [])
      && s'.member == Member(s.member.active, Some(target), None)
      && forall u :: u in s'.rewards <==>
           u in s.rewards || (plans[target].tier.Some? && Rank(u) <= Rank(plans[target].tier.value))
    ensures Distinct(s.rewards) ==> Distinct(Commit(plans, s, seen, target).0.rewards)
  {
    assert s.payments + [] == s.payments;
    if plans[target].tier.Some? {
      UpsertAllHas(s.rewards, TiersUpTo(plans[target].tier.value));
      if Distinct(s.rewards) { UpsertAllOnce(s.rewards, TiersUpTo(plans[target].tier.value)); }
    }
    hide Rank;
  }

  lemma {:induction false} UpsertAllHas(rewards: seq<Tier>, tiers: seq<Tier>)
    ensures forall u :: u in UpsertAll(rewards, tiers) <==> u in rewards || u in tiers
  {
    if tiers != [] {
      UpsertAllHas(rewards, tiers[..|tiers| - 1]);
      assert forall u :: u in tiers <==> u in tiers[..|tiers| - 1] || u == tiers[|tiers| - 1];
    }
  }

  ghost predicate Distinct(rewards: seq<Tier>) {
    forall i, j :: 0 <= i < j < |rewards| ==> rewards[i] != rewards[j]
  }

  /** Each reward is given once, however often a tier is awarded. */
  lemma {:induction false} UpsertAllOnce(rewards: seq<Tier>, tiers: seq<Tier>)
    requires Distinct(rewards)
    ensures Distinct(UpsertAll(rewards, tiers))
  {
    if tiers != [] {
      UpsertAllOnce(rewards, tiers[..|tiers| - 1]);
      UpsertOnce(UpsertAll(rewards, tiers[..|tiers| - 1]), tiers[|tiers| - 1]);
    }
  }

  lemma UpsertOnce(rewards: seq<Tier>, t: Tier)
    requires Distinct(rewards)
    ensures Distinct(Upsert(rewards, t))
  {
  }

  /** The ladder of tiers. */
  lemma TierLadder()
    ensures TiersUpTo(BRONZE) == [BRONZE] && TiersUpTo(SILVER) == [BRONZE, SILVER]
    ensures TiersUpTo(GOLD) == [BRONZE, SILVER, GOLD] && TiersUpTo(PLATINUM) == [BRONZE, SILVER, GOLD, PLATINUM]
  {
  }

  // ---- Which plans let a member be upgraded for ever ----

  /** Two active plans one of which has no tier: neither counts as lower than the other. */
  ghost predicate Swappable(plans: Plans, u: nat, v: nat) {
    u != v && u in plans && v in plans && plans[u].isActive && plans[v].isActive && plans[u].tier.None?
  }

  /** Some run has `n` upgrades or more. */
  ghost predicate Reaches(plans: Plans, start: State, n: nat) {
    exists actions :: After(plans, start, actions).upgrades >= n
  }

  /** `u` can be reached from any other plan, and left for `v`, any number of times. */
  lemma {:induction false} BackAndForth(plans: Plans, start: State, u: nat, v: nat, n: nat)
    returns (actions: seq<Action>)
    requires Swappable(plans, u, v) && OnPlan(plans, start.member)
    ensures var r := After(plans, start, actions);
      && r.upgrades == n && |r.waiting| == n
      && r.now.member.active && OnPlan(plans, r.now.member)
  {
    if n == 0 {
      actions := [SetActive(true)];
      assert actions[..0] == [];
      return;
    }
    var before := BackAndForth(plans, start, u, v, n - 1);
    var load := before + [Load];
    var target := if After(plans, start, before).now.member.planId == Some(u) then v else u;
    actions := load + [Finish(n - 1, target)];
    assert load[..|before|] == before && actions[..|load|] == load;
    assert After(plans, start, load) == Next(plans, After(plans, start, before), Load);
    hide Awarded, Charge;
  }

  /** How many upgrades are still possible from plan `p`, if no two plans are swappable. */
  ghost function Ahead(plans: Plans, p: nat): nat
    requires p in plans
  {
    match plans[p].tier
    case Some(t) => if SoleUntiered(plans) then 1 else 3 - Rank(t)
    case None => if !SoleUntiered(plans) then 4 else if plans[p].isActive then 0 else 1
  }

  /** An untiered plan is active, and, without swappable plans, is the only active one. */
  ghost predicate SoleUntiered(plans: Plans) {
    exists u :: u in plans && plans[u].isActive && plans[u].tier.None?
  }

  /** Without swappable plans every upgrade uses up one of the upgrades ahead. */
  lemma UpgradeUsesUp(plans: Plans, seen: Member, target: nat)
    requires forall u, v :: !Swappable(plans, u, v)
    requires Refused(plans, seen, target).None?
    ensures Ahead(plans, target) < Ahead(plans, seen.planId.value)
  {
    if u :| u in plans && plans[u].isActive && plans[u].tier.None? {
      assert !Swappable(plans, u, target);
      assert !Swappable(plans, u, seen.planId.value);
    }
  }

  ghost function AheadOf(plans: Plans, m: Member): nat {
    if OnPlan(plans, m) then Ahead(plans, m.planId.value) else 0
  }

  lemma {:induction false} UpgradesUsedUp(plans: Plans, start: State, actions: seq<Action>)
    requires OnPlan(plans, start.member) ==> forall u, v :: !Swappable(plans, u, v)
    ensures var r := After(plans, start, actions);
      && r.upgrades + AheadOf(plans, r.now.member) <= AheadOf(plans, start.member)
      && (OnPlan(plans, r.now.member) <==> OnPlan(plans, start.member))
  {
    if actions != [] {
      var n := |actions| - 1;
      UpgradesUsedUp(plans, start, actions[..n]);
      var r := After(plans, start, actions[..n]);
      if actions[n].Finish? && actions[n].request < |r.waiting| {
        var seen, target := r.waiting[actions[n].request], actions[n].target;
        if Commit(plans, r.now, seen, target).1.None? { UpgradeUsesUp(plans, seen, target); }
      }
      hide Awarded, Charge, EffectiveFee, Ahead, Swappable;
    }
  }

  /**
    A member can be upgraded any number of times exactly when it is on a plan and two plans are
    active one of which has no tier. Otherwise no run has more than four upgrades.
   */
  lemma UpgradesEndExactly(plans: Plans, start: State)
    ensures (forall n: nat :: Reaches(plans, start, n))
       <==> OnPlan(plans, start.member) && exists u, v :: Swappable(plans, u, v)
    ensures !(OnPlan(plans, start.member) && exists u, v :: Swappable(plans, u, v)) ==>
      forall actions :: After(plans, start, actions).upgrades <= 4
  {
    hide After, Swappable, OnPlan;
    if OnPlan(plans, start.member) && exists u, v :: Swappable(plans, u, v) {
      var u, v :| Swappable(plans, u, v);
      forall n: nat
        ensures Reaches(plans, start, n)
      {
        var actions := BackAndForth(plans, start, u, v, n);
      }
    } else {
      forall actions
        ensures After(plans, start, actions).upgrades <= 4
      {
        UpgradesUsedUp(plans, start, actions);
      }
      assert !Reaches(plans, start, 5);
    }
  }

  /** Plans for four upgrades: an untiered one no longer on offer, and one for each tier. */
  const LADDER: Plans := map[0 := Plan(None, 0.0, false), 1 := Plan(Some(BRONZE), 0.0, true),
                             2 := Plan(Some(SILVER), 0.0, true), 3 := Plan(Some(GOLD), 0.0, true),
                             4 := Plan(Some(PLATINUM), 0.0, true)]

  /** The bound of four is attained. */
  lemma {:induction false} FourUpgrades(start: State, n: nat) returns (actions: seq<Action>)
    requires n <= 4 && start.member == Member(true, Some(0), None)
    ensures var r := After(LADDER, start, actions);
      r.upgrades == n && |r.waiting| == n && r.now.member == Member(true, Some(n), None)
    ensures forall u, v :: !Swappable(LADDER, u, v)
  {
    if n == 0 { return []; }
    var before := FourUpgrades(start, n - 1);
    var load := before + [Load];
    actions := load + [Finish(n - 1, n)];
    assert load[..|before|] == before && actions[..|load|] == load;
    assert After(LADDER, start, load) == Next(LADDER, After(LADDER, start, before), Load);
    hide Awarded, Charge;
  }
}
