/**
  The status history of a member: when its rows form a connected chain, over every interleaving of
  `PaymentRuns` (apps/api/src/applications/applications.service.ts,
  apps/api/src/members/member-expiry.scheduler.ts, `submitInternal` of
  apps/api/src/members/members.service.ts, apps/api/src/payments/payments.service.ts).
 */
module StatusHistory {
  import opened Wrappers
  import opened Membership
  import opened Payments
  import opened PaymentRuns
  import opened PaymentRaces

  /** Follows a member's rows from its first status; none if a row does not start where the last one ended. */
  ghost function Fold(start: Status, history: seq<Change>, m: Id): Option<Status> {
    if history == [] then Some(start)
    else
      var c := history[|history| - 1];
      var reached := Fold(start, history[..|history| - 1], m);
      if c.member != m then reached
      else if reached == Some(c.before) then Some(c.after) else None
  }

  lemma FoldAdd(start: Status, history: seq<Change>, c: Change, m: Id)
    ensures Fold(start, history + [c], m) ==
      if c.member != m then Fold(start, history, m)
      else if Fold(start, history, m) == Some(c.before) then Some(c.after) else None
  {
    assert (history + [c])[..|history|] == history;
  }

  /** Rows of a payment by member `k`, seen from member `m`. */
  lemma FoldCommitRows(start: Status, history: seq<Change>, k: Id, status: Status, m: Id)
    ensures Fold(start, history + CommitRows(k, status), m) ==
      if k != m then Fold(start, history, m)
      else if Fold(start, history, m) == Some(status) then Some(ACTIVE) else None
  {
    if AwaitsActivation(status) {
      FoldAdd(start, history, Change(k, status, ACTIVE), m);
    } else {
      var once := history + [Change(k, status, RENEWED)];
      assert history + CommitRows(k, status) == once + [Change(k, RENEWED, ACTIVE)];
      FoldAdd(start, history, Change(k, status, RENEWED), m);
      FoldAdd(start, once, Change(k, RENEWED, ACTIVE), m);
    }
  }

  /** A broken chain stays broken. */
  lemma {:induction false} FoldBroken(start: Status, history: seq<Change>, more: seq<Change>, m: Id)
    requires Fold(start, history, m) == None
    ensures Fold(start, history + more, m) == None
  {
    if more == [] {
      assert history + more == history;
    } else {
      var init, last := more[..|more| - 1], more[|more| - 1];
      FoldBroken(start, history, init, m);
      FoldAdd(start, history + init, last, m);
      assert history + more == history + init + [last];
    }
  }

  lemma {:induction false} FoldOthers(start: Status, history: seq<Change>, m: Id)
    requires forall i :: 0 <= i < |history| ==> history[i].member != m
    ensures Fold(start, history, m) == Some(start)
  {
    if history != [] { FoldOthers(start, history[..|history| - 1], m); }
  }

  // ---- Rows out of turn ----

  /** Caller `c` has updated the status of `m` and not yet written the row. */
  ghost predicate Owes(w: Caller, m: Id) { w.Noting? && w.change.member == m }

  /** A history row of `m` is still to come. */
  ghost predicate RowDue(callers: seq<Caller>, m: Id) { exists c :: 0 <= c < |callers| && Owes(callers[c], m) }

  /** The action updates the status or plan of `m` and writes its row in one transaction. */
  ghost predicate Writes(s: State, a: Action, m: Id) {
    match a
    case Finish(c, now, ticket) =>
      && MayFinish(s, c, now, ticket) && s.callers[c].member == m
      && Settle(s.t, m, s.callers[c].seen, s.callers[c].gatewayId, now, ticket).1.Recorded?
    case Upgrade(c, now, receipt) =>
      && MayUpgrade(s, c, now, receipt) && s.callers[c].member == m
      && Upgradable(s.t, m, s.callers[c].seen)
    case Suspend(k) => k == m && StatusIs(s.t, m, ACTIVE)
    case Reactivate(k) => k == m && StatusIs(s.t, m, SUSPENDED)
    case Die(c) =>
      && c < |s.callers| && s.callers[c].Dying? && s.callers[c].member == m
      && (StatusIs(s.t, m, ACTIVE) || StatusIs(s.t, m, SUSPENDED))
    case _ => false
  }

  /** A row of `m` overtakes another one that is due, or a death row carries another status than the member's. */
  ghost predicate OutOfTurn(s: State, a: Action, m: Id) {
    && Writes(s, a, m)
    && (RowDue(s.callers, m) || (a.Die? && !StatusIs(s.t, m, s.callers[a.caller].read)))
  }

  /** No action of the run writes a row of `m` out of turn. */
  ghost predicate InTurn(s: State, actions: seq<Action>, m: Id) {
    forall k :: 0 <= k < |actions| ==> !OutOfTurn(Run(s, actions[..k]), actions[k], m)
  }

  // ---- The chain, step by step ----

  /** The rows lead to the present status, or to the one before it if a row, and then only one, is due. */
  ghost predicate UpToDate(s: State, m: Id) {
    && m in s.t.members && m in s.origins
    && (!RowDue(s.callers, m) ==> Fold(s.origins[m], s.t.history, m) == Some(s.t.members[m].status))
    && (forall c :: 0 <= c < |s.callers| && Owes(s.callers[c], m) ==>
          && Fold(s.origins[m], s.t.history, m) == Some(s.callers[c].change.before)
          && s.t.members[m].status == s.callers[c].change.after)
    && (forall c, d :: 0 <= c < d < |s.callers| && Owes(s.callers[c], m) ==> !Owes(s.callers[d], m))
  }

  ghost predicate Broken(s: State, m: Id) {
    m in s.t.members && m in s.origins && Fold(s.origins[m], s.t.history, m) == None
  }

  /** The same rows are due to `m`. */
  ghost predicate SameDue(callers: seq<Caller>, callers': seq<Caller>, m: Id) {
    && |callers| <= |callers'|
    && (forall c :: 0 <= c < |callers| ==>
          (Owes(callers[c], m) <==> Owes(callers'[c], m)) && (Owes(callers[c], m) ==> callers'[c] == callers[c]))
    && (forall c :: |callers| <= c < |callers'| ==> !Owes(callers'[c], m))
  }

  /** Nothing about `m` changes. */
  lemma StayUpToDate(s: State, s': State, m: Id)
    requires UpToDate(s, m) && SameDue(s.callers, s'.callers, m)
    requires m in s'.t.members && s'.t.members[m].status == s.t.members[m].status
    requires m in s'.origins && s'.origins[m] == s.origins[m]
    requires Fold(s'.origins[m], s'.t.history, m) == Fold(s.origins[m], s.t.history, m)
    ensures UpToDate(s', m)
  {
    hide Fold;
    if RowDue(s.callers, m) {
      var c :| 0 <= c < |s.callers| && Owes(s.callers[c], m);
      assert Owes(s'.callers[c], m);
    }
  }

  /** A row written while none is due, which starts from the present status. */
  lemma WriteInTurn(s: State, s': State, m: Id)
    requires UpToDate(s, m) && SameDue(s.callers, s'.callers, m) && !RowDue(s.callers, m)
    requires m in s'.t.members && m in s'.origins
    requires Fold(s'.origins[m], s'.t.history, m) == Some(s'.t.members[m].status)
    ensures UpToDate(s', m)
  {
    hide Fold;
    forall c | 0 <= c < |s'.callers|
      ensures !Owes(s'.callers[c], m)
    {
      if c < |s.callers| { assert !Owes(s.callers[c], m); }
    }
  }

  /** A due row leads from where the chain is to the present status, which differ. */
  lemma DueRow(s: State, m: Id)
    requires UpToDate(s, m) && CallersFine(s.t, s.callers)
    ensures RowDue(s.callers, m) ==> Fold(s.origins[m], s.t.history, m) != Some(s.t.members[m].status)
    ensures RowDue(s.callers, m) ==> s.t.members[m].status == AWAITING_PAYMENT || s.t.members[m].status == EXPIRED
  {
    hide Fold;
    if RowDue(s.callers, m) {
      var c :| 0 <= c < |s.callers| && Owes(s.callers[c], m);
      assert CallerFine(s.t, s.callers[c]);
    }
  }

  lemma FinishChain(s: State, c: nat, now: int, ticket: Ticket, m: Id)
    requires Inv(s) && UpToDate(s, m) && MayFinish(s, c, now, ticket)
    ensures OutOfTurn(s, Finish(c, now, ticket), m) ==> Broken(Finished(s, c, now, ticket), m)
    ensures !OutOfTurn(s, Finish(c, now, ticket), m) ==> UpToDate(Finished(s, c, now, ticket), m)
  {
    hide Inv, Settle, Finished, CallersFine, RowDue, UpToDate, Broken;
    var w := s.callers[c];
    CallersOfInv(s);
    DueRow(s, m);
    if Settle(s.t, w.member, w.seen, w.gatewayId, now, ticket).1.Recorded? && w.member == m {
      FinishHere(s, c, now, ticket, m);
    } else {
      FinishElsewhere(s, c, now, ticket, m);
    }
  }

  /** What the transaction leaves, seen from the history. */
  lemma FinishedParts(s: State, c: nat, now: int, ticket: Ticket, m: Id)
    requires MayFinish(s, c, now, ticket)
    ensures var w, s' := s.callers[c], Finished(s, c, now, ticket);
      && s'.t == Settle(s.t, w.member, w.seen, w.gatewayId, now, ticket).0 && s'.origins == s.origins
      && SameDue(s.callers, s'.callers, m)
  {
    hide Settle, Draws;
  }

  lemma FinishHere(s: State, c: nat, now: int, ticket: Ticket, m: Id)
    requires UpToDate(s, m) && MayFinish(s, c, now, ticket) && s.callers[c].member == m
    requires Settle(s.t, m, s.callers[c].seen, s.callers[c].gatewayId, now, ticket).1.Recorded?
    requires RowDue(s.callers, m) ==> Fold(s.origins[m], s.t.history, m) != Some(s.t.members[m].status)
    ensures if RowDue(s.callers, m) then Broken(Finished(s, c, now, ticket), m)
      else UpToDate(Finished(s, c, now, ticket), m)
  {
    hide Settle, Finished, Taken, Fold, CommitRows, SameDue, RowDue, Draws;
    var w, s' := s.callers[c], Finished(s, c, now, ticket);
    FinalizeShape(s.t, w.member, w.seen, w.gatewayId, now, ticket);
    FinishedParts(s, c, now, ticket, m);
    FoldCommitRows(s.origins[m], s.t.history, w.member, w.seen.status, m);
    if !RowDue(s.callers, m) { WriteInTurn(s, s', m); }
  }

  lemma FinishElsewhere(s: State, c: nat, now: int, ticket: Ticket, m: Id)
    requires UpToDate(s, m) && MayFinish(s, c, now, ticket)
    requires var w := s.callers[c];
      !(Settle(s.t, w.member, w.seen, w.gatewayId, now, ticket).1.Recorded? && w.member == m)
    ensures UpToDate(Finished(s, c, now, ticket), m)
  {
    hide Settle, Finished, Taken, Fold, CommitRows, SameDue, RowDue, Draws;
    var w, s' := s.callers[c], Finished(s, c, now, ticket);
    FinalizeShape(s.t, w.member, w.seen, w.gatewayId, now, ticket);
    FinishedParts(s, c, now, ticket, m);
    FoldCommitRows(s.origins[m], s.t.history, w.member, w.seen.status, m);
    StayUpToDate(s, s', m);
  }

  lemma UpgradeChain(s: State, c: nat, now: int, receipt: nat, m: Id)
    requires Inv(s) && UpToDate(s, m) && MayUpgrade(s, c, now, receipt)
    ensures OutOfTurn(s, Upgrade(c, now, receipt), m) ==> Broken(UpgradedBy(s, c, now, receipt), m)
    ensures !OutOfTurn(s, Upgrade(c, now, receipt), m) ==> UpToDate(UpgradedBy(s, c, now, receipt), m)
  {
    var w, s' := s.callers[c], UpgradedBy(s, c, now, receipt);
    UpgradeShape(s.t, w.member, w.seen, w.target, w.charged, now, receipt);
    assert SameDue(s.callers, s'.callers, m);
    CallersOfInv(s);
    DueRow(s, m);
    FoldAdd(s.origins[m], s.t.history, UpgradeRow(w.member, w.charged, receipt), m);
    hide Upgraded, Fold, Inv, CallersFine, SameDue, RowDue;
    if Upgradable(s.t, w.member, w.seen) && w.member == m {
      if !RowDue(s.callers, m) { WriteInTurn(s, s', m); }
    } else {
      StayUpToDate(s, s', m);
    }
  }

  lemma TransitionChain(s: State, k: Id, before: Status, after: Status, m: Id)
    requires Inv(s) && UpToDate(s, m)
    ensures var s' := s.(t := Transition(s.t, k, before, after));
      if k == m && StatusIs(s.t, m, before) && RowDue(s.callers, m) then Broken(s', m) else UpToDate(s', m)
  {
    hide Fold, Inv, CallersFine, SameDue, RowDue;
    var s' := s.(t := Transition(s.t, k, before, after));
    FoldAdd(s.origins[m], s.t.history, Change(k, before, after), m);
    assert SameDue(s.callers, s.callers, m) by { NothingNewDue(s.callers, m); }
    if k == m && StatusIs(s.t, m, before) {
      if RowDue(s.callers, m) {
        CallersOfInv(s);
        DueRow(s, m);
      } else {
        WriteInTurn(s, s', m);
      }
    } else {
      StayUpToDate(s, s', m);
    }
  }

  lemma NothingNewDue(callers: seq<Caller>, m: Id)
    ensures SameDue(callers, callers, m)
  {
  }

  /**
    `markDeceased` takes the old status from an earlier read: the row fits the chain exactly when
    that is the status at the time of the write, and no other row is due.
   */
  lemma DieChain(s: State, c: nat, m: Id)
    requires Inv(s) && UpToDate(s, m) && c < |s.callers| && s.callers[c].Dying?
    ensures OutOfTurn(s, Die(c), m) ==> Broken(Died(s, c), m)
    ensures !OutOfTurn(s, Die(c), m) ==> UpToDate(Died(s, c), m)
  {
    hide Inv, CallersFine, Died, UpToDate, Broken, RowDue, Settle, Upgradable, Fold;
    var w := s.callers[c];
    CallersOfInv(s);
    DueRow(s, m);
    if w.member == m && (StatusIs(s.t, m, ACTIVE) || StatusIs(s.t, m, SUSPENDED)) {
      DieHere(s, c, m);
    } else {
      DieElsewhere(s, c, m);
    }
  }

  lemma DieHere(s: State, c: nat, m: Id)
    requires UpToDate(s, m) && !RowDue(s.callers, m) && c < |s.callers| && s.callers[c].Dying?
    requires s.callers[c].member == m && (StatusIs(s.t, m, ACTIVE) || StatusIs(s.t, m, SUSPENDED))
    ensures if StatusIs(s.t, m, s.callers[c].read) then UpToDate(Died(s, c), m) else Broken(Died(s, c), m)
  {
    var w := s.callers[c];
    FoldAdd(s.origins[m], s.t.history, Change(m, w.read, DECEASED), m);
    assert SameDue(s.callers, Died(s, c).callers, m);
    hide Fold, SameDue, RowDue;
    if StatusIs(s.t, m, w.read) { WriteInTurn(s, Died(s, c), m); }
  }

  lemma DieElsewhere(s: State, c: nat, m: Id)
    requires UpToDate(s, m) && c < |s.callers| && s.callers[c].Dying?
    requires s.callers[c].member != m || !(StatusIs(s.t, m, ACTIVE) || StatusIs(s.t, m, SUSPENDED))
    ensures UpToDate(Died(s, c), m)
  {
    var w := s.callers[c];
    FoldAdd(s.origins[m], s.t.history, Change(w.member, w.read, DECEASED), m);
    assert SameDue(s.callers, Died(s, c).callers, m);
    hide Fold, SameDue, RowDue, UpToDate;
    HasMember(s, m);
    StayUpToDate(s, Died(s, c), m);
  }

  lemma StartedChain(s: State, k: Id, before: Status, after: Status, m: Id)
    requires Inv(s) && UpToDate(s, m)
    requires (before == DRAFT && after == AWAITING_PAYMENT) || (before == ACTIVE && after == EXPIRED)
    ensures UpToDate(Started(s, k, before, after), m)
  {
    hide Fold, Inv, CallersFine;
    var s' := Started(s, k, before, after);
    CallersOfInv(s);
    DueRow(s, m);
    if k == m && StatusIs(s.t, m, before) {
      assert !RowDue(s.callers, m);
      forall c | 0 <= c < |s.callers|
        ensures !Owes(s'.callers[c], m)
      {
        assert !Owes(s.callers[c], m);
      }
      assert Owes(s'.callers[|s.callers|], m);
    } else {
      assert SameDue(s.callers, s'.callers, m);
      StayUpToDate(s, s', m);
    }
  }

  lemma NoteChain(s: State, c: nat, m: Id)
    requires Inv(s) && UpToDate(s, m) && c < |s.callers| && s.callers[c].Noting?
    ensures UpToDate(Noted(s, c), m)
  {
    var row, s' := s.callers[c].change, Noted(s, c);
    FoldAdd(s.origins[m], s.t.history, row, m);
    hide Fold, Inv;
    if row.member == m {
      assert Owes(s.callers[c], m);
      forall d | 0 <= d < |s'.callers|
        ensures !Owes(s'.callers[d], m)
      {
        if d != c { assert s'.callers[d] == s.callers[d]; }
      }
    } else {
      assert SameDue(s.callers, s'.callers, m);
      StayUpToDate(s, s', m);
    }
  }

  /** Steps that touch neither the history nor a status. */
  lemma QuietChain(s: State, a: Action, m: Id)
    requires Inv(s) && UpToDate(s, m)
    requires a.Register? || a.DrawNumber? || a.DrawReceipt? || a.Call? || a.Lookup? || a.Load? || a.Refetch? || a.Award?
      || a.UpgradeRead? || a.EditRead? || a.Edit? || a.DieRead? || a.SweepRead?
    ensures UpToDate(Next(s, a), m)
  {
    hide Fold, Candidates, Taken, Inv, UpToDate;
    assert m in s.t.members && m in s.origins by { HasMember(s, m); }
    StayUpToDate(s, Next(s, a), m);
  }

  lemma HasMember(s: State, m: Id)
    requires UpToDate(s, m)
    ensures m in s.t.members && m in s.origins
  {
  }

  lemma SweepsChain(s: State, sweeps: seq<Sweep>, m: Id)
    requires UpToDate(s, m)
    ensures UpToDate(s.(sweeps := sweeps), m)
  {
    hide Fold;
  }

  /** One step keeps the chain exactly if it does not write out of turn. */
  lemma ChainStep(s: State, a: Action, m: Id)
    requires Inv(s) && UpToDate(s, m)
    ensures if OutOfTurn(s, a, m) then Broken(Next(s, a), m) else UpToDate(Next(s, a), m)
  {
    hide Inv, UpToDate, Broken, Finished, UpgradedBy, Died, Started, Noted, Transition, RowDue;
    match a
    case Finish(c, now, ticket) => if MayFinish(s, c, now, ticket) { FinishChain(s, c, now, ticket, m); }
    case Upgrade(c, now, receipt) => if MayUpgrade(s, c, now, receipt) { UpgradeChain(s, c, now, receipt, m); }
    case Submit(k) => StartedChain(s, k, DRAFT, AWAITING_PAYMENT, m);
    case Suspend(k) => TransitionChain(s, k, ACTIVE, SUSPENDED, m);
    case Reactivate(k) => TransitionChain(s, k, SUSPENDED, ACTIVE, m);
    case Die(c) => if c < |s.callers| && s.callers[c].Dying? { DieChain(s, c, m); }
    case Expire(w, k) =>
      StartedChain(s, k, ACTIVE, EXPIRED, m);
      SweepsChain(Started(s, k, ACTIVE, EXPIRED), Next(s, a).sweeps, m);
    case Note(c) => if c < |s.callers| && s.callers[c].Noting? { NoteChain(s, c, m); }
    case _ => QuietChain(s, a, m);
  }

  // ---- Runs ----

  lemma InTurnAdd(s: State, actions: seq<Action>, m: Id)
    requires actions != []
    ensures var init, last := actions[..|actions| - 1], actions[|actions| - 1];
      InTurn(s, actions, m) <==> InTurn(s, init, m) && !OutOfTurn(Run(s, init), last, m)
  {
    hide Run, OutOfTurn;
    var n := |actions| - 1;
    assert forall k :: 0 <= k <= n ==> actions[..n][..k] == actions[..k];
  }

  /** Rows are only added. */
  lemma HistoryGrows(s: State, a: Action) returns (more: seq<Change>)
    ensures Next(s, a).t.history == s.t.history + more
  {
    more := Next(s, a).t.history[|s.t.history|..];
    hide Term, Taken, Candidates;
  }

  lemma StaysBroken(s: State, a: Action, m: Id)
    requires Inv(s) && Broken(s, m)
    ensures Broken(Next(s, a), m)
  {
    NextKept(s, a, m);
    OriginsOfInv(s);
    OriginsStay(s, a, m);
    hide Inv, Next, Fold;
    var more := HistoryGrows(s, a);
    FoldBroken(s.origins[m], s.t.history, more, m);
  }

  /** Nothing is written about a member that does not exist. */
  lemma NoWrite(s: State, a: Action, m: Id)
    requires m !in s.t.members
    ensures !Writes(s, a, m)
  {
    hide Taken;
  }

  lemma NewMember(s: State, a: Action, m: Id)
    requires Inv(s) && m !in s.t.members && m in Next(s, a).t.members
    ensures UpToDate(Next(s, a), m)
  {
    OnlyRegister(s, a, m);
    hide Next;
    FoldOthers(DRAFT, s.t.history, m);
    NobodyOwes(s, m);
    hide Fold, Inv, Owes;
  }

  lemma NobodyOwes(s: State, m: Id)
    requires Inv(s) && m !in s.t.members
    ensures forall c :: 0 <= c < |s.callers| ==> !Owes(s.callers[c], m)
  {
    CallersOfInv(s);
    hide Inv;
    forall c | 0 <= c < |s.callers|
      ensures !Owes(s.callers[c], m)
    {
      assert CallerFine(s.t, s.callers[c]);
    }
  }

  lemma OnlyRegister(s: State, a: Action, m: Id)
    requires m !in s.t.members && m in Next(s, a).t.members
    ensures Next(s, a) == Registered(s, m, Next(s, a).t.members[m])
  {
    hide Term, Taken, Candidates;
  }

  /**
    From any sound state, a member's chain is connected after a run exactly if no row of the member
    was written out of turn, and once broken it stays so.
   */
  lemma {:induction false} ChainExactly(s: State, actions: seq<Action>, m: Id)
    requires Inv(s) && (m in s.t.members ==> UpToDate(s, m))
    ensures var s' := Run(s, actions);
      if m in s'.t.members then (if InTurn(s, actions, m) then UpToDate(s', m) else Broken(s', m))
      else InTurn(s, actions, m)
  {
    if actions != [] {
      var init, a := actions[..|actions| - 1], actions[|actions| - 1];
      var r := Run(s, init);
      assert Run(s, actions) == Next(r, a);
      hide Run, Inv, InTurn, UpToDate, Broken, Next, Writes;
      ChainExactly(s, init, m);
      RunKeepsInv(s, init);
      InTurnAdd(s, actions, m);
      if m !in r.t.members {
        NoWrite(r, a, m);
        if m in Next(r, a).t.members { NewMember(r, a, m); }
      } else {
        NextStays(r, a, m);
        if InTurn(s, init, m) { ChainStep(r, a, m); } else { StaysBroken(r, a, m); }
      }
    }
  }

  lemma NextStays(s: State, a: Action, m: Id)
    requires Inv(s) && m in s.t.members
    ensures m in Next(s, a).t.members
  {
    NextKept(s, a, m);
    hide Next, Inv;
  }

  lemma StartUpToDate(members: map<Id, Member>, lastNumber: nat, lastReceipt: nat, clock: int, m: Id)
    requires m in members
    ensures UpToDate(Start(members, lastNumber, lastReceipt, clock), m)
  {
  }

  /**
    In every interleaving, the history of a member leads step by step from the first status to where
    the updates have got exactly if no row was written out of turn; it then leads to the present
    status unless a row is still due.
   */
  lemma HistoryExactly(members: map<Id, Member>, lastNumber: nat, lastReceipt: nat, clock: int,
                       actions: seq<Action>, m: Id)
    requires NumberedOnce(Tables(members, [], [], [], lastNumber, lastReceipt))
    requires m in Run(Start(members, lastNumber, lastReceipt, clock), actions).t.members
    ensures var start := Start(members, lastNumber, lastReceipt, clock);
      var s := Run(start, actions);
      && m in s.origins
      && (Fold(s.origins[m], s.t.history, m).Some? <==> InTurn(start, actions, m))
      && (InTurn(start, actions, m) && !RowDue(s.callers, m) ==>
            Fold(s.origins[m], s.t.history, m) == Some(s.t.members[m].status))
  {
    hide Run, Start, InTurn, Inv;
    var start := Start(members, lastNumber, lastReceipt, clock);
    StartKeepsInv(members, lastNumber, lastReceipt, clock);
    if m in members { StartUpToDate(members, lastNumber, lastReceipt, clock, m); }
    assert start.t.members == members by { StartMembers(members, lastNumber, lastReceipt, clock); }
    ChainExactly(start, actions, m);
    var s := Run(start, actions);
    hide Fold;
    if InTurn(start, actions, m) && RowDue(s.callers, m) {
      var c :| 0 <= c < |s.callers| && Owes(s.callers[c], m);
    }
  }

  lemma StartMembers(members: map<Id, Member>, lastNumber: nat, lastReceipt: nat, clock: int)
    ensures Start(members, lastNumber, lastReceipt, clock).t.members == members
  {
  }

  // ---- Runs in which these requests do not overlap others ----

  /** Between reading and writing of a death, or between a status update and its row. */
  ghost predicate Unfinished(w: Caller) { w.Dying? || w.Noting? }

  /** The action finishes the one unfinished caller, if there is one. */
  ghost predicate Finishes(s: State, a: Action) {
    forall c: nat :: c < |s.callers| && Unfinished(s.callers[c]) ==>
      a == if s.callers[c].Noting? then Note(c) else Die(c)
  }

  /** What is unfinished is finished by the very next action. */
  ghost predicate Serial(s: State, actions: seq<Action>) {
    forall k :: 0 <= k < |actions| ==> Finishes(Run(s, actions[..k]), actions[k])
  }

  /** Every death report has read the present status. */
  ghost predicate ReadsCurrent(s: State) {
    forall c :: 0 <= c < |s.callers| && s.callers[c].Dying? ==> StatusIs(s.t, s.callers[c].member, s.callers[c].read)
  }

  lemma SerialStep(s: State, a: Action, m: Id)
    requires ReadsCurrent(s) && Finishes(s, a)
    ensures ReadsCurrent(Next(s, a)) && !OutOfTurn(s, a, m)
  {
    SerialReads(s, a);
    hide Next, Settle;
    if RowDue(s.callers, m) {
      var c :| 0 <= c < |s.callers| && Owes(s.callers[c], m);
      assert Unfinished(s.callers[c]);
    }
  }

  /** Only a death report's own read makes it one. */
  lemma NewDying(s: State, a: Action, c: nat)
    requires c < |Next(s, a).callers| && Next(s, a).callers[c].Dying?
    ensures (c < |s.callers| && Next(s, a).callers[c] == s.callers[c])
      || (a.DieRead? && Next(s, a).t == s.t && StatusIs(s.t, a.member, Next(s, a).callers[c].read)
          && Next(s, a).callers[c].member == a.member)
  {
    hide Settle, Taken, Candidates, Swapped, Transition, MarkDeceased, Upgraded;
  }

  lemma NoneUnfinished(s: State, a: Action, c: nat)
    requires Finishes(s, a) && c < |s.callers| && Unfinished(s.callers[c])
    ensures forall d :: 0 <= d < |Next(s, a).callers| ==> !Next(s, a).callers[d].Dying?
  {
    var s' := Next(s, a);
    assert s'.callers == s.callers[c := Ended];
    assert forall d: nat :: d < |s.callers| && d != c ==> !Unfinished(s.callers[d]);
    hide Next;
  }

  lemma SerialReads(s: State, a: Action)
    requires ReadsCurrent(s) && Finishes(s, a)
    ensures ReadsCurrent(Next(s, a))
  {
    var s' := Next(s, a);
    hide Next;
    if c: nat :| c < |s.callers| && Unfinished(s.callers[c]) {
      NoneUnfinished(s, a, c);
    } else {
      forall c | 0 <= c < |s'.callers| && s'.callers[c].Dying?
        ensures StatusIs(s'.t, s'.callers[c].member, s'.callers[c].read)
      {
        NewDying(s, a, c);
        assert forall d: nat :: d < |s.callers| ==> !s.callers[d].Dying? by {
          forall d: nat | d < |s.callers| ensures !s.callers[d].Dying? { assert !Unfinished(s.callers[d]); }
        }
      }
    }
  }

  lemma {:induction false} SerialInTurn(s: State, actions: seq<Action>, m: Id)
    requires Serial(s, actions) && ReadsCurrent(s)
    ensures InTurn(s, actions, m) && ReadsCurrent(Run(s, actions))
  {
    if actions != [] {
      var init, a := actions[..|actions| - 1], actions[|actions| - 1];
      assert actions[..|init|] == init;
      assert Finishes(Run(s, init), a);
      assert Run(s, actions) == Next(Run(s, init), a);
      hide Next, ReadsCurrent, OutOfTurn, InTurn, Unfinished, Finishes;
      assert Serial(s, init) by { SerialPrefix(s, actions); }
      SerialInTurn(s, init, m);
      SerialStep(Run(s, init), a, m);
      InTurnAdd(s, actions, m);
    }
  }

  lemma SerialPrefix(s: State, actions: seq<Action>)
    requires Serial(s, actions) && actions != []
    ensures Serial(s, actions[..|actions| - 1])
  {
    hide Run, Finishes;
    var n := |actions| - 1;
    assert forall k :: 0 <= k <= n ==> actions[..n][..k] == actions[..k];
  }

  /**
    If death reports, submissions and sweep updates do not overlap other requests, every member's
    history is connected and ends at the present status, however payments and upgrades interleave.
   */
  lemma HistoryIsChain(members: map<Id, Member>, lastNumber: nat, lastReceipt: nat, clock: int,
                       actions: seq<Action>, m: Id)
    requires NumberedOnce(Tables(members, [], [], [], lastNumber, lastReceipt))
    requires var start := Start(members, lastNumber, lastReceipt, clock);
      && Serial(start, actions) && m in Run(start, actions).t.members && !RowDue(Run(start, actions).callers, m)
    ensures var s := Run(Start(members, lastNumber, lastReceipt, clock), actions);
      m in s.origins && Fold(s.origins[m], s.t.history, m) == Some(s.t.members[m].status)
  {
    var start := Start(members, lastNumber, lastReceipt, clock);
    assert ReadsCurrent(start);
    hide Run, Start, InTurn, ReadsCurrent, Serial, RowDue, Fold;
    SerialInTurn(start, actions, m);
    HistoryExactly(members, lastNumber, lastReceipt, clock, actions, m);
  }

  // ---- Rows do get out of turn ----

  /** The suspension of a member between the two halves of a death report breaks its history. */
  lemma StaleDeathBreaks(member: Member, actions: seq<Action>)
    requires member.status == ACTIVE && member.number == Some(1)
    requires actions == [DieRead(0), Suspend(0), Die(0)]
    ensures NumberedOnce(Tables(map[0 := member], [], [], [], 1, 0))
    ensures var s := Run(Start(map[0 := member], 1, 0, 0), actions);
      0 in s.origins && s.origins[0] == ACTIVE && Fold(ACTIVE, s.t.history, 0) == None
  {
    hide *;
    var s := Start(map[0 := member], 1, 0, 0);
    StartOf(member, 0);
    SuspendedMeanwhile(s);
    assert actions[..2] == [DieRead(0), Suspend(0)];
    BrokenRun(member, 0, actions, 2);
  }

  lemma SuspendedMeanwhile(s: State)
    requires StatusIs(s.t, 0, ACTIVE) && s.callers == []
    ensures OutOfTurn(Run(s, [DieRead(0), Suspend(0)]), Die(0), 0)
  {
    hide *;
    RunOfTwo(s, [DieRead(0), Suspend(0)]);
    ReadForDeath(s, 0);
    SuspendedSince(Next(s, DieRead(0)), 0);
  }

  lemma ReadForDeath(s: State, m: Id)
    requires StatusIs(s.t, m, ACTIVE) && s.callers == []
    ensures Next(s, DieRead(m)).callers == [Dying(m, ACTIVE)] && Next(s, DieRead(m)).t == s.t
    ensures StatusIs(Next(s, DieRead(m)).t, m, ACTIVE)
  {
  }

  lemma SuspendedSince(s: State, m: Id)
    requires StatusIs(s.t, m, ACTIVE) && s.callers == [Dying(m, ACTIVE)]
    ensures OutOfTurn(Next(s, Suspend(m)), Die(0), m)
  {
    hide RowDue;
  }

  lemma RunOfTwo(s: State, actions: seq<Action>)
    requires |actions| == 2
    ensures Run(s, actions) == Next(Next(s, actions[0]), actions[1])
  {
    hide Next;
    assert actions[..2] == actions && actions[..0] == [];
    RunNext(s, actions, 0);
    RunNext(s, actions, 1);
  }

  lemma StartOf(member: Member, clock: int)
    requires member.number == Some(1) && member.status == ACTIVE
    ensures var s := Start(map[0 := member], 1, 0, clock);
      && s.t == Tables(map[0 := member], [], [], [], 1, 0) && s.callers == [] && s.origins == map[0 := ACTIVE]
      && s.sweeps == [] && s.clock == clock && StatusIs(s.t, 0, ACTIVE)
    ensures NumberedOnce(Tables(map[0 := member], [], [], [], 1, 0))
  {
    OneNumbered(member);
    hide NumberedOnce;
  }

  /** An action out of turn leaves a broken history at the end of the run. */
  lemma BrokenRun(member: Member, clock: int, actions: seq<Action>, k: nat)
    requires member.number == Some(1) && member.status == ACTIVE && k < |actions|
    requires OutOfTurn(Run(Start(map[0 := member], 1, 0, clock), actions[..k]), actions[k], 0)
    ensures var s := Run(Start(map[0 := member], 1, 0, clock), actions);
      0 in s.origins && s.origins[0] == ACTIVE && Fold(ACTIVE, s.t.history, 0) == None
  {
    var start := Start(map[0 := member], 1, 0, clock);
    StartOf(member, clock);
    StartKeepsInv(map[0 := member], 1, 0, clock);
    hide Run, Start, Inv, Fold, OutOfTurn;
    RunLaws(start, actions, 0);
    HistoryExactly(map[0 := member], 1, 0, clock, actions, 0);
  }

  /** So does a payment between the sweep's update of a member and the history row for it. */
  lemma LateSweepRowBreaks(member: Member, actions: seq<Action>)
    requires member == Member(ACTIVE, Some(Plan(0, true, None)), Some(0), Some(10), Some(1), None)
    requires actions == [SweepRead(11), Expire(0, 0), Call(0, None), Load(1, true), DrawReceipt,
                         Finish(1, 11, Ticket(0, 1)), Note(0)]
    ensures NumberedOnce(Tables(map[0 := member], [], [], [], 1, 0))
    ensures var s := Run(Start(map[0 := member], 1, 0, 0), actions);
      0 in s.origins && s.origins[0] == ACTIVE && Fold(ACTIVE, s.t.history, 0) == None
  {
    hide *;
    StartOf(member, 0);
    assert actions[..5] == [SweepRead(11), Expire(0, 0), Call(0, None), Load(1, true), DrawReceipt];
    PaidMeanwhile(Start(map[0 := member], 1, 0, 0), member, actions[..5]);
    BrokenRun(member, 0, actions, 5);
  }

  lemma PaidMeanwhile(s: State, member: Member, actions: seq<Action>)
    requires member == Member(ACTIVE, Some(Plan(0, true, None)), Some(0), Some(10), Some(1), None)
    requires s.t == Tables(map[0 := member], [], [], [], 1, 0) && s.callers == [] && s.sweeps == [] && s.clock == 0
    requires actions == [SweepRead(11), Expire(0, 0), Call(0, None), Load(1, true), DrawReceipt]
    ensures OutOfTurn(Run(s, actions), Finish(1, 11, Ticket(0, 1)), 0)
  {
    hide *;
    RunOfFive(s, actions);
    SweptMeanwhile(s, member);
    var s2 := Next(Next(s, SweepRead(11)), Expire(0, 0));
    LoadedMeanwhile(s2, 0, Change(0, ACTIVE, EXPIRED));
    var s4 := Next(Next(s2, Call(0, None)), Load(1, true));
    DrawnMeanwhile(s4, 0);
    Overtakes(Next(s4, DrawReceipt), 0, Change(0, ACTIVE, EXPIRED));
  }

  lemma DrawnMeanwhile(s: State, m: Id)
    requires s.t.lastReceipt == 0 && StatusIs(s.t, m, EXPIRED)
    ensures var s' := Next(s, DrawReceipt);
      && StatusIs(s'.t, m, EXPIRED)
      && 1 in s'.t.receipts && s'.t.members == s.t.members && s'.t.payments == s.t.payments
      && s'.callers == s.callers && s'.clock == s.clock
  {
  }

  lemma SweptMeanwhile(s: State, member: Member)
    requires member.status == ACTIVE && member.validUntil == Some(10) && member.plan == Some(Plan(0, true, None))
    requires s.t.members == map[0 := member] && s.t.payments == [] && s.t.lastReceipt == 0
    requires s.callers == [] && s.sweeps == [] && s.clock <= 11
    ensures var s2 := Next(Next(s, SweepRead(11)), Expire(0, 0));
      && s2.t.members == map[0 := member.(status := EXPIRED)] && s2.t.payments == [] && s2.t.lastReceipt == 0
      && s2.clock == 11
      && s2.callers == [Noting(Change(0, ACTIVE, EXPIRED))] && StatusIs(s2.t, 0, EXPIRED)
      && Payable(s2.t.members[0]) && !ValidityMissing(s2.t.members[0])
  {
    var s1 := Next(s, SweepRead(11));
    assert |s1.sweeps| == 1 && s1.sweeps[0].left == {0} && s1.t == s.t && s1.callers == [] && s1.clock == 11;
  }

  lemma LoadedMeanwhile(s: State, m: Id, row: Change)
    requires m in s.t.members && Payable(s.t.members[m]) && s.callers == [Noting(row)]
    ensures var s2 := Next(Next(s, Call(m, None)), Load(1, true));
      s2.callers == [Noting(row), Deciding(m, None, s.t.members[m])] && s2.t == s.t && s2.clock == s.clock
  {
    hide *;
    CallAndLoad(s, m);
    assert [Noting(row)] + [Deciding(m, None, s.t.members[m])] == [Noting(row), Deciding(m, None, s.t.members[m])];
  }

  lemma Overtakes(s: State, m: Id, row: Change)
    requires StatusIs(s.t, m, EXPIRED) && !ValidityMissing(s.t.members[m]) && s.clock <= 11 && row.member == m
    requires s.callers == [Noting(row), Deciding(m, None, s.t.members[m])] && 1 in s.t.receipts
    ensures OutOfTurn(s, Finish(1, 11, Ticket(0, 1)), m)
  {
    hide Term, Committed;
    assert Owes(s.callers[0], m);
  }
}
