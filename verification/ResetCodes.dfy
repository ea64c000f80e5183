/**
  Forgot-password codes by SMS (apps/api/src/member-auth/member-password-reset.service.ts).
  Each request is one atomic step, and times are milliseconds on one non-decreasing clock.
 */
module ResetCodes {
  import opened Wrappers
  import opened Clock
  import opened Membership
  import opened Sums

  const CODE_TTL_MS: int := 10 * 60 * 1000
  const RESEND_COOLDOWN_MS: int := 60 * 1000
  const MAX_RESET_ATTEMPTS: int := 5

  datatype Reset = Reset(createdAt: int, expiresAt: int, codeHash: string, attempts: nat, usedAt: Option<int>)

  predicate Usable(r: Reset, now: int) { r.usedAt.None? && r.expiresAt > now }

  // ---- One member's codes, oldest first ----

  predicate SentLately(resets: seq<Reset>, now: int) {
    exists i :: 0 <= i < |resets| && resets[i].createdAt > now - RESEND_COOLDOWN_MS
  }

  /** Every unused code is marked used. */
  function Retired(resets: seq<Reset>, now: int): (r: seq<Reset>)
    ensures |r| == |resets|
    ensures forall i :: 0 <= i < |r| ==>
      r[i] == if resets[i].usedAt.None? then resets[i].(usedAt := Some(now)) else resets[i]
  {
    if resets == [] then []
    else
      var first := resets[0];
      [if first.usedAt.None? then first.(usedAt := Some(now)) else first] + Retired(resets[1..], now)
  }

  function Requested(resets: seq<Reset>, now: int, codeHash: string): seq<Reset> {
    if SentLately(resets, now) then resets
    else Retired(resets, now) + [Reset(now, now + CODE_TTL_MS, codeHash, 0, None)]
  }

  /** The latest usable code. */
  function Live(resets: seq<Reset>, now: int): (r: Option<nat>)
    ensures r.Some? ==> r.value < |resets| && Usable(resets[r.value], now)
    ensures forall i :: 0 <= i < |resets| && (r.Some? ==> i > r.value) ==> !Usable(resets[i], now)
  {
    if resets == [] then None
    else if Usable(resets[|resets| - 1], now) then Some(|resets| - 1)
    else Live(resets[..|resets| - 1], now)
  }

  datatype Outcome = Expired | Wrong(left: int) | Done

  function Confirmed(resets: seq<Reset>, now: int, guessHash: string): (seq<Reset>, Outcome) {
    match Live(resets, now)
    case None => (resets, Expired)
    case Some(i) =>
      var r := resets[i];
      if r.attempts >= MAX_RESET_ATTEMPTS then (resets, Expired)
      else if r.codeHash != guessHash then
        (resets[i := r.(attempts := r.attempts + 1)], Wrong(MAX_RESET_ATTEMPTS - r.attempts - 1))
      else (resets[i := r.(usedAt := Some(now))], Done)
  }

  // ---- The service ----

  type Id = nat

  datatype Account = Account(id: Id, status: Status)

  function CodesOf(table: map<Id, seq<Reset>>, id: Id): seq<Reset> { if id in table then table[id] else [] }

  class MemberPasswordReset {
    var resets: map<Id, seq<Reset>>
    var passwords: map<Id, string>

    /** `account` is the member with this mobile number and a password, if any; the answer is the same for all. */
    method RequestCode(account: Option<Account>, now: int, codeHash: string)
      modifies this`resets
      ensures resets ==
        if account.None? || account.value.status in {SUSPENDED, DECEASED, REJECTED}
          || SentLately(CodesOf(old(resets), account.value.id), now)
        then old(resets)
        else old(resets)[account.value.id := Requested(CodesOf(old(resets), account.value.id), now, codeHash)]
    {
      if account.None? || Blocked(account.value.status) { return; }
      var id := account.value.id;
      var codes := CodesOf(resets, id);
      var i := 0;
      while i < |codes|
        invariant 0 <= i <= |codes| && forall j :: 0 <= j < i ==> codes[j].createdAt <= now - RESEND_COOLDOWN_MS
      {
        if codes[i].createdAt > now - RESEND_COOLDOWN_MS { return; }
        i := i + 1;
      }
      codes := Retired(codes, now);
      resets := resets[id := codes + [Reset(now, now + CODE_TTL_MS, codeHash, 0, None)]];
    }

    method Confirm(account: Option<Account>, now: int, guessHash: string, newPassword: string)
      returns (outcome: Outcome)
      modifies this
      ensures if account.None? then outcome == Expired && resets == old(resets) && passwords == old(passwords)
        else
          var id := account.value.id;
          var (codes, result) := Confirmed(CodesOf(old(resets), id), now, guessHash);
          && outcome == result
          && CodesOf(resets, id) == codes && resets - {id} == old(resets) - {id}
          && passwords == if result.Done? then old(passwords)[id := newPassword] else old(passwords)
    {
      if account.None? { return Expired; }
      var id := account.value.id;
      var codes := CodesOf(resets, id);
      var live := Live(codes, now);
      if live.None? || codes[live.value].attempts >= MAX_RESET_ATTEMPTS { return Expired; }
      var reset := codes[live.value];
      if reset.codeHash != guessHash {
        resets := resets[id := codes[live.value := reset.(attempts := reset.attempts + 1)]];
        outcome := Wrong(MAX_RESET_ATTEMPTS - reset.attempts - 1);
      } else {
        resets := resets[id := codes[live.value := reset.(usedAt := Some(now))]];
        passwords := passwords[id := newPassword];
        outcome := Done;
      }
    }
  }

  // ---- Runs for one member ----

  datatype Event = Request(now: int, codeHash: string) | Guess(now: int, guessHash: string)

  /** A wrong try: when it was made, and which code it was counted against. */
  datatype Try = Try(at: int, code: nat)

  function IsTry(code: nat): Try -> int { (y: Try) => if y.code == code then 1 else 0 }

  ghost function TriesOf(tries: seq<Try>, code: nat): int { Sum(tries, IsTry(code)) }

  /** The codes, with the wrong tries and the codes that reset a password, in order. */
  datatype History = History(resets: seq<Reset>, tries: seq<Try>, successes: seq<nat>, clock: int)

  ghost function Step(h: History, e: Event): History {
    match e
    case Request(now, codeHash) => h.(resets := Requested(h.resets, now, codeHash), clock := now)
    case Guess(now, guessHash) =>
      var (codes, outcome) := Confirmed(h.resets, now, guessHash);
      var live := Live(h.resets, now);
      History(codes,
              if outcome.Wrong? then h.tries + [Try(now, live.value)] else h.tries,
              if outcome.Done? then h.successes + [live.value] else h.successes,
              now)
  }

  /** Codes are at least the cooldown apart, and all but the last are used up. */
  ghost predicate CodesInv(resets: seq<Reset>, clock: int) {
    && (forall i :: 0 <= i < |resets| ==> resets[i].createdAt <= clock && resets[i].attempts <= MAX_RESET_ATTEMPTS)
    && (forall i :: 0 <= i < |resets| ==> resets[i].expiresAt == resets[i].createdAt + CODE_TTL_MS)
    && (forall i :: 0 < i < |resets| ==> resets[i].createdAt - resets[i - 1].createdAt >= RESEND_COOLDOWN_MS)
    && (forall i :: 0 <= i < |resets| - 1 ==> resets[i].usedAt.Some?)
  }

  /** Wrong tries count against the code that was the last one when they were made. */
  ghost predicate TriesTimed(resets: seq<Reset>, tries: seq<Try>, clock: int) {
    forall k :: 0 <= k < |tries| ==>
      && tries[k].code < |resets| && resets[tries[k].code].createdAt <= tries[k].at <= clock
      && (tries[k].code + 1 < |resets| ==> tries[k].at <= resets[tries[k].code + 1].createdAt)
  }

  /** Tries move on to later codes only, and after five tries to a later code. */
  ghost predicate TriesLimited(tries: seq<Try>) {
    && (forall k :: 0 < k < |tries| ==> tries[k - 1].code <= tries[k].code)
    && (forall k :: MAX_RESET_ATTEMPTS <= k < |tries| ==> tries[k - MAX_RESET_ATTEMPTS].code < tries[k].code)
  }

  /** The tries against the last code are the last ones, as many as its counter says. */
  ghost predicate LastCodeTries(resets: seq<Reset>, tries: seq<Try>) {
    resets != [] ==>
      var last := |resets| - 1;
      && resets[last].attempts <= |tries|
      && (forall k :: 0 <= k < |tries| - resets[last].attempts ==> tries[k].code < last)
      && (forall k :: |tries| - resets[last].attempts <= k < |tries| ==> tries[k].code == last)
  }

  ghost predicate SuccessInv(resets: seq<Reset>, successes: seq<nat>) {
    && (forall k :: 0 <= k < |successes| ==> successes[k] < |resets| && resets[successes[k]].usedAt.Some?)
    && (forall j, k :: 0 <= j < k < |successes| ==> successes[j] != successes[k])
  }

  ghost predicate TriesInv(resets: seq<Reset>, tries: seq<Try>, clock: int) {
    TriesTimed(resets, tries, clock) && TriesLimited(tries) && LastCodeTries(resets, tries)
  }

  ghost predicate Inv(h: History) {
    CodesInv(h.resets, h.clock) && TriesInv(h.resets, h.tries, h.clock) && SuccessInv(h.resets, h.successes)
  }

  /** Only the last code can still be used. */
  lemma LiveIsLast(resets: seq<Reset>, clock: int, now: int)
    requires CodesInv(resets, clock)
    ensures Live(resets, now).Some? ==> Live(resets, now).value == |resets| - 1
  {
  }

  lemma LaterClock(h: History, now: int)
    requires Inv(h) && h.clock <= now
    ensures Inv(h.(clock := now))
  {
  }

  lemma RequestKeepsInv(h: History, now: int, codeHash: string)
    requires Inv(h) && h.clock <= now
    ensures Inv(Step(h, Request(now, codeHash)))
  {
    if SentLately(h.resets, now) {
      hide CodesInv, TriesInv, SuccessInv, Inv;
      LaterClock(h, now);
    } else {
      var newest := Reset(now, now + CODE_TTL_MS, codeHash, 0, None);
      var retired := Retired(h.resets, now);
      NewCodeSuccesses(h.resets, h.successes, now, newest);
      hide TriesTimed, TriesLimited, LastCodeTries, SuccessInv;
      NewCodeSpaced(h.resets, h.clock, retired, newest);
      NewCodeTries(h.resets, h.tries, h.clock, retired, newest);
    }
  }

  lemma NewCodeSuccesses(resets: seq<Reset>, successes: seq<nat>, now: int, newest: Reset)
    requires SuccessInv(resets, successes)
    ensures SuccessInv(Retired(resets, now) + [newest], successes)
  {
  }

  lemma NewCodeSpaced(resets: seq<Reset>, clock: int, retired: seq<Reset>, newest: Reset)
    requires CodesInv(resets, clock) && |retired| == |resets| && clock <= newest.createdAt && newest.attempts == 0
    requires newest.expiresAt == newest.createdAt + CODE_TTL_MS
    requires forall i :: 0 <= i < |resets| ==>
      && retired[i] == resets[i].(usedAt := retired[i].usedAt)
      && retired[i].usedAt.Some? && resets[i].createdAt <= newest.createdAt - RESEND_COOLDOWN_MS
    ensures CodesInv(retired + [newest], newest.createdAt)
  {
  }

  lemma NewCodeTries(resets: seq<Reset>, tries: seq<Try>, clock: int, retired: seq<Reset>, newest: Reset)
    requires TriesTimed(resets, tries, clock) && |retired| == |resets|
    requires clock <= newest.createdAt && newest.attempts == 0
    requires forall i :: 0 <= i < |resets| ==> retired[i].createdAt == resets[i].createdAt
    ensures TriesTimed(retired + [newest], tries, newest.createdAt) && LastCodeTries(retired + [newest], tries)
  {
  }

  /** A guess touches the last code only: it counts a wrong try, or uses the code up. */
  lemma ConfirmedShape(resets: seq<Reset>, clock: int, now: int, guessHash: string)
    requires CodesInv(resets, clock)
    ensures var (codes, outcome) := Confirmed(resets, now, guessHash);
      match outcome
      case Expired => codes == resets
      case Wrong(_) =>
        && resets != [] && Live(resets, now) == Some(|resets| - 1)
        && resets[|resets| - 1].attempts < MAX_RESET_ATTEMPTS && codes == CountedWrong(resets)
      case Done =>
        && resets != [] && Live(resets, now) == Some(|resets| - 1)
        && resets[|resets| - 1].usedAt.None? && codes == UsedUp(resets, now)
  {
    LiveIsLast(resets, clock, now);
  }

  ghost function CountedWrong(resets: seq<Reset>): seq<Reset>
    requires resets != []
  {
    resets[|resets| - 1 := resets[|resets| - 1].(attempts := resets[|resets| - 1].attempts + 1)]
  }

  ghost function UsedUp(resets: seq<Reset>, now: int): seq<Reset>
    requires resets != []
  {
    resets[|resets| - 1 := resets[|resets| - 1].(usedAt := Some(now))]
  }

  lemma GuessKeepsInv(h: History, now: int, guessHash: string)
    requires Inv(h) && h.clock <= now
    ensures Inv(Step(h, Guess(now, guessHash)))
  {
    LaterClock(h, now);
    ConfirmedShape(h.resets, h.clock, now, guessHash);
    hide CodesInv, TriesTimed, TriesLimited, LastCodeTries, SuccessInv, Live, Confirmed, CountedWrong, UsedUp;
    match Confirmed(h.resets, now, guessHash).1
    case Wrong(left) =>
      var t := Try(now, |h.resets| - 1);
      CountedKeepsCodes(h.resets, h.successes, now);
      CountedKeepsTimes(h.resets, h.tries, now, t);
      LimitedSnoc(h.resets, h.tries, now, t);
      CountedKeepsLast(h.resets, h.tries, t);
    case Done =>
      UsedKeepsCodes(h.resets, h.successes, now);
      UsedKeepsTries(h.resets, h.tries, now);
    case Expired =>
  }

  lemma CountedKeepsCodes(resets: seq<Reset>, successes: seq<nat>, now: int)
    requires CodesInv(resets, now) && SuccessInv(resets, successes)
    requires resets != [] && resets[|resets| - 1].attempts < MAX_RESET_ATTEMPTS
    ensures CodesInv(CountedWrong(resets), now) && SuccessInv(CountedWrong(resets), successes)
  {
  }

  lemma CountedKeepsTimes(resets: seq<Reset>, tries: seq<Try>, now: int, t: Try)
    requires TriesTimed(resets, tries, now) && CodesInv(resets, now)
    requires resets != [] && t == Try(now, |resets| - 1)
    ensures TriesTimed(CountedWrong(resets), tries + [t], now)
  {
    assert resets[t.code].createdAt <= now;
  }

  /** The five tries before this one were not all against the last code, whose counter was below five. */
  lemma LimitedSnoc(resets: seq<Reset>, tries: seq<Try>, now: int, t: Try)
    requires TriesTimed(resets, tries, now) && TriesLimited(tries) && LastCodeTries(resets, tries)
    requires resets != [] && t.code == |resets| - 1 && resets[|resets| - 1].attempts < MAX_RESET_ATTEMPTS
    ensures TriesLimited(tries + [t])
  {
    var n := |tries|;
    if n > 0 { assert tries[n - 1].code < |resets|; }
    if n >= MAX_RESET_ATTEMPTS {
      assert n - MAX_RESET_ATTEMPTS < n - resets[|resets| - 1].attempts;
      assert tries[n - MAX_RESET_ATTEMPTS].code < t.code;
    }
  }

  lemma CountedKeepsLast(resets: seq<Reset>, tries: seq<Try>, t: Try)
    requires LastCodeTries(resets, tries) && resets != [] && t.code == |resets| - 1
    ensures LastCodeTries(CountedWrong(resets), tries + [t])
  {
  }

  lemma UsedKeepsCodes(resets: seq<Reset>, successes: seq<nat>, now: int)
    requires CodesInv(resets, now) && SuccessInv(resets, successes)
    requires resets != [] && resets[|resets| - 1].usedAt.None?
    ensures CodesInv(UsedUp(resets, now), now) && SuccessInv(UsedUp(resets, now), successes + [|resets| - 1])
  {
  }

  lemma UsedKeepsTries(resets: seq<Reset>, tries: seq<Try>, now: int)
    requires TriesTimed(resets, tries, now) && LastCodeTries(resets, tries) && resets != []
    ensures TriesTimed(UsedUp(resets, now), tries, now) && LastCodeTries(UsedUp(resets, now), tries)
  {
  }

  ghost function Run(h: History, events: seq<Event>): History {
    if events == [] then h else Step(Run(h, events[..|events| - 1]), events[|events| - 1])
  }

  function Now(): Event -> int { (e: Event) => e.now }

  lemma {:induction false} RunKeepsInv(h: History, events: seq<Event>)
    requires Inv(h) && Ordered(h.clock, events, Now())
    ensures Inv(Run(h, events))
    ensures Run(h, events).clock == if events == [] then h.clock else events[|events| - 1].now
  {
    if events != [] {
      var n := |events| - 1;
      RunKeepsInv(h, events[..n]);
      var s := Run(h, events[..n]);
      assert s.clock <= events[n].now by { if n > 0 { assert events[..n][n - 1] == events[n - 1]; } }
      hide Inv, Step;
      match events[n]
      case Request(now, codeHash) => RequestKeepsInv(s, now, codeHash);
      case Guess(now, guessHash) => GuessKeepsInv(s, now, guessHash);
    }
  }

  // ---- Theorems, for every run from a member without codes ----

  ghost function FromNothing(start: int, events: seq<Event>): History {
    Run(History([], [], [], start), events)
  }

  lemma FromNothingInv(start: int, events: seq<Event>)
    requires Ordered(start, events, Now())
    ensures Inv(FromNothing(start, events))
  {
    hide Run, Step;
    RunKeepsInv(History([], [], [], start), events);
  }

  /** At most one code is live, no code succeeds twice or takes more than five wrong tries, and codes are spaced. */
  lemma CodeLimits(start: int, events: seq<Event>)
    requires Ordered(start, events, Now())
    ensures var h := FromNothing(start, events);
      && (forall i, j :: 0 <= i < j < |h.resets| ==> h.resets[i].usedAt.Some? || h.resets[j].usedAt.Some?)
      && (forall j, k :: 0 <= j < k < |h.successes| ==> h.successes[j] != h.successes[k])
      && (forall k :: MAX_RESET_ATTEMPTS <= k < |h.tries| ==> h.tries[k - MAX_RESET_ATTEMPTS].code < h.tries[k].code)
      && (forall i :: 0 < i < |h.resets| ==> h.resets[i].createdAt - h.resets[i - 1].createdAt >= RESEND_COOLDOWN_MS)
  {
    hide FromNothing;
    FromNothingInv(start, events);
  }

  /** The outcome of a confirmation at the end of a history, by the latest code and the wrong tries against it. */
  ghost function Answer(h: History, now: int, guessHash: string): Outcome {
    if h.resets == [] then Expired
    else
      var last, taken := h.resets[|h.resets| - 1], TriesOf(h.tries, |h.resets| - 1);
      if last.usedAt.Some? || now >= last.createdAt + 600_000 || taken >= 5 then Expired
      else if last.codeHash != guessHash then Wrong(4 - taken)
      else Done
  }

  /** The tries left for a wrong guess, counted up to the last code. */
  lemma {:induction false} CountLast(tries: seq<Try>, code: nat, n: nat)
    requires n <= |tries|
    requires forall k :: 0 <= k < |tries| - n ==> tries[k].code < code
    requires forall k :: |tries| - n <= k < |tries| ==> tries[k].code == code
    ensures TriesOf(tries, code) == n
  {
    if tries != [] {
      if n > 0 { CountLast(tries[..|tries| - 1], code, n - 1); } else { CountLast(tries[..|tries| - 1], code, 0); }
    }
  }

  /**
    In every run a confirmation succeeds exactly with the latest code, if that is unused, younger
    than ten minutes and has taken fewer than five wrong tries; a wrong guess is told how many of the
    five are left, and everything else that the code has expired.
   */
  lemma AnswerExactly(start: int, events: seq<Event>, now: int, guessHash: string)
    requires Ordered(start, events, Now())
    ensures var h := FromNothing(start, events); Confirmed(h.resets, now, guessHash).1 == Answer(h, now, guessHash)
  {
    hide FromNothing;
    var h := FromNothing(start, events);
    FromNothingInv(start, events);
    hide TriesTimed, TriesLimited, SuccessInv;
    if h.resets != [] { CountLast(h.tries, |h.resets| - 1, h.resets[|h.resets| - 1].attempts); }
    hide Confirmed, Answer, LastCodeTries, Inv, TriesOf;
    AnswerOn(h, now, guessHash);
  }

  lemma AnswerOn(h: History, now: int, guessHash: string)
    requires CodesInv(h.resets, h.clock)
    requires h.resets != [] ==> TriesOf(h.tries, |h.resets| - 1) == h.resets[|h.resets| - 1].attempts
    ensures Confirmed(h.resets, now, guessHash).1 == Answer(h, now, guessHash)
  {
    hide TriesOf;
    LiveIsLast(h.resets, h.clock, now);
  }

  /**
    In every run a request sends a code, good for ten minutes and without tries, exactly if the latest
    one is a minute old, and then no other code can be used any more.
   */
  lemma SentExactly(start: int, events: seq<Event>, now: int, codeHash: string)
    requires Ordered(start, events, Now())
    ensures var resets := FromNothing(start, events).resets;
      var n, after := |resets|, Requested(resets, now, codeHash);
      if n == 0 || now - resets[n - 1].createdAt >= 60_000 then
        && |after| == n + 1 && after[n] == Reset(now, now + 600_000, codeHash, 0, None)
        && forall i :: 0 <= i < n ==> after[i] == resets[i].(usedAt := after[i].usedAt) && after[i].usedAt.Some?
      else after == resets
  {
    hide FromNothing;
    var h := FromNothing(start, events);
    FromNothingInv(start, events);
    hide TriesInv, SuccessInv;
    if h.resets != [] { LatestLast(h.resets, h.clock); }
    hide CodesInv;
  }

  lemma LatestLast(resets: seq<Reset>, clock: int)
    requires CodesInv(resets, clock) && resets != []
    ensures forall i :: 0 <= i < |resets| ==> resets[i].createdAt <= resets[|resets| - 1].createdAt
  {
    forall i | 0 <= i < |resets|
      ensures resets[i].createdAt <= resets[|resets| - 1].createdAt
    {
      CodesSpread(resets, clock, i, |resets| - 1);
    }
  }

  lemma {:induction false} CodesSpread(resets: seq<Reset>, clock: int, i: nat, j: nat)
    requires CodesInv(resets, clock) && i <= j < |resets|
    ensures resets[j].createdAt - resets[i].createdAt >= (j - i) * RESEND_COOLDOWN_MS
    decreases j
  {
    if i < j { CodesSpread(resets, clock, i, j - 1); }
  }

  lemma {:induction false} TriesSpread(tries: seq<Try>, i: nat, j: nat)
    requires TriesLimited(tries) && i <= j < |tries|
    ensures MAX_RESET_ATTEMPTS * (tries[j].code - tries[i].code + 1) >= j - i + 1
    ensures tries[i].code <= tries[j].code
    decreases j
  {
    if j >= i + MAX_RESET_ATTEMPTS {
      TriesSpread(tries, i, j - MAX_RESET_ATTEMPTS);
    } else if i < j {
      TriesSpread(tries, i, j - 1);
    }
  }

  /** The wrong tries made within any `span` milliseconds number at most 5 * (span / 60000 + 2). */
  lemma WrongTryRate(start: int, events: seq<Event>, i: nat, j: nat, span: nat)
    requires Ordered(start, events, Now())
    requires i <= j < |FromNothing(start, events).tries|
    requires FromNothing(start, events).tries[j].at - FromNothing(start, events).tries[i].at <= span
    ensures j - i + 1 <= MAX_RESET_ATTEMPTS * (span / RESEND_COOLDOWN_MS + 2)
  {
    var h := FromNothing(start, events);
    hide FromNothing;
    FromNothingInv(start, events);
    var first, last := h.tries[i].code, h.tries[j].code;
    TriesSpread(h.tries, i, j);
    if first < last { CodesSpread(h.resets, h.clock, first + 1, last); }
    assert (last - first - 1) * RESEND_COOLDOWN_MS <= span;
  }
}
