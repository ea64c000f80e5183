/**
  How many wrong tries overlapping requests and confirmations allow (`requestCode` and `confirm` of
  apps/api/src/member-auth/member-password-reset.service.ts): against one code, and in any span of time.
 */
module ResetRates {
  import opened Wrappers
  import opened Clock
  import opened Sums
  import opened ResetCodes
  import opened ResetRaces

  // ---- What the statements do ----

  /** The cooldown check lets a request on exactly if no code is less than a minute old. */
  lemma CheckExactly(s: State, now: int, codeHash: string)
    ensures var s', w := ResetRaces.Step(s, Check(now, codeHash)), Sending(now, codeHash, |s.resets|, false);
      s' == s.(clock := now, sending :=
                 if forall i :: 0 <= i < |s.resets| ==> now - s.resets[i].createdAt >= 60_000
                 then s.sending + [w] else s.sending)
  {
  }

  /** The request's own code comes after the old ones are retired, and is good until ten minutes from its start. */
  lemma CreateExactly(s: State, call: nat, now: int)
    requires call < |s.sending|
    ensures var w, s' := s.sending[call], ResetRaces.Step(s, Create(now, call));
      if w.retired then
        && s'.resets == s.resets + [Reset(now, w.startedAt + 600_000, w.codeHash, 0, None)]
        && multiset(s'.sending) + multiset{w} == multiset(s.sending)
      else s'.resets == s.resets && s'.sending == s.sending
  {
    assert s.sending == s.sending[..call] + [s.sending[call]] + s.sending[call + 1..];
  }

  lemma RetireExactly(s: State, call: nat, now: int, i: nat)
    requires call < |s.sending| && !s.sending[call].retired && i < |s.resets|
    ensures var s' := ResetRaces.Step(s, Retire(now, call));
      && |s'.resets| == |s.resets| && s'.resets[i] == s.resets[i].(usedAt := s'.resets[i].usedAt)
      && s'.resets[i].usedAt ==
           (if s.resets[i].usedAt.None? then Some(s.sending[call].startedAt) else s.resets[i].usedAt)
      && s'.sending == s.sending[call := s.sending[call].(retired := true)]
  {
  }

  /** The code is the latest that is unused and not over. */
  ghost predicate LatestUsable(resets: seq<Reset>, now: int, i: nat) {
    && i < |resets| && resets[i].usedAt.None? && now < resets[i].expiresAt
    && forall j :: i < j < |resets| ==> resets[j].usedAt.Some? || now >= resets[j].expiresAt
  }

  /** A confirmation is let past exactly with such a code and fewer than five tries counted against it. */
  lemma ReadExactly(s: State, now: int, guessHash: string, i: nat)
    ensures var s' := ResetRaces.Step(s, Read(now, guessHash));
      && (LatestUsable(s.resets, now, i) && s.resets[i].attempts < 5 ==>
            s' == s.(clock := now, waiting := s.waiting + [Waiting(now, i, guessHash)]))
      && ((forall k: nat :: !(LatestUsable(s.resets, now, k) && s.resets[k].attempts < 5)) ==> s' == s.(clock := now))
  {
    var live := Live(s.resets, now);
    if live.Some? { assert LatestUsable(s.resets, now, live.value); }
  }

  /** It then counts a wrong guess, and a right one resets the password exactly if the code is still unused. */
  lemma WriteExactly(s: State, call: nat, now: int)
    requires call < |s.waiting| && s.waiting[call].code < |s.resets|
    ensures var w, s' := s.waiting[call], ResetRaces.Step(s, Write(now, call));
      var r := s.resets[w.code];
      && multiset(s'.waiting) + multiset{w} == multiset(s.waiting) && s'.sending == s.sending
      && if w.guessHash != r.codeHash then
           && s'.resets == s.resets[w.code := r.(attempts := r.attempts + 1)]
           && s'.tries == s.tries + [Try(w.startedAt, w.code)] && s'.successes == s.successes
         else
           && s'.tries == s.tries
           && s'.successes == s.successes + (if r.usedAt.None? then [w.code] else [])
           && s'.resets == if r.usedAt.None? then s.resets[w.code := r.(usedAt := Some(w.startedAt))] else s.resets
  {
    assert s.waiting == s.waiting[..call] + [s.waiting[call]] + s.waiting[call + 1..];
  }

  // ---- When a code takes no more than five ----

  function WrongOn(code: nat, codeHash: string): Waiting -> int {
    (w: Waiting) => if w.code == code && w.guessHash != codeHash then 1 else 0
  }

  /** The counter of a code and the wrong confirmations in flight against it. */
  ghost function Load(s: State, code: nat): int {
    if code < |s.resets| then s.resets[code].attempts + Sum(s.waiting, WrongOn(code, s.resets[code].codeHash)) else 0
  }

  /** The event lets a wrong confirmation of the code past its lookup. */
  ghost predicate Admits(s: State, e: ResetRaces.Event, code: nat) {
    && e.Read? && Live(s.resets, e.now) == Some(code)
    && s.resets[code].attempts < MAX_RESET_ATTEMPTS && s.resets[code].codeHash != e.guessHash
  }

  lemma LoadOfRead(s: State, now: int, guessHash: string, code: nat)
    ensures var s' := LookedUp(s, now, guessHash);
      Load(s', code) == Load(s, code) + if Admits(s, Read(now, guessHash), code) then 1 else 0
  {
    if code < |s.resets| {
      var live := Live(s.resets, now);
      if live.Some? { SumAdd(s.waiting, WrongOn(code, s.resets[code].codeHash), Waiting(now, live.value, guessHash)); }
      hide Sum;
    }
  }

  lemma LoadOfWrite(s: State, call: nat, code: nat)
    requires call < |s.waiting| && s.waiting[call].code < |s.resets|
    ensures Load(Written(s, call), code) == Load(s, code)
  {
    if code < |s.resets| {
      SumWithout(s.waiting, WrongOn(code, s.resets[code].codeHash), call);
      hide Sum;
    }
  }

  /** Requests neither admit nor count. */
  lemma LoadOfRequest(s: State, s': State, code: nat)
    requires s'.waiting == s.waiting && |s.resets| <= |s'.resets|
    requires forall w :: w in s.waiting ==> w.code < |s.resets|
    requires forall i :: 0 <= i < |s.resets| ==>
      s'.resets[i].attempts == s.resets[i].attempts && s'.resets[i].codeHash == s.resets[i].codeHash
    requires forall i :: |s.resets| <= i < |s'.resets| ==> s'.resets[i].attempts == 0
    ensures Load(s', code) == Load(s, code)
  {
    if |s.resets| <= code < |s'.resets| { CountRange(s.waiting, WrongOn(code, s'.resets[code].codeHash)); }
    hide Sum;
  }

  lemma LoadStep(s: State, e: ResetRaces.Event, code: nat, most: nat)
    requires TriesKept(s, most)
    ensures Load(ResetRaces.Step(s, e), code) == Load(s, code) + if Admits(s, e, code) then 1 else 0
  {
    assert forall w :: w in s.waiting ==> w.code < |s.resets|;
    hide TriesKept, LookedUp, Written, SentLately, Admits, Load, Sum;
    match e {
      case Read(now, guessHash) => LoadOfRead(s, now, guessHash, code);
      case Write(_, call) =>
        if call < |s.waiting| && s.waiting[call].code < |s.resets| { LoadOfWrite(s, call, code); }
        NotAdmitting(s, e, code);
      case _ =>
        LoadOfRequest(s, Act(s, e), code);
        NotAdmitting(s, e, code);
    }
    LoadLater(Act(s, e), e.now, code);
  }

  lemma NotAdmitting(s: State, e: ResetRaces.Event, code: nat)
    requires !e.Read?
    ensures !Admits(s, e, code)
  {
  }

  lemma LoadLater(s: State, now: int, code: nat)
    ensures Load(s.(clock := now), code) == Load(s, code)
  {
    hide Sum;
  }

  /** Every wrong confirmation of the run was let past while fewer than five were counted or on their way. */
  ghost predicate AdmittedEarly(start: int, events: seq<ResetRaces.Event>, code: nat) {
    forall k :: 0 <= k < |events| && Admits(ResetRaces.Run(start, events[..k]), events[k], code) ==>
      Load(ResetRaces.Run(start, events[..k]), code) < MAX_RESET_ATTEMPTS
  }

  lemma AdmittedAdd(start: int, events: seq<ResetRaces.Event>, code: nat)
    requires events != []
    ensures var init, last := events[..|events| - 1], events[|events| - 1];
      AdmittedEarly(start, events, code) <==>
        (&& AdmittedEarly(start, init, code)
         && (Admits(ResetRaces.Run(start, init), last, code) ==>
               Load(ResetRaces.Run(start, init), code) < MAX_RESET_ATTEMPTS))
  {
    hide ResetRaces.Run, Admits, Load;
    var n := |events| - 1;
    assert forall k :: 0 <= k <= n ==> events[..n][..k] == events[..k];
  }

  lemma {:induction false} LoadExactly(start: int, events: seq<ResetRaces.Event>, code: nat)
    ensures Load(ResetRaces.Run(start, events), code) <= MAX_RESET_ATTEMPTS <==> AdmittedEarly(start, events, code)
  {
    if events != [] {
      var init, last := events[..|events| - 1], events[|events| - 1];
      var s := ResetRaces.Run(start, init);
      assert ResetRaces.Run(start, events) == ResetRaces.Step(s, last);
      hide ResetRaces.Run, ResetRaces.Step, Admits, Load, AdmittedEarly, TriesKept;
      LoadExactly(start, init, code);
      AdmittedAdd(start, events, code);
      RunKeepsTries(start, init, MostWaiting(start, init));
      LoadStep(s, last, code, MostWaiting(start, init));
    } else {
      hide Admits;
    }
  }

  /**
    Once nothing is in flight, a code has taken at most five wrong tries exactly if each wrong
    confirmation was let past while fewer than five were counted or on their way.
   */
  lemma FiveExactly(start: int, events: seq<ResetRaces.Event>, code: nat)
    requires ResetRaces.Run(start, events).waiting == []
    ensures TriesOf(ResetRaces.Run(start, events).tries, code) <= MAX_RESET_ATTEMPTS
       <==> AdmittedEarly(start, events, code)
  {
    hide ResetRaces.Run, AdmittedEarly;
    var s := ResetRaces.Run(start, events);
    LoadExactly(start, events, code);
    RunKeepsTries(start, events, MostWaiting(start, events));
    if code < |s.resets| {
      assert Sum([], WrongOn(code, s.resets[code].codeHash)) == 0;
    } else {
      CountRange(s.tries, IsTry(code));
    }
  }

  // ---- Wrong tries in a span of time ----

  /** Looked up between `from` and `to`. */
  function During(from: int, to: int): Try -> int { (y: Try) => if from <= y.at <= to then 1 else 0 }

  function DuringBelow(from: int, to: int, n: nat): Try -> int {
    (y: Try) => if from <= y.at <= to && y.code < n then 1 else 0
  }

  ghost function TriesDuring(tries: seq<Try>, from: int, to: int): int { Sum(tries, During(from, to)) }

  /** Where the events before `from` end, which the first `j` are among. */
  lemma CutAt(start: int, events: seq<ResetRaces.Event>, from: int, j: nat) returns (k: nat)
    requires Ordered(start, events, ResetRaces.Now())
    requires j <= |events| && forall i :: 0 <= i < j ==> events[i].now < from
    ensures j <= k <= |events|
    ensures forall i :: 0 <= i < k ==> events[i].now < from
    ensures forall i :: k <= i < |events| ==> events[i].now >= from
  {
    k := j;
    while k < |events| && events[k].now < from
      invariant j <= k <= |events| && forall i :: 0 <= i < k ==> events[i].now < from
    {
      k := k + 1;
    }
    if k < |events| {
      forall i | k <= i < |events| ensures events[i].now >= from {
        assert ResetRaces.Now()(events[k]) <= ResetRaces.Now()(events[i]);
      }
    }
  }

  /** The code could be looked up from the state `base` on. */
  ghost predicate OpenAt(base: seq<Reset>, code: nat) { code < |base| ==> base[code].usedAt.None? }

  /** Lookups since `from` were of codes that were open at `base` or came later. */
  ghost predicate Since(base: seq<Reset>, from: int, s: State) {
    && |base| <= |s.resets|
    && (forall i :: 0 <= i < |base| && base[i].usedAt.Some? ==> s.resets[i].usedAt.Some?)
    && (forall w :: w in s.waiting && w.startedAt >= from ==> OpenAt(base, w.code))
    && (forall y :: y in s.tries && y.at >= from ==> OpenAt(base, y.code))
    && (forall i :: |base| <= i < |s.resets| ==> s.resets[i].createdAt >= from)
  }

  lemma StepSince(base: seq<Reset>, from: int, s: State, e: ResetRaces.Event)
    requires Since(base, from, s) && e.now >= from
    ensures Since(base, from, ResetRaces.Step(s, e))
  {
    hide SentLately;
  }

  /** Nothing in the run is later than `to`. */
  ghost predicate Until(s: State, to: int) {
    (forall w :: w in s.waiting ==> w.startedAt < to) && (forall y :: y in s.tries ==> y.at < to)
  }

  lemma {:induction false} RunUntil(start: int, events: seq<ResetRaces.Event>, to: int)
    requires forall i :: 0 <= i < |events| ==> events[i].now < to
    ensures Until(ResetRaces.Run(start, events), to)
  {
    if events != [] {
      RunUntil(start, events[..|events| - 1], to);
      StepUntil(ResetRaces.Run(start, events[..|events| - 1]), events[|events| - 1], to);
      hide Until, ResetRaces.Step;
    }
  }

  lemma StepUntil(s: State, e: ResetRaces.Event, to: int)
    requires Until(s, to) && e.now < to
    ensures Until(ResetRaces.Step(s, e), to)
  {
    hide SentLately, Live, Retired;
  }

  lemma {:induction false} RunSince(start: int, events: seq<ResetRaces.Event>, from: int, k: nat)
    requires k <= |events| && (forall i :: 0 <= i < k ==> events[i].now < from)
    requires forall i :: k <= i < |events| ==> events[i].now >= from
    ensures Since(ResetRaces.Run(start, events[..k]).resets, from, ResetRaces.Run(start, events))
    decreases |events|
  {
    if k < |events| {
      var n := |events| - 1;
      assert ResetRaces.Run(start, events) == ResetRaces.Step(ResetRaces.Run(start, events[..n]), events[n]);
      hide ResetRaces.Run, Since, ResetRaces.Step;
      assert events[..n][..k] == events[..k];
      RunSince(start, events[..n], from, k);
      StepSince(ResetRaces.Run(start, events[..k]).resets, from, ResetRaces.Run(start, events[..n]), events[n]);
    } else {
      hide ResetRaces.Run;
      assert events[..k] == events;
      RunUntil(start, events, from);
    }
  }

  /** Lookups up to `to` were of codes that existed then. */
  ghost predicate Existed(n: nat, to: int, s: State) {
    && n <= |s.resets|
    && (forall w :: w in s.waiting && w.startedAt <= to ==> w.code < n)
    && (forall y :: y in s.tries && y.at <= to ==> y.code < n)
  }

  lemma StepExisted(n: nat, to: int, s: State, e: ResetRaces.Event)
    requires Existed(n, to, s) && e.now > to
    ensures Existed(n, to, ResetRaces.Step(s, e))
  {
    hide SentLately, Live;
  }

  lemma {:induction false} RunExisted(start: int, events: seq<ResetRaces.Event>, to: int, k: nat)
    requires k <= |events| && forall i :: k <= i < |events| ==> events[i].now > to
    ensures Existed(|ResetRaces.Run(start, events[..k]).resets|, to, ResetRaces.Run(start, events))
    decreases |events|
  {
    if k < |events| {
      var m := |events| - 1;
      assert ResetRaces.Run(start, events) == ResetRaces.Step(ResetRaces.Run(start, events[..m]), events[m]);
      hide ResetRaces.Run, Existed, ResetRaces.Step;
      assert events[..m][..k] == events[..k];
      RunExisted(start, events[..m], to, k);
      StepExisted(|ResetRaces.Run(start, events[..k]).resets|, to, ResetRaces.Run(start, events[..m]), events[m]);
    } else {
      hide ResetRaces.Run, MostWaiting;
      assert events[..k] == events;
      RunKeepsTries(start, events, MostWaiting(start, events));
      hide Counted, SuccessInv;
    }
  }

  /** How many of the first `n` codes could be looked up from the state `base` on. */
  ghost function OpenCodes(base: seq<Reset>, n: nat): int {
    if n <= |base| then LiveCodes(base[..n]) else LiveCodes(base) + n - |base|
  }

  lemma OpenCodesNext(base: seq<Reset>, n: nat)
    ensures OpenCodes(base, n + 1) == OpenCodes(base, n) + if OpenAt(base, n) then 1 else 0
    ensures base[..|base|] == base
  {
    if n < |base| {
      assert base[..n + 1] == base[..n] + [base[n]];
      SumAdd(base[..n], IsUnused(), base[n]);
      if n + 1 == |base| { assert base[..n + 1] == base; }
    } else if n == |base| {
      assert base[..n] == base;
    }
  }

  lemma {:induction false} DuringNext(tries: seq<Try>, from: int, to: int, n: nat)
    ensures Sum(tries, DuringBelow(from, to, n + 1)) <= Sum(tries, DuringBelow(from, to, n)) + TriesOf(tries, n)
    ensures (forall y :: y in tries && from <= y.at <= to ==> y.code != n) ==>
      Sum(tries, DuringBelow(from, to, n + 1)) == Sum(tries, DuringBelow(from, to, n))
  {
    if tries != [] {
      DuringNext(tries[..|tries| - 1], from, to, n);
      assert forall y :: y in tries[..|tries| - 1] ==> y in tries;
      assert tries[|tries| - 1] in tries;
    }
  }

  /** Each code that could be looked up in the span took no more tries than any code does. */
  lemma {:induction false} TriesPerOpenCode(start: int, events: seq<ResetRaces.Event>, base: seq<Reset>,
                                            from: int, to: int, n: nat)
    requires Since(base, from, ResetRaces.Run(start, events))
    ensures Sum(ResetRaces.Run(start, events).tries, DuringBelow(from, to, n))
      <= OpenCodes(base, n) * (MAX_RESET_ATTEMPTS - 1 + MostWaiting(start, events))
  {
    hide ResetRaces.Run, MostWaiting, Sum, TriesOf, OpenCodes;
    var tries, each := ResetRaces.Run(start, events).tries, MAX_RESET_ATTEMPTS - 1 + MostWaiting(start, events);
    if n == 0 {
      CountRange(tries, DuringBelow(from, to, 0));
      NoOpenCodes(base);
    } else {
      TriesPerOpenCode(start, events, base, from, to, n - 1);
      OpenCodesNext(base, n - 1);
      DuringNext(tries, from, to, n - 1);
      TriesBounded(start, events, n - 1);
      Share(OpenCodes(base, n - 1), each);
      hide Since;
      assert (forall y :: y in tries && from <= y.at <= to ==> y.code != n - 1) || OpenAt(base, n - 1) by {
        assert forall y :: y in tries && y.at >= from ==> OpenAt(base, y.code);
      }
    }
  }

  lemma NoOpenCodes(base: seq<Reset>)
    ensures OpenCodes(base, 0) == 0
  {
    assert base[..0] == [];
  }

  lemma Share(x: int, k: int)
    ensures (x + 1) * k == x * k + k
  {
  }

  lemma {:induction false} MostSendingOfPrefix(start: int, events: seq<ResetRaces.Event>, k: nat)
    requires k <= |events|
    ensures MostSending(start, events[..k]) <= MostSending(start, events)
    decreases |events|
  {
    hide ResetRaces.Run;
    if k < |events| {
      assert events[..|events| - 1][..k] == events[..k];
      MostSendingOfPrefix(start, events[..|events| - 1], k);
    } else {
      assert events[..k] == events;
    }
  }

  lemma SpanOfWindow(base: seq<Reset>, from: int, to: int, s: State)
    requires Since(base, from, s) && Timed(s) && s.clock <= to && |base| < |s.resets|
    ensures s.resets[|s.resets| - 1].createdAt - s.resets[|base|].createdAt <= to - from
  {
    hide CallTimed, OpenAt;
  }

  /** Codes added between `from` and `to`, the events of that time being those from `j` up to `k`. */
  lemma CodesInWindow(start: int, events: seq<ResetRaces.Event>, from: int, to: int, j: nat, k: nat)
    requires Ordered(start, events, ResetRaces.Now()) && from <= to && j <= k <= |events|
    requires forall i :: 0 <= i < j ==> events[i].now < from
    requires forall i :: j <= i < k ==> from <= events[i].now <= to
    ensures var before := |ResetRaces.Run(start, events[..j]).resets|;
      var after := |ResetRaces.Run(start, events[..k]).resets|;
      before <= after && after - before <= MostSending(start, events) * ((to - from) / RESEND_COOLDOWN_MS + 1)
  {
    hide ResetRaces.Run, MostSending, Crowded, Timed, Since, Ordered;
    var first := events[..k];
    assert first[..j] == events[..j] && first[..k] == first;
    var base, s := ResetRaces.Run(start, events[..j]).resets, ResetRaces.Run(start, first);
    RunSince(start, first, from, j);
    SinceGrows(base, from, s);
    MostSendingOfPrefix(start, events, k);
    PrefixOrdered(start, events, k);
    RunKeepsSpacing(start, first, MostSending(start, events));
    if |base| < |s.resets| {
      SpanOfWindow(base, from, to, s);
      CodesInSpan(start, first, MostSending(start, events), |base|, to - from);
    }
  }

  lemma SinceGrows(base: seq<Reset>, from: int, s: State)
    requires Since(base, from, s)
    ensures |base| <= |s.resets|
  {
  }

  lemma PrefixOrdered(start: int, events: seq<ResetRaces.Event>, k: nat)
    requires Ordered(start, events, ResetRaces.Now()) && k <= |events|
    ensures Ordered(start, events[..k], ResetRaces.Now())
  {
  }

  /** The tries of the window are spread over the codes that could be looked up in it. */
  lemma TriesOfWindow(start: int, events: seq<ResetRaces.Event>, from: int, to: int, j: nat, k: nat)
    requires j <= |events| && (forall i :: 0 <= i < j ==> events[i].now < from)
    requires forall i :: j <= i < |events| ==> events[i].now >= from
    requires k <= |events| && forall i :: k <= i < |events| ==> events[i].now > to
    ensures TriesDuring(ResetRaces.Run(start, events).tries, from, to) <=
      OpenCodes(ResetRaces.Run(start, events[..j]).resets, |ResetRaces.Run(start, events[..k]).resets|)
      * (MAX_RESET_ATTEMPTS - 1 + MostWaiting(start, events))
  {
    hide ResetRaces.Run, MostWaiting, OpenCodes, Since;
    var tries, n := ResetRaces.Run(start, events).tries, |ResetRaces.Run(start, events[..k]).resets|;
    RunSince(start, events, from, j);
    RunExisted(start, events, to, k);
    assert forall y :: y in tries && y.at <= to ==> y.code < n;
    hide Existed;
    SameSum(tries, During(from, to), DuringBelow(from, to, n));
    TriesPerOpenCode(start, events, ResetRaces.Run(start, events[..j]).resets, from, to, n);
  }

  /**
    Whatever overlaps, the wrong tries looked up within any `to - from` milliseconds number at most
    n * (T / 60000 + 2) * (4 + c), for n requests and c confirmations in flight at once.
   */
  lemma WindowRate(start: int, events: seq<ResetRaces.Event>, from: int, to: int)
    requires Ordered(start, events, ResetRaces.Now()) && from <= to
    ensures TriesDuring(ResetRaces.Run(start, events).tries, from, to) <=
      MostSending(start, events) * ((to - from) / RESEND_COOLDOWN_MS + 2)
      * (MAX_RESET_ATTEMPTS - 1 + MostWaiting(start, events))
  {
    hide ResetRaces.Run, MostSending, MostWaiting, OpenCodes, TriesDuring, LiveCodes, Ordered;
    var j := CutAt(start, events, from, 0);
    var k := CutAt(start, events, to + 1, j);
    var base, n := ResetRaces.Run(start, events[..j]).resets, |ResetRaces.Run(start, events[..k]).resets|;
    var most, minutes := MostSending(start, events), (to - from) / RESEND_COOLDOWN_MS;
    TriesOfWindow(start, events, from, to, j, k);
    CodesInWindow(start, events, from, to, j, k);
    LiveBounded(start, events[..j]);
    MostSendingOfPrefix(start, events, j);
    OpenCodesFrom(base, n);
    Share(minutes + 1, most);
    MonotoneProduct(OpenCodes(base, n), most * (minutes + 2), MAX_RESET_ATTEMPTS - 1 + MostWaiting(start, events));
  }

  lemma OpenCodesFrom(base: seq<Reset>, n: nat)
    requires |base| <= n
    ensures OpenCodes(base, n) == LiveCodes(base) + n - |base|
  {
    assert base[..|base|] == base;
  }

  lemma MonotoneProduct(x: int, y: int, k: nat)
    requires x <= y
    ensures x * k <= y * k
  {
  }
}
