/**
  Forgot-password requests that overlap (`requestCode` and `confirm` of
  apps/api/src/member-auth/member-password-reset.service.ts): their database statements are
  separate steps, and those of many calls interleave in any order.
 */
module ResetRaces {
  import opened Wrappers
  import opened Clock
  import opened Sums
  import opened ResetCodes

  /** A code request past its cooldown check, which saw `known` codes; it retires the old codes, then adds its own. */
  datatype Sending = Sending(startedAt: int, codeHash: string, known: nat, retired: bool)

  /** A confirmation that has looked up the code to check its guess against. */
  datatype Waiting = Waiting(startedAt: int, code: nat, guessHash: string)

  /**
    One member's codes, what the request of each had seen, the calls in flight, and so far the wrong
    tries and the resets, by code.
   */
  datatype State = State(resets: seq<Reset>, known: seq<nat>, sending: seq<Sending>, waiting: seq<Waiting>,
                         tries: seq<Try>, successes: seq<nat>, clock: int)

  datatype Event =
    | Check(now: int, codeHash: string)
    | Retire(now: int, call: nat)
    | Create(now: int, call: nat)
    | Read(now: int, guessHash: string)
    | Write(now: int, call: nat)

  function Without<T>(calls: seq<T>, i: nat): seq<T>
    requires i < |calls|
  {
    calls[..i] + calls[i + 1..]
  }

  function Checked(s: State, now: int, codeHash: string): State {
    if SentLately(s.resets, now) then s
    else s.(sending := s.sending + [Sending(now, codeHash, |s.resets|, false)])
  }

  function RetiredBy(s: State, call: nat): State
    requires call < |s.sending|
  {
    var w := s.sending[call];
    s.(resets := Retired(s.resets, w.startedAt), sending := s.sending[call := w.(retired := true)])
  }

  /** The creation time is the database's clock, the expiry counts from the start of the request. */
  function CreatedBy(s: State, call: nat, now: int): State
    requires call < |s.sending|
  {
    var w := s.sending[call];
    s.(resets := s.resets + [Reset(now, w.startedAt + CODE_TTL_MS, w.codeHash, 0, None)],
       known := s.known + [w.known], sending := Without(s.sending, call))
  }

  function LookedUp(s: State, now: int, guessHash: string): State {
    match Live(s.resets, now)
    case None => s
    case Some(i) =>
      if s.resets[i].attempts >= MAX_RESET_ATTEMPTS then s
      else s.(waiting := s.waiting + [Waiting(now, i, guessHash)])
  }

  /** Counts a wrong try by an increment, or uses the code up by a compare-and-swap. */
  function Written(s: State, call: nat): State
    requires call < |s.waiting| && s.waiting[call].code < |s.resets|
  {
    var w := s.waiting[call];
    var i, r := w.code, s.resets[w.code];
    var left := s.(waiting := Without(s.waiting, call));
    if r.codeHash != w.guessHash then
      left.(resets := s.resets[i := r.(attempts := r.attempts + 1)], tries := s.tries + [Try(w.startedAt, i)])
    else if r.usedAt.None? then
      left.(resets := s.resets[i := r.(usedAt := Some(w.startedAt))], successes := s.successes + [i])
    else left
  }

  function Act(s: State, e: Event): State {
    match e
    case Check(now, codeHash) => Checked(s, now, codeHash)
    case Retire(_, call) => if call < |s.sending| && !s.sending[call].retired then RetiredBy(s, call) else s
    case Create(now, call) => if call < |s.sending| && s.sending[call].retired then CreatedBy(s, call, now) else s
    case Read(now, guessHash) => LookedUp(s, now, guessHash)
    case Write(_, call) => if call < |s.waiting| && s.waiting[call].code < |s.resets| then Written(s, call) else s
  }

  function Step(s: State, e: Event): State { Act(s, e).(clock := e.now) }

  function Run(start: int, events: seq<Event>): State {
    if events == [] then State([], [], [], [], [], [], start)
    else Step(Run(start, events[..|events| - 1]), events[|events| - 1])
  }

  /** The greatest number of confirmations in flight at once. */
  ghost function MostWaiting(start: int, events: seq<Event>): nat {
    if events == [] then 0
    else
      var before, now := MostWaiting(start, events[..|events| - 1]), |Run(start, events).waiting|;
      if now > before then now else before
  }

  /** The greatest number of code requests in flight at once. */
  ghost function MostSending(start: int, events: seq<Event>): nat {
    if events == [] then 0
    else
      var before, now := MostSending(start, events[..|events| - 1]), |Run(start, events).sending|;
      if now > before then now else before
  }

  // ---- Confirmations: wrong tries and successes ----

  function OnCode(code: nat): Waiting -> int { (w: Waiting) => if w.code == code then 1 else 0 }

  /** A call in flight read a counter below five: its increment is still to come. */
  ghost predicate Counted(s: State, most: nat) {
    forall i :: 0 <= i < |s.resets| ==>
      && s.resets[i].attempts == TriesOf(s.tries, i)
      && s.resets[i].attempts + Sum(s.waiting, OnCode(i)) <= MAX_RESET_ATTEMPTS - 1 + most
  }

  ghost predicate TriesKept(s: State, most: nat) {
    && |s.waiting| <= most
    && (forall k :: 0 <= k < |s.waiting| ==> s.waiting[k].code < |s.resets|)
    && (forall k :: 0 <= k < |s.tries| ==> s.tries[k].code < |s.resets|)
    && Counted(s, most)
    && SuccessInv(s.resets, s.successes)
  }

  /** Codes keep their counters; older ones may be retired and one may be added. */
  lemma RequestKeepsTries(s: State, s': State, most: nat)
    requires TriesKept(s, most)
    requires s'.waiting == s.waiting && s'.tries == s.tries && s'.successes == s.successes
    requires |s.resets| <= |s'.resets|
    requires forall i :: 0 <= i < |s.resets| ==>
      && s'.resets[i].attempts == s.resets[i].attempts && (s.resets[i].usedAt.Some? ==> s'.resets[i].usedAt.Some?)
    requires forall i :: |s.resets| <= i < |s'.resets| ==> s'.resets[i].attempts == 0
    ensures TriesKept(s', most)
  {
    forall i | |s.resets| <= i < |s'.resets|
      ensures Sum(s.tries, IsTry(i)) == 0 && Sum(s.waiting, OnCode(i)) == 0
    {
      CountRange(s.tries, IsTry(i));
      CountRange(s.waiting, OnCode(i));
    }
    hide Sum;
  }

  lemma ReadKeepsTries(s: State, now: int, guessHash: string, most: nat)
    requires TriesKept(s, most) && |LookedUp(s, now, guessHash).waiting| <= most
    ensures TriesKept(LookedUp(s, now, guessHash), most)
  {
    var live := Live(s.resets, now);
    if live.Some? {
      var w := Waiting(now, live.value, guessHash);
      forall i | 0 <= i < |s.resets|
        ensures Sum(s.waiting + [w], OnCode(i)) == Sum(s.waiting, OnCode(i)) + if w.code == i then 1 else 0
        ensures Sum(s.waiting + [w], OnCode(i)) <= |s.waiting| + 1
      {
        SumAdd(s.waiting, OnCode(i), w);
        CountRange(s.waiting + [w], OnCode(i));
      }
      hide Sum;
    }
  }

  lemma WriteKeepsTries(s: State, call: nat, most: nat)
    requires TriesKept(s, most) && call < |s.waiting|
    ensures TriesKept(Written(s, call), most)
  {
    var c, y := s.waiting[call].code, Try(s.waiting[call].startedAt, s.waiting[call].code);
    forall i | 0 <= i < |s.resets|
      ensures TriesOf(s.tries + [y], i) == TriesOf(s.tries, i) + if c == i then 1 else 0
      ensures Sum(Without(s.waiting, call), OnCode(i)) == Sum(s.waiting, OnCode(i)) - if c == i then 1 else 0
    {
      SumAdd(s.tries, IsTry(i), y);
      SumWithout(s.waiting, OnCode(i), call);
    }
    hide Sum, TriesOf;
  }

  lemma LaterKeepsTries(s: State, now: int, most: nat)
    requires TriesKept(s, most)
    ensures TriesKept(s.(clock := now), most)
  {
    hide Sum, TriesOf;
  }

  lemma StepKeepsTries(s: State, e: Event, most: nat)
    requires TriesKept(s, most) && |Step(s, e).waiting| <= most
    ensures TriesKept(Step(s, e), most)
  {
    hide TriesKept, LookedUp, Written, SentLately, Sum;
    match e {
      case Read(now, guessHash) => ReadKeepsTries(s, now, guessHash, most);
      case Write(_, call) =>
        if call < |s.waiting| && s.waiting[call].code < |s.resets| { WriteKeepsTries(s, call, most); }
      case _ => RequestKeepsTries(s, Act(s, e), most);
    }
    LaterKeepsTries(Act(s, e), e.now, most);
  }

  lemma {:induction false} RunKeepsTries(start: int, events: seq<Event>, most: nat)
    requires MostWaiting(start, events) <= most
    ensures TriesKept(Run(start, events), most)
  {
    if events != [] {
      hide Step, TriesKept;
      RunKeepsTries(start, events[..|events| - 1], most);
      StepKeepsTries(Run(start, events[..|events| - 1]), events[|events| - 1], most);
    } else {
      hide MostWaiting;
    }
  }

  /** However requests and confirmations overlap, no code resets the password twice. */
  lemma SucceedsOnce(start: int, events: seq<Event>, j: nat, k: nat)
    requires j < k < |Run(start, events).successes|
    ensures Run(start, events).successes[j] != Run(start, events).successes[k]
  {
    hide Run;
    RunKeepsTries(start, events, MostWaiting(start, events));
  }

  /** A code takes at most four wrong tries more than there are confirmations in flight at once. */
  lemma TriesBounded(start: int, events: seq<Event>, code: nat)
    ensures TriesOf(Run(start, events).tries, code) <= MAX_RESET_ATTEMPTS - 1 + MostWaiting(start, events)
  {
    hide Run;
    var s := Run(start, events);
    RunKeepsTries(start, events, MostWaiting(start, events));
    if code < |s.resets| {
      CountRange(s.waiting, OnCode(code));
    } else {
      CountRange(s.tries, IsTry(code));
    }
  }

  // ---- Requests: live codes ----

  function IsUnused(): Reset -> int { (r: Reset) => if r.usedAt.None? then 1 else 0 }

  function IsRetired(): Sending -> int { (w: Sending) => if w.retired then 1 else 0 }

  /** A live code is unused, whether or not its time has passed. */
  ghost function LiveCodes(resets: seq<Reset>): int { Sum(resets, IsUnused()) }

  /** A request that has retired the old codes will add one that nothing has retired. */
  ghost predicate LiveKept(s: State, most: nat) {
    && |s.sending| <= most
    && LiveCodes(s.resets) + Sum(s.sending, IsRetired()) <= most
  }

  lemma RetireKeepsLive(s: State, call: nat, most: nat)
    requires LiveKept(s, most) && call < |s.sending|
    ensures LiveKept(RetiredBy(s, call), most)
  {
    CountRange(Retired(s.resets, s.sending[call].startedAt), IsUnused());
    CountRange(RetiredBy(s, call).sending, IsRetired());
    hide Sum;
  }

  lemma CreateKeepsLive(s: State, call: nat, now: int, most: nat)
    requires LiveKept(s, most) && call < |s.sending| && s.sending[call].retired
    ensures LiveKept(CreatedBy(s, call, now), most)
  {
    var w := s.sending[call];
    SumAdd(s.resets, IsUnused(), Reset(now, w.startedAt + CODE_TTL_MS, w.codeHash, 0, None));
    SumWithout(s.sending, IsRetired(), call);
    hide Sum;
  }

  lemma WriteKeepsLive(s: State, call: nat, most: nat)
    requires LiveKept(s, most) && call < |s.waiting| && s.waiting[call].code < |s.resets|
    ensures LiveKept(Written(s, call), most)
  {
    var w := s.waiting[call];
    var r := s.resets[w.code];
    SumReplace(s.resets, IsUnused(), w.code, r.(attempts := r.attempts + 1));
    SumReplace(s.resets, IsUnused(), w.code, r.(usedAt := Some(w.startedAt)));
    hide Sum;
  }

  lemma StepKeepsLive(s: State, e: Event, most: nat)
    requires LiveKept(s, most) && |Step(s, e).sending| <= most
    ensures LiveKept(Step(s, e), most)
  {
    hide Sum, RetiredBy, CreatedBy, Written, Live, SentLately;
    match e
    case Check(now, codeHash) =>
      SumAdd(s.sending, IsRetired(), Sending(now, codeHash, |s.resets|, false));
    case Retire(_, call) => if call < |s.sending| { RetireKeepsLive(s, call, most); }
    case Create(now, call) => if call < |s.sending| && s.sending[call].retired { CreateKeepsLive(s, call, now, most); }
    case Read(_, _) =>
    case Write(_, call) =>
      if call < |s.waiting| && s.waiting[call].code < |s.resets| { WriteKeepsLive(s, call, most); }
  }

  lemma {:induction false} RunKeepsLive(start: int, events: seq<Event>, most: nat)
    requires MostSending(start, events) <= most
    ensures LiveKept(Run(start, events), most)
  {
    if events != [] {
      hide Step, LiveKept;
      RunKeepsLive(start, events[..|events| - 1], most);
      StepKeepsLive(Run(start, events[..|events| - 1]), events[|events| - 1], most);
    }
  }

  /** There are never more live codes than there were code requests in flight at once. */
  lemma LiveBounded(start: int, events: seq<Event>)
    ensures LiveCodes(Run(start, events).resets) <= MostSending(start, events)
  {
    hide Run;
    RunKeepsLive(start, events, MostSending(start, events));
    CountRange(Run(start, events).sending, IsRetired());
  }

  // ---- Requests: how far apart codes are ----

  function Knew(i: nat): Sending -> int { (w: Sending) => if w.known <= i then 1 else 0 }

  function AtMost(i: nat): nat -> int { (k: nat) => if k <= i then 1 else 0 }

  /** Codes after the `i`-th whose requests had not seen it. */
  ghost function Unaware(known: seq<nat>, i: nat): int
    requires i < |known|
  {
    Sum(known[i + 1..], AtMost(i))
  }

  /** Codes are in the order of their times, and a minute later than any that their request had seen. */
  ghost predicate CodesTimed(resets: seq<Reset>, known: seq<nat>, clock: int) {
    && |known| == |resets|
    && (forall i, j :: 0 <= i <= j < |resets| ==> resets[i].createdAt <= resets[j].createdAt)
    && (forall i :: 0 <= i < |resets| ==> resets[i].createdAt <= clock)
    && (forall i, j :: 0 <= i < j < |resets| && i < known[j] ==>
          resets[j].createdAt - resets[i].createdAt >= RESEND_COOLDOWN_MS)
  }

  /** A request in flight started a minute after any code that it saw. */
  ghost predicate CallTimed(resets: seq<Reset>, w: Sending, clock: int) {
    && w.known <= |resets| && w.startedAt <= clock
    && forall i :: 0 <= i < w.known ==> w.startedAt - resets[i].createdAt >= RESEND_COOLDOWN_MS
  }

  ghost predicate Timed(s: State) {
    && CodesTimed(s.resets, s.known, s.clock)
    && forall k :: 0 <= k < |s.sending| ==> CallTimed(s.resets, s.sending[k], s.clock)
  }

  /** Requests that had not seen a code were in flight when it was added. */
  ghost predicate Crowded(s: State, most: nat) {
    && |s.sending| <= most && |s.known| == |s.resets|
    && forall i :: 0 <= i < |s.known| ==> Unaware(s.known, i) + Sum(s.sending, Knew(i)) <= most - 1
  }

  /** No code is added, and calls in flight stay as far as their times go. */
  lemma OthersKeepTimed(s: State, s': State)
    requires Timed(s) && s.clock <= s'.clock && s'.known == s.known && |s'.resets| == |s.resets|
    requires forall i :: 0 <= i < |s.resets| ==> s'.resets[i].createdAt == s.resets[i].createdAt
    requires |s'.sending| == |s.sending|
    requires forall k :: 0 <= k < |s.sending| ==>
      s'.sending[k].known == s.sending[k].known && s'.sending[k].startedAt == s.sending[k].startedAt
    ensures Timed(s')
  {
    forall k | 0 <= k < |s'.sending|
      ensures CallTimed(s'.resets, s'.sending[k], s'.clock)
    {
      assert CallTimed(s.resets, s.sending[k], s.clock);
    }
  }

  lemma CheckKeepsTimed(s: State, now: int, codeHash: string)
    requires Timed(s) && s.clock <= now && !SentLately(s.resets, now)
    ensures Timed(Checked(s, now, codeHash).(clock := now))
  {
    var u := s.(clock := now);
    OthersKeepTimed(s, u);
    assert CallTimed(u.resets, Sending(now, codeHash, |s.resets|, false), now);
    hide CallTimed, CodesTimed;
  }

  lemma CreateKeepsTimed(s: State, call: nat, now: int)
    requires Timed(s) && s.clock <= now && call < |s.sending|
    ensures Timed(CreatedBy(s, call, now).(clock := now))
  {
    var s' := CreatedBy(s, call, now).(clock := now);
    assert CallTimed(s.resets, s.sending[call], s.clock);
    assert CodesTimed(s'.resets, s'.known, now);
    forall k | 0 <= k < |s'.sending|
      ensures CallTimed(s'.resets, s'.sending[k], now)
    {
      var w := s.sending[if k < call then k else k + 1];
      assert s'.sending[k] == w && CallTimed(s.resets, w, s.clock);
    }
  }

  lemma StepKeepsTimed(s: State, e: Event)
    requires Timed(s) && s.clock <= e.now
    ensures Timed(Step(s, e))
  {
    hide Timed, CreatedBy, SentLately, Live;
    match e
    case Check(now, codeHash) =>
      if SentLately(s.resets, now) { OthersKeepTimed(s, Step(s, e)); } else { CheckKeepsTimed(s, now, codeHash); }
    case Create(now, call) =>
      if call < |s.sending| && s.sending[call].retired {
        CreateKeepsTimed(s, call, now);
      } else {
        OthersKeepTimed(s, Step(s, e));
      }
    case _ => OthersKeepTimed(s, Step(s, e));
  }

  lemma CreateKeepsCrowded(s: State, call: nat, now: int, most: nat)
    requires Crowded(s, most) && call < |s.sending|
    ensures Crowded(CreatedBy(s, call, now), most)
  {
    var s', w := CreatedBy(s, call, now), s.sending[call];
    forall i | 0 <= i < |s'.known|
      ensures Unaware(s'.known, i) + Sum(s'.sending, Knew(i)) <= most - 1
    {
      if i < |s.known| {
        assert s'.known[i + 1..] == s.known[i + 1..] + [w.known];
        SumAdd(s.known[i + 1..], AtMost(i), w.known);
        SumWithout(s.sending, Knew(i), call);
      } else {
        CountRange(s'.sending, Knew(i));
        assert s'.known[i + 1..] == [];
      }
    }
  }

  lemma CheckKeepsCrowded(s: State, now: int, codeHash: string, most: nat)
    requires Crowded(s, most) && |Checked(s, now, codeHash).sending| <= most
    ensures Crowded(Checked(s, now, codeHash), most)
  {
    forall i | 0 <= i < |s.known|
      ensures Sum(s.sending + [Sending(now, codeHash, |s.resets|, false)], Knew(i)) == Sum(s.sending, Knew(i))
    {
      SumAdd(s.sending, Knew(i), Sending(now, codeHash, |s.resets|, false));
    }
    hide Sum;
  }

  lemma StepKeepsCrowded(s: State, e: Event, most: nat)
    requires Crowded(s, most) && |Step(s, e).sending| <= most
    ensures Crowded(Step(s, e), most)
  {
    match e
    case Check(now, codeHash) => CheckKeepsCrowded(s, now, codeHash, most);
    case Retire(_, call) =>
      if call < |s.sending| {
        forall i | 0 <= i < |s.known|
          ensures Sum(s.sending[call := s.sending[call].(retired := true)], Knew(i)) == Sum(s.sending, Knew(i))
        {
          SumReplace(s.sending, Knew(i), call, s.sending[call].(retired := true));
        }
      }
    case Create(now, call) => if call < |s.sending| { CreateKeepsCrowded(s, call, now, most); }
    case Read(_, _) =>
    case Write(_, _) =>
  }

  function Now(): Event -> int { (e: Event) => e.now }

  lemma {:induction false} RunKeepsSpacing(start: int, events: seq<Event>, most: nat)
    requires Ordered(start, events, Now()) && MostSending(start, events) <= most
    ensures Timed(Run(start, events)) && Crowded(Run(start, events), most)
    ensures Run(start, events).clock == if events == [] then start else events[|events| - 1].now
  {
    if events != [] {
      var n := |events| - 1;
      RunKeepsSpacing(start, events[..n], most);
      if n > 0 { assert events[..n][n - 1] == events[n - 1]; }
      StepKeepsTimed(Run(start, events[..n]), events[n]);
      StepKeepsCrowded(Run(start, events[..n]), events[n], most);
      hide Timed, Crowded, Act;
    }
  }

  /** Among the `most` codes after the `i`-th there is one whose request had seen it. */
  lemma SomeAware(known: seq<nat>, i: nat, most: nat) returns (j: nat)
    requires 0 < most && i + most < |known| && Unaware(known, i) <= most - 1
    ensures i < j <= i + most && known[j] > i
  {
    if forall k :: i < k <= i + most ==> known[k] <= i {
      var later := known[i + 1..];
      CountPrefix(later, AtMost(i), most);
      CountRange(later[..most], AtMost(i));
    }
    j :| i < j <= i + most && known[j] > i;
  }

  lemma {:induction false} CountPrefix<T>(rows: seq<T>, f: T -> int, n: nat)
    requires n <= |rows| && forall x :: x in rows ==> 0 <= f(x) <= 1
    ensures Sum(rows[..n], f) <= Sum(rows, f)
  {
    if n < |rows| {
      CountPrefix(rows[..|rows| - 1], f, n);
      assert rows[..|rows| - 1][..n] == rows[..n];
    } else {
      assert rows[..n] == rows;
    }
  }

  /**
    With at most `most` requests in flight at once, any `most + 1` consecutive codes span a minute;
    in particular requests that do not overlap send codes a minute apart.
   */
  lemma CodesSpaced(start: int, events: seq<Event>, most: nat, i: nat)
    requires Ordered(start, events, Now()) && MostSending(start, events) <= most && most > 0
    requires i + most < |Run(start, events).resets|
    ensures var resets := Run(start, events).resets;
      resets[i + most].createdAt - resets[i].createdAt >= RESEND_COOLDOWN_MS
  {
    hide Run;
    var s := Run(start, events);
    RunKeepsSpacing(start, events, most);
    CountRange(s.sending, Knew(i));
    hide Sum;
    var j := SomeAware(s.known, i, most);
  }

  /** Requests that do not overlap leave one live code at most, and codes a minute apart. */
  lemma OneAtATime(start: int, events: seq<Event>)
    requires Ordered(start, events, Now()) && MostSending(start, events) <= 1
    ensures var resets := Run(start, events).resets;
      && (forall i, j :: 0 <= i < j < |resets| ==> resets[i].usedAt.Some? || resets[j].usedAt.Some?)
      && (forall i :: 0 < i < |resets| ==> resets[i].createdAt - resets[i - 1].createdAt >= RESEND_COOLDOWN_MS)
  {
    hide Run;
    var resets := Run(start, events).resets;
    LiveBounded(start, events);
    forall i | 0 < i < |resets|
      ensures resets[i].createdAt - resets[i - 1].createdAt >= RESEND_COOLDOWN_MS
    {
      CodesSpaced(start, events, 1, i - 1);
    }
    forall i, j | 0 <= i < j < |resets|
      ensures resets[i].usedAt.Some? || resets[j].usedAt.Some?
    {
      if resets[i].usedAt.None? && resets[j].usedAt.None? { TwoLive(resets, i, j); }
    }
  }

  lemma TwoLive(resets: seq<Reset>, i: nat, j: nat)
    requires i < j < |resets| && resets[i].usedAt.None? && resets[j].usedAt.None?
    ensures LiveCodes(resets) >= 2
  {
    var others := Without(resets, j);
    SumWithout(resets, IsUnused(), j);
    SumWithout(others, IsUnused(), i);
    CountRange(Without(others, i), IsUnused());
    hide Sum;
  }

  // ---- How many wrong tries in all ----

  ghost function TriesBelow(tries: seq<Try>, n: nat): int { Sum(tries, Below(n)) }

  function Below(n: nat): Try -> int { (y: Try) => if y.code < n then 1 else 0 }

  lemma {:induction false} BelowNext(tries: seq<Try>, n: nat)
    ensures TriesBelow(tries, n + 1) == TriesBelow(tries, n) + TriesOf(tries, n)
  {
    if tries != [] { BelowNext(tries[..|tries| - 1], n); }
  }

  lemma {:induction false} TriesPerCode(start: int, events: seq<Event>, n: nat)
    ensures TriesBelow(Run(start, events).tries, n) <= n * (MAX_RESET_ATTEMPTS - 1 + MostWaiting(start, events))
  {
    var tries := Run(start, events).tries;
    hide Run, MostWaiting, TriesOf, TriesBelow, Sum;
    if n == 0 {
      NoneBelow(tries);
    } else {
      TriesPerCode(start, events, n - 1);
      TriesBounded(start, events, n - 1);
      BelowNext(tries, n - 1);
      Distribute(n - 1, MAX_RESET_ATTEMPTS - 1 + MostWaiting(start, events));
    }
  }

  lemma NoneBelow(tries: seq<Try>)
    ensures TriesBelow(tries, 0) == 0
  {
    CountRange(tries, Below(0));
  }

  lemma Distribute(n: nat, k: nat)
    ensures (n + 1) * k == n * k + k
  {
  }

  lemma {:induction false} CodesSpread(start: int, events: seq<Event>, most: nat, i: nat, q: nat)
    requires Ordered(start, events, Now()) && MostSending(start, events) <= most && most > 0
    requires i + q * most < |Run(start, events).resets|
    ensures var resets := Run(start, events).resets;
      resets[i + q * most].createdAt - resets[i].createdAt >= q * RESEND_COOLDOWN_MS
  {
    hide Run, MostSending;
    if q > 0 {
      Distribute(q - 1, most);
      CodesSpread(start, events, most, i, q - 1);
      CodesSpaced(start, events, most, i + (q - 1) * most);
    }
  }

  /** The number of codes from the `i`-th on within `span` milliseconds, with at most `most` requests in flight. */
  lemma CodesInSpan(start: int, events: seq<Event>, most: nat, i: nat, span: nat)
    requires Ordered(start, events, Now()) && MostSending(start, events) <= most
    requires i < |Run(start, events).resets|
    requires var resets := Run(start, events).resets; resets[|resets| - 1].createdAt - resets[i].createdAt <= span
    ensures |Run(start, events).resets| - i <= most * (span / RESEND_COOLDOWN_MS + 1)
  {
    hide Run, MostSending;
    var resets := Run(start, events).resets;
    var q := span / RESEND_COOLDOWN_MS + 1;
    RunKeepsSpacing(start, events, most);
    if most == 0 {
      NoCodes(start, events);
    } else if i + q * most < |resets| {
      CodesSpread(start, events, most, i, q);
    }
  }

  /** Without a request no code is added. */
  lemma {:induction false} NoCodes(start: int, events: seq<Event>)
    requires MostSending(start, events) == 0
    ensures Run(start, events).resets == [] && Run(start, events).sending == []
  {
    if events != [] { NoCodes(start, events[..|events| - 1]); }
  }

  /** All wrong tries of a run whose codes lie within `span` milliseconds, whatever overlaps. */
  lemma TotalTries(start: int, events: seq<Event>, span: nat)
    requires Ordered(start, events, Now()) && Run(start, events).resets != []
    requires var resets := Run(start, events).resets; resets[|resets| - 1].createdAt - resets[0].createdAt <= span
    ensures |Run(start, events).tries| <=
      MostSending(start, events) * (span / RESEND_COOLDOWN_MS + 1)
      * (MAX_RESET_ATTEMPTS - 1 + MostWaiting(start, events))
  {
    var s := Run(start, events);
    hide Run, MostSending, MostWaiting;
    CodesInSpan(start, events, MostSending(start, events), 0, span);
    TriesPerCode(start, events, |s.resets|);
    RunKeepsTries(start, events, MostWaiting(start, events));
    CountRange(s.tries, Below(|s.resets|));
    Monotone(|s.resets|, MostSending(start, events) * (span / RESEND_COOLDOWN_MS + 1),
             MAX_RESET_ATTEMPTS - 1 + MostWaiting(start, events));
  }

  lemma Monotone(x: nat, y: nat, k: nat)
    requires x <= y
    ensures x * k <= y * k
  {
  }

  // ---- The bounds are attained ----

  lemma RunAdd(start: int, events: seq<Event>, e: Event)
    ensures Run(start, events + [e]) == Step(Run(start, events), e)
    ensures var w := |Run(start, events + [e]).waiting|;
      MostWaiting(start, events + [e]) == if w > MostWaiting(start, events) then w else MostWaiting(start, events)
    ensures var w := |Run(start, events + [e]).sending|;
      MostSending(start, events + [e]) == if w > MostSending(start, events) then w else MostSending(start, events)
  {
    assert (events + [e])[..|events|] == events;
  }

  /** `n` requests in flight, the first `r` of which have retired the old codes, and `c` codes added. */
  ghost predicate Asking(s: State, n: nat, r: nat, c: nat) {
    && |s.sending| == n && r <= n && |s.resets| == c
    && (forall k :: 0 <= k < n ==> s.sending[k] == Sending(0, "right", 0, k < r))
    && (forall i :: 0 <= i < c ==> s.resets[i].createdAt == 0 && s.resets[i].usedAt.None?)
  }

  ghost predicate AtZero(events: seq<Event>) { forall i :: 0 <= i < |events| ==> events[i].now == 0 }

  lemma OneCheck(s: State, n: nat)
    requires Asking(s, n, 0, 0)
    ensures Asking(Step(s, Check(0, "right")), n + 1, 0, 0)
  {
    hide Live, LookedUp, Written;
  }

  lemma OneRetire(s: State, n: nat, r: nat)
    requires Asking(s, n, r, 0) && r < n
    ensures Asking(Step(s, Retire(0, r)), n, r + 1, 0)
  {
    hide Live, LookedUp, Written;
  }

  lemma OneCreate(s: State, n: nat, c: nat)
    requires Asking(s, n, n, c) && n > 0
    ensures Asking(Step(s, Create(0, 0)), n - 1, n - 1, c + 1)
  {
    hide Live, LookedUp, Written;
  }

  lemma {:induction false} AllCheck(n: nat) returns (events: seq<Event>)
    ensures Asking(Run(0, events), n, 0, 0) && MostSending(0, events) == n && AtZero(events)
  {
    events := [];
    if n > 0 {
      var before := AllCheck(n - 1);
      events := before + [Check(0, "right")];
      RunAdd(0, before, Check(0, "right"));
      OneCheck(Run(0, before), n - 1);
      hide Step, Run, MostSending, MostWaiting;
    }
  }

  lemma {:induction false} AllRetire(checked: seq<Event>, n: nat, r: nat) returns (events: seq<Event>)
    requires Asking(Run(0, checked), n, 0, 0) && MostSending(0, checked) == n && AtZero(checked) && r <= n
    ensures Asking(Run(0, events), n, r, 0) && MostSending(0, events) == n && AtZero(events)
  {
    events := checked;
    if r > 0 {
      var before := AllRetire(checked, n, r - 1);
      events := before + [Retire(0, r - 1)];
      RunAdd(0, before, Retire(0, r - 1));
      OneRetire(Run(0, before), n, r - 1);
      hide Step, Run, MostSending, MostWaiting;
    }
  }

  lemma {:induction false} AllCreate(retired: seq<Event>, n: nat, c: nat) returns (events: seq<Event>)
    requires Asking(Run(0, retired), n, n, 0) && MostSending(0, retired) == n && AtZero(retired) && c <= n
    ensures Asking(Run(0, events), n - c, n - c, c) && MostSending(0, events) == n && AtZero(events)
  {
    events := retired;
    if c > 0 {
      var before := AllCreate(retired, n, c - 1);
      events := before + [Create(0, 0)];
      RunAdd(0, before, Create(0, 0));
      OneCreate(Run(0, before), n - c + 1, c - 1);
      hide Step, Run, MostSending, MostWaiting;
    }
  }

  /** With `n` code requests in flight there can be `n` live codes, all sent at once. */
  lemma LiveAttained(n: nat) returns (events: seq<Event>)
    ensures Ordered(0, events, Now()) && MostSending(0, events) == n
    ensures var resets := Run(0, events).resets;
      LiveCodes(resets) == n == |resets| && forall i :: 0 <= i < n ==> resets[i].createdAt == 0
  {
    var checked := AllCheck(n);
    var retired := AllRetire(checked, n, n);
    events := AllCreate(retired, n, n);
    hide Run, MostSending;
    CountRange(Run(0, events).resets, IsUnused());
  }

  /** One code, `tried` wrong tries against it and `n` more calls in flight. */
  ghost predicate Trying(s: State, tried: nat, n: nat) {
    && |s.resets| == 1 && Usable(s.resets[0], 0) && s.resets[0].attempts == tried && s.resets[0].codeHash == "right"
    && |s.waiting| == n && (forall k :: 0 <= k < n ==> s.waiting[k] == Waiting(0, 0, "wrong"))
    && TriesOf(s.tries, 0) == tried
  }

  lemma ReadOne(events: seq<Event>, tried: nat, n: nat)
    requires Trying(Run(0, events), tried, n) && tried < MAX_RESET_ATTEMPTS
    ensures Trying(Run(0, events + [Read(0, "wrong")]), tried, n + 1)
    ensures MostWaiting(0, events + [Read(0, "wrong")]) ==
      if MostWaiting(0, events) > n then MostWaiting(0, events) else n + 1
  {
    RunAdd(0, events, Read(0, "wrong"));
    hide Run, MostWaiting, MostSending, TriesOf;
  }

  lemma WrongTry(s: State, tried: nat, n: nat)
    requires Trying(s, tried, n) && n > 0
    ensures Trying(Step(s, Write(0, 0)), tried + 1, n - 1)
  {
    SumAdd(s.tries, IsTry(0), Try(0, 0));
    hide Sum, LookedUp, Live, SentLately;
  }

  lemma WriteOne(events: seq<Event>, tried: nat, n: nat)
    requires Trying(Run(0, events), tried, n) && n > 0 && n <= MostWaiting(0, events)
    ensures Trying(Run(0, events + [Write(0, 0)]), tried + 1, n - 1)
    ensures MostWaiting(0, events + [Write(0, 0)]) == MostWaiting(0, events)
  {
    RunAdd(0, events, Write(0, 0));
    WrongTry(Run(0, events), tried, n);
    hide Run, Step, MostWaiting, MostSending, TriesOf;
  }

  lemma OneCode() returns (events: seq<Event>)
    ensures Trying(Run(0, events), 0, 0) && MostWaiting(0, events) == 0
  {
    var e0, e1, e2 := Check(0, "right"), Retire(0, 0), Create(0, 0);
    events := [e0, e1, e2];
    assert [e0] == [] + [e0] && [e0, e1] == [e0] + [e1] && events == [e0, e1] + [e2];
    RunAdd(0, [], e0);
    RunAdd(0, [e0], e1);
    RunAdd(0, [e0, e1], e2);
  }

  lemma {:induction false} OneByOne(tried: nat) returns (events: seq<Event>)
    requires tried < MAX_RESET_ATTEMPTS
    ensures Trying(Run(0, events), tried, 0) && MostWaiting(0, events) <= 1
  {
    if tried == 0 {
      events := OneCode();
    } else {
      var before := OneByOne(tried - 1);
      ReadOne(before, tried - 1, 0);
      WriteOne(before + [Read(0, "wrong")], tried - 1, 1);
      events := before + [Read(0, "wrong")] + [Write(0, 0)];
    }
  }

  lemma {:induction false} ReadMore(before: seq<Event>, n: nat) returns (events: seq<Event>)
    requires Trying(Run(0, before), MAX_RESET_ATTEMPTS - 1, 0) && MostWaiting(0, before) <= 1
    ensures Trying(Run(0, events), MAX_RESET_ATTEMPTS - 1, n)
    ensures MostWaiting(0, events) == if n == 0 then MostWaiting(0, before) else n
  {
    if n == 0 {
      events := before;
    } else {
      events := ReadMore(before, n - 1);
      ReadOne(events, MAX_RESET_ATTEMPTS - 1, n - 1);
      events := events + [Read(0, "wrong")];
    }
  }

  lemma {:induction false} WriteAll(before: seq<Event>, n: nat) returns (events: seq<Event>)
    requires Trying(Run(0, before), MAX_RESET_ATTEMPTS - 1, MostWaiting(0, before)) && n <= MostWaiting(0, before)
    ensures Trying(Run(0, events), MAX_RESET_ATTEMPTS - 1 + n, MostWaiting(0, before) - n)
    ensures MostWaiting(0, events) == MostWaiting(0, before)
  {
    if n == 0 {
      events := before;
    } else {
      events := WriteAll(before, n - 1);
      WriteOne(events, MAX_RESET_ATTEMPTS + n - 2, MostWaiting(0, before) - n + 1);
      events := events + [Write(0, 0)];
    }
  }

  /** With `n` confirmations in flight at once, a code can take that many wrong tries more than four. */
  lemma TriesAttained(n: nat) returns (events: seq<Event>)
    requires n > 0
    ensures MostWaiting(0, events) == n
    ensures TriesOf(Run(0, events).tries, 0) == MAX_RESET_ATTEMPTS - 1 + n
  {
    var one := OneByOne(MAX_RESET_ATTEMPTS - 1);
    var all := ReadMore(one, n);
    events := WriteAll(all, n);
  }
}
