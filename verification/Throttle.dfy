/** The sliding-window gate (`ThrottleGate` of apps/e2e/e2e/support/api.ts). Times are milliseconds. */
module Throttle {

  /** The timestamps that are still inside the window. */
  function Recent(timestamps: seq<int>, now: int, windowMs: int): seq<int> {
    if timestamps == [] then []
    else if now - timestamps[0] < windowMs then [timestamps[0]] + Recent(timestamps[1..], now, windowMs)
    else Recent(timestamps[1..], now, windowMs)
  }

  ghost predicate Sorted(s: seq<int>) { forall i, j :: 0 <= i <= j < |s| ==> s[i] <= s[j] }

  lemma {:induction false} AllRecent(s: seq<int>, now: int, windowMs: int)
    requires forall i :: 0 <= i < |s| ==> now - s[i] < windowMs
    ensures Recent(s, now, windowMs) == s
  {
    if s != [] { AllRecent(s[1..], now, windowMs); }
  }

  /** In a sorted sequence what leaves the window is a prefix. */
  lemma {:induction false} RecentIsSuffix(s: seq<int>, now: int, windowMs: int) returns (k: nat)
    requires Sorted(s)
    ensures k <= |s| && Recent(s, now, windowMs) == s[k..]
    ensures k > 0 ==> now - s[k - 1] >= windowMs
    ensures k < |s| ==> now - s[k] < windowMs
  {
    k := 0;
    if s != [] {
      if now - s[0] < windowMs {
        AllRecent(s, now, windowMs);
      } else {
        k := RecentIsSuffix(s[1..], now, windowMs);
        k := k + 1;
      }
    }
  }

  /** Any `limit + 1` consecutive acquisitions span at least the window. */
  ghost predicate Spread(acquired: seq<int>, limit: nat, windowMs: int) {
    forall i :: 0 <= i < |acquired| - limit ==> acquired[i + limit] - acquired[i] >= windowMs
  }

  /** The last `n` acquisitions are the ones kept; older ones have left the window by `clock`. */
  ghost predicate Keeps(acquired: seq<int>, n: nat, clock: int, windowMs: int) {
    && n <= |acquired| && Sorted(acquired)
    && (acquired != [] ==> acquired[|acquired| - 1] <= clock)
    && (n < |acquired| ==> clock - acquired[|acquired| - n - 1] >= windowMs)
  }

  ghost function Last(s: seq<int>, n: nat): seq<int>
    requires n <= |s|
  {
    s[|s| - n..]
  }

  /** Filtering at a later clock reading keeps fewer, and these are again the last ones. */
  lemma FilterKeeps(acquired: seq<int>, n: nat, clock: int, now: int, windowMs: int)
    requires Keeps(acquired, n, clock, windowMs) && clock <= now
    ensures var live := Recent(Last(acquired, n), now, windowMs);
      |live| <= n && live == Last(acquired, |live|) && Keeps(acquired, |live|, now, windowMs)
      && (live != [] ==> now - live[0] < windowMs)
  {
    var kept := Last(acquired, n);
    var k := RecentIsSuffix(kept, now, windowMs);
    assert kept[k..] == Last(acquired, n - k);
  }

  /** A granted pass keeps the spread: the acquisition `limit` places back is no longer kept. */
  lemma GrantKeeps(acquired: seq<int>, n: nat, now: int, limit: nat, windowMs: int)
    requires Keeps(acquired, n, now, windowMs) && n < limit && Spread(acquired, limit, windowMs)
    ensures Keeps(acquired + [now], n + 1, now, windowMs) && Spread(acquired + [now], limit, windowMs)
    ensures Last(acquired + [now], n + 1) == Last(acquired, n) + [now]
  {
    var m := |acquired|;
    if limit <= m {
      assert acquired[m - limit] <= acquired[m - n - 1];
    }
  }

  /** One pass of the loop: granted, or the time to sleep before the next pass. */
  datatype Outcome = Granted | Wait(ms: int)

  /** How long a caller that nobody overtakes sleeps, if the sleep runs over by `late`. */
  function SoloWait(live: seq<int>, limit: nat, windowMs: int, now: int, late: nat): int
    requires limit > 0
  {
    if |live| < limit then 0 else windowMs - (now - live[0]) + 250 + late
  }

  class ThrottleGate {
    const limit: nat
    const windowMs: int
    var timestamps: seq<int>
    /** Every acquisition so far, oldest first. */
    ghost var acquired: seq<int>
    /** The latest clock reading. */
    ghost var clock: int

    ghost predicate Valid()
      reads this
    {
      && 0 < limit && |timestamps| <= limit
      && Keeps(acquired, |timestamps|, clock, windowMs)
      && timestamps == Last(acquired, |timestamps|)
      && Spread(acquired, limit, windowMs)
    }

    constructor (limit: nat, windowMs: int)
      requires limit > 0
      ensures Valid() && this.limit == limit && this.windowMs == windowMs && timestamps == acquired == []
    {
      this.limit, this.windowMs, timestamps, acquired := limit, windowMs, [], [];
    }

    /** The part of `acquire` between two sleeps, which no other call interrupts. */
    method Attempt(now: int) returns (r: Outcome)
      requires Valid() && clock <= now
      modifies this
      ensures Valid() && clock == now
      ensures var live := Recent(old(timestamps), now, windowMs);
        if |live| < limit then r == Granted && timestamps == live + [now] && acquired == old(acquired) + [now]
        else r == Wait(live[0] + windowMs + 250 - now) && timestamps == live && acquired == old(acquired)
      ensures r.Wait? ==> r.ms > 250
    {
      hide Keeps, Spread, Last, Recent;
      FilterKeeps(acquired, |timestamps|, clock, now, windowMs);
      timestamps := Recent(timestamps, now, windowMs);
      clock := now;
      if |timestamps| < limit {
        GrantKeeps(acquired, |timestamps|, now, limit, windowMs);
        timestamps := timestamps + [now];
        acquired := acquired + [now];
        r := Granted;
      } else {
        r := Wait(windowMs - (now - timestamps[0]) + 250);
      }
    }

    /** `acquire` for a caller that nobody overtakes, first trying at `now`: it sleeps at most once. */
    method Acquire(now: int, late: nat) returns (at: int, sleeps: nat)
      requires Valid() && clock <= now
      modifies this
      ensures Valid() && acquired == old(acquired) + [at]
      ensures var live := Recent(old(timestamps), now, windowMs);
        at == if |live| < limit then now else live[0] + windowMs + 250 + late
      ensures sleeps == if |Recent(old(timestamps), now, windowMs)| < limit then 0 else 1
    {
      ghost var live := Recent(timestamps, now, windowMs);
      hide Keeps, Spread, Last, Recent;
      at, sleeps := now, 0;
      var r := Attempt(at);
      while r.Wait?
        invariant Valid() && clock == at
        invariant r.Wait? ==> sleeps == 0 && at == now && acquired == old(acquired) && timestamps == live
        invariant r.Wait? ==> |live| == limit && r.ms > 250 && r == Wait(SoloWait(live, limit, windowMs, now, 0))
        invariant r.Granted? ==> acquired == old(acquired) + [at] && sleeps == if |live| < limit then 0 else 1
        invariant r.Granted? ==> at == now + SoloWait(live, limit, windowMs, now, late)
        decreases r.Wait?
      {
        OldestLeaves(acquired, limit, clock, at + r.ms + late, windowMs);
        at := at + r.ms + late;
        sleeps := sleeps + 1;
        r := Attempt(at);
      }
    }
  }

  /** Once the window of the oldest kept acquisition has passed, fewer are kept. */
  lemma OldestLeaves(acquired: seq<int>, n: nat, clock: int, now: int, windowMs: int)
    requires Keeps(acquired, n, clock, windowMs) && n > 0
    requires now - Last(acquired, n)[0] >= windowMs
    ensures |Recent(Last(acquired, n), now, windowMs)| < n
  {
    var k := RecentIsSuffix(Last(acquired, n), now, windowMs);
  }
}
