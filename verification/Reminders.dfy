/** Membership-end reminders (apps/api/src/members/member-expiry.scheduler.ts). Times are UTC milliseconds. */
module Reminders {
  import opened Wrappers
  import Calendar

  const EXPIRY_REMINDER_DAYS: seq<int> := [30, 7, 1]
  const IST_OFFSET_MS: int := 5 * 60 * 60 * 1000 + 30 * 60 * 1000

  /** The India-time calendar day of an instant. */
  function IstDay(t: int): int { (t + IST_OFFSET_MS) / Calendar.MS_PER_DAY }

  function IstDayStart(now: int, daysAhead: int): (start: int) {
    IstDay(now) * Calendar.MS_PER_DAY - IST_OFFSET_MS + daysAhead * Calendar.MS_PER_DAY
  }

  datatype Member = Member(id: nat, active: bool, validUntil: Option<int>)

  datatype Reminder = Reminder(id: nat, daysLeft: int)

  /** The query's window for one reminder. */
  predicate Due(now: int, daysLeft: int, m: Member) {
    m.active && m.validUntil.Some?
    && IstDayStart(now, daysLeft) <= m.validUntil.value < IstDayStart(now, daysLeft + 1)
  }

  /** The windows cut time into India days: an instant lies in the one numbered by its day. */
  lemma WindowsPartition(now: int, t: int, daysAhead: int)
    ensures IstDayStart(now, daysAhead) <= t < IstDayStart(now, daysAhead + 1) <==> daysAhead == IstDay(t) - IstDay(now)
    ensures IstDay(IstDayStart(now, daysAhead)) == IstDay(now) + daysAhead
  {
    assert t + IST_OFFSET_MS == IstDay(t) * Calendar.MS_PER_DAY + (t + IST_OFFSET_MS) % Calendar.MS_PER_DAY;
  }

  /** Windows begin at 18:30 UTC, which is midnight in India, and last one day. */
  lemma WindowTimes(now: int, daysAhead: int)
    ensures IstDayStart(now, daysAhead) % 86_400_000 == (18 * 60 + 30) * 60_000
    ensures IstDayStart(now, daysAhead + 1) == IstDayStart(now, daysAhead) + 86_400_000
    ensures IstDayStart(now, 0) <= now < IstDayStart(now, 1)
  {
    assert IstDayStart(now, daysAhead) == (IstDay(now) + daysAhead - 1) * 86_400_000 + (18 * 60 + 30) * 60_000;
    WindowsPartition(now, now, 0);
  }

  // ---- One run of the job ----

  function RemindersFor(now: int, daysLeft: int, members: seq<Member>): seq<Reminder> {
    if members == [] then []
    else
      var init := RemindersFor(now, daysLeft, members[..|members| - 1]);
      var m := members[|members| - 1];
      if Due(now, daysLeft, m) then init + [Reminder(m.id, daysLeft)] else init
  }

  function RemindersUpTo(now: int, members: seq<Member>, n: nat): seq<Reminder>
    requires n <= |EXPIRY_REMINDER_DAYS|
  {
    if n == 0 then []
    else RemindersUpTo(now, members, n - 1) + RemindersFor(now, EXPIRY_REMINDER_DAYS[n - 1], members)
  }

  function RunReminders(now: int, members: seq<Member>): seq<Reminder> {
    RemindersUpTo(now, members, |EXPIRY_REMINDER_DAYS|)
  }

  method SendExpiryReminders(now: int, members: seq<Member>) returns (notified: seq<Reminder>, sent: nat)
    ensures notified == RunReminders(now, members) && sent == |notified|
  {
    notified, sent := [], 0;
    for n := 0 to |EXPIRY_REMINDER_DAYS|
      invariant notified == RemindersUpTo(now, members, n) && sent == |notified|
    {
      var daysLeft := EXPIRY_REMINDER_DAYS[n];
      ghost var before := notified;
      for k := 0 to |members|
        invariant notified == before + RemindersFor(now, daysLeft, members[..k]) && sent == |notified|
      {
        assert members[..k + 1][..k] == members[..k];
        var m := members[k];
        if Due(now, daysLeft, m) {
          notified := notified + [Reminder(m.id, daysLeft)];
          sent := sent + 1;
        }
      }
      assert members[..|members|] == members;
    }
  }

  ghost predicate UniqueIds(members: seq<Member>) {
    forall i, j :: 0 <= i < j < |members| ==> members[i].id != members[j].id
  }

  lemma {:induction false} RemindersForCount(now: int, daysLeft: int, members: seq<Member>, i: nat, r: Reminder)
    requires UniqueIds(members) && i < |members| && r.id == members[i].id
    ensures multiset(RemindersFor(now, daysLeft, members))[r]
         == if r.daysLeft == daysLeft && Due(now, daysLeft, members[i]) then 1 else 0
  {
    var n := |members| - 1;
    if i < n {
      RemindersForCount(now, daysLeft, members[..n], i, r);
    } else {
      RemindersForOthers(now, daysLeft, members[..n], r);
    }
  }

  lemma {:induction false} RemindersForOthers(now: int, daysLeft: int, members: seq<Member>, r: Reminder)
    requires forall i :: 0 <= i < |members| ==> members[i].id != r.id
    ensures r !in RemindersFor(now, daysLeft, members)
  {
    if members != [] { RemindersForOthers(now, daysLeft, members[..|members| - 1], r); }
  }

  /** The member's membership ends `daysLeft` India days from `now`. */
  ghost predicate EndsIn(now: int, daysLeft: int, m: Member) {
    m.active && m.validUntil.Some? && IstDay(m.validUntil.value) == IstDay(now) + daysLeft
  }

  /**
    In one run an ACTIVE member is reminded exactly 30, 7 and 1 days before the end, once, and no
    other member at all.
   */
  lemma RunCount(now: int, members: seq<Member>, i: nat, daysLeft: int)
    requires UniqueIds(members) && i < |members|
    ensures multiset(RunReminders(now, members))[Reminder(members[i].id, daysLeft)]
         == if daysLeft in {30, 7, 1} && EndsIn(now, daysLeft, members[i]) then 1 else 0
  {
    var r := Reminder(members[i].id, daysLeft);
    var a, b, c := RemindersFor(now, 30, members), RemindersFor(now, 7, members), RemindersFor(now, 1, members);
    assert RunReminders(now, members) == a + b + c by { ThreeParts(now, members); }
    RemindersForCount(now, 30, members, i, r);
    RemindersForCount(now, 7, members, i, r);
    RemindersForCount(now, 1, members, i, r);
    if members[i].validUntil.Some? { WindowsPartition(now, members[i].validUntil.value, daysLeft); }
    assert multiset(a + b + c) == multiset(a) + multiset(b) + multiset(c);
  }

  lemma ThreeParts(now: int, members: seq<Member>)
    ensures RunReminders(now, members)
         == RemindersFor(now, 30, members) + RemindersFor(now, 7, members) + RemindersFor(now, 1, members)
  {
    assert RemindersUpTo(now, members, 1) == RemindersFor(now, 30, members);
    assert RemindersUpTo(now, members, 2) == RemindersFor(now, 30, members) + RemindersFor(now, 7, members);
  }

  lemma NobodyElse(now: int, members: seq<Member>, r: Reminder)
    requires forall i :: 0 <= i < |members| ==> members[i].id != r.id
    ensures r !in RunReminders(now, members)
  {
    ThreeParts(now, members);
    RemindersForOthers(now, 30, members, r);
    RemindersForOthers(now, 7, members, r);
    RemindersForOthers(now, 1, members, r);
  }

  // ---- A run every India calendar day ----

  /** Copies of `r` sent by the first `n` runs; run `k` starts at `nows[k]` and reads `tables[k]`. */
  ghost function TotalSent(nows: seq<int>, tables: seq<seq<Member>>, n: nat, r: Reminder): nat
    requires n <= |nows| == |tables|
  {
    if n == 0 then 0
    else TotalSent(nows, tables, n - 1, r) + multiset(RunReminders(nows[n - 1], tables[n - 1]))[r]
  }

  /** The member's row is the same in every run's table. */
  ghost predicate AlwaysListed(tables: seq<seq<Member>>, m: Member) {
    forall k :: 0 <= k < |tables| ==> UniqueIds(tables[k]) && m in tables[k]
  }

  /**
    With one run per India day, an ACTIVE member whose end date stays unchanged gets the reminders of
    30, 7 and 1 days exactly once if a run falls on that day before the end. Members that are not
    ACTIVE or have no end get none, and there are no other reminders.
   */
  lemma {:induction false} EachReminderOnce(nows: seq<int>, tables: seq<seq<Member>>, n: nat, m: Member, daysLeft: int)
    requires 0 < n <= |nows| == |tables| && AlwaysListed(tables, m)
    requires forall k :: 0 <= k < |nows| ==> IstDay(nows[k]) == IstDay(nows[0]) + k
    ensures TotalSent(nows, tables, n, Reminder(m.id, daysLeft)) ==
      if m.active && m.validUntil.Some? && daysLeft in {30, 7, 1}
        && 0 <= IstDay(m.validUntil.value) - daysLeft - IstDay(nows[0]) < n
      then 1 else 0
  {
    if n > 1 { EachReminderOnce(nows, tables, n - 1, m, daysLeft); }
    var k := n - 1;
    var i :| 0 <= i < |tables[k]| && tables[k][i] == m;
    RunCount(nows[k], tables[k], i, daysLeft);
    assert TotalSent(nows, tables, 0, Reminder(m.id, daysLeft)) == 0;
  }
}
