/** app/cron.py: the next occurrence of a schedule, and the stored reminder list.

    Jakarta time has no daylight saving, so an instant is an integer: microseconds since some
    Monday midnight there. */
module Cron {
  import opened Wrappers
  import opened Loops
  import opened Text

  const MINUTE := 60_000_000
  const HOUR := 60 * MINUTE
  const DAY := 24 * HOUR
  const WEEK := 7 * DAY
  const MAX_JOBS := 50

  // ----- The next occurrence -----

  datatype Day = Today | Tomorrow | Daily | Weekly

  function DayNumber(t: int): int {
    t / DAY
  }

  function TimeOfDay(t: int): int {
    t % DAY
  }

  /** `weekday()`, Monday being 0. */
  function Weekday(t: int): int {
    DayNumber(t) % 7
  }

  /** `now.replace(hour=..., minute=..., second=0, microsecond=0)`. */
  function Replaced(now: int, hour: int, minute: int): int {
    now - TimeOfDay(now) + hour * HOUR + minute * MINUTE
  }

  /** `compute_next_run`; `None` is the `ValueError` of an impossible hour or minute. */
  function ComputeNextRun(day: Day, weekday: Option<int>, hour: int, minute: int, now: int): Option<int> {
    if !(0 <= hour < 24 && 0 <= minute < 60) then None
    else
      var today := Replaced(now, hour, minute);
      match day
      case Tomorrow => Some(today + DAY)
      case Daily => Some(if today > now then today else today + DAY)
      case Weekly =>
        if weekday.None? then Some(today)
        else
          var candidate := today + (weekday.value - Weekday(now)) % 7 * DAY;
          Some(if candidate <= now then candidate + WEEK else candidate)
      case Today => Some(today)
  }

  predicate AtClock(t: int, hour: int, minute: int) {
    TimeOfDay(t) == hour * HOUR + minute * MINUTE
  }

  /** In microseconds: the hour and minute of an instant say how far it lies behind a midnight, and
      midnights are 86400 seconds apart, the first on a Monday. */
  lemma ClockIs(t: int, hour: int, minute: int)
    requires 0 <= hour < 24 && 0 <= minute < 60
    ensures AtClock(t, hour, minute) <==>
              t == DayNumber(t) * 86_400_000_000 + hour * 3_600_000_000 + minute * 60_000_000
    ensures DayNumber(t) * 86_400_000_000 <= t < DayNumber(t) * 86_400_000_000 + 86_400_000_000
    ensures 0 <= Weekday(t) < 7 && (DayNumber(t) - Weekday(t)) % 7 == 0
  {
    Split(t);
  }

  lemma Split(t: int)
    ensures t == DayNumber(t) * DAY + TimeOfDay(t) && 0 <= TimeOfDay(t) < DAY
  {
  }

  lemma Join(d: int, time: int)
    requires 0 <= time < DAY
    ensures DayNumber(d * DAY + time) == d && TimeOfDay(d * DAY + time) == time
  {
    Split(d * DAY + time);
    var e := DayNumber(d * DAY + time);
    assert (d - e) * DAY == TimeOfDay(d * DAY + time) - time;
  }

  /** Two instants at the same time of day lie a whole number of days apart; on the same weekday,
      a whole number of weeks. */
  lemma SamePhase(t: int, r: int)
    requires TimeOfDay(t) == TimeOfDay(r) && t < r
    ensures t <= r - DAY
    ensures Weekday(t) == Weekday(r) ==> t <= r - WEEK
  {
    Split(t);
    Split(r);
    assert r - t == (DayNumber(r) - DayNumber(t)) * DAY;
  }

  /** A daily schedule yields the first instant after `now` at the wanted time. */
  lemma {:induction false} DailyIsLeast(hour: int, minute: int, now: int)
    requires 0 <= hour < 24 && 0 <= minute < 60
    ensures var r := ComputeNextRun(Daily, None, hour, minute, now).value;
            && now < r <= now + 86_400_000_000 && AtClock(r, hour, minute)
            && forall t :: now < t < r ==> !AtClock(t, hour, minute)
  {
    var time := hour * HOUR + minute * MINUTE;
    var r := ComputeNextRun(Daily, None, hour, minute, now).value;
    Split(now);
    Join(DayNumber(now), time);
    Join(DayNumber(now) + 1, time);
    forall t | now < t < r ensures !AtClock(t, hour, minute) {
      if AtClock(t, hour, minute) {
        SamePhase(t, r);
      }
    }
  }

  lemma DaysAhead(d: int, weekday: int)
    ensures var ahead := (weekday - d % 7) % 7; 0 <= ahead < 7 && (d + ahead) % 7 == weekday % 7
  {
  }

  /** The instant at `time` so many days ahead of day `d`. */
  lemma AtDay(d: int, ahead: int, weekday: int, hour: int, minute: int)
    requires 0 <= hour < 24 && 0 <= minute < 60 && (d + ahead) % 7 == weekday % 7
    ensures var r := (d + ahead) * DAY + (hour * HOUR + minute * MINUTE);
            AtClock(r, hour, minute) && Weekday(r) == weekday % 7
  {
    Join(d + ahead, hour * HOUR + minute * MINUTE);
  }

  /** The date arithmetic of a weekly schedule, in days. */
  lemma {:induction false} WeeklyHits(weekday: int, hour: int, minute: int, now: int)
    requires 0 <= hour < 24 && 0 <= minute < 60
    ensures var r := ComputeNextRun(Weekly, Some(weekday), hour, minute, now).value;
            now < r <= now + WEEK && AtClock(r, hour, minute) && Weekday(r) == weekday % 7
  {
    var d, ahead := DayNumber(now), (weekday - Weekday(now)) % 7;
    Split(now);
    DaysAhead(d, weekday);
    var candidate := (d + ahead) * DAY + (hour * HOUR + minute * MINUTE);
    assert candidate == Replaced(now, hour, minute) + ahead * DAY;
    if candidate <= now {
      AtDay(d, ahead + 7, weekday, hour, minute);
      assert (d + (ahead + 7)) * DAY + (hour * HOUR + minute * MINUTE) == candidate + WEEK;
    } else {
      AtDay(d, ahead, weekday, hour, minute);
    }
  }

  /** A weekly schedule yields the first instant after `now` at the wanted weekday and time. */
  lemma {:induction false} WeeklyIsLeast(weekday: int, hour: int, minute: int, now: int)
    requires 0 <= hour < 24 && 0 <= minute < 60
    ensures var r := ComputeNextRun(Weekly, Some(weekday), hour, minute, now).value;
            && now < r <= now + 7 * 86_400_000_000 && AtClock(r, hour, minute) && Weekday(r) == weekday % 7
            && forall t :: now < t < r ==> !(AtClock(t, hour, minute) && Weekday(t) == weekday % 7)
  {
    var r := ComputeNextRun(Weekly, Some(weekday), hour, minute, now).value;
    WeeklyHits(weekday, hour, minute, now);
    forall t | now < t < r ensures !(AtClock(t, hour, minute) && Weekday(t) == weekday % 7) {
      if AtClock(t, hour, minute) && Weekday(t) == weekday % 7 {
        SamePhase(t, r);
      }
    }
  }

  /** A one-shot for today can lie in the past, and does exactly when the wanted time of day is
      not later than the present one; tomorrow's never does. */
  lemma {:induction false} OneShots(weekday: Option<int>, hour: int, minute: int, now: int)
    requires 0 <= hour < 24 && 0 <= minute < 60
    ensures var today := ComputeNextRun(Today, weekday, hour, minute, now).value;
            && AtClock(today, hour, minute) && DayNumber(today) == DayNumber(now)
            && (today <= now <==> hour * HOUR + minute * MINUTE <= TimeOfDay(now))
    ensures var tomorrow := ComputeNextRun(Tomorrow, weekday, hour, minute, now).value;
            AtClock(tomorrow, hour, minute) && DayNumber(tomorrow) == DayNumber(now) + 1 && tomorrow > now
  {
    Split(now);
    Join(DayNumber(now), hour * HOUR + minute * MINUTE);
    Join(DayNumber(now) + 1, hour * HOUR + minute * MINUTE);
  }

  /** A time of day that does not exist is refused, and a weekly schedule without a weekday is one for
      today. */
  lemma Refused(day: Day, weekday: Option<int>, hour: int, minute: int, now: int)
    ensures ComputeNextRun(day, weekday, hour, minute, now).None? <==>
              hour < 0 || hour > 23 || minute < 0 || minute > 59
    ensures ComputeNextRun(Weekly, None, hour, minute, now) == ComputeNextRun(Today, None, hour, minute, now)
  {
  }

  // ----- Jobs -----

  datatype Repeat = Once | EachDay | EachWeek

  datatype Job = Job(id: string, message: string, nextRun: int, repeat: Repeat, weekday: Option<int>, chatId: string)

  function Period(repeat: Repeat): int {
    match repeat
    case Once => 0
    case EachDay => DAY
    case EachWeek => WEEK
  }

  /** `_next_after`. */
  function NextAfter(ts: int, repeat: Repeat): int {
    ts + Period(repeat)
  }

  /** Rescheduling any number of times keeps the time of day, and weekly also the weekday. */
  lemma {:induction false} RescheduleKeepsClock(ts: int, repeat: Repeat, n: nat)
    ensures TimeOfDay(ts + n * Period(repeat)) == TimeOfDay(ts)
    ensures repeat == EachWeek ==> Weekday(ts + n * Period(repeat)) == Weekday(ts)
  {
    Split(ts);
    match repeat
    case Once =>
    case EachDay =>
      Join(DayNumber(ts) + n, TimeOfDay(ts));
      assert ts + n * DAY == (DayNumber(ts) + n) * DAY + TimeOfDay(ts);
    case EachWeek =>
      Join(DayNumber(ts) + 7 * n, TimeOfDay(ts));
      assert ts + n * WEEK == (DayNumber(ts) + 7 * n) * DAY + TimeOfDay(ts);
  }

  /** The same clock time, and for a weekly schedule also the same weekday. */
  ghost predicate SameClock(t: int, u: int, repeat: Repeat) {
    TimeOfDay(t) == TimeOfDay(u) && (repeat == EachWeek ==> Weekday(t) == Weekday(u))
  }

  /** Rescheduling goes to the very next instant on the clock of the schedule. */
  lemma NextIsLeast(t: int, repeat: Repeat)
    requires repeat != Once
    ensures NextAfter(t, repeat) > t && SameClock(NextAfter(t, repeat), t, repeat)
    ensures forall u :: t < u < NextAfter(t, repeat) ==> !SameClock(u, t, repeat)
  {
    RescheduleKeepsClock(t, repeat, 1);
    forall u | t < u < NextAfter(t, repeat) ensures !SameClock(u, t, repeat) {
      if SameClock(u, t, repeat) {
        SamePhase(t, u);
      }
    }
  }

  /** It is the instant that the schedule itself would be given at that moment. */
  lemma NextIsComputed(t: int, hour: int, minute: int)
    requires 0 <= hour < 24 && 0 <= minute < 60 && AtClock(t, hour, minute)
    ensures ComputeNextRun(Daily, None, hour, minute, t) == Some(NextAfter(t, EachDay))
    ensures ComputeNextRun(Weekly, Some(Weekday(t)), hour, minute, t) == Some(NextAfter(t, EachWeek))
  {
    NextIsLeast(t, EachDay);
    DailyIsLeast(hour, minute, t);
    NextIsLeast(t, EachWeek);
    WeeklyIsLeast(Weekday(t), hour, minute, t);
  }

  /** The instants on the clock of the schedule are those so many periods on. */
  lemma {:induction false} PhaseSteps(first: int, t: int, repeat: Repeat) returns (k: nat)
    requires repeat != Once && first <= t && SameClock(t, first, repeat)
    ensures t == first + k * Period(repeat)
  {
    Split(t);
    Split(first);
    var days := DayNumber(t) - DayNumber(first);
    assert t - first == days * DAY && days >= 0;
    if repeat == EachDay {
      k := days;
    } else {
      assert days % 7 == 0;
      k := days / 7;
      assert days == 7 * k;
    }
  }

  function Due(jobs: seq<Job>, now: int): seq<Job> {
    if jobs == [] then []
    else if jobs[0].nextRun <= now then [jobs[0]] + Due(jobs[1..], now)
    else Due(jobs[1..], now)
  }

  function NotDue(jobs: seq<Job>, now: int): seq<Job> {
    if jobs == [] then []
    else if jobs[0].nextRun > now then [jobs[0]] + NotDue(jobs[1..], now)
    else NotDue(jobs[1..], now)
  }

  /** What is left of a due job: all of it if sending failed, the rescheduled job if it recurs. */
  function Settle(j: Job, sent: bool): seq<Job> {
    if !sent then [j]
    else if j.repeat == Once then []
    else [j.(nextRun := NextAfter(j.nextRun, j.repeat))]
  }

  /** Whether each send succeeds, by position among the due jobs. */
  type Sends = nat -> bool

  function SettleAll(due: seq<Job>, i: nat, sends: Sends): seq<Job>
    requires i <= |due|
    decreases |due| - i
  {
    if i == |due| then [] else Settle(due[i], sends(i)) + SettleAll(due, i + 1, sends)
  }

  /** The list after a poll: what is not due first, then what is left of the due jobs. */
  function AfterPoll(jobs: seq<Job>, now: int, sends: Sends): seq<Job> {
    NotDue(jobs, now) + SettleAll(Due(jobs, now), 0, sends)
  }

  /** A reminder sent; `saved` says whether the poll that sent it saved its list afterwards. */
  datatype Fire = Fire(id: string, scheduled: int, at: int, saved: bool)

  /** The reminders a poll delivers. */
  function Fires(due: seq<Job>, i: nat, sends: Sends, now: int, saved: bool): seq<Fire>
    requires i <= |due|
    decreases |due| - i
  {
    if i == |due| then []
    else if sends(i) then [Fire(due[i].id, due[i].nextRun, now, saved)] + Fires(due, i + 1, sends, now, saved)
    else Fires(due, i + 1, sends, now, saved)
  }

  function Without(jobs: seq<Job>, id: string): seq<Job> {
    if jobs == [] then []
    else if jobs[0].id != id then [jobs[0]] + Without(jobs[1..], id)
    else Without(jobs[1..], id)
  }

  function JobsOf(jobs: seq<Job>, id: string): seq<Job> {
    if jobs == [] then []
    else if jobs[0].id == id then [jobs[0]] + JobsOf(jobs[1..], id)
    else JobsOf(jobs[1..], id)
  }

  function FiresOf(fires: seq<Fire>, id: string): seq<Fire> {
    if fires == [] then []
    else if fires[0].id == id then [fires[0]] + FiresOf(fires[1..], id)
    else FiresOf(fires[1..], id)
  }

  // ----- Sizes: the final truncation drops nothing -----

  lemma {:induction false} DueSplits(jobs: seq<Job>, now: int)
    ensures |Due(jobs, now)| + |NotDue(jobs, now)| == |jobs|
  {
    if jobs == [] {
    } else {
      DueSplits(jobs[1..], now);
    }
  }

  lemma {:induction false} SettleShrinks(due: seq<Job>, i: nat, sends: Sends)
    requires i <= |due|
    ensures |SettleAll(due, i, sends)| <= |due| - i
    decreases |due| - i
  {
    if i == |due| {
    } else {
      SettleShrinks(due, i + 1, sends);
      var left, later := Settle(due[i], sends(i)), SettleAll(due, i + 1, sends);
      assert |left| <= 1 && SettleAll(due, i, sends) == left + later;
    }
  }

  lemma PollNeverGrows(jobs: seq<Job>, now: int, sends: Sends)
    ensures |AfterPoll(jobs, now, sends)| <= |jobs|
  {
    DueSplits(jobs, now);
    SettleShrinks(Due(jobs, now), 0, sends);
  }

  lemma {:induction false} WithoutShrinks(jobs: seq<Job>, id: string)
    ensures |Without(jobs, id)| + |JobsOf(jobs, id)| == |jobs|
    ensures JobsOf(jobs, id) == [] ==> Without(jobs, id) == jobs
  {
    if jobs == [] {
    } else {
      WithoutShrinks(jobs[1..], id);
    }
  }

  lemma {:induction false} NotDueConcat(a: seq<Job>, b: seq<Job>, now: int)
    ensures NotDue(a + b, now) == NotDue(a, now) + NotDue(b, now) && Due(a + b, now) == Due(a, now) + Due(b, now)
    ensures |a| == 1 ==> NotDue(a, now) == (if a[0].nextRun > now then a else []) && Due(a, now) == if a[0].nextRun > now then [] else a
  {
    if a == [] {
      assert a + b == b;
    } else {
      assert (a + b)[1..] == a[1..] + b;
      NotDueConcat(a[1..], b, now);
    }
  }

  /** The list after a poll: the jobs that were not due, in their order, and then what became of those
      that were, in theirs. */
  lemma PollOrder(jobs: seq<Job>, now: int, sends: Sends) returns (rest: seq<Job>)
    ensures AfterPoll(jobs, now, sends) == NotDue(jobs, now) + rest
    ensures Settles(Due(jobs, now), 0, sends, rest)
  {
    rest := SettleAll(Due(jobs, now), 0, sends);
    SettlesAll(Due(jobs, now), 0, sends);
  }

  /** One after the other: a job whose send failed stays, a one-shot that was sent goes, and a recurring
      one that was sent moves to the next instant on its clock. */
  ghost predicate Settles(due: seq<Job>, i: nat, sends: Sends, rest: seq<Job>)
    requires i <= |due|
    decreases |due| - i
  {
    if i == |due| then rest == []
    else if sends(i) && due[i].repeat == Once then Settles(due, i + 1, sends, rest)
    else
      && rest != [] && IsMoved([rest[0]], due[i]) && Settles(due, i + 1, sends, rest[1..])
      && (if sends(i) then IsNext(rest[0].nextRun, due[i].nextRun, due[i].repeat) else rest[0] == due[i])
  }

  /** The least later instant on the clock. */
  ghost predicate IsNext(next: int, t: int, repeat: Repeat) {
    next > t && SameClock(next, t, repeat) && forall u :: t < u < next ==> !SameClock(u, t, repeat)
  }

  lemma {:induction false} SettlesAll(due: seq<Job>, i: nat, sends: Sends)
    requires i <= |due|
    ensures Settles(due, i, sends, SettleAll(due, i, sends))
    decreases |due| - i
  {
    if i < |due| {
      SettlesAll(due, i + 1, sends);
      var j, later := due[i], SettleAll(due, i + 1, sends);
      if sends(i) && j.repeat == Once {
        assert SettleAll(due, i, sends) == [] + later == later;
      } else {
        if sends(i) {
          NextIsLeast(j.nextRun, j.repeat);
        }
        var first := Settle(j, sends(i))[0];
        assert SettleAll(due, i, sends) == [first] + later && ([first] + later)[1..] == later;
      }
    }
  }

  // ----- One job through a poll -----

  lemma {:induction false} JobsOfAppend(a: seq<Job>, b: seq<Job>, id: string)
    ensures JobsOf(a + b, id) == JobsOf(a, id) + JobsOf(b, id)
  {
    if a == [] {
      assert a + b == b;
    } else {
      assert (a + b)[1..] == a[1..] + b;
      JobsOfAppend(a[1..], b, id);
    }
  }

  lemma {:induction false} FiresOfAppend(a: seq<Fire>, b: seq<Fire>, id: string)
    ensures FiresOf(a + b, id) == FiresOf(a, id) + FiresOf(b, id)
  {
    if a == [] {
      assert a + b == b;
    } else {
      assert (a + b)[1..] == a[1..] + b;
      FiresOfAppend(a[1..], b, id);
    }
  }

  lemma {:induction false} DueOf(jobs: seq<Job>, now: int, id: string)
    ensures JobsOf(Due(jobs, now), id) == Due(JobsOf(jobs, id), now)
    ensures JobsOf(NotDue(jobs, now), id) == NotDue(JobsOf(jobs, id), now)
  {
    if jobs == [] {
    } else {
      var head, rest := jobs[0], jobs[1..];
      DueOf(rest, now, id);
      assert ([head] + Due(rest, now))[1..] == Due(rest, now);
      assert ([head] + NotDue(rest, now))[1..] == NotDue(rest, now);
      assert ([head] + JobsOf(rest, id))[1..] == JobsOf(rest, id);
    }
  }

  lemma {:induction false} WithoutOther(jobs: seq<Job>, other: string, id: string)
    requires other != id
    ensures JobsOf(Without(jobs, other), id) == JobsOf(jobs, id)
  {
    if jobs == [] {
    } else {
      WithoutOther(jobs[1..], other, id);
      assert ([jobs[0]] + Without(jobs[1..], other))[1..] == Without(jobs[1..], other);
    }
  }

  /** Some due job with this id, from position `i` on, is sent. */
  predicate SentFrom(due: seq<Job>, i: nat, sends: Sends, id: string) {
    exists k :: i <= k < |due| && due[k].id == id && sends(k)
  }

  /** The poll delivers a reminder of this id. */
  predicate Delivers(jobs: seq<Job>, now: int, sends: Sends, id: string) {
    SentFrom(Due(jobs, now), 0, sends, id)
  }

  lemma SentFromStep(due: seq<Job>, i: nat, sends: Sends, id: string)
    requires i < |due|
    ensures SentFrom(due, i, sends, id) == ((due[i].id == id && sends(i)) || SentFrom(due, i + 1, sends, id))
  {
  }

  lemma {:induction false} NoneToSend(due: seq<Job>, i: nat, sends: Sends, id: string)
    requires i <= |due| && JobsOf(due[i..], id) == []
    ensures !SentFrom(due, i, sends, id)
    decreases |due| - i
  {
    if i == |due| {
    } else {
      assert due[i..][1..] == due[i + 1..];
      NoneToSend(due, i + 1, sends, id);
      SentFromStep(due, i, sends, id);
    }
  }

  /** When all sends succeed, a due job is sent. */
  lemma {:induction false} AllToSend(due: seq<Job>, i: nat, sends: Sends, id: string)
    requires i <= |due| && JobsOf(due[i..], id) != [] && forall k :: i <= k < |due| ==> sends(k)
    ensures SentFrom(due, i, sends, id)
    decreases |due| - i
  {
    if i < |due| && due[i].id != id {
      assert due[i..][1..] == due[i + 1..];
      AllToSend(due, i + 1, sends, id);
    }
  }

  lemma {:induction false} SettleNone(due: seq<Job>, i: nat, sends: Sends, now: int, saved: bool, id: string)
    requires i <= |due| && JobsOf(due[i..], id) == []
    ensures JobsOf(SettleAll(due, i, sends), id) == [] && FiresOf(Fires(due, i, sends, now, saved), id) == []
    decreases |due| - i
  {
    if i < |due| {
      assert due[i..][1..] == due[i + 1..];
      SettleNone(due, i + 1, sends, now, saved, id);
      JobsOfAppend(Settle(due[i], sends(i)), SettleAll(due, i + 1, sends), id);
    }
  }

  /** The due jobs of one id settle on their own: those of other ids do not matter, and when there
      is only one it settles as its own send went. */
  lemma {:induction false} SettleOne(due: seq<Job>, i: nat, sends: Sends, now: int, saved: bool, id: string)
    requires i <= |due| && |JobsOf(due[i..], id)| == 1
    ensures var j, sent := JobsOf(due[i..], id)[0], SentFrom(due, i, sends, id);
            && JobsOf(SettleAll(due, i, sends), id) == Settle(j, sent)
            && FiresOf(Fires(due, i, sends, now, saved), id) == if sent then [Fire(id, j.nextRun, now, saved)] else []
    decreases |due| - i
  {
    assert due[i..][1..] == due[i + 1..];
    SentFromStep(due, i, sends, id);
    SettleSplits(due, i, sends, now, saved, id);
    if due[i].id == id {
      SettleNone(due, i + 1, sends, now, saved, id);
      NoneToSend(due, i + 1, sends, id);
    } else {
      SettleOne(due, i + 1, sends, now, saved, id);
    }
  }

  /** What the first due job adds to the jobs and the reminders of an id. */
  lemma SettleSplits(due: seq<Job>, i: nat, sends: Sends, now: int, saved: bool, id: string)
    requires i < |due|
    ensures JobsOf(SettleAll(due, i, sends), id)
         == (if due[i].id == id then Settle(due[i], sends(i)) else []) + JobsOf(SettleAll(due, i + 1, sends), id)
    ensures FiresOf(Fires(due, i, sends, now, saved), id)
         == (if due[i].id == id && sends(i) then [Fire(id, due[i].nextRun, now, saved)] else [])
            + FiresOf(Fires(due, i + 1, sends, now, saved), id)
  {
    JobsOfAppend(Settle(due[i], sends(i)), SettleAll(due, i + 1, sends), id);
  }

  /** A poll and the one job of some id: left alone while not due, and settled once when due, as
      its send went. */
  lemma PollOne(jobs: seq<Job>, now: int, sends: Sends, saved: bool, j: Job)
    requires JobsOf(jobs, j.id) == [j]
    ensures j.nextRun > now ==> !Delivers(jobs, now, sends, j.id)
    ensures j.nextRun <= now && (forall k :: 0 <= k < |Due(jobs, now)| ==> sends(k)) ==> Delivers(jobs, now, sends, j.id)
    ensures var sent := Delivers(jobs, now, sends, j.id);
            && JobsOf(AfterPoll(jobs, now, sends), j.id) == Settle(j, sent)
            && FiresOf(Fires(Due(jobs, now), 0, sends, now, saved), j.id) == if sent then [Fire(j.id, j.nextRun, now, saved)] else []
  {
    var due := Due(jobs, now);
    DueOf(jobs, now, j.id);
    JobsOfAppend(NotDue(jobs, now), SettleAll(due, 0, sends), j.id);
    assert due[0..] == due;
    if j.nextRun > now {
      SettleNone(due, 0, sends, now, saved, j.id);
      NoneToSend(due, 0, sends, j.id);
    } else {
      SettleOne(due, 0, sends, now, saved, j.id);
    }
    if j.nextRun <= now && forall k :: 0 <= k < |due| ==> sends(k) {
      AllToSend(due, 0, sends, j.id);
    }
  }

  lemma PollNone(jobs: seq<Job>, now: int, sends: Sends, saved: bool, id: string)
    requires JobsOf(jobs, id) == []
    ensures JobsOf(AfterPoll(jobs, now, sends), id) == []
    ensures FiresOf(Fires(Due(jobs, now), 0, sends, now, saved), id) == [] && !Delivers(jobs, now, sends, id)
  {
    var due := Due(jobs, now);
    DueOf(jobs, now, id);
    JobsOfAppend(NotDue(jobs, now), SettleAll(due, 0, sends), id);
    assert due[0..] == due;
    SettleNone(due, 0, sends, now, saved, id);
    NoneToSend(due, 0, sends, id);
  }

  /** The number of reminders sent is the number of due jobs exactly when no send fails. */
  lemma {:induction false} AllSent(due: seq<Job>, i: nat, sends: Sends, now: int, saved: bool)
    requires i <= |due|
    ensures |Fires(due, i, sends, now, saved)| <= |due| - i
    ensures |Fires(due, i, sends, now, saved)| == |due| - i <==> forall k :: i <= k < |due| ==> sends(k)
    decreases |due| - i
  {
    if i < |due| {
      AllSent(due, i + 1, sends, now, saved);
    }
  }

  // ----- Whole runs -----

  /** An operation, with which of its reads and writes of the stored list succeed. */
  datatype Op =
    | Poll(now: int, sends: Sends, readable: bool, writable: bool)
    | Add(job: Job, readable: bool, writable: bool)
    | Delete(id: string, first: bool, second: bool, writable: bool)

  datatype State = State(jobs: seq<Job>, fires: seq<Fire>, now: int)

  /** What a read finds: a list that cannot be read counts as empty. */
  function Seen(jobs: seq<Job>, readable: bool): seq<Job> {
    if readable then jobs else []
  }

  function Apply(st: State, op: Op): State {
    match op
    case Poll(now, sends, readable, writable) =>
      var list := Seen(st.jobs, readable);
      var after := AfterPoll(list, now, sends);
      State(if Due(list, now) != [] && writable then after[..Min(|after|, MAX_JOBS)] else st.jobs,
            st.fires + Fires(Due(list, now), 0, sends, now, writable), now)
    case Add(job, readable, writable) =>
      if |Seen(st.jobs, readable)| >= MAX_JOBS || !writable then st else st.(jobs := Seen(st.jobs, readable) + [job])
    case Delete(id, first, second, writable) =>
      var kept := Without(Seen(st.jobs, first), id);
      if |kept| == |Seen(st.jobs, second)| || !writable then st else st.(jobs := kept)
  }

  function ApplyAll(st: State, ops: seq<Op>): State {
    Fold(Apply, st, ops)
  }

  /** The clock never runs backwards over the polls. */
  ghost predicate Chronological(start: int, ops: seq<Op>) {
    && (forall i :: 0 <= i < |ops| && ops[i].Poll? ==> start <= ops[i].now)
    && forall i, k :: 0 <= i < k < |ops| && ops[i].Poll? && ops[k].Poll? ==> ops[i].now <= ops[k].now
  }

  predicate Spares(op: Op, id: string) {
    (op.Add? ==> op.job.id != id) && (op.Delete? ==> op.id != id)
  }

  /** Nobody else adds or deletes jobs with this id. */
  ghost predicate LeavesAlone(ops: seq<Op>, id: string) {
    forall i :: 0 <= i < |ops| ==> Spares(ops[i], id)
  }

  /** An operation that writes back a list it could not read. */
  predicate Wipes(op: Op) {
    match op
    case Poll(_, _, _, _) => false
    case Add(_, readable, writable) => !readable && writable
    case Delete(_, first, second, writable) => !first && second && writable
  }

  ghost predicate NoneWipes(ops: seq<Op>) {
    forall i :: 0 <= i < |ops| ==> !Wipes(ops[i])
  }

  /** The stored list never exceeds its limit, so cutting it to the limit drops nothing. */
  lemma StepLimit(st: State, op: Op)
    requires |st.jobs| <= MAX_JOBS
    ensures |Apply(st, op).jobs| <= MAX_JOBS
    ensures op.Poll? ==>
              Apply(st, op).jobs == if op.readable && op.writable then AfterPoll(st.jobs, op.now, op.sends) else st.jobs
  {
    match op
    case Poll(now, sends, readable, writable) =>
      PollNeverGrows(st.jobs, now, sends);
      if Due(st.jobs, now) == [] {
        AllKept(st.jobs, now);
        assert AfterPoll(st.jobs, now, sends) == NotDue(st.jobs, now);
      }
    case Add(_, _, _) =>
    case Delete(id, first, _, _) => WithoutShrinks(Seen(st.jobs, first), id);
  }

  lemma {:induction false} LimitKept(st: State, ops: seq<Op>)
    requires |st.jobs| <= 50
    ensures |ApplyAll(st, ops).jobs| <= 50
    ensures ops != [] && ops[|ops| - 1].Poll? ==>
              var before, op := ApplyAll(st, ops[..|ops| - 1]), ops[|ops| - 1];
              ApplyAll(st, ops).jobs
              == if op.readable && op.writable then AfterPoll(before.jobs, op.now, op.sends) else before.jobs
  {
    if ops == [] {
    } else {
      LimitKept(st, ops[..|ops| - 1]);
      StepLimit(ApplyAll(st, ops[..|ops| - 1]), ops[|ops| - 1]);
    }
  }

  lemma {:induction false} ClockBounded(st: State, ops: seq<Op>, later: int)
    requires st.now <= later && forall i :: 0 <= i < |ops| && ops[i].Poll? ==> ops[i].now <= later
    ensures ApplyAll(st, ops).now <= later
  {
    if ops == [] {
    } else {
      ClockBounded(st, ops[..|ops| - 1], later);
    }
  }

  // ----- One id through an operation -----

  /** The operation is a poll that sends a reminder of this id. */
  predicate Reminds(st: State, op: Op, id: string) {
    op.Poll? && op.readable && Delivers(st.jobs, op.now, op.sends, id)
  }

  /** What an operation that is no poll leaves of the jobs of another id: all, or nothing if it
      wipes the list. */
  lemma StepOther(st: State, op: Op, id: string)
    requires Spares(op, id) && !op.Poll?
    ensures JobsOf(Apply(st, op).jobs, id) == if Wipes(op) then [] else JobsOf(st.jobs, id)
    ensures Apply(st, op).fires == st.fires
  {
    match op
    case Add(job, readable, _) => JobsOfAppend(Seen(st.jobs, readable), [job], id);
    case Delete(other, first, _, _) =>
      WithoutOther(Seen(st.jobs, first), other, id);
      WithoutShrinks(Seen(st.jobs, first), other);
  }

  /** The one job of an id through a poll: it settles if the list is saved, and stays if not. */
  lemma StepPoll(st: State, op: Op, j: Job)
    requires |st.jobs| <= MAX_JOBS && op.Poll? && JobsOf(st.jobs, j.id) == [j]
    ensures j.nextRun > op.now ==> !Reminds(st, op, j.id)
    ensures j.nextRun <= op.now && op.readable && (forall k :: 0 <= k < MAX_JOBS ==> op.sends(k)) ==> Reminds(st, op, j.id)
    ensures var sent := Reminds(st, op, j.id);
            && JobsOf(Apply(st, op).jobs, j.id) == (if op.writable then Settle(j, sent) else [j])
            && FiresOf(Apply(st, op).fires, j.id)
               == FiresOf(st.fires, j.id) + if sent then [Fire(j.id, j.nextRun, op.now, op.writable)] else []
  {
    StepLimit(st, op);
    var fires := Fires(Due(Seen(st.jobs, op.readable), op.now), 0, op.sends, op.now, op.writable);
    FiresOfAppend(st.fires, fires, j.id);
    if op.readable {
      DueSplits(st.jobs, op.now);
      PollOne(st.jobs, op.now, op.sends, op.writable, j);
    } else {
      assert Settle(j, false) == [j];
    }
  }

  lemma StepPollNone(st: State, op: Op, id: string)
    requires |st.jobs| <= MAX_JOBS && op.Poll? && JobsOf(st.jobs, id) == []
    ensures JobsOf(Apply(st, op).jobs, id) == [] && FiresOf(Apply(st, op).fires, id) == FiresOf(st.fires, id)
    ensures !Reminds(st, op, id)
  {
    StepLimit(st, op);
    var fires := Fires(Due(Seen(st.jobs, op.readable), op.now), 0, op.sends, op.now, op.writable);
    FiresOfAppend(st.fires, fires, id);
    PollNone(st.jobs, op.now, op.sends, op.writable, id);
  }

  // ----- Recurring jobs -----

  /** How many of these reminders were followed by a save. */
  function Settled(fires: seq<Fire>): (r: nat)
    ensures r <= |fires|
  {
    if fires == [] then 0 else Settled(fires[..|fires| - 1]) + if fires[|fires| - 1].saved then 1 else 0
  }

  lemma SettledOneMore(fires: seq<Fire>, fire: Fire)
    ensures Settled(fires + [fire]) == Settled(fires) + if fire.saved then 1 else 0
  {
    assert (fires + [fire])[..|fires|] == fires;
  }

  /** The reminders of a recurring job, in the order they were sent: the scheduled instants from the
      first on, one period apart, none before its instant; an instant comes again until a save
      follows its reminder, and then never. */
  ghost predicate OnSchedule(fires: seq<Fire>, first: int, period: int, now: int) {
    forall i :: 0 <= i < |fires| ==>
      fires[i].scheduled == first + Settled(fires[..i]) * period && fires[i].scheduled <= fires[i].at <= now
  }

  ghost predicate TracksOne(mine: seq<Job>, sent: seq<Fire>, job: Job, now: int) {
    && mine == [job.(nextRun := job.nextRun + Settled(sent) * Period(job.repeat))]
    && OnSchedule(sent, job.nextRun, Period(job.repeat), now)
  }

  /** The one job with this id is `job`, moved on by one period for each reminder that was followed
      by a save. */
  ghost predicate Tracks(st: State, job: Job) {
    |st.jobs| <= MAX_JOBS && TracksOne(JobsOf(st.jobs, job.id), FiresOf(st.fires, job.id), job, st.now)
  }

  lemma ScheduleExtends(fires: seq<Fire>, fire: Fire, first: int, period: int, now: int)
    requires OnSchedule(fires, first, period, now) && now <= fire.at
    requires fire.scheduled == first + Settled(fires) * period <= fire.at
    ensures OnSchedule(fires + [fire], first, period, fire.at)
  {
    var more := fires + [fire];
    forall i | 0 <= i < |more|
      ensures more[i].scheduled == first + Settled(more[..i]) * period && more[i].scheduled <= more[i].at <= fire.at
    {
      assert more[..i] == fires[..i];
    }
  }

  lemma OneMoreTime(n: int, period: int)
    ensures (n + 1) * period == n * period + period
  {
  }

  lemma ScheduleGrows(fires: seq<Fire>, fire: Fire, first: int, period: int, now: int)
    requires OnSchedule(fires, first, period, now) && now <= fire.at
    requires fire.scheduled == first + Settled(fires) * period <= fire.at
    ensures OnSchedule(fires + [fire], first, period, fire.at)
    ensures first + Settled(fires + [fire]) * period == fire.scheduled + if fire.saved then period else 0
  {
    ScheduleExtends(fires, fire, first, period, now);
    SettledOneMore(fires, fire);
    OneMoreTime(Settled(fires), period);
  }

  /** `after` is what a poll at `at` makes of the one job with this id, which stood at `current`. */
  ghost predicate Polled(st: State, after: State, current: Job, at: int, sent: bool, saved: bool) {
    && |after.jobs| <= MAX_JOBS && after.now == at
    && JobsOf(after.jobs, current.id) == (if saved then Settle(current, sent) else [current])
    && FiresOf(after.fires, current.id)
       == FiresOf(st.fires, current.id) + (if sent then [Fire(current.id, current.nextRun, at, saved)] else [])
    && (sent ==> current.nextRun <= at)
  }

  lemma PollIsPolled(st: State, op: Op, current: Job)
    requires |st.jobs| <= MAX_JOBS && op.Poll? && JobsOf(st.jobs, current.id) == [current]
    ensures Polled(st, Apply(st, op), current, op.now, Reminds(st, op, current.id), op.writable)
  {
    StepLimit(st, op);
    StepPoll(st, op, current);
  }

  lemma SentTracks(job: Job, current: Job, sofar: seq<Fire>, fire: Fire, now: int)
    requires job.repeat != Once && now <= fire.at && TracksOne([current], sofar, job, now)
    requires fire.id == job.id && fire.scheduled == current.nextRun <= fire.at
    ensures TracksOne(if fire.saved then Settle(current, true) else [current], sofar + [fire], job, fire.at)
  {
    ScheduleGrows(sofar, fire, job.nextRun, Period(job.repeat), now);
    MovedOn(job, current, Settled(sofar + [fire]), fire.saved);
  }

  lemma UnsentTracks(job: Job, current: Job, sofar: seq<Fire>, now: int, at: int)
    requires now <= at && TracksOne([current], sofar, job, now)
    ensures TracksOne([current], sofar + [], job, at)
  {
    assert sofar + [] == sofar;
  }

  /** A recurring job and its reminders through a poll. */
  lemma SettleTracks(job: Job, current: Job, sofar: seq<Fire>, now: int, at: int, sent: bool, saved: bool)
    requires job.repeat != Once && now <= at && (sent ==> current.nextRun <= at) && TracksOne([current], sofar, job, now)
    ensures TracksOne(if saved then Settle(current, sent) else [current],
                      sofar + if sent then [Fire(job.id, current.nextRun, at, saved)] else [], job, at)
  {
    if sent {
      SentTracks(job, current, sofar, Fire(job.id, current.nextRun, at, saved), now);
    } else {
      UnsentTracks(job, current, sofar, now, at);
    }
  }

  lemma MovedOn(job: Job, current: Job, done: nat, saved: bool)
    requires job.repeat != Once && current == job.(nextRun := current.nextRun)
    requires job.nextRun + done * Period(job.repeat) == current.nextRun + if saved then Period(job.repeat) else 0
    ensures (if saved then Settle(current, true) else [current]) == [job.(nextRun := job.nextRun + done * Period(job.repeat))]
  {
  }

  lemma PolledTracks(st: State, after: State, job: Job, at: int, sent: bool, saved: bool)
    requires Tracks(st, job) && job.repeat != Once && st.now <= at
    requires Polled(st, after, JobsOf(st.jobs, job.id)[0], at, sent, saved)
    ensures Tracks(after, job)
  {
    SettleTracks(job, JobsOf(st.jobs, job.id)[0], FiresOf(st.fires, job.id), st.now, at, sent, saved);
  }

  lemma StepTracks(st: State, op: Op, job: Job)
    requires Tracks(st, job) && job.repeat != Once && Spares(op, job.id) && !Wipes(op) && (op.Poll? ==> st.now <= op.now)
    ensures Tracks(Apply(st, op), job)
  {
    if op.Poll? {
      PollIsPolled(st, op, JobsOf(st.jobs, job.id)[0]);
      PolledTracks(st, Apply(st, op), job, op.now, Reminds(st, op, job.id), op.writable);
    } else {
      StepLimit(st, op);
      StepOther(st, op, job.id);
    }
  }

  lemma {:induction false} RecurringInvariant(st: State, ops: seq<Op>, job: Job)
    requires |st.jobs| <= MAX_JOBS && Chronological(st.now, ops) && LeavesAlone(ops, job.id) && NoneWipes(ops)
    requires job.repeat != Once && JobsOf(st.jobs, job.id) == [job] && FiresOf(st.fires, job.id) == []
    ensures Tracks(ApplyAll(st, ops), job)
  {
    if ops == [] {
      assert job.(nextRun := job.nextRun + 0 * Period(job.repeat)) == job;
    } else {
      var front, op := ops[..|ops| - 1], ops[|ops| - 1];
      RecurringInvariant(st, front, job);
      if op.Poll? {
        ClockBounded(st, front, op.now);
      }
      StepTracks(ApplyAll(st, front), op, job);
    }
  }

  lemma RecurringInSteps(st: State, ops: seq<Op>, job: Job)
    requires |st.jobs| <= MAX_JOBS && Chronological(st.now, ops) && LeavesAlone(ops, job.id) && NoneWipes(ops)
    requires job.repeat != Once && JobsOf(st.jobs, job.id) == [job] && FiresOf(st.fires, job.id) == []
    ensures var end := ApplyAll(st, ops);
            TracksOne(JobsOf(end.jobs, job.id), FiresOf(end.fires, job.id), job, end.now)
  {
    RecurringInvariant(st, ops, job);
  }

  /** Some reminder of this instant was followed by a save. */
  predicate Done(fires: seq<Fire>, t: int) {
    exists i :: 0 <= i < |fires| && fires[i].saved && fires[i].scheduled == t
  }

  lemma {:induction false} SettledAt(fires: seq<Fire>, k: nat) returns (i: nat)
    requires k < Settled(fires)
    ensures i < |fires| && fires[i].saved && Settled(fires[..i]) == k
  {
    var n := |fires| - 1;
    if fires[n].saved && Settled(fires[..n]) == k {
      i := n;
    } else {
      i := SettledAt(fires[..n], k);
      assert fires[..n][..i] == fires[..i];
    }
  }

  lemma {:induction false} SettledUpTo(fires: seq<Fire>, i: nat, k: nat)
    requires i < k <= |fires|
    ensures Settled(fires[..i]) + (if fires[i].saved then 1 else 0) <= Settled(fires[..k])
  {
    var front := fires[..k];
    assert front[..|front| - 1] == fires[..k - 1];
    if i < k - 1 {
      SettledUpTo(fires, i, k - 1);
    }
  }

  lemma Grows(first: int, a: nat, b: nat, period: int)
    requires period > 0 && a < b
    ensures first + a * period < first + b * period
  {
    assert (b - a) * period > 0;
    assert b * period == a * period + (b - a) * period;
  }

  /** A reminder on a schedule, and where its instant lies. */
  lemma ScheduledAt(fires: seq<Fire>, first: int, repeat: Repeat, now: int, i: nat)
    requires repeat != Once && OnSchedule(fires, first, Period(repeat), now) && i < |fires|
    ensures first <= fires[i].scheduled <= fires[i].at <= now && SameClock(fires[i].scheduled, first, repeat)
    ensures fires[i].saved ==> fires[i].scheduled < first + Settled(fires) * Period(repeat)
  {
    RescheduleKeepsClock(first, repeat, Settled(fires[..i]));
    MoreTakesLonger(0, Settled(fires[..i]), Period(repeat));
    if fires[i].saved {
      SettledUpTo(fires, i, |fires|);
      assert fires[..|fires|] == fires;
      Grows(first, Settled(fires[..i]), Settled(fires), Period(repeat));
    }
  }

  lemma OnClockIsDone(fires: seq<Fire>, first: int, repeat: Repeat, now: int, t: int)
    requires repeat != Once && OnSchedule(fires, first, Period(repeat), now)
    requires first <= t < first + Settled(fires) * Period(repeat) && SameClock(t, first, repeat)
    ensures Done(fires, t)
  {
    var k := PhaseSteps(first, t, repeat);
    if k >= Settled(fires) {
      MoreTakesLonger(Settled(fires), k, Period(repeat));
    } else {
      var i := SettledAt(fires, k);
      assert fires[i].scheduled == t;
    }
  }

  /** On a schedule, the instants done with are exactly those on its clock up to the next one. */
  lemma DoneIff(fires: seq<Fire>, first: int, next: int, repeat: Repeat, now: int, t: int)
    requires repeat != Once && OnSchedule(fires, first, Period(repeat), now) && next == first + Settled(fires) * Period(repeat)
    ensures Done(fires, t) <==> first <= t < next && SameClock(t, first, repeat)
    ensures Done(fires, t) ==> t <= now
  {
    if i :| 0 <= i < |fires| && fires[i].saved && fires[i].scheduled == t {
      ScheduledAt(fires, first, repeat, now, i);
    }
    if first <= t < next && SameClock(t, first, repeat) {
      OnClockIsDone(fires, first, repeat, now, t);
    }
  }

  /** Two reminders of a schedule: the later is not of an earlier instant, and of a later one if a
      save followed the earlier. */
  lemma ScheduleAscends(fires: seq<Fire>, first: int, period: int, now: int, i: nat, k: nat)
    requires period > 0 && OnSchedule(fires, first, period, now) && i < k < |fires|
    ensures fires[i].scheduled <= fires[k].scheduled && (fires[i].saved ==> fires[i].scheduled < fires[k].scheduled)
  {
    SettledUpTo(fires, i, k);
    MoreTakesLonger(Settled(fires[..i]), Settled(fires[..k]), period);
    if fires[i].saved {
      Grows(first, Settled(fires[..i]), Settled(fires[..k]), period);
    }
  }

  /** Each reminder is of an instant on the clock of the schedule, and none is early. */
  ghost predicate OnItsClock(sent: seq<Fire>, first: int, repeat: Repeat, now: int) {
    forall i :: 0 <= i < |sent| ==>
      first <= sent[i].scheduled <= sent[i].at <= now && SameClock(sent[i].scheduled, first, repeat)
  }

  /** The instants come in order, and none again once a save followed it. */
  ghost predicate InItsOrder(sent: seq<Fire>) {
    forall i, k :: 0 <= i < k < |sent| ==>
      sent[i].scheduled <= sent[k].scheduled && (sent[i].saved ==> sent[i].scheduled < sent[k].scheduled)
  }

  /** The instants done with are all those on the clock from the first to `last`. */
  ghost predicate DoneThrough(sent: seq<Fire>, first: int, last: int, repeat: Repeat) {
    forall t :: Done(sent, t) <==> first <= t <= last && SameClock(t, first, repeat)
  }

  /** The reminders of a recurring job first due at `first`, when it stands at `next`: all instants on
      its clock before `next` are done with, and if it is not due, all up to now. */
  ghost predicate Exact(sent: seq<Fire>, first: int, next: int, repeat: Repeat, now: int) {
    && first <= next && SameClock(next, first, repeat)
    && OnItsClock(sent, first, repeat, now) && InItsOrder(sent)
    && DoneThrough(sent, first, next - 1, repeat)
    && (next > now ==> DoneThrough(sent, first, now, repeat))
  }

  lemma ScheduleOnItsClock(sent: seq<Fire>, first: int, repeat: Repeat, now: int)
    requires repeat != Once && OnSchedule(sent, first, Period(repeat), now)
    ensures OnItsClock(sent, first, repeat, now)
  {
    forall i | 0 <= i < |sent|
      ensures first <= sent[i].scheduled <= sent[i].at <= now && SameClock(sent[i].scheduled, first, repeat)
    {
      ScheduledAt(sent, first, repeat, now, i);
    }
  }

  lemma ScheduleInItsOrder(sent: seq<Fire>, first: int, period: int, now: int)
    requires period > 0 && OnSchedule(sent, first, period, now)
    ensures InItsOrder(sent)
  {
    forall i, k | 0 <= i < k < |sent|
      ensures sent[i].scheduled <= sent[k].scheduled && (sent[i].saved ==> sent[i].scheduled < sent[k].scheduled)
    {
      ScheduleAscends(sent, first, period, now, i, k);
    }
  }

  lemma ScheduleDone(sent: seq<Fire>, first: int, next: int, repeat: Repeat, now: int)
    requires repeat != Once && OnSchedule(sent, first, Period(repeat), now) && next == first + Settled(sent) * Period(repeat)
    ensures DoneThrough(sent, first, next - 1, repeat)
    ensures next > now ==> DoneThrough(sent, first, now, repeat)
  {
    forall t
      ensures Done(sent, t) <==> first <= t <= next - 1 && SameClock(t, first, repeat)
      ensures Done(sent, t) ==> t <= now
    {
      DoneIff(sent, first, next, repeat, now, t);
    }
  }

  lemma NextOnItsClock(first: int, repeat: Repeat, n: nat)
    ensures var next := first + n * Period(repeat); first <= next && SameClock(next, first, repeat)
  {
    RescheduleKeepsClock(first, repeat, n);
    MoreTakesLonger(0, n, Period(repeat));
  }

  lemma StandsExact(mine: seq<Job>, sent: seq<Fire>, job: Job, now: int)
    requires job.repeat != Once && TracksOne(mine, sent, job, now)
    ensures IsMoved(mine, job) && Exact(sent, job.nextRun, mine[0].nextRun, job.repeat, now)
  {
    var first, period := job.nextRun, Period(job.repeat);
    NextOnItsClock(first, job.repeat, Settled(sent));
    ScheduleOnItsClock(sent, first, job.repeat, now);
    ScheduleInItsOrder(sent, first, period, now);
    ScheduleDone(sent, first, first + Settled(sent) * period, job.repeat, now);
  }

  /** Recurring reminders are exact.  Over any chronological run that does not wipe the list,
      whatever else is added or deleted and whichever sends, reads and saves fail, the job stays,
      moved along its clock only, and its reminders are exact in the sense above, the instants missed
      during a downtime included. */
  lemma RecurringIsExact(st: State, ops: seq<Op>, job: Job)
    requires |st.jobs| <= MAX_JOBS && Chronological(st.now, ops) && LeavesAlone(ops, job.id) && NoneWipes(ops)
    requires job.repeat != Once && JobsOf(st.jobs, job.id) == [job] && FiresOf(st.fires, job.id) == []
    ensures var end := ApplyAll(st, ops);
            && IsMoved(JobsOf(end.jobs, job.id), job)
            && Exact(FiresOf(end.fires, job.id), job.nextRun, JobsOf(end.jobs, job.id)[0].nextRun, job.repeat, end.now)
  {
    RecurringInSteps(st, ops, job);
    var end := ApplyAll(st, ops);
    StandsExact(JobsOf(end.jobs, job.id), FiresOf(end.fires, job.id), job, end.now);
  }

  /** The job alone, possibly at another instant. */
  predicate IsMoved(mine: seq<Job>, job: Job) {
    |mine| == 1 && mine[0] == job.(nextRun := mine[0].nextRun)
  }

  /** A recurring job is lost in a run if and only if some operation wipes the list. */
  lemma {:induction false} LostIffWiped(st: State, ops: seq<Op>, job: Job)
    requires |st.jobs| <= MAX_JOBS && LeavesAlone(ops, job.id)
    requires job.repeat != Once && JobsOf(st.jobs, job.id) == [job]
    ensures var left := JobsOf(ApplyAll(st, ops).jobs, job.id); if NoneWipes(ops) then IsMoved(left, job) else left == []
  {
    if ops == [] {
    } else {
      var front, op := ops[..|ops| - 1], ops[|ops| - 1];
      LostIffWiped(st, front, job);
      LimitKept(st, front);
      LostStep(ApplyAll(st, front), op, job);
      assert NoneWipes(ops) <==> NoneWipes(front) && !Wipes(op);
    }
  }

  lemma LostStep(st: State, op: Op, job: Job)
    requires |st.jobs| <= MAX_JOBS && Spares(op, job.id) && job.repeat != Once
    requires JobsOf(st.jobs, job.id) == [] || IsMoved(JobsOf(st.jobs, job.id), job)
    ensures var left := JobsOf(Apply(st, op).jobs, job.id);
            if JobsOf(st.jobs, job.id) == [] || Wipes(op) then left == [] else IsMoved(left, job)
  {
    if !op.Poll? {
      StepOther(st, op, job.id);
    } else if JobsOf(st.jobs, job.id) == [] {
      StepPollNone(st, op, job.id);
    } else {
      StepPoll(st, op, JobsOf(st.jobs, job.id)[0]);
    }
  }

  // ----- One-shots -----

  /** All of these are reminders of this instant, none early. */
  ghost predicate AllAt(fires: seq<Fire>, instant: int) {
    forall i :: 0 <= i < |fires| ==> fires[i].scheduled == instant <= fires[i].at
  }

  /** The one-shot is stored and no reminder of it was followed by a save, or it is gone and exactly
      the last one was. */
  ghost predicate OncePending(st: State, job: Job) {
    var sent := FiresOf(st.fires, job.id);
    && AllAt(sent, job.nextRun)
    && (JobsOf(st.jobs, job.id) == [job] || JobsOf(st.jobs, job.id) == [])
    && Settled(sent) == (if JobsOf(st.jobs, job.id) == [] then 1 else 0)
    && (JobsOf(st.jobs, job.id) == [] ==> sent[|sent| - 1].saved)
  }

  lemma PolledOnce(st: State, after: State, job: Job, at: int, sent: bool, saved: bool)
    requires OncePending(st, job) && job.repeat == Once && JobsOf(st.jobs, job.id) == [job]
    requires Polled(st, after, job, at, sent, saved)
    ensures OncePending(after, job)
  {
    var sofar := FiresOf(st.fires, job.id);
    if sent {
      SettledOneMore(sofar, Fire(job.id, job.nextRun, at, saved));
    } else {
      assert sofar + [] == sofar;
    }
  }

  lemma StepOnce(st: State, op: Op, job: Job)
    requires |st.jobs| <= MAX_JOBS && OncePending(st, job) && job.repeat == Once && Spares(op, job.id) && !Wipes(op)
    ensures OncePending(Apply(st, op), job)
  {
    if !op.Poll? {
      StepOther(st, op, job.id);
    } else if JobsOf(st.jobs, job.id) == [] {
      StepPollNone(st, op, job.id);
    } else {
      PollIsPolled(st, op, job);
      PolledOnce(st, Apply(st, op), job, op.now, Reminds(st, op, job.id), op.writable);
    }
  }

  /** Over every run that does not wipe the list, a one-shot is either still stored, and every
      reminder of it came from a poll that could not save; or it is gone, and exactly the last
      reminder came from a poll that saved.  All are of its instant, none is early. */
  lemma {:induction false} OnceIsOnce(st: State, ops: seq<Op>, job: Job)
    requires |st.jobs| <= MAX_JOBS && LeavesAlone(ops, job.id) && NoneWipes(ops)
    requires job.repeat == Once && JobsOf(st.jobs, job.id) == [job] && FiresOf(st.fires, job.id) == []
    ensures OncePending(ApplyAll(st, ops), job)
  {
    if ops != [] {
      var front := ops[..|ops| - 1];
      OnceIsOnce(st, front, job);
      LimitKept(st, front);
      StepOnce(ApplyAll(st, front), ops[|ops| - 1], job);
    }
  }

  // ----- Due reminders are sent -----

  /** How many polls of the run sent a reminder of this id and then saved, or did not save. */
  function Deliveries(st: State, ops: seq<Op>, id: string, saved: bool): nat {
    if ops == [] then 0
    else
      var before, op := ApplyAll(st, ops[..|ops| - 1]), ops[|ops| - 1];
      Deliveries(st, ops[..|ops| - 1], id, saved)
      + if Reminds(before, op, id) && op.writable == saved then 1 else 0
  }

  /** At most one job has this id. */
  ghost predicate AtMostOne(jobs: seq<Job>, id: string) {
    |JobsOf(jobs, id)| <= 1
  }

  lemma StepDelivers(st: State, op: Op, id: string)
    requires |st.jobs| <= MAX_JOBS && AtMostOne(st.jobs, id) && Spares(op, id)
    ensures AtMostOne(Apply(st, op).jobs, id)
    ensures var before, after := FiresOf(st.fires, id), FiresOf(Apply(st, op).fires, id);
            && |after| == |before| + (if Reminds(st, op, id) then 1 else 0)
            && Settled(after) == Settled(before) + if Reminds(st, op, id) && op.writable then 1 else 0
  {
    if !op.Poll? {
      StepOther(st, op, id);
    } else if JobsOf(st.jobs, id) == [] {
      StepPollNone(st, op, id);
    } else {
      var j, before := JobsOf(st.jobs, id)[0], FiresOf(st.fires, id);
      JobsOfHead(st.jobs, id);
      StepPoll(st, op, j);
      if Reminds(st, op, id) {
        SettledOneMore(before, Fire(id, j.nextRun, op.now, op.writable));
      } else {
        assert before + [] == before;
      }
    }
  }

  lemma {:induction false} JobsOfHead(jobs: seq<Job>, id: string)
    requires JobsOf(jobs, id) != []
    ensures JobsOf(jobs, id)[0].id == id
  {
    if jobs[0].id != id {
      JobsOfHead(jobs[1..], id);
    }
  }

  /** Over every run, wipes included, a job gets exactly one reminder for each poll whose send of it
      succeeded; and those not followed by a save, which come again, are exactly those of the polls
      that could not save. */
  lemma {:induction false} RemindersCounted(st: State, ops: seq<Op>, id: string)
    requires |st.jobs| <= MAX_JOBS && AtMostOne(st.jobs, id) && LeavesAlone(ops, id) && FiresOf(st.fires, id) == []
    ensures |ApplyAll(st, ops).jobs| <= MAX_JOBS && AtMostOne(ApplyAll(st, ops).jobs, id)
    ensures var sent := FiresOf(ApplyAll(st, ops).fires, id);
            && Settled(sent) == Deliveries(st, ops, id, true)
            && |sent| - Settled(sent) == Deliveries(st, ops, id, false)
  {
    if ops == [] {
    } else {
      RemindersCounted(st, ops[..|ops| - 1], id);
      var before := ApplyAll(st, ops[..|ops| - 1]);
      StepLimit(before, ops[|ops| - 1]);
      StepDelivers(before, ops[|ops| - 1], id);
    }
  }

  /** A poll at `from` or later that reads and saves the list and all of whose sends succeed; it has
      no more than MAX_JOBS. */
  predicate GoodPoll(op: Op, from: int) {
    op.Poll? && op.readable && op.writable && op.now >= from && forall k :: 0 <= k < MAX_JOBS ==> op.sends(k)
  }

  function GoodPolls(ops: seq<Op>, from: int): nat {
    if ops == [] then 0
    else GoodPolls(ops[..|ops| - 1], from) + if GoodPoll(ops[|ops| - 1], from) then 1 else 0
  }

  /** A good poll settles a recurring job that is due by then. */
  lemma GoodPollSettles(st: State, op: Op, job: Job, from: int)
    requires Tracks(st, job) && AtMostOne(st.jobs, job.id) && Spares(op, job.id)
    requires job.nextRun + Settled(FiresOf(st.fires, job.id)) * Period(job.repeat) <= from
    ensures var before, after := Settled(FiresOf(st.fires, job.id)), Settled(FiresOf(Apply(st, op).fires, job.id));
            after >= before + if GoodPoll(op, from) then 1 else 0
  {
    StepDelivers(st, op, job.id);
    if GoodPoll(op, from) {
      StepPoll(st, op, JobsOf(st.jobs, job.id)[0]);
    }
  }

  lemma SettledGrows(st: State, op: Op, id: string)
    requires |st.jobs| <= MAX_JOBS && AtMostOne(st.jobs, id) && Spares(op, id)
    ensures Settled(FiresOf(st.fires, id)) <= Settled(FiresOf(Apply(st, op).fires, id))
  {
    StepDelivers(st, op, id);
  }

  /** As long as a recurring job is due at `from`, every good poll from then on has sent it. */
  lemma {:induction false} GoodPollsSend(st: State, ops: seq<Op>, job: Job, from: int)
    requires |st.jobs| <= MAX_JOBS && Chronological(st.now, ops) && LeavesAlone(ops, job.id) && NoneWipes(ops)
    requires job.repeat != Once && JobsOf(st.jobs, job.id) == [job] && FiresOf(st.fires, job.id) == []
    requires job.nextRun + Settled(FiresOf(ApplyAll(st, ops).fires, job.id)) * Period(job.repeat) <= from
    ensures Settled(FiresOf(ApplyAll(st, ops).fires, job.id)) >= GoodPolls(ops, from)
  {
    if ops == [] {
    } else {
      var front, op := ops[..|ops| - 1], ops[|ops| - 1];
      var before := ApplyAll(st, front);
      RemindersCounted(st, front, job.id);
      RecurringInvariant(st, front, job);
      SettledGrows(before, op, job.id);
      MoreTakesLonger(Settled(FiresOf(before.fires, job.id)), Settled(FiresOf(Apply(before, op).fires, job.id)), Period(job.repeat));
      GoodPollsSend(st, front, job, from);
      GoodPollSettles(before, op, job, from);
    }
  }

  lemma MoreTakesLonger(a: nat, b: nat, period: int)
    requires a <= b && period >= 0
    ensures a * period <= b * period
  {
    assert (b - a) * period >= 0;
    assert b * period == a * period + (b - a) * period;
  }

  /** The instants on the clock of a schedule from its first one to `from`. */
  ghost function ClockInstants(first: int, repeat: Repeat, from: int): set<int> {
    set t: int | first <= t <= from && SameClock(t, first, repeat)
  }

  /** The first `n + 1` instants of the schedule. */
  function Steps(first: int, period: int, n: nat): set<int> {
    if n == 0 then {first} else Steps(first, period, n - 1) + {first + n * period}
  }

  lemma {:induction false} StepsAre(first: int, repeat: Repeat, n: nat, from: int)
    requires repeat != Once && first + n * Period(repeat) <= from
    ensures |Steps(first, Period(repeat), n)| == n + 1
    ensures forall t :: t in Steps(first, Period(repeat), n) ==>
              t in ClockInstants(first, repeat, from) && t <= first + n * Period(repeat)
  {
    NextOnItsClock(first, repeat, n);
    if n > 0 {
      Grows(first, n - 1, n, Period(repeat));
      StepsAre(first, repeat, n - 1, from);
    }
  }

  lemma WithinSize(a: set<int>, b: set<int>)
    requires a <= b
    ensures |a| <= |b|
  {
    assert b == a + (b - a);
  }

  /** Recurring reminders catch up: once the polls that read, send and save all they have, at `from`
      or later, are as many as the instants on its clock up to `from`, the job is no longer due at
      `from`. */
  lemma {:induction false} RecurringCatchesUp(st: State, ops: seq<Op>, job: Job, from: int)
    requires |st.jobs| <= MAX_JOBS && Chronological(st.now, ops) && LeavesAlone(ops, job.id) && NoneWipes(ops)
    requires job.repeat != Once && JobsOf(st.jobs, job.id) == [job] && FiresOf(st.fires, job.id) == []
    requires GoodPolls(ops, from) >= |ClockInstants(job.nextRun, job.repeat, from)|
    ensures |JobsOf(ApplyAll(st, ops).jobs, job.id)| == 1 && JobsOf(ApplyAll(st, ops).jobs, job.id)[0].nextRun > from
  {
    RecurringInvariant(st, ops, job);
    var done, period := Settled(FiresOf(ApplyAll(st, ops).fires, job.id)), Period(job.repeat);
    if job.nextRun + done * period <= from {
      GoodPollsSend(st, ops, job, from);
      StepsAre(job.nextRun, job.repeat, done, from);
      WithinSize(Steps(job.nextRun, period, done), ClockInstants(job.nextRun, job.repeat, from));
    }
  }

  /** A one-shot is gone if and only if some poll delivered it and saved, and then exactly one did;
      and a poll at or after its instant that gets everything through is enough. */
  lemma {:induction false} OnceIsSent(st: State, ops: seq<Op>, job: Job)
    requires |st.jobs| <= MAX_JOBS && LeavesAlone(ops, job.id) && NoneWipes(ops)
    requires job.repeat == Once && JobsOf(st.jobs, job.id) == [job] && FiresOf(st.fires, job.id) == []
    ensures JobsOf(ApplyAll(st, ops).jobs, job.id) == [] <==> Deliveries(st, ops, job.id, true) > 0
    ensures Deliveries(st, ops, job.id, true) <= 1
    ensures (exists k :: 0 <= k < |ops| && GoodPoll(ops[k], job.nextRun)) ==> Deliveries(st, ops, job.id, true) == 1
  {
    OnceIsOnce(st, ops, job);
    RemindersCounted(st, ops, job.id);
    if k :| 0 <= k < |ops| && GoodPoll(ops[k], job.nextRun) {
      SentByThen(st, ops, job, k);
    }
  }

  lemma {:induction false} SentByThen(st: State, ops: seq<Op>, job: Job, k: nat)
    requires |st.jobs| <= MAX_JOBS && LeavesAlone(ops, job.id) && NoneWipes(ops)
    requires job.repeat == Once && JobsOf(st.jobs, job.id) == [job] && FiresOf(st.fires, job.id) == []
    requires k < |ops| && GoodPoll(ops[k], job.nextRun)
    ensures Deliveries(st, ops, job.id, true) > 0
  {
    var front := ops[..|ops| - 1];
    if k == |front| {
      OnceIsOnce(st, front, job);
      RemindersCounted(st, front, job.id);
      var before := ApplyAll(st, front);
      if JobsOf(before.jobs, job.id) == [job] {
        StepPoll(before, ops[k], job);
      }
    } else {
      SentByThen(st, front, job, k);
    }
  }

  lemma {:induction false} SettleConserves(due: seq<Job>, i: nat, sends: Sends, id: string)
    requires i <= |due|
    ensures |JobsOf(SettleAll(due, i, sends), id)| + OnceSent(due, i, sends, id) == |JobsOf(due[i..], id)|
    decreases |due| - i
  {
    if i == |due| {
    } else {
      SettleConserves(due, i + 1, sends, id);
      assert due[i..][1..] == due[i + 1..];
      JobsOfAppend(Settle(due[i], sends(i)), SettleAll(due, i + 1, sends), id);
    }
  }

  /** The one-shot jobs of this id that a poll delivers. */
  function OnceSent(due: seq<Job>, i: nat, sends: Sends, id: string): nat
    requires i <= |due|
    decreases |due| - i
  {
    if i == |due| then 0
    else (if due[i].id == id && due[i].repeat == Once && sends(i) then 1 else 0) + OnceSent(due, i + 1, sends, id)
  }

  /** Ids are conserved by a poll: for every id, the jobs lost are exactly the one-shots sent. */
  lemma PollConserves(jobs: seq<Job>, now: int, sends: Sends, id: string)
    ensures |JobsOf(AfterPoll(jobs, now, sends), id)| + OnceSent(Due(jobs, now), 0, sends, id) == |JobsOf(jobs, id)|
  {
    var due := Due(jobs, now);
    SettleConserves(due, 0, sends, id);
    assert due[0..] == due;
    DueOf(jobs, now, id);
    DueSplits(JobsOf(jobs, id), now);
    JobsOfAppend(NotDue(jobs, now), SettleAll(due, 0, sends), id);
  }

  /** The loop over the due jobs before job `i`. */
  ghost predicate SendInStep(due: seq<Job>, rest: seq<Job>, remaining: seq<Job>, fires: seq<Fire>, i: nat, sends: Sends,
                             now: int, saved: bool)
    requires i <= |due|
  {
    && remaining + SettleAll(due, i, sends) == rest + SettleAll(due, 0, sends)
    && fires + Fires(due, i, sends, now, saved) == Fires(due, 0, sends, now, saved)
  }

  lemma SendStep(due: seq<Job>, rest: seq<Job>, remaining: seq<Job>, fires: seq<Fire>, i: nat, sends: Sends, now: int,
                 saved: bool)
    requires i < |due| && SendInStep(due, rest, remaining, fires, i, sends, now, saved)
    ensures SendInStep(due, rest, remaining + Settle(due[i], sends(i)),
                       fires + if sends(i) then [Fire(due[i].id, due[i].nextRun, now, saved)] else [], i + 1, sends, now, saved)
  {
    var fire := if sends(i) then [Fire(due[i].id, due[i].nextRun, now, saved)] else [];
    ConcatAssociates(remaining, Settle(due[i], sends(i)), SettleAll(due, i + 1, sends));
    ConcatAssociates(fires, fire, Fires(due, i + 1, sends, now, saved));
    assert fire + Fires(due, i + 1, sends, now, saved) == Fires(due, i, sends, now, saved);
  }

  // ----- The store -----

  datatype AddResult = Ok | Full | RedisUnavailable

  /** The job list in Redis.  Each operation may find the list unreadable, which the code takes for
      an empty list, or fail to write it back. */
  class CronStore {
    var jobs: seq<Job>

    constructor ()
      ensures jobs == []
    {
      jobs := [];
    }

    function ListJobs(readable: bool): seq<Job>
      reads this
    {
      Seen(jobs, readable)
    }

    method SaveJobs(list: seq<Job>, writable: bool) returns (ok: bool)
      modifies this
      ensures ok == writable && jobs == if writable then list else old(jobs)
    {
      if writable {
        jobs := list;
      }
      ok := writable;
    }

    /** `add_job` appends to the list it read; when the list cannot be read but can be written, the
        new job alone replaces whatever was stored. */
    method AddJob(job: Job, readable: bool, writable: bool) returns (r: AddResult)
      modifies this
      ensures r == Full <==> |old(ListJobs(readable))| >= 50
      ensures r == Ok <==> |old(ListJobs(readable))| < 50 && writable
      ensures jobs == if r == Ok then old(ListJobs(readable)) + [job] else old(jobs)
      ensures !readable && writable ==> r == Ok && jobs == [job]
      ensures jobs == Apply(State(old(jobs), [], 0), Add(job, readable, writable)).jobs
      ensures old(|jobs|) <= MAX_JOBS ==> |jobs| <= MAX_JOBS
    {
      var list := ListJobs(readable);
      if |list| >= MAX_JOBS {
        return Full;
      }
      var saved := SaveJobs(list + [job], writable);
      r := if saved then Ok else RedisUnavailable;
    }

    /** `delete_job` reads the list twice.  When the reads agree, it removes the jobs with this id
        and nothing else, and reports whether there were any; but if only the first one fails, an
        empty list is written back over the stored one. */
    method DeleteJob(id: string, readable: bool, readableAgain: bool, writable: bool) returns (ok: bool)
      modifies this
      ensures readable == readableAgain ==> (ok <==> JobsOf(old(ListJobs(readable)), id) != [] && writable)
      ensures readable != readableAgain ==>
                (ok <==> |Without(old(ListJobs(readable)), id)| != |old(ListJobs(readableAgain))| && writable)
      ensures jobs == if ok then Without(old(ListJobs(readable)), id) else old(jobs)
      ensures jobs == Apply(State(old(jobs), [], 0), Delete(id, readable, readableAgain, writable)).jobs
      ensures !readable && readableAgain && writable ==> jobs == []
      ensures old(|jobs|) <= MAX_JOBS ==> |jobs| <= MAX_JOBS
    {
      var list := ListJobs(readable);
      var kept := Keep(list, id);
      var current := ListJobs(readableAgain);
      WithoutShrinks(list, id);
      if |kept| == |current| {
        return false;
      }
      ok := SaveJobs(kept, writable);
    }

    method Keep(list: seq<Job>, id: string) returns (kept: seq<Job>)
      ensures kept == Without(list, id)
    {
      kept := [];
      for i := 0 to |list|
        invariant kept + Without(list[i..], id) == Without(list, id)
      {
        assert list[i..][1..] == list[i + 1..];
        if list[i].id != id {
          kept := kept + [list[i]];
        }
      }
    }

    /** `fire_due_crons`: sends every due reminder once and keeps the rest.  The count it returns is
        the number due, which is the number sent exactly when no send fails. */
    method FireDueCrons(now: int, sends: Sends, readable: bool, writable: bool)
      returns (count: nat, ghost fires: seq<Fire>)
      requires |jobs| <= MAX_JOBS
      modifies this
      ensures count == |Due(old(ListJobs(readable)), now)|
      ensures fires == Fires(Due(old(ListJobs(readable)), now), 0, sends, now, writable)
      ensures |fires| <= count && (|fires| == count <==> forall k :: 0 <= k < count ==> sends(k))
      ensures jobs == if readable && writable then AfterPoll(old(jobs), now, sends) else old(jobs)
      ensures State(jobs, fires, now) == Apply(State(old(jobs), [], 0), Poll(now, sends, readable, writable))
      ensures |jobs| <= MAX_JOBS
    {
      var list := ListJobs(readable);
      var due, remaining := Filter(list, now);
      PollNeverGrows(list, now, sends);
      DueSplits(list, now);
      AllSent(Due(list, now), 0, sends, now, writable);
      fires := [];
      if due == [] {
        assert AfterPoll(list, now, sends) == NotDue(list, now);
        AllKept(list, now);
        return 0, fires;
      }
      remaining, fires := SendAll(due, remaining, sends, now, writable);
      assert remaining[..Min(|remaining|, MAX_JOBS)] == remaining;
      var saved := SaveJobs(remaining[..Min(|remaining|, MAX_JOBS)], writable);
      count := |due|;
    }

    /** The loop over the due jobs. */
    method SendAll(due: seq<Job>, rest: seq<Job>, sends: Sends, now: int, ghost saved: bool)
      returns (remaining: seq<Job>, ghost fires: seq<Fire>)
      ensures remaining == rest + SettleAll(due, 0, sends)
      ensures fires == Fires(due, 0, sends, now, saved)
    {
      remaining, fires := rest, [];
      for i := 0 to |due|
        invariant SendInStep(due, rest, remaining, fires, i, sends, now, saved)
      {
        var j := due[i];
        SendStep(due, rest, remaining, fires, i, sends, now, saved);
        ghost var before := remaining;
        if !sends(i) {
          remaining := remaining + [j];
          assert fires + [] == fires;
          continue;
        }
        fires := fires + [Fire(j.id, j.nextRun, now, saved)];
        if j.repeat == EachDay || j.repeat == EachWeek {
          remaining := remaining + [j.(nextRun := NextAfter(j.nextRun, j.repeat))];
        }
        assert remaining == before + Settle(j, true);
      }
    }

    method Filter(list: seq<Job>, now: int) returns (due: seq<Job>, rest: seq<Job>)
      ensures due == Due(list, now) && rest == NotDue(list, now)
    {
      due, rest := [], [];
      for i := 0 to |list|
        invariant due + Due(list[i..], now) == Due(list, now)
        invariant rest + NotDue(list[i..], now) == NotDue(list, now)
      {
        assert list[i..][1..] == list[i + 1..];
        if list[i].nextRun <= now {
          due := due + [list[i]];
        } else {
          rest := rest + [list[i]];
        }
      }
    }
  }

  lemma {:induction false} AllKept(jobs: seq<Job>, now: int)
    requires Due(jobs, now) == []
    ensures NotDue(jobs, now) == jobs
  {
    if jobs == [] {
    } else {
      AllKept(jobs[1..], now);
    }
  }
}
