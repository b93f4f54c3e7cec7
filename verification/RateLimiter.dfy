/** app/kela_ai/rate_limiter.py: a sliding window of admissions per key name.

    The specification is the log of every admission ever granted.  The deques the
    limiter keeps are a compressed form of it: after pruning at `now`, the deque of a
    key is exactly the part of that key's log not older than one window. */
module RateLimiter {
  import opened Loops

  const WINDOW_SECONDS: real := 60.0

  datatype Admission = Admission(name: string, at: real)

  /** The instants at which `name` was admitted, oldest first. */
  function TimesOf(log: seq<Admission>, name: string): seq<real> {
    if log == [] then []
    else
      var last := log[|log| - 1];
      TimesOf(log[..|log| - 1], name) + if last.name == name then [last.at] else []
  }

  /** The instants not before `cutoff`, in the same order. */
  function Since(times: seq<real>, cutoff: real): seq<real> {
    if times == [] then []
    else
      var last := times[|times| - 1];
      Since(times[..|times| - 1], cutoff) + if last >= cutoff then [last] else []
  }

  /** How often `name` was admitted between `lo` and `hi`, both ends included. */
  function AdmittedBetween(log: seq<Admission>, name: string, lo: real, hi: real): nat {
    if log == [] then 0
    else
      var last := log[|log| - 1];
      AdmittedBetween(log[..|log| - 1], name, lo, hi)
      + if last.name == name && lo <= last.at <= hi then 1 else 0
  }

  /** The test `allow` makes, on the log instead of the deque. */
  predicate MayAdmit(log: seq<Admission>, limit: nat, name: string, now: real) {
    |Since(TimesOf(log, name), now - WINDOW_SECONDS)| < limit
  }

  ghost predicate Ascending(times: seq<real>) {
    forall i, j :: 0 <= i <= j < |times| ==> times[i] <= times[j]
  }

  ghost predicate InTimeOrder(log: seq<Admission>) {
    forall i, j :: 0 <= i <= j < |log| ==> log[i].at <= log[j].at
  }

  /** A log in which every admission passed the test against what came before it. */
  ghost predicate Throttled(log: seq<Admission>, limit: nat) {
    && InTimeOrder(log)
    && forall i :: 0 <= i < |log| ==> MayAdmit(log[..i], limit, log[i].name, log[i].at)
  }

  // ----- The window theorem -----

  lemma {:induction false} SinceCounts(log: seq<Admission>, name: string, lo: real, hi: real)
    requires forall i :: 0 <= i < |log| ==> log[i].at <= hi
    ensures |Since(TimesOf(log, name), lo)| == AdmittedBetween(log, name, lo, hi)
  {
    if log == [] {
    } else {
      var front := log[..|log| - 1];
      SinceCounts(front, name, lo, hi);
      var last := log[|log| - 1];
      if last.name == name {
        assert TimesOf(log, name)[..|TimesOf(log, name)| - 1] == TimesOf(front, name);
      } else {
        assert TimesOf(log, name) == TimesOf(front, name);
      }
    }
  }

  lemma {:induction false} WiderSpan(log: seq<Admission>, name: string, lo: real, hi: real, lo': real, hi': real)
    requires lo' <= lo && hi <= hi'
    ensures AdmittedBetween(log, name, lo, hi) <= AdmittedBetween(log, name, lo', hi')
  {
    if log == [] {
    } else {
      WiderSpan(log[..|log| - 1], name, lo, hi, lo', hi');
    }
  }

  lemma ThrottledFront(log: seq<Admission>, limit: nat, n: nat)
    requires Throttled(log, limit) && n < |log|
    ensures Throttled(log[..n], limit) && MayAdmit(log[..n], limit, log[n].name, log[n].at)
    ensures forall i :: 0 <= i < n ==> log[..n][i].at <= log[n].at
  {
    forall i | 0 <= i < n ensures MayAdmit(log[..n][..i], limit, log[..n][i].name, log[..n][i].at) {
      assert log[..n][..i] == log[..i];
    }
  }

  /** The test, for every log that is not ahead of the clock: a key may go iff fewer than `limit` of
      its admissions lie in the closed minute that ends now. */
  lemma AdmitsIff(log: seq<Admission>, limit: nat, name: string, now: real)
    requires forall i :: 0 <= i < |log| ==> log[i].at <= now
    ensures MayAdmit(log, limit, name, now) <==> AdmittedBetween(log, name, now - 60.0, now) < limit
  {
    SinceCounts(log, name, now - 60.0, now);
  }

  /** No closed interval of 60 seconds holds more than `limit` admissions of one key. */
  lemma {:induction false} WindowBound(log: seq<Admission>, limit: nat, name: string, start: real)
    requires Throttled(log, limit)
    ensures AdmittedBetween(log, name, start, start + 60.0) <= limit
  {
    if log == [] {
    } else {
      var n := |log| - 1;
      var front, last := log[..n], log[n];
      ThrottledFront(log, limit, n);
      WindowBound(front, limit, name, start);
      if last.name == name && start <= last.at <= start + WINDOW_SECONDS {
        SinceCounts(front, name, last.at - WINDOW_SECONDS, last.at);
        SpanBeforeLast(front, name, start, last.at);
      }
    }
  }

  /** When nothing in the log is later than `now`, a span that reaches past `now` and starts
      inside the window ending at `now` counts no more than that window. */
  lemma SpanBeforeLast(log: seq<Admission>, name: string, start: real, now: real)
    requires forall i :: 0 <= i < |log| ==> log[i].at <= now
    requires now - 60.0 <= start
    ensures AdmittedBetween(log, name, start, start + 60.0) <= AdmittedBetween(log, name, now - 60.0, now)
  {
    SinceCounts(log, name, start, start + WINDOW_SECONDS);
    SinceCounts(log, name, start, now);
    WiderSpan(log, name, start, now, now - WINDOW_SECONDS, now);
  }

  // ----- Deques and logs -----

  lemma TimesOfAppend(log: seq<Admission>, a: Admission, name: string)
    ensures TimesOf(log + [a], name) == TimesOf(log, name) + if a.name == name then [a.at] else []
  {
    assert (log + [a])[..|log|] == log;
  }

  lemma SinceAppend(times: seq<real>, t: real, cutoff: real)
    ensures Since(times + [t], cutoff) == Since(times, cutoff) + if t >= cutoff then [t] else []
  {
    assert (times + [t])[..|times|] == times;
  }

  lemma ThrottledAppend(log: seq<Admission>, limit: nat, a: Admission)
    requires Throttled(log, limit) && MayAdmit(log, limit, a.name, a.at)
    requires forall i :: 0 <= i < |log| ==> log[i].at <= a.at
    ensures Throttled(log + [a], limit)
  {
    var longer := log + [a];
    forall i | 0 <= i < |longer| ensures MayAdmit(longer[..i], limit, longer[i].name, longer[i].at) {
      if i < |log| {
        assert longer[..i] == log[..i];
      } else {
        assert longer[..i] == log;
      }
    }
  }

  lemma {:induction false} SinceTwice(times: seq<real>, early: real, late: real)
    requires early <= late
    ensures Since(Since(times, early), late) == Since(times, late)
  {
    if times == [] {
    } else {
      var front, last := times[..|times| - 1], times[|times| - 1];
      SinceTwice(front, early, late);
      if last >= early {
        assert Since(times, early)[..|Since(times, early)| - 1] == Since(front, early);
      } else {
        assert Since(times, early) == Since(front, early);
      }
    }
  }

  lemma {:induction false} SinceKeepsAll(times: seq<real>, cutoff: real)
    requires forall i :: 0 <= i < |times| ==> times[i] >= cutoff
    ensures Since(times, cutoff) == times
  {
    if times == [] {
    } else {
      SinceKeepsAll(times[..|times| - 1], cutoff);
    }
  }

  lemma {:induction false} SinceDropsFirst(times: seq<real>, cutoff: real)
    requires times != [] && times[0] < cutoff
    ensures Since(times[1..], cutoff) == Since(times, cutoff)
  {
    if |times| == 1 {
    } else {
      var front := times[..|times| - 1];
      SinceDropsFirst(front, cutoff);
      assert times[1..][..|times| - 2] == front[1..];
    }
  }

  // ----- The limiter -----

  function HitsOf(hits: map<string, seq<real>>, name: string): seq<real> {
    if name in hits then hits[name] else []
  }

  /** The deque agrees with the log of `name` on the window that ends at `now`. */
  ghost predicate Agrees(queue: seq<real>, log: seq<Admission>, name: string, now: real) {
    && Ascending(queue)
    && (forall i :: 0 <= i < |queue| ==> queue[i] <= now)
    && Since(queue, now - WINDOW_SECONDS) == Since(TimesOf(log, name), now - WINDOW_SECONDS)
  }

  ghost predicate AllAgree(hits: map<string, seq<real>>, log: seq<Admission>, now: real) {
    forall name: string :: Agrees(HitsOf(hits, name), log, name, now)
  }

  lemma AgreesLater(queue: seq<real>, log: seq<Admission>, name: string, now: real, later: real)
    requires Agrees(queue, log, name, now) && now <= later
    ensures Agrees(queue, log, name, later)
  {
    SinceTwice(queue, now - WINDOW_SECONDS, later - WINDOW_SECONDS);
    SinceTwice(TimesOf(log, name), now - WINDOW_SECONDS, later - WINDOW_SECONDS);
  }

  /** Replacing one deque by its pruned form keeps the agreement of all of them. */
  lemma PruneKeepsAgreement(hits: map<string, seq<real>>, log: seq<Admission>, latest: real, now: real,
                            name: string, queue: seq<real>)
    requires AllAgree(hits, log, latest) && latest <= now
    requires Agrees(queue, log, name, now)
    ensures AllAgree(hits[name := queue], log, now)
  {
    var hits' := hits[name := queue];
    forall other: string ensures Agrees(HitsOf(hits', other), log, other, now) {
      assert Agrees(HitsOf(hits, other), log, other, latest);
      AgreesLater(HitsOf(hits, other), log, other, latest, now);
    }
  }

  lemma AdmitAgrees(queue: seq<real>, log: seq<Admission>, name: string, now: real)
    requires Agrees(queue, log, name, now)
    ensures Agrees(queue + [now], log + [Admission(name, now)], name, now)
  {
    var times, cutoff := TimesOf(log, name), now - WINDOW_SECONDS;
    TimesOfAppend(log, Admission(name, now), name);
    SinceAppend(queue, now, cutoff);
    SinceAppend(times, now, cutoff);
    assert TimesOf(log + [Admission(name, now)], name) == times + [now];
    assert Since(queue + [now], cutoff) == Since(queue, cutoff) + [now];
    AscendingAppend(queue, now);
  }

  lemma AscendingAppend(queue: seq<real>, now: real)
    requires Ascending(queue) && forall i :: 0 <= i < |queue| ==> queue[i] <= now
    ensures Ascending(queue + [now])
  {
  }

  /** An admission of one key leaves the log of another as it is. */
  lemma OtherAgrees(queue: seq<real>, log: seq<Admission>, a: Admission, name: string, now: real)
    requires Agrees(queue, log, name, now) && a.name != name
    ensures Agrees(queue, log + [a], name, now)
  {
    TimesOfAppend(log, a, name);
    assert TimesOf(log + [a], name) == TimesOf(log, name);
  }

  /** Admitting `name` at `now` on both sides keeps the agreement. */
  lemma AdmitKeepsAgreement(hits: map<string, seq<real>>, log: seq<Admission>, now: real, name: string)
    requires AllAgree(hits, log, now)
    ensures AllAgree(hits[name := HitsOf(hits, name) + [now]], log + [Admission(name, now)], now)
  {
    var hits', log' := hits[name := HitsOf(hits, name) + [now]], log + [Admission(name, now)];
    forall other: string ensures Agrees(HitsOf(hits', other), log', other, now) {
      assert Agrees(HitsOf(hits, other), log, other, now);
      if other == name {
        AdmitAgrees(HitsOf(hits, name), log, name, now);
        assert HitsOf(hits', name) == HitsOf(hits, name) + [now];
      } else {
        OtherAgrees(HitsOf(hits, other), log, Admission(name, now), other, now);
        assert HitsOf(hits', other) == HitsOf(hits, other);
      }
    }
  }

  /** The report gives what is left of the window of each key in it. */
  ghost predicate Reports(left: map<string, int>, log: seq<Admission>, limit: nat, now: real) {
    forall n :: n in left ==> left[n] == limit - AdmittedBetween(log, n, now - 60.0, now)
  }

  lemma ReportOne(left: map<string, int>, log: seq<Admission>, limit: nat, now: real, name: string, k: int)
    requires Reports(left, log, limit, now) && k == limit - AdmittedBetween(log, name, now - 60.0, now)
    ensures Reports(left[name := k], log, limit, now)
  {
  }

  /** `SlidingWindowRateLimiter`. `admitted` and `latest` are for the proof only: the log of all
      admissions and the last clock reading. */
  class SlidingWindowRateLimiter {
    const limit: nat
    var hits: map<string, seq<real>>
    ghost var admitted: seq<Admission>
    ghost var latest: real

    ghost predicate Valid()
      reads this
    {
      && limit >= 1
      && Throttled(admitted, limit)
      && (forall i :: 0 <= i < |admitted| ==> admitted[i].at <= latest)
      && AllAgree(hits, admitted, latest)
    }

    constructor (limitPerMinute: int, ghost now: real)
      ensures Valid() && admitted == [] && latest == now
      ensures limit == if limitPerMinute >= 1 then limitPerMinute else 1
    {
      limit := if limitPerMinute >= 1 then limitPerMinute else 1;
      hits := map[];
      admitted, latest := [], now;
    }

    /** `_prune`: afterwards the deque is exactly the key's log within the window. */
    method Prune(name: string, now: real)
      requires Valid() && now >= latest
      modifies this`hits, this`latest
      ensures Valid() && latest == now
      ensures name in hits && hits[name] == Since(TimesOf(admitted, name), now - WINDOW_SECONDS)
      ensures forall other :: other != name ==> HitsOf(hits, other) == HitsOf(old(hits), other)
    {
      var table, queue := hits, HitsOf(hits, name);
      ghost var before := latest;
      var cutoff := now - WINDOW_SECONDS;
      assert Agrees(queue, admitted, name, latest);
      AgreesLater(queue, admitted, name, latest, now);
      while queue != [] && queue[0] < cutoff
        invariant Agrees(queue, admitted, name, now)
        decreases |queue|
      {
        SinceDropsFirst(queue, cutoff);
        queue := queue[1..];
      }
      SinceKeepsAll(queue, cutoff);
      PruneKeepsAgreement(table, admitted, before, now, name, queue);
      hits := table[name := queue];
      latest := now;
    }

    /** `allow`: refuses exactly when the window already holds `limit` admissions of the key,
        and otherwise records one more. */
    method Allow(name: string, now: real) returns (ok: bool)
      requires Valid() && now >= latest
      modifies this
      ensures Valid() && latest == now
      ensures ok == MayAdmit(old(admitted), limit, name, now)
      ensures admitted == if ok then old(admitted) + [Admission(name, now)] else old(admitted)
    {
      Prune(name, now);
      if |hits[name]| >= limit {
        return false;
      }
      AdmitKeepsAgreement(hits, admitted, now, name);
      ThrottledAppend(admitted, limit, Admission(name, now));
      hits := hits[name := hits[name] + [now]];
      admitted := admitted + [Admission(name, now)];
      return true;
    }

    /** `remaining` prunes but never changes a later answer: the log stays as it is. */
    method Remaining(name: string, now: real) returns (left: int)
      requires Valid() && now >= latest
      modifies this`hits, this`latest
      ensures Valid() && latest == now
      ensures left == limit - |Since(TimesOf(admitted, name), now - WINDOW_SECONDS)|
      ensures left == limit - AdmittedBetween(admitted, name, now - 60.0, now)
      ensures left > 0 <==> MayAdmit(admitted, limit, name, now)
    {
      Prune(name, now);
      left := limit - |hits[name]|;
      SinceCounts(admitted, name, now - 60.0, now);
    }

    /** `stats`: what `remaining` says of every key seen so far. */
    method Stats(now: real) returns (left: map<string, int>)
      requires Valid() && now >= latest
      modifies this`hits, this`latest
      ensures Valid() && old(latest) <= latest <= now
      ensures left.Keys == old(hits.Keys)
      ensures Reports(left, admitted, limit, now)
    {
      left := map[];
      var todo := hits.Keys;
      while todo != {}
        invariant Valid() && old(latest) <= latest <= now
        invariant Halves(left.Keys, todo, old(hits.Keys))
        invariant Reports(left, admitted, limit, now)
        decreases |todo|
      {
        var name :| name in todo;
        MoveOne(left.Keys, todo, old(hits.Keys), name);
        left := Reported(left, name, now);
        todo := todo - {name};
      }
    }

    /** One more entry of the report. */
    method Reported(left: map<string, int>, name: string, now: real) returns (left': map<string, int>)
      requires Valid() && now >= latest && Reports(left, admitted, limit, now)
      modifies this`hits, this`latest
      ensures Valid() && latest == now
      ensures Reports(left', admitted, limit, now) && left'.Keys == left.Keys + {name}
    {
      var k := Remaining(name, now);
      ReportOne(left, admitted, limit, now, name, k);
      left' := left[name := k];
    }
  }
}
