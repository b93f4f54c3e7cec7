/** app/kela_ai/circuit_breaker.py: one CLOSED / OPEN / HALF_OPEN breaker per key name.

    The code keeps a counter, a state and an opening time, and moves OPEN to HALF_OPEN only
    when somebody looks.  The specification is a function of the log of recorded outcomes
    alone, so looking cannot matter. */
module CircuitBreaker {
  import opened Wrappers
  import opened Loops

  datatype BreakerState = Closed | Open | HalfOpen

  datatype Outcome = Outcome(name: string, success: bool, at: real)

  /** How many failures of `name` follow its last success. */
  function TrailingFailures(log: seq<Outcome>, name: string): nat {
    if log == [] then 0
    else
      var front, last := log[..|log| - 1], log[|log| - 1];
      if last.name != name then TrailingFailures(front, name)
      else if last.success then 0
      else TrailingFailures(front, name) + 1
  }

  /** The instant of the last failure of `name`; zero when there is none. */
  function LastFailure(log: seq<Outcome>, name: string): real {
    if log == [] then 0.0
    else
      var last := log[|log| - 1];
      if last.name == name && !last.success then last.at else LastFailure(log[..|log| - 1], name)
  }

  /** The breaker's state at `now`, read off the log. */
  function StateAt(log: seq<Outcome>, threshold: nat, cooldown: real, name: string, now: real): BreakerState {
    if TrailingFailures(log, name) < threshold then Closed
    else if now - LastFailure(log, name) < cooldown then Open
    else HalfOpen
  }

  /** How long an open breaker stays open after `now`, read off the log; zero if it is not open. */
  function RemainingAt(log: seq<Outcome>, threshold: nat, cooldown: real, name: string, now: real): real {
    if TrailingFailures(log, name) < threshold then 0.0
    else if cooldown - (now - LastFailure(log, name)) >= 0.0 then cooldown - (now - LastFailure(log, name))
    else 0.0
  }

  /** That is when it turns half open, if nothing is recorded before. */
  lemma ReopensThen(log: seq<Outcome>, threshold: nat, cooldown: real, name: string, now: real, later: real)
    requires now <= later
    ensures StateAt(log, threshold, cooldown, name, now) == Open <==> RemainingAt(log, threshold, cooldown, name, now) > 0.0
    ensures StateAt(log, threshold, cooldown, name, now) == Open ==>
              StateAt(log, threshold, cooldown, name, later)
              == if later - now < RemainingAt(log, threshold, cooldown, name, now) then Open else HalfOpen
  {
  }

  /** One entry of the report; the remaining time is rounded to a tenth. */
  datatype BreakerReport = BreakerReport(state: BreakerState, failures: nat, reopensIn: real)

  function Tenths(x: real): real {
    Nearest(x * 10.0) as real / 10.0
  }

  lemma TenthsIs(x: real) returns (k: int)
    ensures -0.05 <= Tenths(x) - x <= 0.05 && Tenths(x) == k as real / 10.0
  {
    k := Nearest(x * 10.0);
  }

  function ReportAt(log: seq<Outcome>, threshold: nat, cooldown: real, name: string, now: real): BreakerReport {
    BreakerReport(StateAt(log, threshold, cooldown, name, now), TrailingFailures(log, name),
                  Tenths(RemainingAt(log, threshold, cooldown, name, now)))
  }

  lemma AppendOutcome(log: seq<Outcome>, o: Outcome, name: string)
    ensures TrailingFailures(log + [o], name)
         == if o.name != name then TrailingFailures(log, name)
            else if o.success then 0 else TrailingFailures(log, name) + 1
    ensures LastFailure(log + [o], name)
         == if o.name == name && !o.success then o.at else LastFailure(log, name)
  {
    assert (log + [o])[..|log|] == log;
  }

  /** The outcomes of one name, in order. */
  function OwnOf(log: seq<Outcome>, name: string): seq<Outcome> {
    if log == [] then []
    else OwnOf(log[..|log| - 1], name) + if log[|log| - 1].name == name then [log[|log| - 1]] else []
  }

  /** The last `k` of these outcomes exist and are failures. */
  ghost predicate LastFailed(own: seq<Outcome>, k: nat) {
    |own| >= k && forall i :: |own| - k <= i < |own| ==> !own[i].success
  }

  lemma {:induction false} TrailingMeaning(log: seq<Outcome>, name: string, k: nat)
    ensures TrailingFailures(log, name) >= k <==> LastFailed(OwnOf(log, name), k)
    ensures k > 0 && TrailingFailures(log, name) >= k ==>
              OwnOf(log, name) != [] && LastFailure(log, name) == OwnOf(log, name)[|OwnOf(log, name)| - 1].at
  {
    if log != [] {
      var front, last := log[..|log| - 1], log[|log| - 1];
      var before := OwnOf(front, name);
      TrailingMeaning(front, name, k);
      if last.name != name {
        assert before + [] == before;
      } else if k > 0 {
        TrailingMeaning(front, name, k - 1);
        OneMoreFailed(before, last, k);
      }
    }
  }

  lemma OneMoreFailed(own: seq<Outcome>, o: Outcome, k: nat)
    requires k > 0
    ensures LastFailed(own + [o], k) <==> !o.success && LastFailed(own, k - 1)
  {
    var all := own + [o];
    assert all[|own|] == o;
    if !o.success && LastFailed(own, k - 1) {
      assert forall i :: |all| - k <= i < |own| ==> all[i] == own[i];
    }
    if LastFailed(all, k) {
      assert forall i :: |own| - (k - 1) <= i < |own| ==> own[i] == all[i];
    }
  }

  /** The breaker of a name, read off the outcomes of that name alone: it is closed unless the last
      `threshold` of them are failures, and then open until the cooldown since the last one. */
  lemma StateMeaning(log: seq<Outcome>, threshold: nat, cooldown: real, name: string, now: real)
    requires threshold >= 1
    ensures var own := OwnOf(log, name);
            StateAt(log, threshold, cooldown, name, now)
            == if !LastFailed(own, threshold) then Closed
               else if now < own[|own| - 1].at + cooldown then Open else HalfOpen
  {
    TrailingMeaning(log, name, threshold);
  }

  /** A probe decides: whatever the breaker's state once tripped, a success closes it at once
      and for good, and a failure keeps it open for one whole cooldown counted from that
      failure, after which it is half open again. */
  lemma ProbeDecides(log: seq<Outcome>, threshold: nat, cooldown: real, name: string, at: real, now: real)
    requires threshold >= 1 && cooldown >= 0.0 && at <= now
    requires TrailingFailures(log, name) + 1 >= threshold
    ensures StateAt(log + [Outcome(name, true, at)], threshold, cooldown, name, now) == Closed
    ensures StateAt(log + [Outcome(name, false, at)], threshold, cooldown, name, now)
         == if now < at + cooldown then Open else HalfOpen
  {
    AppendOutcome(log, Outcome(name, true, at), name);
    AppendOutcome(log, Outcome(name, false, at), name);
  }

  /** Keys do not disturb each other: only a key's own outcomes decide its state. */
  lemma {:induction false} OwnOutcomesDecide(log: seq<Outcome>, others: seq<Outcome>, threshold: nat,
                                             cooldown: real, name: string, now: real)
    requires forall i :: 0 <= i < |others| ==> others[i].name != name
    ensures StateAt(log + others, threshold, cooldown, name, now) == StateAt(log, threshold, cooldown, name, now)
  {
    if others == [] {
      assert log + others == log;
    } else {
      var front, last := others[..|others| - 1], others[|others| - 1];
      OwnOutcomesDecide(log, front, threshold, cooldown, name, now);
      AppendOutcome(log + front, last, name);
      assert log + others == (log + front) + [last];
    }
  }

  /** What the three dictionaries hold for one name. */
  datatype Entry = Entry(failures: nat, state: BreakerState, openedAt: Option<real>)

  datatype Table = Table(failures: map<string, nat>, state: map<string, BreakerState>, openedAt: map<string, real>)

  function EntryOf(t: Table, name: string): Entry {
    Entry(if name in t.failures then t.failures[name] else 0,
          if name in t.state then t.state[name] else Closed,
          if name in t.openedAt then Some(t.openedAt[name]) else None)
  }

  /** What the stored values of one name may be, given the log up to `now`: the counter is exact,
      and a tripped breaker may or may not have noticed that its cooldown is over. */
  ghost predicate Reflects(e: Entry, log: seq<Outcome>, threshold: nat, cooldown: real, name: string, now: real) {
    && e.failures == TrailingFailures(log, name)
    && (e.failures < threshold ==> e.state == Closed && e.openedAt == None)
    && (e.failures >= threshold ==>
          && e.state != Closed
          && e.openedAt == Some(LastFailure(log, name))
          && (e.state == HalfOpen ==> now - LastFailure(log, name) >= cooldown))
  }

  ghost predicate AllReflect(t: Table, log: seq<Outcome>, threshold: nat, cooldown: real, now: real) {
    forall name: string :: Reflects(EntryOf(t, name), log, threshold, cooldown, name, now)
  }

  /** Changing the entry of one name only, together with one more outcome of that name. */
  lemma RecordKeeps(t: Table, t': Table, log: seq<Outcome>, o: Outcome, threshold: nat, cooldown: real, latest: real)
    requires AllReflect(t, log, threshold, cooldown, latest) && latest <= o.at
    requires forall other: string :: other != o.name ==> EntryOf(t', other) == EntryOf(t, other)
    requires Reflects(EntryOf(t', o.name), log + [o], threshold, cooldown, o.name, o.at)
    ensures AllReflect(t', log + [o], threshold, cooldown, o.at)
  {
    forall other: string ensures Reflects(EntryOf(t', other), log + [o], threshold, cooldown, other, o.at) {
      assert Reflects(EntryOf(t, other), log, threshold, cooldown, other, latest);
      AppendOutcome(log, o, other);
    }
  }

  /** Changing the entry of one name only, with no outcome: a poll. */
  lemma PollKeeps(t: Table, t': Table, log: seq<Outcome>, name: string, threshold: nat, cooldown: real,
                  latest: real, now: real)
    requires AllReflect(t, log, threshold, cooldown, latest) && latest <= now
    requires forall other: string :: other != name ==> EntryOf(t', other) == EntryOf(t, other)
    requires Reflects(EntryOf(t', name), log, threshold, cooldown, name, now)
    ensures AllReflect(t', log, threshold, cooldown, now)
  {
    forall other: string ensures Reflects(EntryOf(t', other), log, threshold, cooldown, other, now) {
      assert Reflects(EntryOf(t, other), log, threshold, cooldown, other, latest);
    }
  }

  /** A failed entry: one more failure, and open from `now` on if it was half open or has reached
      the threshold. */
  lemma FailureReflects(e: Entry, e': Entry, log: seq<Outcome>, threshold: nat, cooldown: real, name: string,
                        latest: real, now: real)
    requires Reflects(e, log, threshold, cooldown, name, latest) && cooldown >= 0.0
    requires e'.failures == e.failures + 1
    requires if e.state == HalfOpen || e'.failures >= threshold then e'.state == Open && e'.openedAt == Some(now)
             else e'.state == e.state && e'.openedAt == e.openedAt
    ensures Reflects(e', log + [Outcome(name, false, now)], threshold, cooldown, name, now)
  {
    AppendOutcome(log, Outcome(name, false, now), name);
  }

  /** What `record_failure` makes of the dictionaries. */
  function AfterFailure(t: Table, threshold: nat, name: string, now: real): Table {
    var e := EntryOf(t, name);
    var failures := t.failures[name := e.failures + 1];
    if e.state == HalfOpen || e.failures + 1 >= threshold then
      Table(failures, t.state[name := Open], t.openedAt[name := now])
    else t.(failures := failures)
  }

  lemma FailureKeeps(t: Table, log: seq<Outcome>, threshold: nat, cooldown: real, name: string, latest: real, now: real)
    requires AllReflect(t, log, threshold, cooldown, latest) && latest <= now && cooldown >= 0.0
    ensures AllReflect(AfterFailure(t, threshold, name, now), log + [Outcome(name, false, now)], threshold, cooldown, now)
  {
    var t' := AfterFailure(t, threshold, name, now);
    assert Reflects(EntryOf(t, name), log, threshold, cooldown, name, latest);
    FailureReflects(EntryOf(t, name), EntryOf(t', name), log, threshold, cooldown, name, latest, now);
    RecordKeeps(t, t', log, Outcome(name, false, now), threshold, cooldown, latest);
  }

  /** The report says of each key in it what the log says. */
  ghost predicate Reports(report: map<string, BreakerReport>, log: seq<Outcome>, threshold: nat, cooldown: real, now: real) {
    forall n :: n in report ==> report[n] == ReportAt(log, threshold, cooldown, n, now)
  }

  lemma ReportOne(report: map<string, BreakerReport>, log: seq<Outcome>, threshold: nat, cooldown: real, now: real,
                  name: string, r: BreakerReport)
    requires Reports(report, log, threshold, cooldown, now) && r == ReportAt(log, threshold, cooldown, name, now)
    ensures Reports(report[name := r], log, threshold, cooldown, now)
  {
  }

  /** What the dictionaries say of a key just polled is what the log says. */
  lemma EntryReports(e: Entry, log: seq<Outcome>, threshold: nat, cooldown: real, name: string, now: real)
    requires Reflects(e, log, threshold, cooldown, name, now)
    requires e.state == StateAt(log, threshold, cooldown, name, now)
    ensures BreakerReport(e.state, e.failures, Tenths(Left(e.openedAt, cooldown, now))) == ReportAt(log, threshold, cooldown, name, now)
  {
  }

  function Left(openedAt: Option<real>, cooldown: real, now: real): (left: real)
    ensures left >= 0.0
    ensures openedAt.Some? && cooldown - (now - openedAt.value) > 0.0 ==> left == cooldown - (now - openedAt.value)
  {
    if openedAt.Some? && cooldown - (now - openedAt.value) >= 0.0 then cooldown - (now - openedAt.value) else 0.0
  }

  class CircuitBreaker {
    const threshold: nat
    const cooldown: real
    var failures: map<string, nat>
    var state: map<string, BreakerState>
    var openedAt: map<string, real>
    ghost var outcomes: seq<Outcome>
    ghost var latest: real

    ghost function Stored(): Table
      reads this
    {
      Table(failures, state, openedAt)
    }

    ghost predicate Valid()
      reads this
    {
      && threshold >= 1 && cooldown >= 0.0
      && AllReflect(Stored(), outcomes, threshold, cooldown, latest)
    }

    constructor (failureThreshold: int, cooldownSeconds: real, ghost now: real)
      ensures Valid() && outcomes == [] && latest == now
      ensures threshold == if failureThreshold >= 1 then failureThreshold else 1
      ensures cooldown == if cooldownSeconds >= 0.0 then cooldownSeconds else 0.0
    {
      threshold := if failureThreshold >= 1 then failureThreshold else 1;
      cooldown := if cooldownSeconds >= 0.0 then cooldownSeconds else 0.0;
      failures, state, openedAt := map[], map[], map[];
      outcomes, latest := [], now;
    }

    /** `_opened_remaining`. */
    function OpenedRemaining(name: string, now: real): (left: real)
      reads this
      ensures left >= 0.0
      ensures cooldown >= 0.0 ==> (left == 0.0 <==> name !in openedAt || now - openedAt[name] >= cooldown)
    {
      Left(if name in openedAt then Some(openedAt[name]) else None, cooldown, now)
    }

    /** `state_of`: the lazy poll.  It may rewrite the stored state, yet it answers the function
        of the log and leaves the log alone, so no later answer depends on it. */
    method StateOf(name: string, now: real) returns (s: BreakerState)
      requires Valid() && now >= latest
      modifies this`state, this`latest
      ensures Valid() && latest == now
      ensures s == StateAt(outcomes, threshold, cooldown, name, now) == EntryOf(Stored(), name).state
    {
      ghost var before := Stored();
      assert Reflects(EntryOf(before, name), outcomes, threshold, cooldown, name, latest);
      if name in state && state[name] == Open {
        if OpenedRemaining(name, now) <= 0.0 {
          state := state[name := HalfOpen];
        }
      }
      PollKeeps(before, Stored(), outcomes, name, threshold, cooldown, latest, now);
      latest := now;
      s := if name in state then state[name] else Closed;
    }

    method Allow(name: string, now: real) returns (ok: bool)
      requires Valid() && now >= latest
      modifies this`state, this`latest
      ensures Valid() && latest == now
      ensures ok == (StateAt(outcomes, threshold, cooldown, name, now) != Open)
    {
      var s := StateOf(name, now);
      ok := s != Open;
    }

    method RecordSuccess(name: string, now: real)
      requires Valid() && now >= latest
      modifies this
      ensures Valid() && latest == now
      ensures outcomes == old(outcomes) + [Outcome(name, true, now)]
    {
      ghost var before := Stored();
      failures := failures[name := 0];
      state := state[name := Closed];
      openedAt := openedAt - {name};
      AppendOutcome(outcomes, Outcome(name, true, now), name);
      RecordKeeps(before, Stored(), outcomes, Outcome(name, true, now), threshold, cooldown, latest);
      outcomes := outcomes + [Outcome(name, true, now)];
      latest := now;
    }

    method RecordFailure(name: string, now: real)
      requires Valid() && now >= latest
      modifies this
      ensures Valid() && latest == now
      ensures outcomes == old(outcomes) + [Outcome(name, false, now)]
    {
      ghost var before := Stored();
      failures := failures[name := (if name in failures then failures[name] else 0) + 1];
      if name in state && state[name] == HalfOpen {
        state := state[name := Open];
        openedAt := openedAt[name := now];
      } else if failures[name] >= threshold {
        state := state[name := Open];
        openedAt := openedAt[name := now];
      }
      FailureKeeps(before, outcomes, threshold, cooldown, name, latest, now);
      outcomes := outcomes + [Outcome(name, false, now)];
      latest := now;
    }

    /** `stats` polls every name seen so far; it too leaves every answer as it was. */
    method Stats(now: real) returns (report: map<string, BreakerReport>)
      requires Valid() && now >= latest
      modifies this`state, this`latest
      ensures Valid() && old(latest) <= latest <= now
      ensures report.Keys == old(state.Keys)
      ensures Reports(report, outcomes, threshold, cooldown, now)
    {
      report := map[];
      var todo := state.Keys;
      while todo != {}
        invariant Valid() && old(latest) <= latest <= now
        invariant Halves(report.Keys, todo, old(state.Keys))
        invariant Reports(report, outcomes, threshold, cooldown, now)
        decreases |todo|
      {
        var name :| name in todo;
        MoveOne(report.Keys, todo, old(state.Keys), name);
        report := Reported(report, name, now);
        todo := todo - {name};
      }
    }

    /** One more entry of the report. */
    method Reported(report: map<string, BreakerReport>, name: string, now: real) returns (report': map<string, BreakerReport>)
      requires Valid() && now >= latest && Reports(report, outcomes, threshold, cooldown, now)
      modifies this`state, this`latest
      ensures Valid() && latest == now
      ensures Reports(report', outcomes, threshold, cooldown, now) && report'.Keys == report.Keys + {name}
    {
      var r := ReportOf(name, now);
      ReportOne(report, outcomes, threshold, cooldown, now, name, r);
      report' := report[name := r];
    }

    method ReportOf(name: string, now: real) returns (r: BreakerReport)
      requires Valid() && now >= latest
      modifies this`state, this`latest
      ensures Valid() && latest == now
      ensures r == ReportAt(outcomes, threshold, cooldown, name, now)
    {
      var s := StateOf(name, now);
      r := BreakerReport(s, if name in failures then failures[name] else 0, Tenths(OpenedRemaining(name, now)));
      assert EntryOf(Stored(), name).state == s;
      assert Reflects(EntryOf(Stored(), name), outcomes, threshold, cooldown, name, now);
      EntryReports(EntryOf(Stored(), name), outcomes, threshold, cooldown, name, now);
    }
  }
}
