/** What every run of sequential `complete` calls on one gateway keeps: a bound on the rate of
    calls per key name, no call on a rejected key, and the two cooldowns. */
module GatewaySafety {
  import opened Wrappers
  import opened RateLimiter
  import opened CircuitBreaker
  import opened Loops
  import opened Gateway
  import KM = KeyManager

  /** How many calls on `name` were admitted between `lo` and `hi`, both ends included. */
  function CallsBetween(calls: seq<Call>, name: string, lo: real, hi: real): nat {
    if calls == [] then 0
    else
      var last := calls[|calls| - 1];
      CallsBetween(calls[..|calls| - 1], name, lo, hi)
      + if last.name == name && lo <= last.visit.admit <= hi then 1 else 0
  }

  /** Call `b` passed the key state and the breaker, as they were after the calls before it. */
  ghost predicate Gated(s: Setup, calls: seq<Call>, b: nat)
    requires b < |calls|
  {
    var c := calls[b];
    && c.manager < |s.pools|
    && KeyActive(s.pools[c.manager], MarksOf(calls[..b], c.manager), c.name, c.visit.gate)
    && BreakerAllows(s, OutcomesOf(calls[..b]), c.name, c.visit.probe)
  }

  ghost predicate CallsInTimeOrder(calls: seq<Call>, now: real) {
    && (forall a :: 0 <= a < |calls| ==> InOrder(calls[a].visit) && calls[a].visit.record <= now)
    && forall a, b :: 0 <= a < b < |calls| ==> calls[a].visit.record <= calls[b].visit.poll
  }

  ghost predicate CallsAdmitted(j: Journal) {
    forall name, lo, hi :: CallsBetween(j.calls, name, lo, hi) <= AdmittedBetween(j.admitted, name, lo, hi)
  }

  /** The invariant of a run, with everything logged before `now`. */
  ghost predicate Safe(s: Setup, j: Journal, now: real) {
    && WellWired(s)
    && Throttled(j.admitted, s.limit)
    && (forall i :: 0 <= i < |j.admitted| ==> j.admitted[i].at <= now)
    && CallsAdmitted(j)
    && CallsInTimeOrder(j.calls, now)
    && forall b :: 0 <= b < |j.calls| ==> Gated(s, j.calls, b)
  }

  // ----- Every step keeps it -----

  lemma LaterSafe(s: Setup, j: Journal, now: real, later: real)
    requires Safe(s, j, now) && now <= later
    ensures Safe(s, j, later)
  {
  }

  lemma SpendKeepsAdmitted(j: Journal, a: Admission)
    requires CallsAdmitted(j)
    ensures CallsAdmitted(j.(admitted := j.admitted + [a]))
  {
    var j' := j.(admitted := j.admitted + [a]);
    forall name, lo, hi ensures CallsBetween(j'.calls, name, lo, hi) <= AdmittedBetween(j'.admitted, name, lo, hi) {
      assert j'.admitted[..|j.admitted|] == j.admitted;
      assert CallsBetween(j.calls, name, lo, hi) <= AdmittedBetween(j.admitted, name, lo, hi);
    }
  }

  lemma CallKeepsAdmitted(j: Journal, c: Call)
    requires CallsAdmitted(j)
    ensures CallsAdmitted(Journal(j.admitted + [Admission(c.name, c.visit.admit)], j.calls + [c]))
  {
    var j' := Journal(j.admitted + [Admission(c.name, c.visit.admit)], j.calls + [c]);
    forall name, lo, hi ensures CallsBetween(j'.calls, name, lo, hi) <= AdmittedBetween(j'.admitted, name, lo, hi) {
      assert j'.admitted[..|j.admitted|] == j.admitted && j'.calls[..|j.calls|] == j.calls;
      assert CallsBetween(j.calls, name, lo, hi) <= AdmittedBetween(j.admitted, name, lo, hi);
    }
  }

  lemma CallKeepsGated(s: Setup, calls: seq<Call>, c: Call)
    requires forall b :: 0 <= b < |calls| ==> Gated(s, calls, b)
    requires c.manager < |s.pools| && KeyActive(s.pools[c.manager], MarksOf(calls, c.manager), c.name, c.visit.gate)
    requires BreakerAllows(s, OutcomesOf(calls), c.name, c.visit.probe)
    ensures forall b :: 0 <= b < |calls + [c]| ==> Gated(s, calls + [c], b)
  {
    forall b | 0 <= b < |calls + [c]| ensures Gated(s, calls + [c], b) {
      if b < |calls| {
        assert Gated(s, calls, b);
        assert (calls + [c])[..b] == calls[..b];
      } else {
        assert (calls + [c])[..b] == calls;
      }
    }
  }

  lemma TokenKeepsSafe(s: Setup, j: Journal, now: real, a: Admission, later: real)
    requires Safe(s, j, now) && now <= a.at <= later && MayAdmit(j.admitted, s.limit, a.name, a.at)
    ensures Safe(s, j.(admitted := j.admitted + [a]), later)
  {
    ThrottledAppend(j.admitted, s.limit, a);
    SpendKeepsAdmitted(j, a);
  }

  lemma CallKeepsSafe(s: Setup, j: Journal, now: real, c: Call, later: real)
    requires Safe(s, j, now) && now <= c.visit.poll && InOrder(c.visit) && c.visit.record <= later
    requires MayAdmit(j.admitted, s.limit, c.name, c.visit.admit)
    requires c.manager < |s.pools| && KeyActive(s.pools[c.manager], MarksOf(j.calls, c.manager), c.name, c.visit.gate)
    requires BreakerAllows(s, OutcomesOf(j.calls), c.name, c.visit.probe)
    ensures Safe(s, Journal(j.admitted + [Admission(c.name, c.visit.admit)], j.calls + [c]), later)
  {
    ThrottledAppend(j.admitted, s.limit, Admission(c.name, c.visit.admit));
    CallKeepsAdmitted(j, c);
    CallKeepsGated(s, j.calls, c);
  }

  lemma {:induction false} TurnKeepsSafe(s: Setup, p: nat, name: string, i: nat, d: Decision, st: PassState, v: Visit, later: real)
    requires p < |s.pools| && Safe(s, st.journal, v.poll) && InOrder(v) && v.record <= later
    requires d == Decide(s, s.pools[p], s.pools[p].manager, name, st.journal, v)
    ensures Safe(s, TakeTurn(d, s.pools[p], s.pools[p].manager, name, i, st, v).state.journal, later)
  {
    if d == SkipOpen {
      TokenKeepsSafe(s, st.journal, v.poll, Admission(name, v.admit), later);
    } else if d == Proceed {
      CallKeepsSafe(s, st.journal, v.poll, Call(s.pools[p].manager, i, name, v), later);
    } else {
      LaterSafe(s, st.journal, v.poll, later);
    }
  }

  lemma KeyTurnKeepsSafe(s: Setup, p: nat, i: nat, st: PassState, w: World, n: nat)
    requires p < |s.pools| && i < |s.pools[p].names| && Orderly(w) && Safe(s, st.journal, w(n + i).poll)
    ensures var turn := KeyTurn(GatesOf(s, s.pools[p], s.pools[p].manager, w, n), s.pools[p], s.pools[p].manager, w, n);
            Safe(s, turn(s.pools[p].names[i], i, st).state.journal, w(n + (i + 1)).poll)
  {
    var name, v := s.pools[p].names[i], w(n + i);
    assert Follows(w, n + i) && n + (i + 1) == n + i + 1;
    TurnKeepsSafe(s, p, name, i, Decide(s, s.pools[p], s.pools[p].manager, name, st.journal, v), st, v, w(n + (i + 1)).poll);
  }

  /** Every turn, from the visit of that turn on to the next, keeps the invariant. */
  ghost predicate TurnsSafely(s: Setup, names: seq<string>, turn: (string, nat, PassState) -> Step<PassState, Ending>,
                              w: World, n: nat)
  {
    forall k: nat, st: PassState :: k < |names| && Safe(s, st.journal, w(n + k).poll) ==>
      Safe(s, turn(names[k], k, st).state.journal, w(n + (k + 1)).poll)
  }

  lemma KeyTurnsSafely(s: Setup, p: nat, w: World, n: nat)
    requires p < |s.pools| && Orderly(w)
    ensures TurnsSafely(s, s.pools[p].names, KeyTurn(GatesOf(s, s.pools[p], s.pools[p].manager, w, n), s.pools[p], s.pools[p].manager, w, n), w, n)
  {
    var turn := KeyTurn(GatesOf(s, s.pools[p], s.pools[p].manager, w, n), s.pools[p], s.pools[p].manager, w, n);
    forall k: nat, st: PassState | k < |s.pools[p].names| && Safe(s, st.journal, w(n + k).poll)
      ensures Safe(s, turn(s.pools[p].names[k], k, st).state.journal, w(n + (k + 1)).poll)
    {
      KeyTurnKeepsSafe(s, p, k, st, w, n);
    }
  }

  lemma {:induction false} TurnsAreSafe(s: Setup, names: seq<string>, turn: (string, nat, PassState) -> Step<PassState, Ending>,
                                        i: nat, st: PassState, w: World, n: nat)
    requires i <= |names| && TurnsSafely(s, names, turn, w, n) && Safe(s, st.journal, w(n).poll)
    ensures Safe(s, StateBefore(turn, names, i, st).journal, w(n + i).poll)
  {
    if i == 0 {
    } else {
      TurnsAreSafe(s, names, turn, i - 1, st, w, n);
      var before := StateBefore(turn, names, i - 1, st);
      assert n + ((i - 1) + 1) == n + i;
    }
  }

  lemma BeforeIsSafe(s: Setup, p: nat, i: nat, j: Journal, w: World, n: nat)
    requires p < |s.pools| && i <= |s.pools[p].names| && Orderly(w) && Safe(s, j, w(n).poll)
    ensures Safe(s, Before(GatesOf(s, s.pools[p], s.pools[p].manager, w, n), s.pools[p], s.pools[p].manager, i, j, w, n).journal, w(n + i).poll)
  {
    KeyTurnsSafely(s, p, w, n);
    TurnsAreSafe(s, s.pools[p].names, KeyTurn(GatesOf(s, s.pools[p], s.pools[p].manager, w, n), s.pools[p], s.pools[p].manager, w, n), i, PassState(j, None), w, n);
  }

  lemma PassIsSafe(s: Setup, p: nat, j: Journal, w: World, n: nat)
    requires p < |s.pools| && Orderly(w) && Safe(s, j, w(n).poll)
    ensures var r := PassOver(s, s.pools[p], j, w, n); Safe(s, r.journal, w(r.next).poll)
  {
    var g := GatesOf(s, s.pools[p], s.pools[p].manager, w, n);
    PassEnds(g, s.pools[p], s.pools[p].manager, j, w, n);
    BeforeIsSafe(s, p, Turns(g, s.pools[p], s.pools[p].manager, j, w, n), j, w, n);
  }

  ghost predicate SafeNow(s: Setup, st: PoolsState, w: World) {
    Safe(s, st.journal, w(st.next).poll)
  }

  lemma TryPoolIsSafe(s: Setup, p: nat, st: PoolsState, w: World)
    requires p < |s.pools| && Orderly(w) && SafeNow(s, st, w)
    ensures SafeNow(s, TryPool(s, s.pools[p], st, w).state, w)
  {
    PassIsSafe(s, p, st.journal, w, st.next);
  }

  /** The turn for any pool keeps the invariant. */
  ghost predicate PoolsSafely(s: Setup, turn: (PoolSetup, nat, PoolsState) -> Step<PoolsState, Ending>, w: World) {
    forall k: nat, st: PoolsState :: k < |s.pools| && SafeNow(s, st, w) ==> SafeNow(s, turn(s.pools[k], k, st).state, w)
  }

  lemma PoolTurnsSafely(s: Setup, w: World)
    requires Orderly(w)
    ensures PoolsSafely(s, PoolTurn(s, w), w)
  {
    var turn := PoolTurn(s, w);
    forall k: nat, st: PoolsState | k < |s.pools| && SafeNow(s, st, w) ensures SafeNow(s, turn(s.pools[k], k, st).state, w) {
      TryPoolIsSafe(s, k, st, w);
    }
  }

  lemma {:induction false} PoolsAreSafe(s: Setup, turn: (PoolSetup, nat, PoolsState) -> Step<PoolsState, Ending>, p: nat,
                                        st: PoolsState, w: World)
    requires p <= |s.pools| && PoolsSafely(s, turn, w) && SafeNow(s, st, w)
    ensures SafeNow(s, StateBefore(turn, s.pools, p, st), w)
  {
    if p > 0 {
      PoolsAreSafe(s, turn, p - 1, st, w);
      assert SafeNow(s, turn(s.pools[p - 1], p - 1, StateBefore(turn, s.pools, p - 1, st)).state, w);
    }
  }

  lemma ReachIsSafe(s: Setup, p: nat, j: Journal, w: World, n: nat)
    requires p <= |s.pools| && Orderly(w) && Safe(s, j, w(n).poll)
    ensures SafeNow(s, Reach(s, p, j, w, n), w)
  {
    PoolTurnsSafely(s, w);
    PoolsAreSafe(s, PoolTurn(s, w), p, PoolsState(j, n, []), w);
  }

  /** One `complete` call keeps the invariant. */
  lemma CompleteIsSafe(s: Setup, j: Journal, w: World, n: nat)
    requires Orderly(w) && Safe(s, j, w(n).poll)
    ensures var r := Complete(s, j, w, n); Safe(s, r.journal, w(r.next).poll)
  {
    if !AnyConfigured(s) {
    } else if |s.pools| == 1 {
      PassIsSafe(s, 0, j, w, n);
    } else {
      LoopMeaning(PoolTurn(s, w), s.pools, PoolsState(j, n, []));
      var e := Loop(PoolTurn(s, w), s.pools, 0, PoolsState(j, n, [])).1;
      ReachIsSafe(s, e, j, w, n);
      if e < |s.pools| {
        TryPoolIsSafe(s, e, Reach(s, e, j, w, n), w);
      }
    }
  }

  // ----- Whole runs -----

  /** The logs, and the next visit, after `k` sequential `complete` calls on a new gateway. */
  function AfterCompletes(s: Setup, k: nat, w: World, n: nat): (Journal, nat) {
    if k == 0 then (Journal([], []), n)
    else
      var (j, n') := AfterCompletes(s, k - 1, w, n);
      var r := Complete(s, j, w, n');
      (r.journal, r.next)
  }

  lemma {:induction false} EveryRunIsSafe(s: Setup, k: nat, w: World, n: nat)
    requires Orderly(w) && WellWired(s)
    ensures var (j, n') := AfterCompletes(s, k, w, n); Safe(s, j, w(n').poll)
  {
    if k == 0 {
    } else {
      EveryRunIsSafe(s, k - 1, w, n);
      var (j, n') := AfterCompletes(s, k - 1, w, n);
      CompleteIsSafe(s, j, w, n');
    }
  }

  /** Over every run, no closed 60-second interval holds more than `limit` chat calls on one key
      name, whichever pools they came from. */
  lemma {:induction false} RateOfEveryRun(s: Setup, k: nat, w: World, n: nat, name: string, start: real)
    requires Orderly(w) && WellWired(s)
    ensures CallsBetween(AfterCompletes(s, k, w, n).0.calls, name, start, start + 60.0) <= s.limit
  {
    EveryRunIsSafe(s, k, w, n);
    WindowBound(AfterCompletes(s, k, w, n).0.admitted, s.limit, name, start);
  }

  // ----- All keys together -----

  /** How many calls, on whatever key, were admitted between `lo` and `hi`. */
  function AllBetween(calls: seq<Call>, lo: real, hi: real): nat {
    if calls == [] then 0
    else
      var last := calls[|calls| - 1];
      AllBetween(calls[..|calls| - 1], lo, hi) + if lo <= last.visit.admit <= hi then 1 else 0
  }

  /** How many of them were on one of these keys. */
  function AmongBetween(calls: seq<Call>, names: set<string>, lo: real, hi: real): nat {
    if calls == [] then 0
    else
      var last := calls[|calls| - 1];
      AmongBetween(calls[..|calls| - 1], names, lo, hi)
      + if last.name in names && lo <= last.visit.admit <= hi then 1 else 0
  }

  lemma {:induction false} AllAreAmong(calls: seq<Call>, names: set<string>, lo: real, hi: real)
    requires forall a :: 0 <= a < |calls| ==> calls[a].name in names
    ensures AllBetween(calls, lo, hi) == AmongBetween(calls, names, lo, hi)
  {
    if calls != [] {
      AllAreAmong(calls[..|calls| - 1], names, lo, hi);
    }
  }

  lemma {:induction false} NoneAmong(calls: seq<Call>, lo: real, hi: real)
    ensures AmongBetween(calls, {}, lo, hi) == 0
  {
    if calls != [] {
      NoneAmong(calls[..|calls| - 1], lo, hi);
    }
  }

  /** The calls on one of the keys, and those on the others. */
  lemma {:induction false} TakeOneName(calls: seq<Call>, names: set<string>, name: string, lo: real, hi: real)
    requires name in names
    ensures AmongBetween(calls, names, lo, hi)
         == CallsBetween(calls, name, lo, hi) + AmongBetween(calls, names - {name}, lo, hi)
  {
    if calls != [] {
      TakeOneName(calls[..|calls| - 1], names, name, lo, hi);
    }
  }

  lemma OneMoreTimes(n: nat, limit: nat)
    ensures (n + 1) * limit == n * limit + limit
  {
  }

  lemma {:induction false} AmongBounded(calls: seq<Call>, names: set<string>, lo: real, hi: real, limit: nat)
    requires forall name :: name in names ==> CallsBetween(calls, name, lo, hi) <= limit
    ensures AmongBetween(calls, names, lo, hi) <= |names| * limit
    decreases names
  {
    if names == {} {
      NoneAmong(calls, lo, hi);
    } else {
      var name :| name in names;
      var others := names - {name};
      TakeOneName(calls, names, name, lo, hi);
      AmongBounded(calls, others, lo, hi, limit);
      OneMoreTimes(|others|, limit);
      assert |names| == |others| + 1;
    }
  }

  /** The names of all keys of all pools. */
  function KeyNames(s: Setup): set<string> {
    set p, i | 0 <= p < |s.pools| && 0 <= i < |s.pools[p].names| :: s.pools[p].names[i]
  }

  /** The documented ceiling over all keys, the ceiling of one key times the number of keys, holds
      over every run although the code never checks it. */
  lemma CeilingOfEveryRun(s: Setup, k: nat, w: World, n: nat, start: real)
    requires Orderly(w) && WellWired(s)
    ensures AllBetween(AfterCompletes(s, k, w, n).0.calls, start, start + 60.0) <= |KeyNames(s)| * s.limit
  {
    var calls := AfterCompletes(s, k, w, n).0.calls;
    EveryRunIsSafe(s, k, w, n);
    forall a | 0 <= a < |calls| ensures calls[a].name in KeyNames(s) {
      assert Gated(s, calls, a) && calls[a].name in s.pools[calls[a].manager].names;
    }
    forall name | name in KeyNames(s)
      ensures CallsBetween(calls, name, start, start + 60.0) <= s.limit
    {
      RateOfEveryRun(s, k, w, n, name, start);
    }
    AllAreAmong(calls, KeyNames(s), start, start + 60.0);
    AmongBounded(calls, KeyNames(s), start, start + 60.0, s.limit);
  }

  // ----- Key cooldown and disabling -----

  ghost predicate SameKey(a: Call, b: Call) {
    a.manager == b.manager && a.name == b.name
  }

  function EffectOfCall(c: Call): KM.Effect {
    KM.EffectOf(MarkOf(c).verdict)
  }

  /** The mark that decides a key's state before call `b` came from some call `d`, and `d` is not
      earlier than any effective call on that key. */
  lemma {:induction false} DecisiveCall(calls: seq<Call>, a: nat, b: nat) returns (d: nat)
    requires a < b <= |calls| && EffectOfCall(calls[a]) != KM.NoEffect
    ensures a <= d < b && SameKey(calls[a], calls[d])
    ensures KM.Decisive(MarksOf(calls[..b], calls[a].manager), calls[a].name) == Some(MarkOf(calls[d]))
  {
    var c, p, name := calls[b - 1], calls[a].manager, calls[a].name;
    var marks := MarksOf(calls[..b - 1], p);
    assert calls[..b] == calls[..b - 1] + [c];
    AppendCall(calls[..b - 1], c, p);
    KM.AppendMark(marks, MarkOf(c), name);
    if SameKey(calls[a], c) && EffectOfCall(c) != KM.NoEffect {
      d := b - 1;
      assert MarksOf(calls[..b], p) == marks + [MarkOf(c)];
    } else {
      d := DecisiveCall(calls, a, b - 1);
      assert MarksOf(calls[..b], p) == marks || MarksOf(calls[..b], p) == marks + [MarkOf(c)];
    }
  }

  /** After a failure that disables or cools a key, the same key manager's key is called again only if
      the failure was of the cooling kind and its whole cooldown has passed. */
  lemma {:induction false} NoEarlyReturn(s: Setup, j: Journal, now: real, a: nat, b: nat)
    requires Safe(s, j, now) && a < b < |j.calls| && SameKey(j.calls[a], j.calls[b])
    requires EffectOfCall(j.calls[a]) in {KM.Disables, KM.Cools}
    ensures EffectOfCall(j.calls[a]) == KM.Cools && j.calls[b].manager < |s.pools|
    ensures j.calls[b].visit.gate >= j.calls[a].visit.mark + s.pools[j.calls[b].manager].cooldown
    decreases b
  {
    assert Gated(s, j.calls, b);
    var d := DecisiveCall(j.calls, a, b);
    if d > a {
      NoEarlyReturn(s, j, now, a, d);
      assert InOrder(j.calls[d].visit) && InOrder(j.calls[b].visit);
    }
  }

  /** Over every run: a key of a key manager is never called again once its credential was rejected, by
      whichever of the pools that use it, ... */
  lemma {:induction false} RejectedKeyIsNeverCalled(s: Setup, k: nat, w: World, n: nat, a: nat, b: nat)
    requires Orderly(w) && WellWired(s)
    requires var calls := AfterCompletes(s, k, w, n).0.calls;
             && a < b < |calls| && SameKey(calls[a], calls[b])
    ensures AfterCompletes(s, k, w, n).0.calls[a].visit.reply != Refusal("INVALID_CREDENTIALS")
  {
    EveryRunIsSafe(s, k, w, n);
    var (j, n') := AfterCompletes(s, k, w, n);
    if j.calls[a].visit.reply == Refusal("INVALID_CREDENTIALS") {
      NoEarlyReturn(s, j, w(n').poll, a, b);
    }
  }

  /** ... nor before the key's cooldown has passed since any earlier cooling failure (a 403
      among them). */
  lemma {:induction false} KeyCooldownIsKept(s: Setup, k: nat, w: World, n: nat, a: nat, b: nat)
    requires Orderly(w) && WellWired(s)
    requires var calls := AfterCompletes(s, k, w, n).0.calls;
             && a < b < |calls| && SameKey(calls[a], calls[b])
             && calls[a].visit.reply.Refusal?
             && calls[a].visit.reply.code in {"RATE_LIMIT", "SERVER", "TIMEOUT", "NETWORK", "FORBIDDEN"}
    ensures var calls := AfterCompletes(s, k, w, n).0.calls;
            && calls[b].manager < |s.pools|
            && calls[b].visit.start >= calls[a].visit.mark + s.pools[calls[b].manager].cooldown
  {
    EveryRunIsSafe(s, k, w, n);
    var (j, n') := AfterCompletes(s, k, w, n);
    assert EffectOfCall(j.calls[a]) == KM.Cools;
    NoEarlyReturn(s, j, w(n').poll, a, b);
    assert Gated(s, j.calls, b) && InOrder(j.calls[b].visit);
  }

  /** The calls on one name, in order, from whatever pools. */
  function CallsOn(calls: seq<Call>, name: string): seq<Call> {
    if calls == [] then []
    else CallsOn(calls[..|calls| - 1], name) + if calls[|calls| - 1].name == name then [calls[|calls| - 1]] else []
  }

  /** What the breaker hears of a name: for each call on it, whether it was answered and when. */
  lemma {:induction false} OutcomesAre(calls: seq<Call>, name: string)
    ensures var own, heard := CallsOn(calls, name), OwnOf(OutcomesOf(calls), name);
            && |heard| == |own|
            && forall i :: 0 <= i < |own| ==> heard[i] == Outcome(name, own[i].visit.reply.Answer?, own[i].visit.record)
  {
    if calls != [] {
      var front, last := calls[..|calls| - 1], calls[|calls| - 1];
      OutcomesAre(front, name);
      var outcomes, o := OutcomesOf(front), Outcome(last.name, last.visit.reply.Answer?, last.visit.record);
      assert (outcomes + [o])[..|outcomes|] == outcomes;
    }
  }

  /** What a key manager hears: for each call on it, the verdict, the whole milliseconds and when. */
  lemma {:induction false} MarksAre(calls: seq<Call>, m: nat)
    ensures var own, heard := CallsOf(calls, m), MarksOf(calls, m);
            && |heard| == |own|
            && forall i :: 0 <= i < |own| ==>
                 heard[i] == KM.Mark(own[i].name,
                                     match own[i].visit.reply case Answer(_, _, _) => KM.Succeeded case Refusal(c) => KM.Failed(c),
                                     ((own[i].visit.done - own[i].visit.start) * 1000.0).Floor, own[i].visit.mark)
  {
    if calls != [] {
      MarksAre(calls[..|calls| - 1], m);
    }
  }

  /** The calls on the keys of one key manager, in order. */
  function CallsOf(calls: seq<Call>, m: nat): seq<Call> {
    if calls == [] then []
    else CallsOf(calls[..|calls| - 1], m) + if calls[|calls| - 1].manager == m then [calls[|calls| - 1]] else []
  }

  /** Over every run, when the last `threshold` calls on a name, in whatever pools, were all refused,
      the next one comes only after the breaker's cooldown has passed since the last of them. */
  lemma {:induction false} BreakerCooldownIsKept(s: Setup, k: nat, w: World, n: nat, b: nat)
    requires Orderly(w) && WellWired(s) && s.breaker.Some? && s.breaker.value.threshold >= 1
    requires b < |AfterCompletes(s, k, w, n).0.calls|
    requires var calls, t := AfterCompletes(s, k, w, n).0.calls, s.breaker.value.threshold;
             var own := CallsOn(calls[..b], calls[b].name);
             |own| >= t && forall i :: |own| - t <= i < |own| ==> own[i].visit.reply.Refusal?
    ensures var calls := AfterCompletes(s, k, w, n).0.calls;
            var own := CallsOn(calls[..b], calls[b].name);
            calls[b].visit.start >= own[|own| - 1].visit.record + s.breaker.value.cooldown
  {
    EveryRunIsSafe(s, k, w, n);
    var (j, n') := AfterCompletes(s, k, w, n);
    BreakerHolds(s, j, w(n').poll, b);
  }

  lemma BreakerHolds(s: Setup, j: Journal, now: real, b: nat)
    requires Safe(s, j, now) && s.breaker.Some? && s.breaker.value.threshold >= 1 && b < |j.calls|
    requires var own, t := CallsOn(j.calls[..b], j.calls[b].name), s.breaker.value.threshold;
             |own| >= t && forall i :: |own| - t <= i < |own| ==> own[i].visit.reply.Refusal?
    ensures var own := CallsOn(j.calls[..b], j.calls[b].name);
            j.calls[b].visit.start >= own[|own| - 1].visit.record + s.breaker.value.cooldown
  {
    assert Gated(s, j.calls, b) && InOrder(j.calls[b].visit);
    var name, breaker := j.calls[b].name, s.breaker.value;
    OutcomesAre(j.calls[..b], name);
    assert LastFailed(OwnOf(OutcomesOf(j.calls[..b]), name), breaker.threshold);
    StateMeaning(OutcomesOf(j.calls[..b]), breaker.threshold, breaker.cooldown, name, j.calls[b].visit.probe);
  }
}
