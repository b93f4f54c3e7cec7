/** app/kela_ai/gateway.py: what one pass over a pool and one `complete` call mean.

    Every quantity the gateway consults is a function of two logs: the admissions the rate
    limiter granted and the chat calls that were made.  This module states one pass and one
    `complete` on those logs; GatewayClass.dfy proves the loops over the mutable components
    against it, and GatewaySafety.dfy proves what holds over whole runs. */
module Gateway {
  import opened Wrappers
  import opened RateLimiter
  import opened CircuitBreaker
  import opened Loops
  import KM = KeyManager

  const CODE_NO_KEYS := "NO_KEYS"
  const CODE_EXHAUSTED := "EXHAUSTED"

  /** What the chat client does with one call. */
  datatype Reply = Answer(content: string, inputTokens: int, outputTokens: int) | Refusal(code: string)

  /** The clock readings of one turn of the key loop, in the order the code takes them, and the
      reply the client would give in that turn. */
  datatype Visit = Visit(poll: real, gate: real, admit: real, probe: real, start: real, done: real,
                         mark: real, record: real, reply: Reply)

  /** The environment: the visits of a whole run, in order. */
  type World = nat -> Visit

  ghost predicate InOrder(v: Visit) {
    v.poll <= v.gate <= v.admit <= v.probe <= v.start <= v.done <= v.mark <= v.record
  }

  ghost predicate Follows(w: World, n: nat) {
    w(n).record <= w(n + 1).poll
  }

  /** The clock never runs backwards. */
  ghost predicate Orderly(w: World) {
    && (forall n: nat :: InOrder(w(n)))
    && forall n: nat :: Follows(w, n)
  }

  /** A pool.  Pools may share a key manager: `manager` numbers the first pool that uses the same one. */
  datatype PoolSetup = PoolSetup(provider: string, model: string, manager: nat, names: seq<string>, cooldown: real)

  datatype BreakerSetup = BreakerSetup(threshold: nat, cooldown: real)

  /** The fixed configuration; a pool without a key manager is a pool without names. */
  datatype Setup = Setup(pools: seq<PoolSetup>, limit: nat, breaker: Option<BreakerSetup>)

  /** Pools that share a key manager have its keys and its cooldown. */
  ghost predicate WellWired(s: Setup) {
    forall p {:trigger s.pools[p].manager} :: 0 <= p < |s.pools| ==>
      var m := s.pools[p].manager;
      m <= p && s.pools[m].names == s.pools[p].names && s.pools[m].cooldown == s.pools[p].cooldown
  }

  predicate Configured(pool: PoolSetup) {
    pool.names != []
  }

  datatype Call = Call(manager: nat, position: nat, name: string, visit: Visit)

  datatype Journal = Journal(admitted: seq<Admission>, calls: seq<Call>)

  function Latency(v: Visit): int {
    ((v.done - v.start) * 1000.0).Floor
  }

  function MarkOf(c: Call): KM.Mark {
    KM.Mark(c.name, if c.visit.reply.Answer? then KM.Succeeded else KM.Failed(c.visit.reply.code),
            Latency(c.visit), c.visit.mark)
  }

  /** What key manager number `m` is told. */
  function MarksOf(calls: seq<Call>, m: nat): seq<KM.Mark> {
    if calls == [] then []
    else
      var last := calls[|calls| - 1];
      MarksOf(calls[..|calls| - 1], m) + if last.manager == m then [MarkOf(last)] else []
  }

  /** What the breaker is told; it is shared by all pools. */
  function OutcomesOf(calls: seq<Call>): seq<Outcome> {
    if calls == [] then []
    else
      var last := calls[|calls| - 1];
      OutcomesOf(calls[..|calls| - 1]) + [Outcome(last.name, last.visit.reply.Answer?, last.visit.record)]
  }

  lemma AppendCall(calls: seq<Call>, c: Call, m: nat)
    ensures MarksOf(calls + [c], m) == MarksOf(calls, m) + if c.manager == m then [MarkOf(c)] else []
    ensures OutcomesOf(calls + [c])
         == OutcomesOf(calls) + [Outcome(c.name, c.visit.reply.Answer?, c.visit.record)]
  {
    assert (calls + [c])[..|calls|] == calls;
  }

  // ----- One turn of the key loop -----

  predicate KeyActive(pool: PoolSetup, marks: seq<KM.Mark>, name: string, now: real) {
    KM.StateAt(pool.names, marks, pool.cooldown, name, now) == KM.Active
  }

  predicate SomeKeyActive(pool: PoolSetup, marks: seq<KM.Mark>, now: real) {
    exists k :: 0 <= k < |pool.names| && KeyActive(pool, marks, pool.names[k], now)
  }

  predicate BreakerAllows(s: Setup, outcomes: seq<Outcome>, name: string, now: real) {
    s.breaker.Some? ==>
      StateAt(outcomes, s.breaker.value.threshold, s.breaker.value.cooldown, name, now) != Open
  }

  datatype Decision = Stop | SkipInactive | SkipThrottled | SkipOpen | Proceed

  /** What the loop does with a key, given what the three components have seen. */
  function Gate(s: Setup, pool: PoolSetup, marks: seq<KM.Mark>, admitted: seq<Admission>, outcomes: seq<Outcome>,
                name: string, v: Visit): Decision
  {
    if !SomeKeyActive(pool, marks, v.poll) then Stop
    else if !KeyActive(pool, marks, name, v.gate) then SkipInactive
    else if !MayAdmit(admitted, s.limit, name, v.admit) then SkipThrottled
    else if !BreakerAllows(s, outcomes, name, v.probe) then SkipOpen
    else Proceed
  }

  function Decide(s: Setup, pool: PoolSetup, m: nat, name: string, j: Journal, v: Visit): Decision {
    Gate(s, pool, MarksOf(j.calls, m), j.admitted, OutcomesOf(j.calls), name, v)
  }

  datatype AIResult = AIResult(content: string, inputTokens: int, outputTokens: int, latency: int,
                               keyName: string, model: string, provider: string)

  /** A result, or `AIUnavailable` with its error code. */
  datatype Ending = Got(result: AIResult) | Unavailable(code: string)

  function ResultOf(pool: PoolSetup, name: string, v: Visit): AIResult
    requires v.reply.Answer?
  {
    AIResult(v.reply.content, v.reply.inputTokens, v.reply.outputTokens, Latency(v), name, pool.model, pool.provider)
  }

  function GiveUp(lastCode: Option<string>): Ending {
    Unavailable(match lastCode case None => CODE_EXHAUSTED case Some(code) => code)
  }

  /** The two logs, and the code of the last call that failed in this pass. */
  datatype PassState = PassState(journal: Journal, lastCode: Option<string>)

  /** The turn for the key at position `i`.  A key that the breaker holds back has already spent
      a token. */
  function TakeTurn(d: Decision, pool: PoolSetup, m: nat, name: string, i: nat, st: PassState, v: Visit)
    : Step<PassState, Ending>
  {
    var spent := st.journal.admitted + [Admission(name, v.admit)];
    match d
    case Stop => Finish(GiveUp(st.lastCode), st)
    case SkipInactive => GoOn(st)
    case SkipThrottled => GoOn(st)
    case SkipOpen => GoOn(st.(journal := st.journal.(admitted := spent)))
    case Proceed =>
      var j := Journal(spent, st.journal.calls + [Call(m, i, name, v)]);
      if v.reply.Answer? then Finish(Got(ResultOf(pool, name, v)), st.(journal := j))
      else GoOn(PassState(j, Some(v.reply.code)))
  }

  /** The decisions of one pass, as a function of the key, its position and the logs. */
  type Gates = (string, nat, Journal) -> Decision

  function GatesOf(s: Setup, pool: PoolSetup, m: nat, w: World, n: nat): Gates {
    (name: string, i: nat, j: Journal) => Decide(s, pool, m, name, j, w(n + i))
  }

  function KeyTurn(g: Gates, pool: PoolSetup, m: nat, w: World, n: nat): (string, nat, PassState) -> Step<PassState, Ending> {
    (name: string, i: nat, st: PassState) => TakeTurn(g(name, i, st.journal), pool, m, name, i, st, w(n + i))
  }

  // ----- One pass over the keys of a pool -----

  datatype Run = Run(ending: Ending, journal: Journal, next: nat)

  /** How a loop over the keys that ended at turn `e` ends the pass. */
  function RunOf(step: Step<PassState, Ending>, n: nat, e: nat): Run {
    match step
    case Finish(ending, st) => Run(ending, st.journal, n + e + 1)
    case GoOn(st) => Run(GiveUp(st.lastCode), st.journal, n + e)
  }

  /** `_complete_with_pool` on a pool whose key manager is number `m`, taking its visits from number `n` on. */
  function Pass(g: Gates, pool: PoolSetup, m: nat, j: Journal, w: World, n: nat): Run {
    var (step, e) := Loop(KeyTurn(g, pool, m, w, n), pool.names, 0, PassState(j, None));
    RunOf(step, n, e)
  }

  /** The turn at which the pass ends; past the last key if no turn ends it. */
  function EndTurn(g: Gates, pool: PoolSetup, m: nat, j: Journal, w: World, n: nat): nat {
    Loop(KeyTurn(g, pool, m, w, n), pool.names, 0, PassState(j, None)).1
  }

  /** The logs before turn `i`, when no earlier turn ended the pass. */
  function Before(g: Gates, pool: PoolSetup, m: nat, i: nat, j: Journal, w: World, n: nat): PassState
    requires i <= |pool.names|
  {
    StateBefore(KeyTurn(g, pool, m, w, n), pool.names, i, PassState(j, None))
  }

  function DecisionAt(g: Gates, pool: PoolSetup, m: nat, i: nat, j: Journal, w: World, n: nat): Decision
    requires i < |pool.names|
  {
    g(pool.names[i], i, Before(g, pool, m, i, j, w, n).journal)
  }

  /** Turn `i` ends the pass: nothing is active, or the call is answered. */
  predicate EndsAt(g: Gates, pool: PoolSetup, m: nat, i: nat, j: Journal, w: World, n: nat)
    requires i < |pool.names|
  {
    var d := DecisionAt(g, pool, m, i, j, w, n);
    d == Stop || (d == Proceed && w(n + i).reply.Answer?)
  }

  lemma FinishesIsEndsAt(g: Gates, pool: PoolSetup, m: nat, i: nat, j: Journal, w: World, n: nat)
    requires i < |pool.names|
    ensures Finishes(KeyTurn(g, pool, m, w, n), pool.names, i, PassState(j, None)) == EndsAt(g, pool, m, i, j, w, n)
  {
    TurnAt(g, pool, m, i, j, w, n);
  }

  /** Turn `i` of the loop, spelled out. */
  lemma TurnAt(g: Gates, pool: PoolSetup, m: nat, i: nat, j: Journal, w: World, n: nat)
    requires i < |pool.names|
    ensures KeyTurn(g, pool, m, w, n)(pool.names[i], i, Before(g, pool, m, i, j, w, n))
         == TakeTurn(DecisionAt(g, pool, m, i, j, w, n), pool, m, pool.names[i], i,
                     Before(g, pool, m, i, j, w, n), w(n + i))
    ensures Before(g, pool, m, i + 1, j, w, n)
         == TakeTurn(DecisionAt(g, pool, m, i, j, w, n), pool, m, pool.names[i], i,
                     Before(g, pool, m, i, j, w, n), w(n + i)).state
  {
  }

  /** How many turns the pass takes, the one that ends it included. */
  function Turns(g: Gates, pool: PoolSetup, m: nat, j: Journal, w: World, n: nat): nat {
    if EndTurn(g, pool, m, j, w, n) < |pool.names| then EndTurn(g, pool, m, j, w, n) + 1 else |pool.names|
  }

  /** The logs and the next visit at the end of a pass. */
  lemma PassEnds(g: Gates, pool: PoolSetup, m: nat, j: Journal, w: World, n: nat)
    ensures var r, k := Pass(g, pool, m, j, w, n), Turns(g, pool, m, j, w, n);
            k <= |pool.names| && r.journal == Before(g, pool, m, k, j, w, n).journal && r.next == n + k
  {
    LoopMeaning(KeyTurn(g, pool, m, w, n), pool.names, PassState(j, None));
  }

  /** What a pass means.  It ends at the first turn whose call is answered, with that key's
      answer; otherwise it gives up, past the last key or at an instant at which no key of the
      pool is active. */
  lemma PassMeaning(g: Gates, pool: PoolSetup, m: nat, j: Journal, w: World, n: nat)
    ensures var r, e := Pass(g, pool, m, j, w, n), EndTurn(g, pool, m, j, w, n);
            && e <= |pool.names|
            && (forall i :: 0 <= i < e ==> !EndsAt(g, pool, m, i, j, w, n))
            && (e < |pool.names| ==> EndsAt(g, pool, m, e, j, w, n) && r.next == n + e + 1)
            && (if e < |pool.names| && DecisionAt(g, pool, m, e, j, w, n) == Proceed then
                  r.ending == Got(ResultOf(pool, pool.names[e], w(n + e)))
                else
                  && r.ending == GiveUp(Before(g, pool, m, e, j, w, n).lastCode)
                  && r.journal == Before(g, pool, m, e, j, w, n).journal
                  && (e < |pool.names| ==> g(pool.names[e], e, r.journal) == Stop))
  {
    var turn, st := KeyTurn(g, pool, m, w, n), PassState(j, None);
    LoopMeaning(turn, pool.names, st);
    var (step, e) := Loop(turn, pool.names, 0, st);
    forall i | 0 <= i < e ensures !EndsAt(g, pool, m, i, j, w, n) {
      assert !Finishes(turn, pool.names, i, st);
      FinishesIsEndsAt(g, pool, m, i, j, w, n);
    }
    if e < |pool.names| {
      TurnAt(g, pool, m, e, j, w, n);
    }
  }

  /** The calls `more` were made with key manager `m`, at positions before `hi`, each position at most once
      and in order, with the visits of those turns. */
  ghost predicate CalledInOrder(pool: PoolSetup, m: nat, more: seq<Call>, hi: nat, w: World, n: nat) {
    && (forall a :: 0 <= a < |more| ==>
          && more[a].manager == m && more[a].position < hi && more[a].position < |pool.names|
          && more[a].name == pool.names[more[a].position]
          && more[a].visit == w(n + more[a].position))
    && forall a, b :: 0 <= a < b < |more| ==> more[a].position < more[b].position
  }

  ghost predicate AllRefused(calls: seq<Call>) {
    forall a :: 0 <= a < |calls| ==> calls[a].visit.reply.Refusal?
  }

  /** The code of the last of these calls. */
  function LastRefusal(calls: seq<Call>): Option<string> {
    if calls != [] && calls[|calls| - 1].visit.reply.Refusal? then Some(calls[|calls| - 1].visit.reply.code) else None
  }

  /** A turn makes one call if it gets past the gates, and otherwise none. */
  lemma TurnCalls(g: Gates, pool: PoolSetup, m: nat, i: nat, j: Journal, w: World, n: nat) returns (made: seq<Call>)
    requires i < |pool.names|
    ensures made == if DecisionAt(g, pool, m, i, j, w, n) == Proceed then [Call(m, i, pool.names[i], w(n + i))] else []
    ensures var st, st' := Before(g, pool, m, i, j, w, n), Before(g, pool, m, i + 1, j, w, n);
            && st'.journal.calls == st.journal.calls + made
            && (!EndsAt(g, pool, m, i, j, w, n) ==>
                  && (made != [] ==> w(n + i).reply.Refusal?)
                  && st'.lastCode == if made == [] then st.lastCode else Some(w(n + i).reply.code))
  {
    TurnAt(g, pool, m, i, j, w, n);
    made := if DecisionAt(g, pool, m, i, j, w, n) == Proceed then [Call(m, i, pool.names[i], w(n + i))] else [];
  }

  /** The state `st` of a pass that made the calls `more` at the positions before `k`, in vain. */
  ghost predicate InVain(pool: PoolSetup, m: nat, k: nat, j: Journal, more: seq<Call>, st: PassState, w: World, n: nat) {
    && st.journal.calls == j.calls + more && CalledInOrder(pool, m, more, k, w, n) && AllRefused(more)
    && st.lastCode == LastRefusal(more)
  }

  lemma OrderExtends(pool: PoolSetup, m: nat, rest: seq<Call>, i: nat, c: Call, w: World, n: nat)
    requires i < |pool.names| && CalledInOrder(pool, m, rest, i, w, n) && c == Call(m, i, pool.names[i], w(n + i))
    ensures CalledInOrder(pool, m, rest + [c], i + 1, w, n)
  {
    var all := rest + [c];
    forall a | 0 <= a < |all|
      ensures && all[a].manager == m && all[a].position < i + 1 && all[a].position < |pool.names|
              && all[a].name == pool.names[all[a].position]
              && all[a].visit == w(n + all[a].position)
    {
      if a < |rest| {
        assert all[a] == rest[a];
      } else {
        assert all[a] == c;
      }
    }
    forall a, b | 0 <= a < b < |all| ensures all[a].position < all[b].position {
      assert all[a] == rest[a];
    }
  }

  lemma OneMoreInVain(pool: PoolSetup, m: nat, i: nat, j: Journal, rest: seq<Call>, made: seq<Call>,
                      st: PassState, st': PassState, w: World, n: nat)
    requires i < |pool.names| && InVain(pool, m, i, j, rest, st, w, n)
    requires made == [] || (made == [Call(m, i, pool.names[i], w(n + i))] && w(n + i).reply.Refusal?)
    requires st'.journal.calls == st.journal.calls + made
    requires st'.lastCode == if made == [] then st.lastCode else Some(w(n + i).reply.code)
    ensures InVain(pool, m, i + 1, j, rest + made, st', w, n)
  {
    assert j.calls + (rest + made) == (j.calls + rest) + made;
    if made == [] {
      assert rest + made == rest;
    } else {
      OrderExtends(pool, m, rest, i, made[0], w, n);
      assert (rest + made)[|rest|] == made[0];
    }
  }

  lemma TurnInVain(g: Gates, pool: PoolSetup, m: nat, i: nat, j: Journal, rest: seq<Call>, w: World, n: nat)
    returns (more: seq<Call>)
    requires i < |pool.names| && !EndsAt(g, pool, m, i, j, w, n)
    requires InVain(pool, m, i, j, rest, Before(g, pool, m, i, j, w, n), w, n)
    ensures InVain(pool, m, i + 1, j, more, Before(g, pool, m, i + 1, j, w, n), w, n)
  {
    var made := TurnCalls(g, pool, m, i, j, w, n);
    more := rest + made;
    OneMoreInVain(pool, m, i, j, rest, made, Before(g, pool, m, i, j, w, n), Before(g, pool, m, i + 1, j, w, n), w, n);
  }

  /** The turns before the end call keys at most once and in order, and all those calls fail. */
  lemma CallsBefore(g: Gates, pool: PoolSetup, m: nat, k: nat, j: Journal, w: World, n: nat)
    returns (more: seq<Call>)
    requires k <= |pool.names| && forall i :: 0 <= i < k ==> !EndsAt(g, pool, m, i, j, w, n)
    ensures InVain(pool, m, k, j, more, Before(g, pool, m, k, j, w, n), w, n)
  {
    more := [];
    assert j.calls + more == j.calls;
    for i := 0 to k
      invariant InVain(pool, m, i, j, more, Before(g, pool, m, i, j, w, n), w, n)
    {
      more := TurnInVain(g, pool, m, i, j, more, w, n);
    }
  }

  /** The calls `more` of a pass explain how it ended: each key was called at most once and in
      order, and every call but the last failed; the result is the answer to the last one, and if
      there is none the error code is that of the last call, or EXHAUSTED when no key was tried. */
  ghost predicate Explains(pool: PoolSetup, m: nat, j: Journal, r: Run, more: seq<Call>, w: World, n: nat) {
    && r.journal.calls == j.calls + more
    && CalledInOrder(pool, m, more, |pool.names|, w, n)
    && if r.ending.Got? then
         && more != [] && AllRefused(more[..|more| - 1])
         && more[|more| - 1].visit.reply.Answer?
         && r.ending.result == ResultOf(pool, more[|more| - 1].name, more[|more| - 1].visit)
       else
         AllRefused(more) && r.ending.code == if more == [] then "EXHAUSTED" else more[|more| - 1].visit.reply.code
  }

  lemma GivenUpInVain(pool: PoolSetup, m: nat, e: nat, j: Journal, rest: seq<Call>, st: PassState, next: nat, w: World, n: nat)
    requires e <= |pool.names| && InVain(pool, m, e, j, rest, st, w, n)
    ensures Explains(pool, m, j, Run(GiveUp(st.lastCode), st.journal, next), rest, w, n)
  {
  }

  lemma AnsweredLast(pool: PoolSetup, m: nat, e: nat, j: Journal, rest: seq<Call>, c: Call, all: seq<Call>, st: PassState,
                     r: Run, w: World, n: nat)
    requires e < |pool.names| && InVain(pool, m, e, j, rest, st, w, n) && w(n + e).reply.Answer?
    requires c == Call(m, e, pool.names[e], w(n + e)) && all == rest + [c]
    requires r.journal.calls == st.journal.calls + [c]
    requires r.ending == Got(ResultOf(pool, pool.names[e], w(n + e)))
    ensures Explains(pool, m, j, r, all, w, n)
  {
    assert j.calls + all == (j.calls + rest) + [c];
    AnsweredInOrder(pool, m, rest, e, c, w, n);
    assert all[..|all| - 1] == rest && all[|all| - 1] == c;
  }

  lemma AnsweredInOrder(pool: PoolSetup, m: nat, rest: seq<Call>, e: nat, c: Call, w: World, n: nat)
    requires e < |pool.names| && CalledInOrder(pool, m, rest, e, w, n)
    requires c == Call(m, e, pool.names[e], w(n + e))
    ensures CalledInOrder(pool, m, rest + [c], |pool.names|, w, n)
  {
    OrderExtends(pool, m, rest, e, c, w, n);
    OrderLoosens(pool, m, rest + [c], e + 1, w, n);
  }

  lemma OrderLoosens(pool: PoolSetup, m: nat, calls: seq<Call>, i: nat, w: World, n: nat)
    requires i <= |pool.names| && CalledInOrder(pool, m, calls, i, w, n)
    ensures CalledInOrder(pool, m, calls, |pool.names|, w, n)
  {
  }

  /** Every pass is explained by the calls it made. */
  lemma PassCalls(g: Gates, pool: PoolSetup, m: nat, j: Journal, w: World, n: nat) returns (more: seq<Call>)
    ensures Explains(pool, m, j, Pass(g, pool, m, j, w, n), more, w, n)
  {
    PassMeaning(g, pool, m, j, w, n);
    PassEnds(g, pool, m, j, w, n);
    var e, r := EndTurn(g, pool, m, j, w, n), Pass(g, pool, m, j, w, n);
    var st := Before(g, pool, m, e, j, w, n);
    more := CallsBefore(g, pool, m, e, j, w, n);
    if e < |pool.names| && DecisionAt(g, pool, m, e, j, w, n) == Proceed {
      var made := TurnCalls(g, pool, m, e, j, w, n);
      AnsweredLast(pool, m, e, j, more, made[0], more + made, st, r, w, n);
      more := more + made;
    } else {
      GivenUpInVain(pool, m, e, j, more, st, r.next, w, n);
    }
  }

  lemma {:induction false} OthersMarks(calls: seq<Call>, more: seq<Call>, q: nat)
    requires forall a :: 0 <= a < |more| ==> more[a].manager != q
    ensures MarksOf(calls + more, q) == MarksOf(calls, q)
  {
    if more == [] {
      assert calls + more == calls;
    } else {
      var front, last := more[..|more| - 1], more[|more| - 1];
      assert calls + more == (calls + front) + [last];
      assert last.manager != q;
      OthersMarks(calls, front, q);
      AppendCall(calls + front, last, q);
    }
  }

  /** A pass tells the other key managers nothing. */
  lemma PassKeepsOthers(g: Gates, pool: PoolSetup, m: nat, j: Journal, w: World, n: nat, q: nat)
    requires q != m
    ensures MarksOf(Pass(g, pool, m, j, w, n).journal.calls, q) == MarksOf(j.calls, q)
  {
    var more := PassCalls(g, pool, m, j, w, n);
    OthersMarks(j.calls, more, q);
  }

  /** A pass that stops early does so at an instant at which no key of the pool is active. */
  lemma StopsOnlyWhenNoneActive(s: Setup, pool: PoolSetup, m: nat, j: Journal, w: World, n: nat)
    ensures var g := GatesOf(s, pool, m, w, n);
            var r, e := Pass(g, pool, m, j, w, n), EndTurn(g, pool, m, j, w, n);
            r.ending.Unavailable? && e < |pool.names| ==>
              forall k :: 0 <= k < |pool.names| ==>
                !KeyActive(pool, MarksOf(r.journal.calls, m), pool.names[k], w(n + e).poll)
  {
    var g := GatesOf(s, pool, m, w, n);
    PassMeaning(g, pool, m, j, w, n);
    var r, e := Pass(g, pool, m, j, w, n), EndTurn(g, pool, m, j, w, n);
    if r.ending.Unavailable? && e < |pool.names| {
      assert g(pool.names[e], e, r.journal) == Decide(s, pool, m, pool.names[e], r.journal, w(n + e));
    }
  }

  // ----- One complete call -----

  predicate AnyConfigured(s: Setup) {
    exists p :: 0 <= p < |s.pools| && Configured(s.pools[p])
  }

  predicate HasSeparator(text: string) {
    exists i :: 0 <= i < |text| - 1 && text[i] == ':' && text[i + 1] == ' '
  }

  /** `text.split(": ")[-1]`. */
  function AfterLastSeparator(text: string): string {
    if |text| < 2 then text
    else if HasSeparator(text[1..]) then AfterLastSeparator(text[1..])
    else if text[..2] == ": " then text[2..]
    else text
  }

  function FailureNote(pool: PoolSetup, code: string): string {
    pool.provider + "/" + pool.model + ": " + code
  }

  datatype PoolsState = PoolsState(journal: Journal, next: nat, failures: seq<string>)

  function PassOver(s: Setup, pool: PoolSetup, j: Journal, w: World, n: nat): Run {
    Pass(GatesOf(s, pool, pool.manager, w, n), pool, pool.manager, j, w, n)
  }

  function TryPool(s: Setup, pool: PoolSetup, st: PoolsState, w: World): Step<PoolsState, Ending> {
    if !Configured(pool) then GoOn(st)
    else
      var r := PassOver(s, pool, st.journal, w, st.next);
      match r.ending
      case Got(_) => Finish(r.ending, PoolsState(r.journal, r.next, st.failures))
      case Unavailable(code) => GoOn(PoolsState(r.journal, r.next, st.failures + [FailureNote(pool, code)]))
  }

  function PoolTurn(s: Setup, w: World): (PoolSetup, nat, PoolsState) -> Step<PoolsState, Ending> {
    (pool: PoolSetup, p: nat, st: PoolsState) => TryPool(s, pool, st, w)
  }

  function AllFailed(failures: seq<string>): Ending {
    Unavailable(if failures == [] then CODE_EXHAUSTED else AfterLastSeparator(failures[|failures| - 1]))
  }

  function Complete(s: Setup, j: Journal, w: World, n: nat): Run {
    if !AnyConfigured(s) then Run(Unavailable(CODE_NO_KEYS), j, n)
    else if |s.pools| == 1 then PassOver(s, s.pools[0], j, w, n)
    else
      match Loop(PoolTurn(s, w), s.pools, 0, PoolsState(j, n, [])).0
      case Finish(ending, st) => Run(ending, st.journal, st.next)
      case GoOn(st) => Run(AllFailed(st.failures), st.journal, st.next)
  }

  /** The state in which a `complete` call reaches pool `p`, when no earlier pool answered. */
  function Reach(s: Setup, p: nat, j: Journal, w: World, n: nat): PoolsState
    requires p <= |s.pools|
  {
    StateBefore(PoolTurn(s, w), s.pools, p, PoolsState(j, n, []))
  }

  /** The pass over pool `p` in a `complete` call that reaches it. */
  function PassAt(s: Setup, p: nat, j: Journal, w: World, n: nat): Run
    requires p < |s.pools|
  {
    var st := Reach(s, p, j, w, n);
    PassOver(s, s.pools[p], st.journal, w, st.next)
  }

  predicate PoolFails(s: Setup, p: nat, j: Journal, w: World, n: nat)
    requires p < |s.pools|
  {
    Configured(s.pools[p]) ==> PassAt(s, p, j, w, n).ending.Unavailable?
  }

  lemma FinishesIsAnswer(s: Setup, p: nat, j: Journal, w: World, n: nat)
    requires p < |s.pools|
    ensures Finishes(PoolTurn(s, w), s.pools, p, PoolsState(j, n, [])) == !PoolFails(s, p, j, w, n)
  {
  }

  /** None of the first `p` pools uses key manager `m`. */
  ghost predicate NotUsedBy(s: Setup, p: nat, m: nat)
    requires p <= |s.pools|
  {
    forall q :: 0 <= q < p ==> s.pools[q].manager != m
  }

  /** Where a `complete` call ends: at the first pool that answers, or past the last one. */
  lemma CompleteEnds(s: Setup, j: Journal, w: World, n: nat) returns (e: nat)
    requires AnyConfigured(s)
    ensures e <= |s.pools| && forall q :: 0 <= q < e ==> PoolFails(s, q, j, w, n)
    ensures e < |s.pools| ==>
              Configured(s.pools[e]) && PassAt(s, e, j, w, n).ending.Got? && Complete(s, j, w, n) == PassAt(s, e, j, w, n)
    ensures e == |s.pools| ==>
              var r, st := Complete(s, j, w, n), Reach(s, e, j, w, n);
              r.ending.Unavailable? && r.journal == st.journal && r.next == st.next
  {
    if |s.pools| == 1 {
      e := if PassAt(s, 0, j, w, n).ending.Got? then 0 else 1;
      ReachOne(s, j, w, n);
    } else {
      var turn, st := PoolTurn(s, w), PoolsState(j, n, []);
      LoopMeaning(turn, s.pools, st);
      e := Loop(turn, s.pools, 0, st).1;
      forall q | 0 <= q < e ensures PoolFails(s, q, j, w, n) {
        assert !Finishes(turn, s.pools, q, st);
        FinishesIsAnswer(s, q, j, w, n);
      }
    }
  }

  lemma ReachOne(s: Setup, j: Journal, w: World, n: nat)
    requires |s.pools| == 1 && Configured(s.pools[0])
    ensures Reach(s, 1, j, w, n).journal == PassAt(s, 0, j, w, n).journal
    ensures Reach(s, 1, j, w, n).next == PassAt(s, 0, j, w, n).next
  {
    assert Reach(s, 1, j, w, n) == TryPool(s, s.pools[0], Reach(s, 0, j, w, n), w).state;
  }

  /** Failover across pools, however many: the answer is that of the first configured pool whose pass
      succeeds, and key managers that neither it nor a pool before it uses hear nothing; when every
      pool fails, the error code is that of the last configured pool, so the branch for an empty list
      of failures is never taken.  (With more than one pool the code survives being printed into the
      failure note and split out again exactly when it holds no separator itself.) */
  lemma CompleteMeaning(s: Setup, j: Journal, w: World, n: nat) returns (p: nat)
    requires AnyConfigured(s)
    ensures p < |s.pools| && Configured(s.pools[p])
    ensures forall q :: 0 <= q < p ==> PoolFails(s, q, j, w, n)
    ensures if PassAt(s, p, j, w, n).ending.Got? then
              && Complete(s, j, w, n) == PassAt(s, p, j, w, n)
              && forall m: nat :: NotUsedBy(s, p + 1, m) ==> MarksOf(Complete(s, j, w, n).journal.calls, m) == MarksOf(j.calls, m)
            else
              && (forall q :: p < q < |s.pools| ==> !Configured(s.pools[q]))
              && (|s.pools| == 1 ==> Complete(s, j, w, n) == PassAt(s, p, j, w, n))
              && (|s.pools| > 1 ==>
                    Complete(s, j, w, n).ending == Unavailable(AfterLastSeparator(PassAt(s, p, j, w, n).ending.code)))
              && (|s.pools| > 1 ==>
                    (Complete(s, j, w, n).ending == PassAt(s, p, j, w, n).ending <==>
                       !HasSeparator(PassAt(s, p, j, w, n).ending.code)))
              && Reach(s, |s.pools|, j, w, n).failures != []
  {
    var e := CompleteEnds(s, j, w, n);
    if e < |s.pools| {
      p := e;
      forall m: nat | NotUsedBy(s, p + 1, m) ensures MarksOf(PassAt(s, p, j, w, n).journal.calls, m) == MarksOf(j.calls, m) {
        ReachKeepsMarks(s, p, j, w, n, m);
        PassOverKeeps(s, s.pools[p], Reach(s, p, j, w, n), w, m);
      }
    } else {
      p := LastConfigured(s, |s.pools|);
      assert PoolFails(s, p, j, w, n);
      NoteOfLast(s, p, |s.pools|, j, w, n);
      if |s.pools| > 1 {
        LoopMeaning(PoolTurn(s, w), s.pools, PoolsState(j, n, []));
        var pool, code := s.pools[p], PassAt(s, p, j, w, n).ending.code;
        SeparatorIsLast(pool.provider + "/" + pool.model, code);
        SeparatorFree(code);
      }
    }
  }

  lemma PassOverKeeps(s: Setup, pool: PoolSetup, st: PoolsState, w: World, m: nat)
    requires m != pool.manager
    ensures MarksOf(PassOver(s, pool, st.journal, w, st.next).journal.calls, m) == MarksOf(st.journal.calls, m)
  {
    PassKeepsOthers(GatesOf(s, pool, pool.manager, w, st.next), pool, pool.manager, st.journal, w, st.next, m);
  }

  lemma {:induction false} ReachKeepsMarks(s: Setup, p: nat, j: Journal, w: World, n: nat, m: nat)
    requires p <= |s.pools| && NotUsedBy(s, p, m)
    ensures MarksOf(Reach(s, p, j, w, n).journal.calls, m) == MarksOf(j.calls, m)
  {
    if p == 0 {
    } else {
      ReachKeepsMarks(s, p - 1, j, w, n, m);
      PassOverKeeps(s, s.pools[p - 1], Reach(s, p - 1, j, w, n), w, m);
    }
  }

  lemma {:induction false} LastConfigured(s: Setup, k: nat) returns (p: nat)
    requires k <= |s.pools| && exists q :: 0 <= q < k && Configured(s.pools[q])
    ensures p < k && Configured(s.pools[p]) && forall q :: p < q < k ==> !Configured(s.pools[q])
  {
    if Configured(s.pools[k - 1]) {
      p := k - 1;
    } else {
      p := LastConfigured(s, k - 1);
    }
  }

  /** The last failure noted is that of the last configured pool. */
  lemma {:induction false} NoteOfLast(s: Setup, last: nat, p: nat, j: Journal, w: World, n: nat)
    requires last < p <= |s.pools| && Configured(s.pools[last])
    requires forall q :: last < q < |s.pools| ==> !Configured(s.pools[q])
    requires PoolFails(s, last, j, w, n)
    ensures var notes := Reach(s, p, j, w, n).failures;
            notes != [] && notes[|notes| - 1] == FailureNote(s.pools[last], PassAt(s, last, j, w, n).ending.code)
  {
    if p == last + 1 {
    } else {
      NoteOfLast(s, last, p - 1, j, w, n);
    }
  }

  lemma SeparatorStep(text: string)
    requires |text| >= 2
    ensures HasSeparator(text) <==> text[..2] == ": " || HasSeparator(text[1..])
  {
    var rest := text[1..];
    assert text[..2] == ": " <==> text[0] == ':' && text[1] == ' ';
    if HasSeparator(rest) {
      var i :| 0 <= i < |rest| - 1 && rest[i] == ':' && rest[i + 1] == ' ';
      assert text[i + 1] == ':' && text[i + 2] == ' ';
    } else {
      forall i | 1 <= i < |text| - 1 ensures !(text[i] == ':' && text[i + 1] == ' ') {
        assert !(rest[i - 1] == ':' && rest[i] == ' ');
      }
    }
  }

  /** Splitting at the last separator changes exactly the texts that have one. */
  lemma {:induction false} SeparatorFree(text: string)
    ensures AfterLastSeparator(text) == text <==> !HasSeparator(text)
    ensures HasSeparator(text) ==> |AfterLastSeparator(text)| < |text|
  {
    if |text| >= 2 {
      SeparatorStep(text);
      SeparatorFree(text[1..]);
    }
  }

  lemma SpaceBefore(code: string)
    ensures HasSeparator(" " + code) == HasSeparator(code)
    ensures HasSeparator(code) ==> AfterLastSeparator(" " + code) == AfterLastSeparator(code)
  {
    var text := " " + code;
    assert text[1..] == code && text[0] == ' ';
    if |text| >= 2 {
      SeparatorStep(text);
      assert text[..2][0] == ' ';
    }
  }

  /** What is split out of a note is what would be split out of the code alone. */
  lemma {:induction false} SeparatorIsLast(prefix: string, code: string)
    ensures AfterLastSeparator(prefix + ": " + code) == AfterLastSeparator(code)
  {
    var text := prefix + ": " + code;
    if prefix == "" {
      assert text[1..] == " " + code && text[..2] == ": " && text[2..] == code;
      SpaceBefore(code);
      SeparatorFree(code);
    } else {
      SeparatorIsLast(prefix[1..], code);
      assert text[1..] == prefix[1..] + ": " + code;
      var k := |prefix| - 1;
      assert text[1..][k] == ':' && text[1..][k + 1] == ' ';
    }
  }
}
