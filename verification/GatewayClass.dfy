/** app/kela_ai/gateway.py: the gateway object, its loops over keys and pools, and the mutable
    components they drive, proved against the meaning in Gateway.dfy. */
module GatewayClass {
  import opened Wrappers
  import opened Loops
  import opened Gateway
  import opened GatewaySafety
  import RL = RateLimiter
  import CB = CircuitBreaker
  import KM = KeyManager

  datatype ModelPool = ModelPool(provider: string, baseUrl: string, model: string, keyManager: KM.OllamaKeyManager?)

  datatype PoolReport = PoolReport(provider: string, baseUrl: string, model: string, configured: bool, activeKeys: nat)

  /** The `status` of a gateway: whether any pool has a key, the reports of the keys of all pools by
      name, whether there are any and how many are active, the limiter's and the breaker's reports,
      the model, and each pool. */
  datatype GatewayStatus = GatewayStatus(configured: bool, keys: map<string, KM.KeyReport>, keysConfigured: bool,
                                         active: nat, limiter: map<string, int>,
                                         breaker: map<string, CB.BreakerReport>, model: string, pools: seq<PoolReport>)

  /** What became of one key in one pass. */
  datatype VisitOutcome = NoneActive | Skipped | Answered(result: AIResult) | FailedWith(code: string)

  /** The turn, in the terms of the specification. */
  ghost function StepOf(outcome: VisitOutcome, journal: Journal, lastCode: Option<string>): Step<PassState, Ending> {
    match outcome
    case NoneActive => Finish(GiveUp(lastCode), PassState(journal, lastCode))
    case Skipped => GoOn(PassState(journal, lastCode))
    case Answered(result) => Finish(Got(result), PassState(journal, lastCode))
    case FailedWith(code) => GoOn(PassState(journal, Some(code)))
  }

  /** The answer, or `AIUnavailable` with the code of the last error. */
  function EndingOf(answer: Option<AIResult>, lastError: Option<string>): Ending {
    if answer.Some? then Got(answer.value) else GiveUp(lastError)
  }

  lemma RunOfOutcome(outcome: VisitOutcome, journal: Journal, lastCode: Option<string>, n: nat, i: nat, next: nat)
    requires next == n + i + 1
    ensures outcome.NoneActive? ==> RunOf(StepOf(outcome, journal, lastCode), n, i) == Run(GiveUp(lastCode), journal, next)
    ensures outcome.Answered? ==> RunOf(StepOf(outcome, journal, lastCode), n, i) == Run(Got(outcome.result), journal, next)
  {
  }

  /** The token a turn spends: a key that the breaker holds back has already spent one. */
  ghost function Spent(gate: Decision, call: Call): seq<RL.Admission> {
    if gate in {SkipOpen, Proceed} then [RL.Admission(call.name, call.visit.admit)] else []
  }

  ghost function Recorded(gate: Decision, call: Call): seq<CB.Outcome> {
    if gate == Proceed then [CB.Outcome(call.name, call.visit.reply.Answer?, call.visit.record)] else []
  }

  /** The logs after a turn. */
  ghost function Advanced(j: Journal, gate: Decision, call: Call): Journal {
    Journal(j.admitted + Spent(gate, call), j.calls + if gate == Proceed then [call] else [])
  }

  lemma AdvancedLogs(j: Journal, gate: Decision, call: Call, q: nat)
    ensures MarksOf(Advanced(j, gate, call).calls, q)
         == MarksOf(j.calls, q) + if gate == Proceed && q == call.manager then [MarkOf(call)] else []
    ensures OutcomesOf(Advanced(j, gate, call).calls)
         == OutcomesOf(j.calls) + Recorded(gate, call)
  {
    if gate == Proceed {
      AppendCall(j.calls, call, q);
    } else {
      assert j.calls + [] == j.calls;
    }
  }

  function OutcomeOf(gate: Decision, pool: ModelPool, name: string, v: Visit): VisitOutcome {
    match gate
    case Stop => NoneActive
    case Proceed =>
      (match v.reply
       case Refusal(code) => FailedWith(code)
       case Answer(content, inputTokens, outputTokens) =>
         Answered(AIResult(content, inputTokens, outputTokens, Latency(v), name, pool.model, pool.provider)))
    case _ => Skipped
  }

  lemma OutcomeAgrees(gate: Decision, setup: PoolSetup, pool: ModelPool, p: nat, name: string, i: nat, j: Journal,
                      v: Visit, lastCode: Option<string>)
    requires setup.provider == pool.provider && setup.model == pool.model
    ensures StepOf(OutcomeOf(gate, pool, name, v), Advanced(j, gate, Call(p, i, name, v)), lastCode)
         == TakeTurn(gate, setup, p, name, i, PassState(j, lastCode), v)
  {
    assert j.calls + [] == j.calls && j.admitted + [] == j.admitted;
  }

  class KELAAIGateway {
    const models: seq<ModelPool>
    const model: string
    const rateLimiter: RL.SlidingWindowRateLimiter
    const circuitBreaker: CB.CircuitBreaker?
    ghost const managers: set<KM.OllamaKeyManager>
    /** The admissions and the calls so far; for the proof only. */
    ghost var journal: Journal
    /** No component has read the clock later than this. */
    ghost var latest: real
    /** Everything logged is earlier than this. */
    ghost var horizon: real

    ghost function Owner(p: nat): (q: nat)
      requires p < |models|
      ensures q <= p && models[q].keyManager == models[p].keyManager
      ensures forall k :: 0 <= k < q ==> models[k].keyManager != models[p].keyManager
    {
      FirstWith(models, models[p].keyManager, 0)
    }

    ghost function PoolOf(p: nat): PoolSetup
      requires p < |models|
    {
      SetupOf(models, p)
    }

    /** The configuration in the terms of the specification. */
    ghost function Config(): Setup {
      ConfigOf(models, rateLimiter, circuitBreaker)
    }

    ghost predicate Wired() {
      forall p :: 0 <= p < |models| && models[p].keyManager != null ==> models[p].keyManager in managers
    }

    /** The key manager of pool `p` has been told exactly the calls on it. */
    ghost predicate ManagerInStep(p: nat)
      requires p < |models|
      reads this`journal, this`latest, managers
    {
      var manager := models[p].keyManager;
      manager != null ==>
        manager in managers && manager.Valid() && manager.marks == MarksOf(journal.calls, Owner(p)) && manager.latest <= latest
    }

    ghost predicate BreakerInStep()
      reads this`journal, this`latest, circuitBreaker
    {
      circuitBreaker != null ==>
        circuitBreaker.Valid() && circuitBreaker.outcomes == OutcomesOf(journal.calls) && circuitBreaker.latest <= latest
    }

    ghost predicate LimiterInStep()
      reads this`journal, this`latest, rateLimiter
    {
      rateLimiter.Valid() && rateLimiter.admitted == journal.admitted && rateLimiter.latest <= latest
    }

    /** Every component agrees with the logs. */
    ghost predicate InStep()
      reads this`journal, this`latest, rateLimiter, circuitBreaker, managers
    {
      && LimiterInStep() && BreakerInStep()
      && forall p :: 0 <= p < |models| ==> ManagerInStep(p)
    }

    /** The components agree with the logs, and the logs are those of a safe run. */
    ghost predicate Valid()
      reads this, rateLimiter, circuitBreaker, managers
    {
      models != [] && Wired() && InStep() && latest <= horizon && Safe(Config(), journal, horizon)
    }

    /** A gateway over the pools given, or over one pool made of the bare key manager; pools may share
        a key manager.  The components may have served before: `past` is what they have seen, nothing
        if they are new, and otherwise the journal of a safe run of the same configuration. */
    constructor (pools: seq<ModelPool>, keyManager: KM.OllamaKeyManager?, model: string,
                 limiter: RL.SlidingWindowRateLimiter, breaker: CB.CircuitBreaker?, ghost past: Journal, ghost now: real)
      requires limiter.Valid() && limiter.admitted == past.admitted && limiter.latest <= now
      requires breaker != null ==>
                 breaker.Valid() && breaker.outcomes == OutcomesOf(past.calls) && breaker.latest <= now
      requires forall p :: 0 <= p < |PoolsOf(pools, keyManager, model)| ==> HeardOf(PoolsOf(pools, keyManager, model), p, past, now)
      requires past == Journal([], []) || Safe(ConfigOf(PoolsOf(pools, keyManager, model), limiter, breaker), past, now)
      ensures Valid() && journal == past && horizon == now
      ensures models == PoolsOf(pools, keyManager, model) && rateLimiter == limiter && circuitBreaker == breaker
      ensures this.model == if model != "" then model else models[0].model
    {
      var chosen := PoolsOf(pools, keyManager, model);
      models := chosen;
      rateLimiter, circuitBreaker := limiter, breaker;
      this.model := if model != "" then model else chosen[0].model;
      managers := set p | 0 <= p < |chosen| && chosen[p].keyManager != null :: chosen[p].keyManager;
      journal, latest, horizon := past, now, now;
      new;
      ConfigWired(models, rateLimiter, circuitBreaker);
      forall p | 0 <= p < |models| ensures ManagerInStep(p) {
        assert HeardOf(chosen, p, past, now);
      }
    }

    /** The gates of one turn, in the code's order.  Only the limiter's log grows, and it grows
        also when the breaker then holds the key back. */
    method PassGates(keyManager: KM.OllamaKeyManager, name: string, v: Visit, ghost s: Setup, ghost pool: PoolSetup,
                     ghost outcomes: seq<CB.Outcome>)
      returns (gate: Decision)
      requires keyManager.Valid() && rateLimiter.Valid() && (circuitBreaker != null ==> circuitBreaker.Valid())
      requires keyManager.latest <= v.poll && rateLimiter.latest <= v.poll && InOrder(v)
      requires circuitBreaker != null ==> circuitBreaker.latest <= v.poll
      requires s.limit == rateLimiter.limit
      requires s.breaker == if circuitBreaker == null then None
                            else Some(BreakerSetup(circuitBreaker.threshold, circuitBreaker.cooldown))
      requires circuitBreaker != null ==> outcomes == circuitBreaker.outcomes
      requires pool.names == keyManager.names && pool.cooldown == keyManager.cooldown
      modifies rateLimiter, circuitBreaker, keyManager
      ensures keyManager.Valid() && rateLimiter.Valid() && (circuitBreaker != null ==> circuitBreaker.Valid())
      ensures keyManager.latest <= v.probe && rateLimiter.latest <= v.probe
      ensures circuitBreaker != null ==> circuitBreaker.latest <= v.probe
      ensures keyManager.marks == old(keyManager.marks)
      ensures circuitBreaker != null ==> circuitBreaker.outcomes == old(circuitBreaker.outcomes)
      ensures gate == Gate(s, pool, keyManager.marks, old(rateLimiter.admitted), outcomes, name, v)
      ensures rateLimiter.admitted
           == old(rateLimiter.admitted) + if gate in {SkipOpen, Proceed} then [RL.Admission(name, v.admit)] else []
    {
      var available := keyManager.AvailableKey(v.poll);
      if available.None? {
        return Stop;
      }
      var state := keyManager.StateOf(name, v.gate);
      if state != KM.Active {
        return SkipInactive;
      }
      var admitted := rateLimiter.Allow(name, v.admit);
      if !admitted {
        return SkipThrottled;
      }
      if circuitBreaker != null {
        var allowed := circuitBreaker.Allow(name, v.probe);
        if !allowed {
          return SkipOpen;
        }
      }
      return Proceed;
    }

    /** Reporting a finished call to the key manager and the breaker. */
    method Report(keyManager: KM.OllamaKeyManager, name: string, v: Visit, ghost call: Call)
      requires name == call.name && v == call.visit
      requires keyManager.Valid() && (circuitBreaker != null ==> circuitBreaker.Valid())
      requires InOrder(call.visit) && keyManager.latest <= call.visit.probe
      requires circuitBreaker != null ==> circuitBreaker.latest <= call.visit.probe
      modifies circuitBreaker, keyManager
      ensures keyManager.Valid() && (circuitBreaker != null ==> circuitBreaker.Valid())
      ensures keyManager.latest <= call.visit.record
      ensures circuitBreaker != null ==> circuitBreaker.latest <= call.visit.record
      ensures keyManager.marks == old(keyManager.marks) + [MarkOf(call)]
      ensures circuitBreaker != null ==>
                circuitBreaker.outcomes
                == old(circuitBreaker.outcomes) + [CB.Outcome(call.name, call.visit.reply.Answer?, call.visit.record)]
    {
      match v.reply
      case Refusal(code) =>
        keyManager.MarkFailure(name, code, Latency(v), v.mark);
        if circuitBreaker != null {
          circuitBreaker.RecordFailure(name, v.record);
        }
      case Answer(_, _, _) =>
        keyManager.MarkSuccess(name, Latency(v), v.mark);
        if circuitBreaker != null {
          circuitBreaker.RecordSuccess(name, v.record);
        }
    }

    /** The gates, and the report when they let the call through. */
    method GatedCall(keyManager: KM.OllamaKeyManager, name: string, v: Visit, ghost call: Call, ghost s: Setup,
                     ghost pool: PoolSetup, ghost outcomes: seq<CB.Outcome>)
      returns (gate: Decision)
      requires name == call.name && v == call.visit
      requires keyManager.Valid() && rateLimiter.Valid() && (circuitBreaker != null ==> circuitBreaker.Valid())
      requires keyManager.latest <= call.visit.poll && rateLimiter.latest <= call.visit.poll && InOrder(call.visit)
      requires circuitBreaker != null ==> circuitBreaker.latest <= call.visit.poll
      requires s.limit == rateLimiter.limit
      requires s.breaker == if circuitBreaker == null then None
                            else Some(BreakerSetup(circuitBreaker.threshold, circuitBreaker.cooldown))
      requires circuitBreaker != null ==> outcomes == circuitBreaker.outcomes
      requires pool.names == keyManager.names && pool.cooldown == keyManager.cooldown
      modifies rateLimiter, circuitBreaker, keyManager
      ensures keyManager.Valid() && rateLimiter.Valid() && (circuitBreaker != null ==> circuitBreaker.Valid())
      ensures keyManager.latest <= call.visit.record && rateLimiter.latest <= call.visit.record
      ensures circuitBreaker != null ==> circuitBreaker.latest <= call.visit.record
      ensures gate == Gate(s, pool, old(keyManager.marks), old(rateLimiter.admitted), outcomes, call.name, call.visit)
      ensures rateLimiter.admitted == old(rateLimiter.admitted) + Spent(gate, call)
      ensures keyManager.marks == old(keyManager.marks) + if gate == Proceed then [MarkOf(call)] else []
      ensures circuitBreaker != null ==> circuitBreaker.outcomes == outcomes + Recorded(gate, call)
    {
      gate := PassGates(keyManager, name, v, s, pool, outcomes);
      if gate == Proceed {
        Report(keyManager, name, v, call);
      }
    }

    /** One turn of the key loop keeps the components in step with the logs. */
    method VisitKey(p: nat, i: nat, v: Visit, ghost lastCode: Option<string>) returns (outcome: VisitOutcome)
      requires Wired() && InStep()
      requires p < |models| && models[p].keyManager != null && i < |models[p].keyManager.names|
      requires InOrder(v) && latest <= v.poll
      modifies this`journal, this`latest, rateLimiter, circuitBreaker, models[p].keyManager
      ensures InStep() && latest == v.record
      ensures StepOf(outcome, journal, lastCode)
           == TakeTurn(Decide(Config(), PoolOf(p), Owner(p), models[p].keyManager.names[i], old(journal), v),
                       PoolOf(p), Owner(p), models[p].keyManager.names[i], i, PassState(old(journal), lastCode), v)
    {
      var keyManager := models[p].keyManager;
      var name := keyManager.names[i];
      ghost var m := Owner(p);
      ghost var call := Call(m, i, name, v);
      assert ManagerInStep(p);
      ghost var j, s, pool := journal, Config(), PoolOf(p);
      var gate := GatedCall(keyManager, name, v, call, s, pool, OutcomesOf(j.calls));
      journal := Advanced(j, gate, call);
      latest := v.record;
      AdvancedLogs(j, gate, call, m);
      forall q | 0 <= q < |models| ensures ManagerInStep(q) {
        assert old(ManagerInStep(q));
        AdvancedLogs(j, gate, call, Owner(q));
      }
      outcome := OutcomeOf(gate, models[p], name, v);
      OutcomeAgrees(gate, pool, models[p], m, name, i, j, v, lastCode);
    }

    /** One turn as one iteration of the loop of the specification, with visit number `next`. */
    method TurnKey(p: nat, i: nat, w: World, ghost n: nat, next: nat, ghost lastCode: Option<string>,
                   ghost turn: (string, nat, PassState) -> Step<PassState, Ending>)
      returns (outcome: VisitOutcome)
      requires next == n + i && Wired() && InStep() && Orderly(w) && latest <= w(next).poll
      requires p < |models| && models[p].keyManager != null && i < |models[p].keyManager.names|
      requires turn == KeyTurn(GatesOf(Config(), PoolOf(p), Owner(p), w, n), PoolOf(p), Owner(p), w, n)
      modifies this`journal, this`latest, rateLimiter, circuitBreaker, models[p].keyManager
      ensures InStep() && latest <= w(next + 1).poll
      ensures Loop(turn, models[p].keyManager.names, i, PassState(old(journal), lastCode))
           == Onward(turn, models[p].keyManager.names, i, StepOf(outcome, journal, lastCode))
    {
      ghost var st := PassState(journal, lastCode);
      assert Follows(w, next);
      outcome := VisitKey(p, i, w(next), lastCode);
      TurnOfLoop(Config(), PoolOf(p), Owner(p), i, st, w, n, next, StepOf(outcome, journal, lastCode));
    }

    /** The loop over the keys of pool `p`: its last error, and the answer if there was one. */
    method KeyLoop(p: nat, w: World, n: nat, ghost turn: (string, nat, PassState) -> Step<PassState, Ending>)
      returns (answer: Option<AIResult>, lastError: Option<string>, next: nat, ghost step: Step<PassState, Ending>, ghost e: nat)
      requires Wired() && InStep() && Orderly(w) && latest <= w(n).poll
      requires p < |models| && models[p].keyManager != null
      requires turn == KeyTurn(GatesOf(Config(), PoolOf(p), Owner(p), w, n), PoolOf(p), Owner(p), w, n)
      modifies this`journal, this`latest, rateLimiter, circuitBreaker, models[p].keyManager
      ensures InStep() && latest <= w(next).poll
      ensures Loop(turn, models[p].keyManager.names, 0, PassState(old(journal), None)) == (step, e)
      ensures RunOf(step, n, e) == Run(EndingOf(answer, lastError), journal, next)
    {
      var keyManager := models[p].keyManager;
      ghost var first := PassState(journal, None);
      answer, lastError, next := None, None, n;
      var i := 0;
      while i < |keyManager.names|
        invariant InStep() && latest <= w(next).poll
        invariant 0 <= i <= |keyManager.names| && next == n + i && answer.None?
        invariant Loop(turn, keyManager.names, 0, first) == Loop(turn, keyManager.names, i, PassState(journal, lastError))
      {
        var outcome := TurnKey(p, i, w, n, next, lastError, turn);
        step, e := StepOf(outcome, journal, lastError), i;
        next := next + 1;
        RunOfOutcome(outcome, journal, lastError, n, i, next);
        if outcome.NoneActive? || outcome.Answered? {
          answer := if outcome.Answered? then Some(outcome.result) else None;
          return;
        }
        if outcome.FailedWith? {
          lastError := Some(outcome.code);
        }
        i := i + 1;
      }
      step, e := GoOn(PassState(journal, lastError)), i;
    }

    /** `_complete_with_pool`. */
    method CompleteWithPool(p: nat, w: World, n: nat) returns (ending: Ending, next: nat)
      requires Wired() && InStep() && Orderly(w) && latest <= w(n).poll
      requires p < |models| && models[p].keyManager != null
      modifies this`journal, this`latest, rateLimiter, circuitBreaker, models[p].keyManager
      ensures InStep() && latest <= w(next).poll
      ensures Run(ending, journal, next)
           == Pass(GatesOf(Config(), PoolOf(p), Owner(p), w, n), PoolOf(p), Owner(p), old(journal), w, n)
    {
      ghost var g, j := GatesOf(Config(), PoolOf(p), Owner(p), w, n), journal;
      var answer, lastError;
      ghost var step, e;
      answer, lastError, next, step, e := KeyLoop(p, w, n, KeyTurn(g, PoolOf(p), Owner(p), w, n));
      PassOfLoop(g, PoolOf(p), Owner(p), j, w, n, step, e);
      ending := EndingOf(answer, lastError);
    }

    predicate PoolConfigured(p: nat)
      requires p < |models|
    {
      models[p].keyManager != null && models[p].keyManager.Configured()
    }

    /** `configured`. */
    predicate AnyPoolConfigured() {
      exists p :: 0 <= p < |models| && PoolConfigured(p)
    }

    lemma ConfiguredAgrees()
      ensures AnyPoolConfigured() <==> AnyConfigured(Config())
    {
      var s := Config();
      assert forall p :: 0 <= p < |models| ==> s.pools[p] == PoolOf(p) && Configured(s.pools[p]) == PoolConfigured(p);
    }

    /** `complete`: the loop over the pools. */
    method Complete(w: World, n: nat) returns (ending: Ending, next: nat)
      requires Valid() && Orderly(w) && horizon <= w(n).poll
      modifies this, rateLimiter, circuitBreaker, managers
      ensures Valid() && horizon == w(next).poll
      ensures Run(ending, journal, next) == Gateway.Complete(Config(), old(journal), w, n)
    {
      LaterSafe(Config(), journal, horizon, w(n).poll);
      CompleteIsSafe(Config(), journal, w, n);
      ending, next := TryPools(w, n);
      horizon := w(next).poll;
    }

    /** How many keys of pool `p` are active at `now`, by the log. */
    ghost function ActiveKeys(p: nat, now: real): nat
      requires p < |models|
      reads this`journal
    {
      KM.ActiveAmong(PoolOf(p).names, MarksOf(journal.calls, Owner(p)), PoolOf(p).cooldown, |PoolOf(p).names|, now)
    }

    /** The reports on the keys of pool `p` at `now`, by the log. */
    ghost function ReportsOf(p: nat, now: real): map<string, KM.KeyReport>
      requires p < |models|
      reads this`journal
    {
      KM.ReportsAt(PoolOf(p).names, MarksOf(journal.calls, Owner(p)), PoolOf(p).cooldown, |PoolOf(p).names|, now)
    }

    /** Those of the first `n` pools; of keys with one name, the last pool's. */
    ghost function MergedReports(n: nat, now: real): map<string, KM.KeyReport>
      requires n <= |models|
      reads this`journal
    {
      if n == 0 then map[] else MergedReports(n - 1, now) + ReportsOf(n - 1, now)
    }

    /** The report on pool `p` at `now`, by the log. */
    ghost function PoolReportOf(p: nat, now: real): PoolReport
      requires p < |models|
      reads this`journal
    {
      PoolReport(models[p].provider, models[p].baseUrl, models[p].model, PoolConfigured(p), ActiveKeys(p, now))
    }

    /** `status`: polls every component.  Everything it reports is read off the logs, and these stay
        as they are; so by the contract of `Complete` no later answer depends on it. */
    method Status(now: real) returns (report: GatewayStatus)
      requires Valid() && horizon <= now
      modifies this`latest, this`horizon, rateLimiter, circuitBreaker, managers
      ensures Valid() && horizon == now && journal == old(journal)
      ensures report.configured <==> AnyConfigured(Config())
      ensures report.keys == MergedReports(|models|, now) && report.active == ActiveCount(report.keys)
      ensures report.keysConfigured <==> report.keys != map[]
      ensures RL.Reports(report.limiter, journal.admitted, rateLimiter.limit, now)
      ensures if circuitBreaker == null then report.breaker == map[]
              else CB.Reports(report.breaker, OutcomesOf(journal.calls), circuitBreaker.threshold, circuitBreaker.cooldown, now)
      ensures report.model == model
      ensures |report.pools| == |models| && forall p :: 0 <= p < |models| ==> report.pools[p] == PoolReportOf(p, now)
    {
      LaterSafe(Config(), journal, horizon, now);
      ConfiguredAgrees();
      horizon := now;
      var limiter, breaker := SharedStatus(now);
      var keys, pools := PoolsStatus(now);
      report := GatewayStatus(AnyPoolConfigured(), keys, keys != map[], ActiveCount(keys), limiter, breaker, model, pools);
    }

    /** The limiter's and the breaker's part of the report. */
    method SharedStatus(now: real) returns (limiter: map<string, int>, breaker: map<string, CB.BreakerReport>)
      requires InStep() && latest <= now
      modifies this`latest, rateLimiter, circuitBreaker
      ensures InStep() && latest == now
      ensures RL.Reports(limiter, journal.admitted, rateLimiter.limit, now)
      ensures if circuitBreaker == null then breaker == map[]
              else CB.Reports(breaker, OutcomesOf(journal.calls), circuitBreaker.threshold, circuitBreaker.cooldown, now)
    {
      limiter := rateLimiter.Stats(now);
      breaker := map[];
      if circuitBreaker != null {
        breaker := circuitBreaker.Stats(now);
      }
      latest := now;
      forall p | 0 <= p < |models| ensures ManagerInStep(p) {
        assert old(ManagerInStep(p));
      }
    }

    /** The reports on the first `n` pools. */
    ghost predicate Reported(keys: map<string, KM.KeyReport>, pools: seq<PoolReport>, n: nat, now: real)
      requires n <= |models|
      reads this`journal
    {
      keys == MergedReports(n, now) && |pools| == n && forall p :: 0 <= p < n ==> pools[p] == PoolReportOf(p, now)
    }

    method PoolsStatus(now: real) returns (keys: map<string, KM.KeyReport>, pools: seq<PoolReport>)
      requires Wired() && InStep() && latest == now
      modifies managers
      ensures InStep() && Reported(keys, pools, |models|, now)
    {
      keys, pools := map[], [];
      for p := 0 to |models|
        invariant InStep() && Reported(keys, pools, p, now)
      {
        keys, pools := OneMorePool(keys, pools, p, now);
      }
    }

    method OneMorePool(keys: map<string, KM.KeyReport>, pools: seq<PoolReport>, p: nat, now: real)
      returns (keys': map<string, KM.KeyReport>, pools': seq<PoolReport>)
      requires p < |models| && Wired() && InStep() && latest == now && Reported(keys, pools, p, now)
      modifies models[p].keyManager
      ensures InStep() && Reported(keys', pools', p + 1, now)
    {
      var own, pool := PoolStatus(p, now);
      keys', pools' := keys + own, pools + [pool];
    }

    /** The keys of one pool, and its entry. */
    method PoolStatus(p: nat, now: real) returns (keys: map<string, KM.KeyReport>, pool: PoolReport)
      requires p < |models| && Wired() && InStep() && latest == now
      modifies models[p].keyManager
      ensures InStep() && keys == ReportsOf(p, now) && pool == PoolReportOf(p, now)
    {
      var active := 0;
      keys := map[];
      var manager := models[p].keyManager;
      if manager != null {
        assert ManagerInStep(p);
        keys, active := manager.Stats(now);
        forall q | 0 <= q < |models| ensures ManagerInStep(q) {
          assert old(ManagerInStep(q));
        }
      }
      pool := PoolReport(models[p].provider, models[p].baseUrl, models[p].model, PoolConfigured(p), active);
    }

    /** The turn for pool `p`: an answer, or the failure noted and on to the next pool. */
    method TryOnePool(p: nat, w: World, n: nat, failures: seq<string>,
                      ghost turn: (PoolSetup, nat, PoolsState) -> Step<PoolsState, Ending>)
      returns (answer: Option<Ending>, next: nat, failures': seq<string>)
      requires p < |models| && Wired() && InStep() && Orderly(w) && latest <= w(n).poll
      requires turn == PoolTurn(Config(), w)
      modifies this`journal, this`latest, rateLimiter, circuitBreaker, managers
      ensures InStep() && latest <= w(next).poll
      ensures var st := PoolsState(journal, next, failures');
              Loop(turn, Config().pools, p, PoolsState(old(journal), n, failures))
              == if answer.Some? then (Finish(answer.value, st), p) else Loop(turn, Config().pools, p + 1, st)
    {
      ghost var s, st := Config(), PoolsState(journal, n, failures);
      answer, next, failures' := None, n, failures;
      assert s.pools[p] == PoolOf(p) && Configured(s.pools[p]) == PoolConfigured(p);
      assert turn(s.pools[p], p, st) == TryPool(s, s.pools[p], st, w);
      if PoolConfigured(p) {
        var ending;
        ending, next := CompleteWithPool(p, w, n);
        if ending.Got? {
          LoopStep(turn, s.pools, p, st, Finish(ending, PoolsState(journal, next, failures)));
          return Some(ending), next, failures;
        }
        failures' := failures + [models[p].provider + "/" + models[p].model + ": " + ending.code];
      }
      LoopStep(turn, s.pools, p, st, GoOn(PoolsState(journal, next, failures')));
    }

    /** The loop over the pools: the first answer, or the failures of all. */
    method PoolLoop(w: World, n: nat, ghost turn: (PoolSetup, nat, PoolsState) -> Step<PoolsState, Ending>)
      returns (answer: Option<Ending>, next: nat, failures: seq<string>, ghost e: nat)
      requires Wired() && InStep() && Orderly(w) && latest <= w(n).poll
      requires turn == PoolTurn(Config(), w)
      modifies this`journal, this`latest, rateLimiter, circuitBreaker, managers
      ensures InStep() && latest <= w(next).poll
      ensures Loop(turn, Config().pools, 0, PoolsState(old(journal), n, []))
           == (PoolsStep(answer, PoolsState(journal, next, failures)), e)
    {
      answer, next, failures, e := None, n, [], |models|;
      ghost var pools, first := Config().pools, PoolsState(journal, n, []);
      for p := 0 to |models|
        invariant InStep() && latest <= w(next).poll && answer.None? && e == |models|
        invariant Loop(turn, pools, 0, first) == Loop(turn, pools, p, PoolsState(journal, next, failures))
      {
        answer, next, failures := TryOnePool(p, w, next, failures, turn);
        if answer.Some? {
          e := p;
          return;
        }
      }
    }

    /** `complete` on a gateway in step. */
    method TryPools(w: World, n: nat) returns (ending: Ending, next: nat)
      requires models != [] && Wired() && InStep() && Orderly(w) && latest <= w(n).poll
      modifies this`journal, this`latest, rateLimiter, circuitBreaker, managers
      ensures InStep() && latest <= w(next).poll
      ensures Run(ending, journal, next) == Gateway.Complete(Config(), old(journal), w, n)
    {
      ghost var s, j := Config(), journal;
      ConfiguredAgrees();
      if !AnyPoolConfigured() {
        return Unavailable(CODE_NO_KEYS), n;
      }
      if |models| == 1 {
        ending, next := CompleteWithPool(0, w, n);
        return;
      }
      var answer, failures;
      ghost var e;
      answer, next, failures, e := PoolLoop(w, n, PoolTurn(s, w));
      CompleteOfLoop(s, j, w, n, answer, PoolsState(journal, next, failures), e);
      if answer.Some? {
        ending := answer.value;
      } else if failures == [] {
        ending := Unavailable(CODE_EXHAUSTED);
      } else {
        ending := Unavailable(AfterLastSeparator(failures[|failures| - 1]));
      }
    }
  }

  ghost function PoolsStep(answer: Option<Ending>, st: PoolsState): Step<PoolsState, Ending> {
    if answer.Some? then Finish(answer.value, st) else GoOn(st)
  }

  lemma CompleteOfLoop(s: Setup, j: Journal, w: World, n: nat, answer: Option<Ending>, st: PoolsState, e: nat)
    requires AnyConfigured(s) && |s.pools| != 1
    requires Loop(PoolTurn(s, w), s.pools, 0, PoolsState(j, n, [])) == (PoolsStep(answer, st), e)
    ensures Gateway.Complete(s, j, w, n)
         == Run(if answer.Some? then answer.value else AllFailed(st.failures), st.journal, st.next)
  {
  }

  /** The pools given, or one made of the bare key manager. */
  function PoolsOf(pools: seq<ModelPool>, keyManager: KM.OllamaKeyManager?, model: string): seq<ModelPool> {
    if pools != [] then pools else [ModelPool("ollama", "", model, keyManager)]
  }

  ghost function SetupOf(models: seq<ModelPool>, p: nat): PoolSetup
    requires p < |models|
  {
    var pool, owner := models[p], FirstWith(models, models[p].keyManager, 0);
    if pool.keyManager == null then PoolSetup(pool.provider, pool.model, owner, [], 0.0)
    else PoolSetup(pool.provider, pool.model, owner, pool.keyManager.names, pool.keyManager.cooldown)
  }

  ghost function ConfigOf(models: seq<ModelPool>, limiter: RL.SlidingWindowRateLimiter, breaker: CB.CircuitBreaker?): Setup {
    Setup(seq(|models|, p requires 0 <= p < |models| => SetupOf(models, p)), limiter.limit,
          if breaker == null then None else Some(BreakerSetup(breaker.threshold, breaker.cooldown)))
  }

  lemma ConfigWired(models: seq<ModelPool>, limiter: RL.SlidingWindowRateLimiter, breaker: CB.CircuitBreaker?)
    ensures WellWired(ConfigOf(models, limiter, breaker))
  {
  }

  /** The key manager of pool `p` has heard exactly the calls on it that the journal holds. */
  ghost predicate HeardOf(models: seq<ModelPool>, p: nat, past: Journal, now: real)
    requires p < |models|
    reads if models[p].keyManager == null then {} else {models[p].keyManager}
  {
    var manager := models[p].keyManager;
    manager != null ==>
      manager.Valid() && manager.latest <= now && manager.marks == MarksOf(past.calls, FirstWith(models, manager, 0))
  }

  ghost function FirstWith(models: seq<ModelPool>, keyManager: KM.OllamaKeyManager?, from: nat): (q: nat)
    requires exists k :: from <= k < |models| && models[k].keyManager == keyManager
    ensures from <= q < |models| && models[q].keyManager == keyManager
    ensures forall k :: from <= k < q ==> models[k].keyManager != keyManager
    decreases |models| - from
  {
    if models[from].keyManager == keyManager then from else FirstWith(models, keyManager, from + 1)
  }

  function ActiveCount(keys: map<string, KM.KeyReport>): nat {
    |set n | n in keys && keys[n].state == KM.Active|
  }

  /** How the loop goes on after the turn for item `i`. */
  ghost function Onward(turn: (string, nat, PassState) -> Step<PassState, Ending>, names: seq<string>, i: nat,
                        step: Step<PassState, Ending>): (Step<PassState, Ending>, nat)
    requires i < |names|
  {
    if step.Finish? then (step, i) else Loop(turn, names, i + 1, step.state)
  }

  lemma TurnOfLoop(s: Setup, pool: PoolSetup, p: nat, i: nat, st: PassState, w: World, n: nat, next: nat,
                   step: Step<PassState, Ending>)
    requires i < |pool.names| && next == n + i
    requires step == TakeTurn(Decide(s, pool, p, pool.names[i], st.journal, w(next)), pool, p, pool.names[i], i, st, w(next))
    ensures var turn := KeyTurn(GatesOf(s, pool, p, w, n), pool, p, w, n);
            Loop(turn, pool.names, i, st) == Onward(turn, pool.names, i, step)
  {
    LoopStep(KeyTurn(GatesOf(s, pool, p, w, n), pool, p, w, n), pool.names, i, st, step);
  }

  lemma PassOfLoop(g: Gates, pool: PoolSetup, p: nat, j: Journal, w: World, n: nat, step: Step<PassState, Ending>, e: nat)
    requires Loop(KeyTurn(g, pool, p, w, n), pool.names, 0, PassState(j, None)) == (step, e)
    ensures Pass(g, pool, p, j, w, n) == RunOf(step, n, e)
  {
  }
}
