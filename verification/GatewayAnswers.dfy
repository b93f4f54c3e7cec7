/** What a `complete` call does, said without its loops: when a key is called, what an answer is,
    and that the gateway gives up only after every key of every pool has had its turn. */
module GatewayAnswers {
  import opened Wrappers
  import opened RateLimiter
  import opened CircuitBreaker
  import opened Gateway
  import opened GatewaySafety
  import KM = KeyManager

  /** Some key of the pool is active. */
  ghost predicate SomeActive(pool: PoolSetup, marks: seq<KM.Mark>, now: real) {
    exists k :: 0 <= k < |pool.names| && KM.KeyStateAt(marks, pool.cooldown, pool.names[k], now) == KM.Active
  }

  /** The key may have a token: some key is active at the poll, this one at its gate, and fewer than
      `limit` of its admissions lie in the minute before. */
  ghost predicate MaySpend(s: Setup, pool: PoolSetup, name: string, j: Journal, v: Visit) {
    && SomeActive(pool, MarksOf(j.calls, pool.manager), v.poll)
    && name in pool.names && KM.KeyStateAt(MarksOf(j.calls, pool.manager), pool.cooldown, name, v.gate) == KM.Active
    && AdmittedBetween(j.admitted, name, v.admit - 60.0, v.admit) < s.limit
  }

  /** And it may be called: the breaker, if there is one, is not open for it. */
  ghost predicate MayCall(s: Setup, pool: PoolSetup, name: string, j: Journal, v: Visit) {
    && MaySpend(s, pool, name, j, v)
    && (s.breaker.Some? ==>
          StateAt(OutcomesOf(j.calls), s.breaker.value.threshold, s.breaker.value.cooldown, name, v.probe) != Open)
  }

  /** Nothing was admitted later than the clock. */
  ghost predicate NotAhead(j: Journal, now: real) {
    forall i :: 0 <= i < |j.admitted| ==> j.admitted[i].at <= now
  }

  // ----- One turn -----

  lemma DecisionMeaning(s: Setup, pool: PoolSetup, name: string, j: Journal, v: Visit)
    requires NotAhead(j, v.admit)
    ensures var d := Decide(s, pool, pool.manager, name, j, v);
            && (d == Stop <==> !SomeActive(pool, MarksOf(j.calls, pool.manager), v.poll))
            && (d in {SkipOpen, Proceed} <==> MaySpend(s, pool, name, j, v))
            && (d == Proceed <==> MayCall(s, pool, name, j, v))
  {
    AdmitsIff(j.admitted, s.limit, name, v.admit);
    SomeIsSome(pool, MarksOf(j.calls, pool.manager), v.poll);
  }

  lemma SomeIsSome(pool: PoolSetup, marks: seq<KM.Mark>, now: real)
    ensures SomeKeyActive(pool, marks, now) <==> SomeActive(pool, marks, now)
  {
    if k :| 0 <= k < |pool.names| && KM.KeyStateAt(marks, pool.cooldown, pool.names[k], now) == KM.Active {
      assert KeyActive(pool, marks, pool.names[k], now);
    }
  }

  /** One turn of the key loop, in full: a token is spent iff the key may have one, a call is made
      iff the breaker does not hold it back either, and the loop ends iff no key is active or the
      call is answered. */
  lemma TurnMeaning(s: Setup, pool: PoolSetup, name: string, i: nat, st: PassState, v: Visit)
    requires NotAhead(st.journal, v.admit)
    ensures var step := TakeTurn(Decide(s, pool, pool.manager, name, st.journal, v), pool, pool.manager, name, i, st, v);
            var called := MayCall(s, pool, name, st.journal, v);
            && step.state.journal.admitted
               == st.journal.admitted + (if MaySpend(s, pool, name, st.journal, v) then [Admission(name, v.admit)] else [])
            && step.state.journal.calls == st.journal.calls + (if called then [Call(pool.manager, i, name, v)] else [])
            && (step.Finish? <==>
                  !SomeActive(pool, MarksOf(st.journal.calls, pool.manager), v.poll) || (called && v.reply.Answer?))
            && (called && v.reply.Answer? ==> step.result == Got(Answered(pool, name, v)))
            && (called && v.reply.Refusal? ==> step.state.lastCode == Some(v.reply.code))
            && (!called ==> step.state.lastCode == st.lastCode)
  {
    DecisionMeaning(s, pool, name, st.journal, v);
    assert st.journal.admitted + [] == st.journal.admitted && st.journal.calls + [] == st.journal.calls;
  }

  /** The answer of a call: what the client returned, the whole milliseconds it took, and who gave
      it. */
  function Answered(pool: PoolSetup, name: string, v: Visit): AIResult
    requires v.reply.Answer?
  {
    AIResult(v.reply.content, v.reply.inputTokens, v.reply.outputTokens, ((v.done - v.start) * 1000.0).Floor,
             name, pool.model, pool.provider)
  }

  // ----- One pass -----

  ghost predicate Continues(j: Journal, j': Journal) {
    j.calls <= j'.calls && j.admitted <= j'.admitted
  }

  /** The key had its turn: it might not be called at that visit, as the journal stood, or it was
      called and refused. */
  ghost predicate HadItsTurn(s: Setup, pool: PoolSetup, name: string, before: Journal, v: Visit, after: Journal) {
    && Continues(before, after)
    && (MayCall(s, pool, name, before, v) ==>
          v.reply.Refusal? && exists i :: before.calls + [Call(pool.manager, i, name, v)] <= after.calls)
  }

  lemma {:induction false} BeforeContinues(g: Gates, pool: PoolSetup, m: nat, i: nat, k: nat, j: Journal, w: World, n: nat)
    requires i <= k <= |pool.names|
    ensures Continues(Before(g, pool, m, i, j, w, n).journal, Before(g, pool, m, k, j, w, n).journal)
  {
    if i < k {
      BeforeContinues(g, pool, m, i, k - 1, j, w, n);
      TurnAt(g, pool, m, k - 1, j, w, n);
    }
  }

  /** A turn before the one that ends the pass. */
  lemma EarlierTurn(g: Gates, pool: PoolSetup, m: nat, i: nat, j: Journal, w: World, n: nat) returns (st: Journal, st': Journal)
    requires i < EndTurn(g, pool, m, j, w, n) <= |pool.names|
    ensures st == Before(g, pool, m, i, j, w, n).journal && Continues(j, st) && Continues(st, st')
    ensures var r, d := Pass(g, pool, m, j, w, n), g(pool.names[i], i, st);
            && Continues(st', r.journal) && n + i < r.next && d != Stop
            && (d == Proceed ==>
                  w(n + i).reply.Refusal? && st'.calls == st.calls + [Call(m, i, pool.names[i], w(n + i))])
  {
    PassMeaning(g, pool, m, j, w, n);
    PassEnds(g, pool, m, j, w, n);
    assert !EndsAt(g, pool, m, i, j, w, n);
    st, st' := Before(g, pool, m, i, j, w, n).journal, Before(g, pool, m, i + 1, j, w, n).journal;
    BeforeContinues(g, pool, m, 0, i, j, w, n);
    BeforeContinues(g, pool, m, i, i + 1, j, w, n);
    BeforeContinues(g, pool, m, i + 1, Turns(g, pool, m, j, w, n), j, w, n);
    var made := TurnCalls(g, pool, m, i, j, w, n);
  }

  /** The turn that ends a pass without an answer. */
  lemma LastTurn(g: Gates, pool: PoolSetup, m: nat, j: Journal, w: World, n: nat)
    requires Pass(g, pool, m, j, w, n).ending.Unavailable? && EndTurn(g, pool, m, j, w, n) < |pool.names|
    ensures var r, e := Pass(g, pool, m, j, w, n), EndTurn(g, pool, m, j, w, n);
            && r.journal == Before(g, pool, m, e, j, w, n).journal && g(pool.names[e], e, r.journal) == Stop
            && n + e < r.next && Continues(j, r.journal)
  {
    PassMeaning(g, pool, m, j, w, n);
    BeforeContinues(g, pool, m, 0, EndTurn(g, pool, m, j, w, n), j, w, n);
  }

  /** The gates decide by the logs, whenever the logs are not ahead of the clock. */
  ghost predicate DecidesBy(g: Gates, s: Setup, pool: PoolSetup, w: World, n: nat) {
    forall name, i: nat, j: Journal :: g(name, i, j) == Decide(s, pool, pool.manager, name, j, w(n + i))
  }

  lemma EarlierTried(s: Setup, g: Gates, pool: PoolSetup, i: nat, j: Journal, w: World, n: nat) returns (k: nat, before: Journal)
    requires DecidesBy(g, s, pool, w, n) && i < EndTurn(g, pool, pool.manager, j, w, n) <= |pool.names| && InOrder(w(n + i))
    requires NotAhead(Before(g, pool, pool.manager, i, j, w, n).journal, w(n + i).poll)
    ensures var r := Pass(g, pool, pool.manager, j, w, n);
            n <= k < r.next && Continues(j, before) && HadItsTurn(s, pool, pool.names[i], before, w(k), r.journal)
  {
    var after;
    before, after := EarlierTurn(g, pool, pool.manager, i, j, w, n);
    k := n + i;
    TurnTries(s, pool, pool.names[i], before, w(k));
    TurnIsHad(s, pool, pool.names[i], i, before, after, w(k), Pass(g, pool, pool.manager, j, w, n).journal);
  }

  lemma LastTried(s: Setup, pool: PoolSetup, name: string, other: string, j: Journal, v: Visit)
    requires InOrder(v) && NotAhead(j, v.poll) && Decide(s, pool, pool.manager, name, j, v) == Stop
    ensures HadItsTurn(s, pool, other, j, v, j)
  {
    TurnTries(s, pool, name, j, v);
  }

  lemma BeforeNotAhead(s: Setup, p: nat, i: nat, j: Journal, w: World, n: nat)
    requires p < |s.pools| && i <= |s.pools[p].names| && Orderly(w) && Safe(s, j, w(n).poll)
    ensures var pool := s.pools[p];
            NotAhead(Before(GatesOf(s, pool, pool.manager, w, n), pool, pool.manager, i, j, w, n).journal, w(n + i).poll)
    ensures InOrder(w(n + i))
  {
    BeforeIsSafe(s, p, i, j, w, n);
  }

  lemma GatesDecide(s: Setup, pool: PoolSetup, w: World, n: nat)
    ensures DecidesBy(GatesOf(s, pool, pool.manager, w, n), s, pool, w, n)
  {
  }

  ghost predicate Behind(g: Gates, pool: PoolSetup, j: Journal, w: World, n: nat, t: nat) {
    t <= |pool.names| ==> InOrder(w(n + t)) && NotAhead(Before(g, pool, pool.manager, t, j, w, n).journal, w(n + t).poll)
  }

  lemma LaterTried(s: Setup, g: Gates, pool: PoolSetup, name: string, j: Journal, w: World, n: nat)
    returns (k: nat, before: Journal)
    requires EndTurn(g, pool, pool.manager, j, w, n) < |pool.names| && Pass(g, pool, pool.manager, j, w, n).ending.Unavailable?
    requires DecidesBy(g, s, pool, w, n) && Behind(g, pool, j, w, n, EndTurn(g, pool, pool.manager, j, w, n))
    ensures var r := Pass(g, pool, pool.manager, j, w, n);
            n <= k < r.next && Continues(j, before) && HadItsTurn(s, pool, name, before, w(k), r.journal)
  {
    var e := EndTurn(g, pool, pool.manager, j, w, n);
    LastTurn(g, pool, pool.manager, j, w, n);
    k, before := n + e, Pass(g, pool, pool.manager, j, w, n).journal;
    LastTried(s, pool, pool.names[e], name, before, w(k));
  }

  lemma PassTriesBy(s: Setup, g: Gates, pool: PoolSetup, i: nat, j: Journal, w: World, n: nat) returns (k: nat, before: Journal)
    requires DecidesBy(g, s, pool, w, n) && i < |pool.names| && forall t: nat :: Behind(g, pool, j, w, n, t)
    requires Pass(g, pool, pool.manager, j, w, n).ending.Unavailable?
    ensures var r := Pass(g, pool, pool.manager, j, w, n);
            n <= k < r.next && Continues(j, before) && HadItsTurn(s, pool, pool.names[i], before, w(k), r.journal)
  {
    PassMeaning(g, pool, pool.manager, j, w, n);
    var e := EndTurn(g, pool, pool.manager, j, w, n);
    assert Behind(g, pool, j, w, n, i) && Behind(g, pool, j, w, n, e);
    if i < e {
      k, before := EarlierTried(s, g, pool, i, j, w, n);
    } else {
      k, before := LaterTried(s, g, pool, pool.names[i], j, w, n);
    }
  }

  /** When a pass gives up, each key of the pool has had its turn. */
  lemma PassTries(s: Setup, p: nat, i: nat, j: Journal, w: World, n: nat) returns (k: nat, before: Journal)
    requires p < |s.pools| && i < |s.pools[p].names| && Orderly(w) && Safe(s, j, w(n).poll)
    requires PassOver(s, s.pools[p], j, w, n).ending.Unavailable?
    ensures var r := PassOver(s, s.pools[p], j, w, n);
            && n <= k < r.next && Continues(j, before)
            && HadItsTurn(s, s.pools[p], s.pools[p].names[i], before, w(k), r.journal)
  {
    var pool := s.pools[p];
    var g := GatesOf(s, pool, pool.manager, w, n);
    GatesDecide(s, pool, w, n);
    forall t: nat ensures Behind(g, pool, j, w, n, t) {
      if t <= |pool.names| {
        BeforeNotAhead(s, p, t, j, w, n);
      }
    }
    k, before := PassTriesBy(s, g, pool, i, j, w, n);
  }

  lemma TurnTries(s: Setup, pool: PoolSetup, name: string, j: Journal, v: Visit)
    requires NotAhead(j, v.poll) && InOrder(v)
    ensures var d := Decide(s, pool, pool.manager, name, j, v);
            && (d == Proceed <==> MayCall(s, pool, name, j, v))
            && (d == Stop ==> forall other :: !MayCall(s, pool, other, j, v))
  {
    DecisionMeaning(s, pool, name, j, v);
  }

  lemma TurnIsHad(s: Setup, pool: PoolSetup, name: string, i: nat, before: Journal, after: Journal, v: Visit, end: Journal)
    requires MayCall(s, pool, name, before, v) ==>
               v.reply.Refusal? && after.calls == before.calls + [Call(pool.manager, i, name, v)]
    requires Continues(before, after) && Continues(after, end)
    ensures HadItsTurn(s, pool, name, before, v, end)
  {
  }

  // ----- One complete call -----

  lemma PassContinues(s: Setup, pool: PoolSetup, j: Journal, w: World, n: nat)
    ensures var r := PassOver(s, pool, j, w, n); Continues(j, r.journal) && r.next >= n && (Configured(pool) ==> r.next > n)
  {
    var g := GatesOf(s, pool, pool.manager, w, n);
    PassEnds(g, pool, pool.manager, j, w, n);
    BeforeContinues(g, pool, pool.manager, 0, Turns(g, pool, pool.manager, j, w, n), j, w, n);
  }

  lemma ReachStep(s: Setup, p: nat, j: Journal, w: World, n: nat)
    requires p < |s.pools| && PoolFails(s, p, j, w, n)
    ensures var st, st' := Reach(s, p, j, w, n), Reach(s, p + 1, j, w, n);
            if Configured(s.pools[p]) then
              st'.journal == PassAt(s, p, j, w, n).journal && st'.next == PassAt(s, p, j, w, n).next
            else st' == st
  {
  }

  /** One failed pool: the logs and the visits only grow. */
  lemma ReachStepGrows(s: Setup, p: nat, j: Journal, w: World, n: nat)
    requires p < |s.pools| && PoolFails(s, p, j, w, n)
    ensures var st, st' := Reach(s, p, j, w, n), Reach(s, p + 1, j, w, n);
            Continues(st.journal, st'.journal) && st.next <= st'.next && (Configured(s.pools[p]) ==> st.next < st'.next)
  {
    ReachStep(s, p, j, w, n);
    var st := Reach(s, p, j, w, n);
    PassContinues(s, s.pools[p], st.journal, w, st.next);
  }

  lemma ContinuesOn(a: Journal, b: Journal, c: Journal)
    requires Continues(a, b) && Continues(b, c)
    ensures Continues(a, c)
  {
  }

  /** From pool `p` to pool `q` too. */
  lemma {:induction false} ReachGrows(s: Setup, p: nat, q: nat, j: Journal, w: World, n: nat)
    requires p <= q <= |s.pools| && forall k :: p <= k < q ==> PoolFails(s, k, j, w, n)
    ensures Continues(Reach(s, p, j, w, n).journal, Reach(s, q, j, w, n).journal)
    ensures Reach(s, p, j, w, n).next <= Reach(s, q, j, w, n).next
    ensures (exists k :: p <= k < q && Configured(s.pools[k])) ==> Reach(s, p, j, w, n).next < Reach(s, q, j, w, n).next
  {
    if p < q {
      ReachGrows(s, p, q - 1, j, w, n);
      ReachStepGrows(s, q - 1, j, w, n);
      ContinuesOn(Reach(s, p, j, w, n).journal, Reach(s, q - 1, j, w, n).journal, Reach(s, q, j, w, n).journal);
    }
  }

  /** Without any key the gateway says so at once and does nothing; with a key it does not: it takes
      at least one turn. */
  lemma NoKeysIff(s: Setup, j: Journal, w: World, n: nat)
    ensures (forall p :: 0 <= p < |s.pools| ==> s.pools[p].names == [])
            <==> Complete(s, j, w, n) == Run(Unavailable("NO_KEYS"), j, n)
    ensures (exists p :: 0 <= p < |s.pools| && s.pools[p].names != []) ==> Complete(s, j, w, n).next > n
  {
    if AnyConfigured(s) {
      var e := CompleteEnds(s, j, w, n);
      ReachGrows(s, 0, e, j, w, n);
      if e < |s.pools| {
        var st := Reach(s, e, j, w, n);
        PassContinues(s, s.pools[e], st.journal, w, st.next);
      }
      assert exists p :: 0 <= p < |s.pools| && Configured(s.pools[p]);
    } else {
      forall p | 0 <= p < |s.pools| ensures s.pools[p].names == [] {
        assert !Configured(s.pools[p]);
      }
    }
  }

  /** Some visit of the call in which the key had its turn. */
  ghost predicate Tried(s: Setup, pool: PoolSetup, name: string, j: Journal, w: World, n: nat, r: Run) {
    exists k: nat, before: Journal ::
      n <= k < r.next && Continues(j, before) && HadItsTurn(s, pool, name, before, w(k), r.journal)
  }

  lemma TriedLater(s: Setup, pool: PoolSetup, name: string, j: Journal, st: Journal, w: World, n: nat, n': nat, r: Run, r': Run)
    requires n <= n' && Continues(j, st) && Tried(s, pool, name, st, w, n', r)
    requires r.next <= r'.next && Continues(r.journal, r'.journal)
    ensures Tried(s, pool, name, j, w, n, r')
  {
    var k: nat, before: Journal :|
      n' <= k < r.next && Continues(st, before) && HadItsTurn(s, pool, name, before, w(k), r.journal);
    HadItsTurnLater(s, pool, name, before, w(k), r.journal, r'.journal);
    assert n <= k < r'.next && Continues(j, before) && HadItsTurn(s, pool, name, before, w(k), r'.journal);
  }

  lemma HadItsTurnLater(s: Setup, pool: PoolSetup, name: string, before: Journal, v: Visit, after: Journal, later: Journal)
    requires HadItsTurn(s, pool, name, before, v, after) && Continues(after, later)
    ensures HadItsTurn(s, pool, name, before, v, later)
  {
    if MayCall(s, pool, name, before, v) {
      var i :| before.calls + [Call(pool.manager, i, name, v)] <= after.calls;
      assert before.calls + [Call(pool.manager, i, name, v)] <= later.calls;
    }
  }

  /** The gateway gives up only when every key of every pool has had its turn: at some visit of this
      call the key might not be called, as the logs stood, or it was called and refused. */
  lemma GivesUpOnlyAfterAll(s: Setup, j: Journal, w: World, n: nat, p: nat, i: nat)
    requires Orderly(w) && Safe(s, j, w(n).poll) && Complete(s, j, w, n).ending.Unavailable?
    requires p < |s.pools| && i < |s.pools[p].names|
    ensures Tried(s, s.pools[p], s.pools[p].names[i], j, w, n, Complete(s, j, w, n))
  {
    assert Configured(s.pools[p]);
    var e := CompleteEnds(s, j, w, n);
    assert PoolFails(s, p, j, w, n);
    var st, r := Reach(s, p, j, w, n), PassAt(s, p, j, w, n);
    ReachIsSafe(s, p, j, w, n);
    var k, before := PassTries(s, p, i, st.journal, w, st.next);
    ReachGrows(s, 0, p, j, w, n);
    ReachGrows(s, p + 1, e, j, w, n);
    ReachStep(s, p, j, w, n);
    TriedLater(s, s.pools[p], s.pools[p].names[i], j, st.journal, w, n, st.next, r, Complete(s, j, w, n));
  }

  lemma {:induction false} NothingBefore(s: Setup, p: nat, j: Journal, w: World, n: nat)
    requires p <= |s.pools| && forall q :: 0 <= q < p ==> !Configured(s.pools[q])
    ensures Reach(s, p, j, w, n) == PoolsState(j, n, [])
  {
    if p > 0 {
      NothingBefore(s, p - 1, j, w, n);
    }
  }

  lemma FirstOfPass(s: Setup, pool: PoolSetup, j: Journal, w: World, n: nat)
    requires Configured(pool) && NotAhead(j, w(n).poll) && InOrder(w(n)) && MayCall(s, pool, pool.names[0], j, w(n))
    ensures var r, c := PassOver(s, pool, j, w, n), Call(pool.manager, 0, pool.names[0], w(n));
            && j.calls + [c] <= r.journal.calls
            && (w(n).reply.Answer? ==>
                  r == Run(Got(Answered(pool, c.name, w(n))),
                           Journal(j.admitted + [Admission(c.name, w(n).admit)], j.calls + [c]), n + 1))
  {
    var m, g, v := pool.manager, GatesOf(s, pool, pool.manager, w, n), w(n);
    TurnTries(s, pool, pool.names[0], j, v);
    TurnAt(g, pool, m, 0, j, w, n);
    assert n + 0 == n && DecisionAt(g, pool, m, 0, j, w, n) == Proceed;
    PassMeaning(g, pool, m, j, w, n);
    PassEnds(g, pool, m, j, w, n);
    BeforeContinues(g, pool, m, 1, Turns(g, pool, m, j, w, n), j, w, n);
    if v.reply.Answer? {
      assert EndsAt(g, pool, m, 0, j, w, n);
    }
  }

  /** The pass over the first pool with keys begins the call, and if it answers it is the call. */
  lemma FirstPoolLeads(s: Setup, j: Journal, w: World, n: nat, p: nat)
    requires p < |s.pools| && Configured(s.pools[p]) && forall q :: 0 <= q < p ==> !Configured(s.pools[q])
    ensures var first, r := PassOver(s, s.pools[p], j, w, n), Complete(s, j, w, n);
            Continues(first.journal, r.journal) && (first.ending.Got? ==> r == first)
  {
    var e := CompleteEnds(s, j, w, n);
    NothingBefore(s, p, j, w, n);
    if e > p {
      assert PoolFails(s, p, j, w, n);
      ReachStep(s, p, j, w, n);
      ReachGrows(s, p + 1, e, j, w, n);
      if e < |s.pools| {
        var st := Reach(s, e, j, w, n);
        PassContinues(s, s.pools[e], st.journal, w, st.next);
      }
    }
  }

  /** The first key of the first pool that has keys: if it may be called at the first visit, it is,
      before any other, and if the client answers, that is the answer of the whole call. */
  lemma FirstKeyFirst(s: Setup, j: Journal, w: World, n: nat, p: nat)
    requires Orderly(w) && Safe(s, j, w(n).poll)
    requires p < |s.pools| && s.pools[p].names != [] && forall q :: 0 <= q < p ==> s.pools[q].names == []
    requires MayCall(s, s.pools[p], s.pools[p].names[0], j, w(n))
    ensures var r, c := Complete(s, j, w, n), Call(s.pools[p].manager, 0, s.pools[p].names[0], w(n));
            && j.calls + [c] <= r.journal.calls
            && (w(n).reply.Answer? ==>
                  r == Run(Got(Answered(s.pools[p], c.name, w(n))),
                           Journal(j.admitted + [Admission(c.name, w(n).admit)], j.calls + [c]), n + 1))
  {
    FirstPoolLeads(s, j, w, n, p);
    FirstOfPass(s, s.pools[p], j, w, n);
    ExtendsPrefix(j.calls + [Call(s.pools[p].manager, 0, s.pools[p].names[0], w(n))],
                  PassOver(s, s.pools[p], j, w, n).journal.calls, Complete(s, j, w, n).journal.calls);
  }

  lemma ExtendsPrefix(a: seq<Call>, b: seq<Call>, c: seq<Call>)
    requires a <= b <= c
    ensures a <= c
  {
  }

  // ----- Answers -----

  /** The answer of the last call, by a pool that has the key. */
  ghost predicate AnsweredBy(s: Setup, c: Call, ending: Ending) {
    c.visit.reply.Answer? && exists p :: 0 <= p < |s.pools| && s.pools[p].manager == c.manager && c.name in s.pools[p].names
                                      && ending == Got(Answered(s.pools[p], c.name, c.visit))
  }

  lemma PassAnswers(s: Setup, p: nat, j: Journal, w: World, n: nat) returns (more: seq<Call>)
    requires p < |s.pools|
    ensures var r := PassOver(s, s.pools[p], j, w, n);
            && r.journal.calls == j.calls + more
            && if r.ending.Got? then
                 more != [] && AllRefused(more[..|more| - 1]) && AnsweredBy(s, more[|more| - 1], r.ending)
               else AllRefused(more)
  {
    var pool := s.pools[p];
    var r := PassOver(s, pool, j, w, n);
    more := PassCalls(GatesOf(s, pool, pool.manager, w, n), pool, pool.manager, j, w, n);
    if r.ending.Got? {
      var c := more[|more| - 1];
      assert s.pools[p].manager == c.manager && c.name in s.pools[p].names && r.ending == Got(Answered(s.pools[p], c.name, c.visit));
    }
  }

  lemma StepRefused(s: Setup, p: nat, j: Journal, w: World, n: nat) returns (more: seq<Call>)
    requires p < |s.pools| && PoolFails(s, p, j, w, n)
    ensures Reach(s, p + 1, j, w, n).journal.calls == Reach(s, p, j, w, n).journal.calls + more && AllRefused(more)
  {
    ReachStep(s, p, j, w, n);
    more := [];
    if Configured(s.pools[p]) {
      var st := Reach(s, p, j, w, n);
      more := PassAnswers(s, p, st.journal, w, st.next);
    }
  }

  lemma RefusedOn(calls: seq<Call>, a: seq<Call>, b: seq<Call>)
    requires AllRefused(a) && AllRefused(b)
    ensures AllRefused(a + b) && (calls + a) + b == calls + (a + b)
  {
  }

  lemma {:induction false} ReachRefused(s: Setup, p: nat, j: Journal, w: World, n: nat) returns (more: seq<Call>)
    requires p <= |s.pools| && forall q :: 0 <= q < p ==> PoolFails(s, q, j, w, n)
    ensures Reach(s, p, j, w, n).journal.calls == j.calls + more && AllRefused(more)
  {
    if p == 0 {
      more := [];
      assert j.calls + more == j.calls;
    } else {
      var front := ReachRefused(s, p - 1, j, w, n);
      var last := StepRefused(s, p - 1, j, w, n);
      RefusedOn(j.calls, front, last);
      more := front + last;
    }
  }

  /** The calls of one `complete`: all but the last are refused; there is an answer iff the last one
      is answered, and then it is that answer. */
  lemma CompleteAnswers(s: Setup, j: Journal, w: World, n: nat) returns (more: seq<Call>)
    ensures var r := Complete(s, j, w, n);
            && r.journal.calls == j.calls + more
            && if r.ending.Got? then
                 more != [] && AllRefused(more[..|more| - 1]) && AnsweredBy(s, more[|more| - 1], r.ending)
               else AllRefused(more)
  {
    more := [];
    if AnyConfigured(s) {
      var e := CompleteEnds(s, j, w, n);
      more := ReachRefused(s, e, j, w, n);
      if e < |s.pools| {
        var front, st := more, Reach(s, e, j, w, n);
        var last := PassAnswers(s, e, st.journal, w, st.next);
        more := front + last;
        assert more[..|more| - 1] == front + last[..|last| - 1];
      }
    } else {
      assert j.calls + more == j.calls;
    }
  }
}
