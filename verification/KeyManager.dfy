/** app/kela_ai/key_manager.py: ACTIVE / COOLDOWN / DISABLED per API key, with counters.

    The specification is the log of marks (what each finished call reported).  A key's state is
    decided by its last mark that has any effect at all, and by the clock. */
module KeyManager {
  import opened Wrappers

  const ERR_TIMEOUT := "TIMEOUT"
  const ERR_NETWORK := "NETWORK"
  const ERR_INVALID_CREDENTIALS := "INVALID_CREDENTIALS"
  const ERR_FORBIDDEN := "FORBIDDEN"
  const ERR_RATE_LIMIT := "RATE_LIMIT"
  const ERR_SERVER := "SERVER"

  datatype KeyState = Active | Cooldown | Disabled

  datatype Verdict = Succeeded | Failed(code: string)

  datatype Mark = Mark(name: string, verdict: Verdict, latency: int, at: real)

  datatype Effect = Activates | Cools | Disables | NoEffect

  predicate IsCooldownError(code: string) {
    code in {ERR_RATE_LIMIT, ERR_SERVER, ERR_TIMEOUT, ERR_NETWORK, ERR_FORBIDDEN}
  }

  function EffectOf(verdict: Verdict): Effect {
    match verdict
    case Succeeded => Activates
    case Failed(code) =>
      if code == ERR_INVALID_CREDENTIALS then Disables
      else if IsCooldownError(code) then Cools
      else NoEffect
  }

  /** The last mark of `name` that has an effect. */
  function Decisive(log: seq<Mark>, name: string): Option<Mark> {
    if log == [] then None
    else
      var last := log[|log| - 1];
      if last.name == name && EffectOf(last.verdict) != NoEffect then Some(last)
      else Decisive(log[..|log| - 1], name)
  }

  /** The state of a known key at `now`, read off the log. */
  function KeyStateAt(log: seq<Mark>, cooldown: real, name: string, now: real): KeyState {
    match Decisive(log, name)
    case None => Active
    case Some(m) =>
      match EffectOf(m.verdict)
      case Disables => Disabled
      case Cools => if now >= m.at + cooldown then Active else Cooldown
      case _ => Active
  }

  /** The same for any name; a name that is not in the pool is disabled. */
  function StateAt(names: seq<string>, log: seq<Mark>, cooldown: real, name: string, now: real): KeyState {
    if name in names then KeyStateAt(log, cooldown, name, now) else Disabled
  }

  lemma AppendMark(log: seq<Mark>, m: Mark, name: string)
    ensures Decisive(log + [m], name)
         == if m.name == name && EffectOf(m.verdict) != NoEffect then Some(m) else Decisive(log, name)
  {
    assert (log + [m])[..|log|] == log;
  }

  /** What one mark does to a key's state, for every code.  On any log, a cooling failure cools the
      key until its cooldown has passed, a rejected credential disables it, a success activates it,
      and any other code leaves it as it was. */
  lemma MarkDecides(log: seq<Mark>, cooldown: real, name: string, verdict: Verdict, latency: int, at: real, now: real)
    ensures var after := KeyStateAt(log + [Mark(name, verdict, latency, at)], cooldown, name, now);
            match verdict
            case Succeeded => after == Active
            case Failed(code) =>
              if code in {"RATE_LIMIT", "SERVER", "TIMEOUT", "NETWORK", "FORBIDDEN"} then
                after == if now < at + cooldown then Cooldown else Active
              else if code == "INVALID_CREDENTIALS" then after == Disabled
              else after == KeyStateAt(log, cooldown, name, now)
  {
    AppendMark(log, Mark(name, verdict, latency, at), name);
  }

  /** So right after a failure the code tells the state: cooling for exactly five codes, and disabled
      for a rejected credential or, with a code that is none of the six, if the key was so before. */
  lemma CodeTellsState(log: seq<Mark>, cooldown: real, name: string, code: string, latency: int, at: real)
    requires cooldown > 0.0
    ensures var before, after := KeyStateAt(log, cooldown, name, at),
                                 KeyStateAt(log + [Mark(name, Failed(code), latency, at)], cooldown, name, at);
            var cools := {"RATE_LIMIT", "SERVER", "TIMEOUT", "NETWORK", "FORBIDDEN"};
            && (code in cools ==> after == Cooldown)
            && (after == Cooldown ==> code in cools || (code != "INVALID_CREDENTIALS" && before == Cooldown))
            && (after == Disabled <==> code == "INVALID_CREDENTIALS" || (code !in cools && before == Disabled))
            && (code !in cools + {"INVALID_CREDENTIALS"} ==> after == before)
  {
    MarkDecides(log, cooldown, name, Failed(code), latency, at, at);
  }

  /** A key that nothing was marked on is active, marks on other keys change nothing, and a name
      that the pool does not have is disabled. */
  lemma {:induction false} OwnMarksDecide(names: seq<string>, log: seq<Mark>, others: seq<Mark>, cooldown: real,
                                          name: string, now: real)
    requires forall i :: 0 <= i < |others| ==> others[i].name != name
    ensures KeyStateAt(log + others, cooldown, name, now) == KeyStateAt(log, cooldown, name, now)
    ensures KeyStateAt(others, cooldown, name, now) == Active
    ensures StateAt(names, log, cooldown, name, now) == if name in names then KeyStateAt(log, cooldown, name, now) else Disabled
  {
    if others == [] {
      assert log + others == log;
    } else {
      var front, last := others[..|others| - 1], others[|others| - 1];
      OwnMarksDecide(names, log, front, cooldown, name, now);
      AppendMark(log + front, last, name);
      assert log + others == (log + front) + [last];
    }
  }

  /** A rejected credential is final: no amount of waiting, no report on another key and no report
      without effect brings the key back; only its own success or cooling failure would. */
  lemma {:induction false} DisabledStays(log: seq<Mark>, more: seq<Mark>, cooldown: real, name: string, now: real)
    requires Decisive(log, name).Some? && EffectOf(Decisive(log, name).value.verdict) == Disables
    requires forall i :: 0 <= i < |more| && more[i].name == name ==> EffectOf(more[i].verdict) in {Disables, NoEffect}
    ensures KeyStateAt(log + more, cooldown, name, now) == Disabled
    ensures EffectOf(Decisive(log + more, name).value.verdict) == Disables
  {
    if more == [] {
      assert log + more == log;
    } else {
      var front, last := more[..|more| - 1], more[|more| - 1];
      DisabledStays(log, front, cooldown, name, now);
      AppendMark(log + front, last, name);
      assert log + more == (log + front) + [last];
    }
  }

  // ----- Counters -----

  datatype Counter =
    Successful | RateLimits | Timeouts | NetworkErrors | ServerErrors | InvalidCredentials | OtherErrors

  datatype Counters = Counters(total: nat, successful: nat, rateLimits: nat, timeouts: nat, networkErrors: nat,
                               serverErrors: nat, invalidCredentials: nat, otherErrors: nat, latency: int)

  const ZERO := Counters(0, 0, 0, 0, 0, 0, 0, 0, 0)

  function CounterOf(verdict: Verdict): Counter {
    match verdict
    case Succeeded => Successful
    case Failed(code) =>
      if code == ERR_RATE_LIMIT then RateLimits
      else if code == ERR_TIMEOUT then Timeouts
      else if code == ERR_NETWORK then NetworkErrors
      else if code == ERR_SERVER then ServerErrors
      else if code == ERR_INVALID_CREDENTIALS || code == ERR_FORBIDDEN then InvalidCredentials
      else OtherErrors
  }

  /** How many marks of `name` belong to one counter. */
  function Tally(log: seq<Mark>, name: string, c: Counter): nat {
    if log == [] then 0
    else
      var last := log[|log| - 1];
      Tally(log[..|log| - 1], name, c) + if last.name == name && CounterOf(last.verdict) == c then 1 else 0
  }

  function MarksOf(log: seq<Mark>, name: string): seq<Mark> {
    if log == [] then []
    else
      var last := log[|log| - 1];
      MarksOf(log[..|log| - 1], name) + if last.name == name then [last] else []
  }

  function TotalLatency(marks: seq<Mark>): int {
    if marks == [] then 0 else TotalLatency(marks[..|marks| - 1]) + marks[|marks| - 1].latency
  }

  function CountOf(c: Counters, kind: Counter): nat {
    match kind
    case Successful => c.successful
    case RateLimits => c.rateLimits
    case Timeouts => c.timeouts
    case NetworkErrors => c.networkErrors
    case ServerErrors => c.serverErrors
    case InvalidCredentials => c.invalidCredentials
    case OtherErrors => c.otherErrors
  }

  /** Each counter is the tally of its own kind of mark. */
  ghost predicate Counts(c: Counters, log: seq<Mark>, name: string) {
    && c.total == |MarksOf(log, name)|
    && (forall kind :: CountOf(c, kind) == Tally(log, name, kind))
    && c.latency == TotalLatency(MarksOf(log, name))
  }

  /** Nothing is counted twice and nothing is lost: the total is the sum of the seven kinds. */
  lemma {:induction false} CountersBalance(c: Counters, log: seq<Mark>, name: string)
    requires Counts(c, log, name)
    ensures c.total == c.successful + c.rateLimits + c.timeouts + c.networkErrors + c.serverErrors
                       + c.invalidCredentials + c.otherErrors
  {
    TalliesBalance(log, name);
    assert CountOf(c, Successful) == c.successful && CountOf(c, RateLimits) == c.rateLimits;
    assert CountOf(c, Timeouts) == c.timeouts && CountOf(c, NetworkErrors) == c.networkErrors;
    assert CountOf(c, ServerErrors) == c.serverErrors && CountOf(c, OtherErrors) == c.otherErrors;
    assert CountOf(c, InvalidCredentials) == c.invalidCredentials;
  }

  lemma {:induction false} TalliesBalance(log: seq<Mark>, name: string)
    ensures |MarksOf(log, name)|
         == Tally(log, name, Successful) + Tally(log, name, RateLimits) + Tally(log, name, Timeouts)
            + Tally(log, name, NetworkErrors) + Tally(log, name, ServerErrors)
            + Tally(log, name, InvalidCredentials) + Tally(log, name, OtherErrors)
  {
    if log == [] {
    } else {
      TalliesBalance(log[..|log| - 1], name);
    }
  }

  lemma AppendCounts(log: seq<Mark>, m: Mark, name: string)
    ensures MarksOf(log + [m], name) == MarksOf(log, name) + if m.name == name then [m] else []
    ensures TotalLatency(MarksOf(log + [m], name))
         == TotalLatency(MarksOf(log, name)) + if m.name == name then m.latency else 0
    ensures forall c :: Tally(log + [m], name, c)
                     == Tally(log, name, c) + if m.name == name && CounterOf(m.verdict) == c then 1 else 0
  {
    assert (log + [m])[..|log|] == log;
    var own := MarksOf(log, name);
    if m.name == name {
      assert MarksOf(log + [m], name) == own + [m];
      assert (own + [m])[..|own|] == own;
    } else {
      assert MarksOf(log + [m], name) == own;
    }
  }

  // ----- The key manager -----

  /** What the stored state of one name may be, given the log up to `now`: a cooling key may or
      may not have noticed that its cooldown is over. */
  ghost predicate Reflects(s: KeyState, until: real, log: seq<Mark>, cooldown: real, name: string, now: real) {
    match Decisive(log, name)
    case None => s == Active
    case Some(m) =>
      match EffectOf(m.verdict)
      case Disables => s == Disabled
      case Cools =>
        (s == Cooldown && until == m.at + cooldown) || (s == Active && now >= m.at + cooldown)
      case _ => s == Active
  }

  datatype Entry = Entry(state: KeyState, until: real, counters: Counters)

  datatype Table = Table(state: map<string, KeyState>, until: map<string, real>, stats: map<string, Counters>)

  ghost predicate Holds(e: Entry, log: seq<Mark>, cooldown: real, name: string, now: real) {
    Reflects(e.state, e.until, log, cooldown, name, now) && Counts(e.counters, log, name)
  }

  predicate HasExactly(t: Table, known: set<string>) {
    t.state.Keys == known && t.until.Keys == known && t.stats.Keys == known
  }

  function EntryOf(t: Table, name: string): Entry
    requires name in t.state && name in t.until && name in t.stats
  {
    Entry(t.state[name], t.until[name], t.stats[name])
  }

  ghost predicate AllHold(t: Table, known: set<string>, log: seq<Mark>, cooldown: real, now: real) {
    && HasExactly(t, known)
    && forall n {:trigger EntryOf(t, n)} :: n in known ==> Holds(EntryOf(t, n), log, cooldown, n, now)
  }

  /** The table of a new key manager: every key is active. */
  ghost function NewTable(known: set<string>): Table {
    Table(map n | n in known :: Active, map n | n in known :: 0.0, map n | n in known :: ZERO)
  }

  lemma NewTableHolds(known: set<string>, cooldown: real, now: real)
    ensures AllHold(NewTable(known), known, [], cooldown, now)
  {
    forall n | n in known ensures Holds(EntryOf(NewTable(known), n), [], cooldown, n, now) {
      assert EntryOf(NewTable(known), n) == Entry(Active, 0.0, ZERO);
    }
  }

  /** `t'` differs from `t` at most in the entry of `name`. */
  ghost predicate SameElsewhere(t: Table, t': Table, known: set<string>, name: string)
    requires HasExactly(t, known) && HasExactly(t', known)
  {
    forall n {:trigger EntryOf(t', n)} :: n in known && n != name ==> EntryOf(t', n) == EntryOf(t, n)
  }

  /** A poll changes at most one entry, and only to what the log says. */
  lemma PollKeeps(t: Table, t': Table, known: set<string>, log: seq<Mark>, cooldown: real, name: string,
                  latest: real, now: real)
    requires AllHold(t, known, log, cooldown, latest) && latest <= now && HasExactly(t', known)
    requires SameElsewhere(t, t', known, name)
    requires name in known ==> Holds(EntryOf(t', name), log, cooldown, name, now)
    ensures AllHold(t', known, log, cooldown, now)
  {
    forall n | n in known ensures Holds(EntryOf(t', n), log, cooldown, n, now) {
      assert Holds(EntryOf(t, n), log, cooldown, n, latest);
    }
  }

  function Put(t: Table, name: string, e: Entry): Table {
    Table(t.state[name := e.state], t.until[name := e.until], t.stats[name := e.counters])
  }

  /** A mark on another key. */
  lemma OtherHolds(e: Entry, log: seq<Mark>, m: Mark, cooldown: real, name: string, latest: real)
    requires Holds(e, log, cooldown, name, latest) && latest <= m.at && name != m.name
    ensures Holds(e, log + [m], cooldown, name, m.at)
  {
    AppendMark(log, m, name);
    AppendCounts(log, m, name);
  }

  /** A mark on a key the manager does not have changes nothing it stores. */
  lemma UnknownKeeps(t: Table, known: set<string>, log: seq<Mark>, m: Mark, cooldown: real, latest: real)
    requires AllHold(t, known, log, cooldown, latest) && latest <= m.at && m.name !in known
    ensures AllHold(t, known, log + [m], cooldown, m.at)
  {
    forall n | n in known ensures Holds(EntryOf(t, n), log + [m], cooldown, n, m.at) {
      OtherHolds(EntryOf(t, n), log, m, cooldown, n, latest);
    }
  }

  lemma EntryKept(t: Table, e: Entry, known: set<string>, log: seq<Mark>, m: Mark, cooldown: real, latest: real, n: string)
    requires AllHold(t, known, log, cooldown, latest) && latest <= m.at && m.name in known && n in known
    requires Holds(e, log + [m], cooldown, m.name, m.at)
    ensures Holds(EntryOf(Put(t, m.name, e), n), log + [m], cooldown, n, m.at)
  {
    if n == m.name {
      assert EntryOf(Put(t, m.name, e), n) == e;
    } else {
      assert EntryOf(Put(t, m.name, e), n) == EntryOf(t, n);
      OtherHolds(EntryOf(t, n), log, m, cooldown, n, latest);
    }
  }

  lemma PutExact(t: Table, known: set<string>, name: string, e: Entry)
    requires HasExactly(t, known) && name in known
    ensures HasExactly(Put(t, name, e), known)
  {
  }

  /** A mark changes only the entry it names. */
  lemma {:induction false} MarkKeeps(t: Table, e: Entry, known: set<string>, log: seq<Mark>, m: Mark, cooldown: real, latest: real)
    requires AllHold(t, known, log, cooldown, latest) && latest <= m.at && m.name in known
    requires Holds(e, log + [m], cooldown, m.name, m.at)
    ensures AllHold(Put(t, m.name, e), known, log + [m], cooldown, m.at)
  {
    var t', log' := Put(t, m.name, e), log + [m];
    PutExact(t, known, m.name, e);
    forall n | n in known
      ensures Reflects(EntryOf(t', n).state, EntryOf(t', n).until, log', cooldown, n, m.at)
      ensures Counts(EntryOf(t', n).counters, log', n)
    {
      EntryKept(t, e, known, log, m, cooldown, latest, n);
    }
    assert forall n {:trigger EntryOf(t', n)} :: n in known ==> Holds(EntryOf(t', n), log', cooldown, n, m.at);
  }

  /** What a poll makes of one entry, and that it answers what the log says. */
  lemma PollHolds(e: Entry, log: seq<Mark>, cooldown: real, name: string, latest: real, now: real)
    requires Holds(e, log, cooldown, name, latest) && latest <= now
    ensures var e' := if e.state == Cooldown && now >= e.until then e.(state := Active) else e;
            Holds(e', log, cooldown, name, now) && e'.state == KeyStateAt(log, cooldown, name, now)
  {
  }

  function AfterSuccess(e: Entry, latency: int): Entry {
    Entry(Active, 0.0, CountSuccess(e.counters, latency))
  }

  function AfterFailure(e: Entry, code: string, latency: int, now: real, cooldown: real): Entry {
    var counters := CountFailure(e.counters, code, latency);
    match EffectOf(Failed(code))
    case Disables => Entry(Disabled, e.until, counters)
    case Cools => Entry(Cooldown, now + cooldown, counters)
    case _ => e.(counters := counters)
  }

  lemma SuccessBumps(c: Counters, latency: int)
    ensures CountSuccess(c, latency) == Bumped(c, CounterOf(Succeeded), latency)
  {
  }

  lemma SuccessHolds(e: Entry, log: seq<Mark>, m: Mark, cooldown: real, latest: real)
    requires Holds(e, log, cooldown, m.name, latest) && m.verdict == Succeeded
    ensures Holds(AfterSuccess(e, m.latency), log + [m], cooldown, m.name, m.at)
  {
    AppendMark(log, m, m.name);
    SuccessBumps(e.counters, m.latency);
    BumpCounts(e.counters, log, m);
  }

  lemma FailureHolds(e: Entry, log: seq<Mark>, m: Mark, cooldown: real, latest: real)
    requires Holds(e, log, cooldown, m.name, latest) && m.verdict.Failed? && latest <= m.at
    ensures Holds(AfterFailure(e, m.verdict.code, m.latency, m.at, cooldown), log + [m], cooldown, m.name, m.at)
  {
    AppendMark(log, m, m.name);
    FailureCounts(e.counters, log, m);
  }

  lemma SuccessKeeps(t: Table, known: set<string>, log: seq<Mark>, m: Mark, cooldown: real, latest: real)
    requires AllHold(t, known, log, cooldown, latest) && latest <= m.at && m.name in known && m.verdict == Succeeded
    ensures AllHold(Put(t, m.name, AfterSuccess(EntryOf(t, m.name), m.latency)), known, log + [m], cooldown, m.at)
  {
    SuccessHolds(EntryOf(t, m.name), log, m, cooldown, latest);
    MarkKeeps(t, AfterSuccess(EntryOf(t, m.name), m.latency), known, log, m, cooldown, latest);
  }

  lemma FailureKeeps(t: Table, known: set<string>, log: seq<Mark>, m: Mark, cooldown: real, latest: real)
    requires AllHold(t, known, log, cooldown, latest) && latest <= m.at && m.name in known && m.verdict.Failed?
    ensures AllHold(Put(t, m.name, AfterFailure(EntryOf(t, m.name), m.verdict.code, m.latency, m.at, cooldown)),
                    known, log + [m], cooldown, m.at)
  {
    FailureHolds(EntryOf(t, m.name), log, m, cooldown, latest);
    MarkKeeps(t, AfterFailure(EntryOf(t, m.name), m.verdict.code, m.latency, m.at, cooldown), known, log, m, cooldown, latest);
  }

  lemma SameKeyUpdate<V>(table: map<string, V>, name: string)
    requires name in table
    ensures table[name := table[name]] == table
  {
  }

  function Bumped(c: Counters, kind: Counter, latency: int): Counters {
    var d := c.(total := c.total + 1, latency := c.latency + latency);
    match kind
    case Successful => d.(successful := d.successful + 1)
    case RateLimits => d.(rateLimits := d.rateLimits + 1)
    case Timeouts => d.(timeouts := d.timeouts + 1)
    case NetworkErrors => d.(networkErrors := d.networkErrors + 1)
    case ServerErrors => d.(serverErrors := d.serverErrors + 1)
    case InvalidCredentials => d.(invalidCredentials := d.invalidCredentials + 1)
    case OtherErrors => d.(otherErrors := d.otherErrors + 1)
  }

  lemma BumpOne(c: Counters, kind: Counter, latency: int, other: Counter)
    ensures CountOf(Bumped(c, kind, latency), other) == CountOf(c, other) + if other == kind then 1 else 0
  {
  }

  lemma BumpCounts(c: Counters, log: seq<Mark>, m: Mark)
    requires Counts(c, log, m.name)
    ensures Counts(Bumped(c, CounterOf(m.verdict), m.latency), log + [m], m.name)
  {
    AppendCounts(log, m, m.name);
    forall kind ensures CountOf(Bumped(c, CounterOf(m.verdict), m.latency), kind) == Tally(log + [m], m.name, kind) {
      BumpOne(c, CounterOf(m.verdict), m.latency, kind);
    }
  }

  lemma FailureBumps(c: Counters, code: string, latency: int)
    ensures CountFailure(c, code, latency) == Bumped(c, CounterOf(Failed(code)), latency)
  {
  }

  lemma FailureCounts(c: Counters, log: seq<Mark>, m: Mark)
    requires Counts(c, log, m.name) && m.verdict.Failed?
    ensures Counts(CountFailure(c, m.verdict.code, m.latency), log + [m], m.name)
  {
    FailureBumps(c, m.verdict.code, m.latency);
    BumpCounts(c, log, m);
  }

  /** How many of the first `n` keys are active at `now`. */
  function ActiveAmong(names: seq<string>, marks: seq<Mark>, cooldown: real, n: nat, now: real): nat
    requires n <= |names|
  {
    if n == 0 then 0
    else ActiveAmong(names, marks, cooldown, n - 1, now)
         + if StateAt(names, marks, cooldown, names[n - 1], now) == Active then 1 else 0
  }

  /** That is the number of positions whose key is active. */
  lemma {:induction false} ActiveAmongCounts(names: seq<string>, marks: seq<Mark>, cooldown: real, n: nat, now: real)
    requires n <= |names|
    ensures ActiveAmong(names, marks, cooldown, n, now)
         == |set i | 0 <= i < n && KeyStateAt(marks, cooldown, names[i], now) == Active|
  {
    if n > 0 {
      ActiveAmongCounts(names, marks, cooldown, n - 1, now);
      var before := set i | 0 <= i < n - 1 && KeyStateAt(marks, cooldown, names[i], now) == Active;
      var all := set i | 0 <= i < n && KeyStateAt(marks, cooldown, names[i], now) == Active;
      assert all == before + if KeyStateAt(marks, cooldown, names[n - 1], now) == Active then {n - 1} else {};
    }
  }

  /** How long a cooling key cools after `now`, read off the log; zero if it is not cooling. */
  function RemainingAt(log: seq<Mark>, cooldown: real, name: string, now: real): real {
    if KeyStateAt(log, cooldown, name, now) == Cooldown then Decisive(log, name).value.at + cooldown - now else 0.0
  }

  /** That is when it is active again, if nothing is marked before. */
  lemma ActiveAgainThen(log: seq<Mark>, cooldown: real, name: string, now: real, later: real)
    requires now <= later
    ensures KeyStateAt(log, cooldown, name, now) == Cooldown <==> RemainingAt(log, cooldown, name, now) > 0.0
    ensures KeyStateAt(log, cooldown, name, now) == Cooldown ==>
              KeyStateAt(log, cooldown, name, later)
              == if later - now < RemainingAt(log, cooldown, name, now) then Cooldown else Active
  {
  }

  function CountersAt(log: seq<Mark>, name: string): Counters {
    Counters(|MarksOf(log, name)|, Tally(log, name, Successful), Tally(log, name, RateLimits), Tally(log, name, Timeouts),
             Tally(log, name, NetworkErrors), Tally(log, name, ServerErrors), Tally(log, name, InvalidCredentials),
             Tally(log, name, OtherErrors), TotalLatency(MarksOf(log, name)))
  }

  lemma CountsAre(c: Counters, log: seq<Mark>, name: string)
    requires Counts(c, log, name)
    ensures c == CountersAt(log, name)
  {
    assert c.successful == CountOf(c, Successful) && c.rateLimits == CountOf(c, RateLimits);
    assert c.timeouts == CountOf(c, Timeouts) && c.networkErrors == CountOf(c, NetworkErrors);
    assert c.serverErrors == CountOf(c, ServerErrors) && c.otherErrors == CountOf(c, OtherErrors);
    assert c.invalidCredentials == CountOf(c, InvalidCredentials);
  }

  /** Which counter a verdict raises, for every code. */
  lemma VerdictRaises(verdict: Verdict)
    ensures CounterOf(verdict)
         == match verdict
            case Succeeded => Successful
            case Failed(code) =>
              if code == "RATE_LIMIT" then RateLimits
              else if code == "TIMEOUT" then Timeouts
              else if code == "NETWORK" then NetworkErrors
              else if code == "SERVER" then ServerErrors
              else if code in {"INVALID_CREDENTIALS", "FORBIDDEN"} then InvalidCredentials
              else OtherErrors
  {
  }

  /** What one mark does to the counters of a key: one counter, the total and the latency go up.  A
      key starts with zeroes, and marks on other keys change nothing. */
  lemma MarkCounts(log: seq<Mark>, m: Mark, name: string)
    ensures CountersAt([], name) == Counters(0, 0, 0, 0, 0, 0, 0, 0, 0)
    ensures m.name != name ==> CountersAt(log + [m], name) == CountersAt(log, name)
    ensures m.name == name ==>
              var c, k := CountersAt(log, name), CounterOf(m.verdict);
              CountersAt(log + [m], name)
              == Counters(c.total + 1, c.successful + Unit(k == Successful), c.rateLimits + Unit(k == RateLimits),
                          c.timeouts + Unit(k == Timeouts), c.networkErrors + Unit(k == NetworkErrors),
                          c.serverErrors + Unit(k == ServerErrors), c.invalidCredentials + Unit(k == InvalidCredentials),
                          c.otherErrors + Unit(k == OtherErrors), c.latency + m.latency)
  {
    AppendReports(log, m, name);
  }

  function Unit(b: bool): nat {
    if b then 1 else 0
  }

  lemma AppendReports(log: seq<Mark>, m: Mark, name: string)
    ensures CountersAt(log + [m], name)
         == if m.name == name then Bumped(CountersAt(log, name), CounterOf(m.verdict), m.latency) else CountersAt(log, name)
  {
    AppendCounts(log, m, name);
    var after := if m.name == name then Bumped(CountersAt(log, name), CounterOf(m.verdict), m.latency) else CountersAt(log, name);
    forall kind ensures CountOf(after, kind) == Tally(log + [m], name, kind) {
      BumpOne(CountersAt(log, name), CounterOf(m.verdict), m.latency, kind);
    }
    CountsAre(after, log + [m], name);
  }

  /** One entry of the report. */
  datatype KeyReport = KeyReport(state: KeyState, remaining: real, counters: Counters)

  /** What a poll of the key reports, read off the log. */
  function ReportAt(log: seq<Mark>, cooldown: real, name: string, now: real): KeyReport {
    KeyReport(KeyStateAt(log, cooldown, name, now), RemainingAt(log, cooldown, name, now), CountersAt(log, name))
  }

  /** What the dictionaries say of a key just polled. */
  function ReportOf(e: Entry, now: real): KeyReport {
    KeyReport(e.state, if e.state == Cooldown && e.until - now > 0.0 then e.until - now else 0.0, e.counters)
  }

  lemma EntryReports(e: Entry, log: seq<Mark>, cooldown: real, name: string, now: real)
    requires Holds(e, log, cooldown, name, now) && e.state == KeyStateAt(log, cooldown, name, now)
    ensures ReportOf(e, now) == ReportAt(log, cooldown, name, now)
  {
    CountsAre(e.counters, log, name);
  }

  /** The reports of the first `n` keys, by name. */
  function ReportsAt(names: seq<string>, marks: seq<Mark>, cooldown: real, n: nat, now: real): map<string, KeyReport>
    requires n <= |names|
  {
    if n == 0 then map[]
    else ReportsAt(names, marks, cooldown, n - 1, now)[names[n - 1] := ReportAt(marks, cooldown, names[n - 1], now)]
  }

  /** These are the reports of the first `n` keys, and the number of active ones among them. */
  ghost predicate Reports(keys: map<string, KeyReport>, active: nat, names: seq<string>, marks: seq<Mark>, cooldown: real,
                          n: nat, now: real)
    requires n <= |names|
  {
    keys == ReportsAt(names, marks, cooldown, n, now) && active == ActiveAmong(names, marks, cooldown, n, now)
  }

  lemma ReportsOneMore(keys: map<string, KeyReport>, active: nat, names: seq<string>, marks: seq<Mark>, cooldown: real,
                       n: nat, now: real, r: KeyReport)
    requires n < |names| && Reports(keys, active, names, marks, cooldown, n, now)
    requires r == ReportAt(marks, cooldown, names[n], now)
    ensures Reports(keys[names[n] := r], active + if r.state == Active then 1 else 0, names, marks, cooldown, n + 1, now)
  {
  }

  /** That is every key of the pool with its report. */
  lemma {:induction false} ReportsAreAll(names: seq<string>, marks: seq<Mark>, cooldown: real, n: nat, now: real)
    requires n <= |names|
    ensures ReportsAt(names, marks, cooldown, n, now).Keys == set i | 0 <= i < n :: names[i]
    ensures forall name :: name in ReportsAt(names, marks, cooldown, n, now) ==>
              ReportsAt(names, marks, cooldown, n, now)[name] == ReportAt(marks, cooldown, name, now)
  {
    if n > 0 {
      ReportsAreAll(names, marks, cooldown, n - 1, now);
    }
  }

  class OllamaKeyManager {
    const names: seq<string>
    ghost const known: set<string>
    const values: map<string, string>
    const cooldown: real
    var state: map<string, KeyState>
    var cooldownUntil: map<string, real>
    var stats: map<string, Counters>
    ghost var marks: seq<Mark>
    ghost var latest: real

    ghost function Stored(): Table
      reads this
    {
      Table(state, cooldownUntil, stats)
    }

    ghost predicate Valid()
      reads this
    {
      && known == (set n | n in names)
      && values.Keys == known
      && AllHold(Stored(), known, marks, cooldown, latest)
    }

    /** Entries without a value are dropped; a zero or missing cooldown means the default. */
    constructor (keys: seq<(string, string)>, cooldownSeconds: Option<real>, defaultCooldown: real, ghost now: real)
      ensures Valid() && marks == [] && latest == now
      ensures cooldown == match cooldownSeconds
                          case Some(s) => if s != 0.0 then s else defaultCooldown
                          case None => defaultCooldown
      ensures names == KeptNames(keys)
    {
      cooldown := match cooldownSeconds case Some(s) => (if s != 0.0 then s else defaultCooldown) case None => defaultCooldown;
      var kept := KeptNames(keys);
      names := kept;
      known := set n | n in kept;
      values := map n | n in kept :: LastValue(keys, n);
      state := map n | n in kept :: Active;
      cooldownUntil := map n | n in kept :: 0.0;
      stats := map n | n in kept :: ZERO;
      marks, latest := [], now;
      new;
      NewTableHolds(known, cooldown, now);
      assert Stored() == NewTable(known);
    }

    predicate Configured() {
      names != []
    }

    /** `state_of`: it answers the function of the mark log and keeps the log. */
    method StateOf(name: string, now: real) returns (s: KeyState)
      requires Valid() && now >= latest
      modifies this`state, this`latest
      ensures Valid() && latest == now
      ensures s == StateAt(names, marks, cooldown, name, now)
    {
      s := Poll(name, now);
    }

    /** The lazy poll, after which the stored state is the answer. */
    method Poll(name: string, now: real) returns (s: KeyState)
      requires Valid() && now >= latest
      modifies this`state, this`latest
      ensures Valid() && latest == now
      ensures s == StateAt(names, marks, cooldown, name, now)
      ensures name in names ==> name in state && state[name] == s
    {
      ghost var before := Stored();
      if name in state && state[name] == Cooldown && now >= cooldownUntil[name] {
        state := state[name := Active];
      }
      if name in names {
        PollHolds(EntryOf(before, name), marks, cooldown, name, latest, now);
      }
      PollKeeps(before, Stored(), known, marks, cooldown, name, latest, now);
      latest := now;
      s := if name in state then state[name] else Disabled;
    }

    /** `available_key`: the first key of the pool that is active at `now`. */
    method AvailableKey(now: real) returns (key: Option<string>)
      requires Valid() && now >= latest
      modifies this`state, this`latest
      ensures Valid() && old(latest) <= latest <= now
      ensures key.None? ==> forall n :: n in names ==> StateAt(names, marks, cooldown, n, now) != Active
      ensures key.Some? ==> exists i :: 0 <= i < |names| && names[i] == key.value
                                     && StateAt(names, marks, cooldown, names[i], now) == Active
                                     && forall j :: 0 <= j < i ==> StateAt(names, marks, cooldown, names[j], now) != Active
    {
      for i := 0 to |names|
        invariant Valid() && old(latest) <= latest <= now
        invariant forall j :: 0 <= j < i ==> StateAt(names, marks, cooldown, names[j], now) != Active
      {
        var s := StateOf(names[i], now);
        if s == Active {
          return Some(names[i]);
        }
      }
      return None;
    }

    /** `stats`: every key's report, polled, and how many keys are active. */
    method Stats(now: real) returns (keys: map<string, KeyReport>, active: nat)
      requires Valid() && now >= latest
      modifies this`state, this`latest
      ensures Valid() && old(latest) <= latest <= now
      ensures keys == ReportsAt(names, marks, cooldown, |names|, now)
      ensures active == ActiveAmong(names, marks, cooldown, |names|, now)
    {
      keys, active := map[], 0;
      for i := 0 to |names|
        invariant Valid() && old(latest) <= latest <= now
        invariant Reports(keys, active, names, marks, cooldown, i, now)
      {
        keys, active := Reported(keys, active, i, now);
      }
    }

    /** One more key of the report. */
    method Reported(keys: map<string, KeyReport>, active: nat, i: nat, now: real)
      returns (keys': map<string, KeyReport>, active': nat)
      requires Valid() && now >= latest && i < |names| && Reports(keys, active, names, marks, cooldown, i, now)
      modifies this`state, this`latest
      ensures Valid() && latest == now && Reports(keys', active', names, marks, cooldown, i + 1, now)
    {
      var r := Report(names[i], now);
      ReportsOneMore(keys, active, names, marks, cooldown, i, now, r);
      keys', active' := keys[names[i] := r], active + if r.state == Active then 1 else 0;
    }

    method Report(name: string, now: real) returns (r: KeyReport)
      requires Valid() && now >= latest && name in names
      modifies this`state, this`latest
      ensures Valid() && latest == now
      ensures r == ReportAt(marks, cooldown, name, now)
    {
      var s := Poll(name, now);
      r := ReportOf(Entry(s, cooldownUntil[name], stats[name]), now);
      assert Holds(EntryOf(Stored(), name), marks, cooldown, name, now);
      EntryReports(EntryOf(Stored(), name), marks, cooldown, name, now);
    }

    method MarkSuccess(name: string, latency: int, now: real)
      requires Valid() && now >= latest
      modifies this
      ensures Valid() && latest == now
      ensures marks == old(marks) + [Mark(name, Succeeded, latency, now)]
    {
      ghost var before, m := Stored(), Mark(name, Succeeded, latency, now);
      if name in stats {
        SuccessKeeps(before, known, marks, m, cooldown, latest);
        state := state[name := Active];
        cooldownUntil := cooldownUntil[name := 0.0];
        stats := stats[name := CountSuccess(stats[name], latency)];
        assert Stored() == Put(before, name, AfterSuccess(EntryOf(before, name), latency));
      } else {
        UnknownKeeps(before, known, marks, m, cooldown, latest);
      }
      marks := marks + [m];
      latest := now;
    }

    method MarkFailure(name: string, code: string, latency: int, now: real)
      requires Valid() && now >= latest
      modifies this
      ensures Valid() && latest == now
      ensures marks == old(marks) + [Mark(name, Failed(code), latency, now)]
    {
      ghost var before, m := Stored(), Mark(name, Failed(code), latency, now);
      if name in stats {
        FailureKeeps(before, known, marks, m, cooldown, latest);
        SameKeyUpdate(state, name);
        SameKeyUpdate(cooldownUntil, name);
        stats := stats[name := CountFailure(stats[name], code, latency)];
        var effect := EffectOf(Failed(code));
        if effect == Disables {
          state := state[name := Disabled];
        } else if effect == Cools {
          state := state[name := Cooldown];
          cooldownUntil := cooldownUntil[name := now + cooldown];
        }
        assert Stored() == Put(before, name, AfterFailure(EntryOf(before, name), code, latency, now, cooldown));
      } else {
        UnknownKeeps(before, known, marks, m, cooldown, latest);
      }
      marks := marks + [m];
      latest := now;
    }
  }

  function KeptNames(keys: seq<(string, string)>): seq<string> {
    if keys == [] then []
    else (if keys[0].1 != "" then [keys[0].0] else []) + KeptNames(keys[1..])
  }

  /** The names of exactly the entries with a value, in order. */
  lemma {:induction false} KeptNamesAre(keys: seq<(string, string)>, more: seq<(string, string)>)
    ensures KeptNames(keys + more) == KeptNames(keys) + KeptNames(more)
    ensures |keys| == 1 ==> KeptNames(keys) == if keys[0].1 == "" then [] else [keys[0].0]
  {
    if keys == [] {
      assert keys + more == more;
    } else {
      assert (keys + more)[1..] == keys[1..] + more;
      KeptNamesAre(keys[1..], more);
    }
  }

  /** A dictionary built from the kept entries keeps the last value given for a name. */
  function LastValue(keys: seq<(string, string)>, name: string): string {
    if keys == [] then ""
    else
      var last := keys[|keys| - 1];
      if last.0 == name && last.1 != "" then last.1 else LastValue(keys[..|keys| - 1], name)
  }

  /** The value kept for a name is the last one given that is not empty. */
  lemma {:induction false} LastValueIs(keys: seq<(string, string)>, name: string) returns (i: nat)
    requires exists k :: 0 <= k < |keys| && keys[k].0 == name && keys[k].1 != ""
    ensures i < |keys| && keys[i] == (name, LastValue(keys, name)) && LastValue(keys, name) != ""
    ensures forall k :: i < k < |keys| && keys[k].0 == name ==> keys[k].1 == ""
  {
    var n := |keys| - 1;
    if keys[n].0 == name && keys[n].1 != "" {
      i := n;
    } else {
      i := LastValueIs(keys[..n], name);
    }
  }

  function CountSuccess(c: Counters, latency: int): Counters {
    c.(total := c.total + 1, successful := c.successful + 1, latency := c.latency + latency)
  }

  function CountFailure(c: Counters, code: string, latency: int): Counters {
    var d := c.(total := c.total + 1, latency := c.latency + latency);
    if code == ERR_RATE_LIMIT then d.(rateLimits := d.rateLimits + 1)
    else if code == ERR_TIMEOUT then d.(timeouts := d.timeouts + 1)
    else if code == ERR_NETWORK then d.(networkErrors := d.networkErrors + 1)
    else if code == ERR_SERVER then d.(serverErrors := d.serverErrors + 1)
    else if code == ERR_INVALID_CREDENTIALS || code == ERR_FORBIDDEN then
      d.(invalidCredentials := d.invalidCredentials + 1)
    else d.(otherErrors := d.otherErrors + 1)
  }
}
