/** app/alert_engine/__init__.py: the per-event alert threads that the alert cycle maintains. */
module AlertEngine {
  import opened Wrappers
  import opened Loops
  import opened AlertPlan

  /** What the cycle sees of one event: its stored status, its counted articles and sources, its
      computed priority, and the clock when the plan is made and when the message row is
      stamped. */
  datatype Observation = Observation(status: EventStatus, stats: Stats, priority: Priority, now: int, sentAt: int)

  /** One message of a thread: what it says of itself, and the event as it was observed. */
  datatype Sent = Sent(kind: MessageKind, priority: Priority, seen: Observation)

  function Last(log: seq<Sent>): Observation
    requires log != []
  {
    log[|log| - 1].seen
  }

  /** The priority a thread stands at: that of its last initial or severity message. */
  function StandingPriority(log: seq<Sent>): Priority {
    if log == [] then P3
    else
      var m := log[|log| - 1];
      if m.kind == Initial || m.kind == Severity then m.seen.priority else StandingPriority(log[..|log| - 1])
  }

  /** Nothing that a signature prints has changed. */
  predicate Unchanged(o: Observation, last: Observation) {
    o.priority == last.priority && o.status == last.status && o.stats == last.stats
  }

  predicate QuotaReached(cfg: Settings, o: Observation, last: Observation) {
    || o.stats.independent - last.stats.independent >= cfg.minNewSources
    || o.stats.articles - last.stats.articles >= cfg.minNewArticles
  }

  /** Which message, if any, an observation adds to a thread: the decision on the thread itself,
      without the stored row and without text. */
  function NextKind(cfg: Settings, log: seq<Sent>, o: Observation): Option<MessageKind> {
    if log == [] then if Terminal(o.status) then None else Some(Initial)
    else if Unchanged(o, Last(log)) then None
    else if Terminal(o.status) then if Last(log).status == o.status then None else Some(ResolvedNote)
    else if o.priority != StandingPriority(log) then Some(Severity)
    else if QuotaReached(cfg, o, Last(log)) && o.now - Last(log).sentAt >= cfg.cooldown then Some(Update)
    else None
  }

  /** The thread after one more observation. */
  function Observe(cfg: Settings, log: seq<Sent>, o: Observation): seq<Sent> {
    match NextKind(cfg, log, o)
    case None => log
    case Some(kind) => log + [Sent(kind, if kind == ResolvedNote then P4 else o.priority, o)]
  }

  function ObserveAll(cfg: Settings, log: seq<Sent>, os: seq<Observation>): seq<Sent> {
    Fold((before: seq<Sent>, o: Observation) => Observe(cfg, before, o), log, os)
  }

  // ----- The stored row refines the thread -----

  /** The row that belongs to a thread. */
  function RowOf(log: seq<Sent>): Option<Alert> {
    if log == [] then None
    else Some(RowAt(StandingPriority(log), Last(log), |log|))
  }

  /** Deciding from the stored row, by comparing and parsing the signature text, is deciding from
      the thread. */
  lemma PlanRefines(cfg: Settings, log: seq<Sent>, o: Observation)
    ensures PlanAlert(cfg, o.status, RowOf(log), o.stats, o.priority, o.now)
         == match NextKind(cfg, log, o)
            case None => None
            case Some(kind) => Some(Action(kind, Signature(o.priority, o.status, o.stats)))
  {
    if log != [] {
      var last := Last(log);
      var now, then' := Signature(o.priority, o.status, o.stats), Signature(last.priority, last.status, last.stats);
      SignatureInjective(o.priority, o.status, o.stats, last.priority, last.status, last.stats);
      CountsRoundTrip(last.priority, last.status, last.stats);
      PlanByParts(cfg, RowOf(log).value, o, now, last.stats);
    }
  }

  /** The same decision, with the signature and the parsed counts as given values. */
  lemma PlanByParts(cfg: Settings, a: Alert, o: Observation, signature: string, counts: Stats)
    requires signature == Signature(o.priority, o.status, o.stats) && counts == ParseCounts(a.lastSignature)
    ensures PlanAlert(cfg, o.status, Some(a), o.stats, o.priority, o.now)
         == if a.lastSignature == Some(signature) then None
            else if Terminal(o.status) then
              if a.status == o.status then None else Some(Action(ResolvedNote, signature))
            else if o.priority != a.priority then Some(Action(Severity, signature))
            else if o.stats.independent - counts.independent >= cfg.minNewSources
                    || o.stats.articles - counts.articles >= cfg.minNewArticles then
              if a.lastSentAt.Some? && o.now - a.lastSentAt.value < cfg.cooldown then None
              else Some(Action(Update, signature))
            else None
  {
  }

  lemma StandingLonger(log: seq<Sent>, m: Sent)
    ensures StandingPriority(log + [m])
         == if m.kind == Initial || m.kind == Severity then m.seen.priority else StandingPriority(log)
    ensures Last(log + [m]) == m.seen
  {
    assert (log + [m])[..|log|] == log;
  }

  /** The row that stands at this priority after these messages, the last of them `last`. */
  function RowAt(standing: Priority, last: Observation, count: nat): Alert {
    Alert(standing, last.status, count, Some(Signature(last.priority, last.status, last.stats)), Some(last.sentAt))
  }

  /** The code's detour over the stored priority yields the fresh one, and P4 for a resolved note. */
  lemma PriorityIsFresh(cfg: Settings, log: seq<Sent>, o: Observation, row: Alert)
    requires NextKind(cfg, log, o).Some?
    requires log != [] ==> row.priority == StandingPriority(log)
    ensures var kind := NextKind(cfg, log, o).value;
            MessagePriority(row, kind, o.priority) == if kind == ResolvedNote then P4 else o.priority
  {
  }

  /** The row as the cycle finds it, or as it creates it for a new thread. */
  function RowBefore(log: seq<Sent>, o: Observation): Alert {
    if log == [] then Alert(o.priority, o.status, 0, None, None) else RowOf(log).value
  }

  /** What `_message_priority` and the assignments after it make of the row is the row of the
      longer thread. */
  lemma {:induction false} RowAdvances(cfg: Settings, log: seq<Sent>, o: Observation)
    requires NextKind(cfg, log, o).Some?
    ensures var kind, row := NextKind(cfg, log, o).value, RowBefore(log, o);
            && Observe(cfg, log, o) == log + [Sent(kind, MessagePriority(row, kind, o.priority), o)]
            && RowOf(Observe(cfg, log, o))
               == Some(RowAt(if kind == Initial || kind == Severity then o.priority else row.priority,
                             o, row.messageCount + 1))
  {
    var kind, row := NextKind(cfg, log, o).value, RowBefore(log, o);
    PriorityIsFresh(cfg, log, o, row);
    StandingLonger(log, Sent(kind, MessagePriority(row, kind, o.priority), o));
  }

  // ----- What is sent, and when -----

  predicate IsOngoing(s: EventStatus) {
    s == Active || s == Updated
  }

  /** The decision, for every thread and observation.  A thread starts on an active or updated event
      only; a resolved note is sent iff the event has become resolved or closed since the last
      message; of an ongoing event that shows something new, a severity message is sent iff its
      priority is not the standing one, and else an update iff a quota is reached after the cooldown. */
  lemma NextMeaning(cfg: Settings, log: seq<Sent>, o: Observation)
    ensures log == [] ==> NextKind(cfg, log, o) == if IsOngoing(o.status) then Some(Initial) else None
    ensures log != [] ==>
              var last, next := log[|log| - 1].seen, NextKind(cfg, log, o);
              var news := IsOngoing(o.status) && (o.priority, o.status, o.stats) != (last.priority, last.status, last.stats);
              && next != Some(Initial)
              && (next == Some(ResolvedNote) <==> o.status in {Resolved, Closed} && last.status != o.status)
              && (next == Some(Severity) <==> news && o.priority != StandingPriority(log))
              && (next == Some(Update) <==>
                    && news && o.priority == StandingPriority(log) && o.now >= last.sentAt + cfg.cooldown
                    && (o.stats.articles >= last.stats.articles + cfg.minNewArticles
                        || o.stats.independent >= last.stats.independent + cfg.minNewSources))
  {
  }

  /** The standing priority is that of the last initial or severity message. */
  lemma {:induction false} StandingMeaning(log: seq<Sent>) returns (i: nat)
    requires log != [] && log[0].kind == Initial
    ensures i < |log| && log[i].kind in {Initial, Severity} && StandingPriority(log) == log[i].seen.priority
    ensures forall k :: i < k < |log| ==> log[k].kind !in {Initial, Severity}
  {
    var n := |log| - 1;
    if log[n].kind in {Initial, Severity} {
      i := n;
    } else {
      i := StandingMeaning(log[..n]);
    }
  }

  lemma ObserveOneMore(cfg: Settings, log: seq<Sent>, os: seq<Observation>, o: Observation)
    ensures ObserveAll(cfg, log, os + [o]) == Observe(cfg, ObserveAll(cfg, log, os), o)
  {
    assert (os + [o])[..|os|] == os;
  }

  /** As long as an event goes on, so does its thread. */
  lemma {:induction false} StaysOngoing(cfg: Settings, log: seq<Sent>, os: seq<Observation>)
    requires log != [] && IsOngoing(Last(log).status) && forall i :: 0 <= i < |os| ==> IsOngoing(os[i].status)
    ensures ObserveAll(cfg, log, os) != [] && IsOngoing(Last(ObserveAll(cfg, log, os)).status)
  {
    if os != [] {
      StaysOngoing(cfg, log, os[..|os| - 1]);
    }
  }

  /** A resolution is always told.  However long an event has gone on since the last message, the
      first time it is seen resolved or closed its thread gains exactly one message, a resolved note
      of priority P4. */
  lemma ResolutionIsTold(cfg: Settings, log: seq<Sent>, os: seq<Observation>, o: Observation)
    requires log != [] && IsOngoing(Last(log).status) && forall i :: 0 <= i < |os| ==> IsOngoing(os[i].status)
    requires o.status in {Resolved, Closed}
    ensures ObserveAll(cfg, log, os + [o]) == ObserveAll(cfg, log, os) + [Sent(ResolvedNote, P4, o)]
  {
    StaysOngoing(cfg, log, os);
    ObserveOneMore(cfg, log, os, o);
    NextMeaning(cfg, ObserveAll(cfg, log, os), o);
  }

  /** The last message of an ongoing thread carries the standing priority. */
  lemma {:induction false} OngoingStands(cfg: Settings, os: seq<Observation>)
    ensures var log := ObserveAll(cfg, [], os);
            log != [] && IsOngoing(Last(log).status) ==> Last(log).priority == StandingPriority(log)
  {
    if os != [] {
      var front, o := os[..|os| - 1], os[|os| - 1];
      var log := ObserveAll(cfg, [], front);
      OngoingStands(cfg, front);
      NextMeaning(cfg, log, o);
      if NextKind(cfg, log, o).Some? {
        var kind := NextKind(cfg, log, o).value;
        StandingLonger(log, Sent(kind, if kind == ResolvedNote then P4 else o.priority, o));
      }
    }
  }

  /** So is a changed priority: over any run, an ongoing event with a thread gains a severity message,
      of that priority, iff its priority is not the standing one, which it is from then on. */
  lemma SeverityIsTold(cfg: Settings, os: seq<Observation>, o: Observation)
    requires ObserveAll(cfg, [], os) != [] && IsOngoing(o.status)
    ensures var log := ObserveAll(cfg, [], os);
            var longer := ObserveAll(cfg, [], os + [o]);
            && (longer == log + [Sent(Severity, o.priority, o)] <==> o.priority != StandingPriority(log))
            && (o.priority != StandingPriority(log) ==> StandingPriority(longer) == o.priority)
  {
    var log := ObserveAll(cfg, [], os);
    ObserveOneMore(cfg, [], os, o);
    OngoingStands(cfg, os);
    NextMeaning(cfg, log, o);
    StandingLonger(log, Sent(Severity, o.priority, o));
  }

  /** And news of the standing priority: with quotas of at least one, an ongoing event gains an update
      iff a quota of articles or sources is reached and the cooldown since the last message is over. */
  lemma UpdateIsTold(cfg: Settings, os: seq<Observation>, o: Observation)
    requires ObserveAll(cfg, [], os) != [] && IsOngoing(o.status)
    requires o.priority == StandingPriority(ObserveAll(cfg, [], os)) && cfg.minNewArticles >= 1 && cfg.minNewSources >= 1
    ensures var log := ObserveAll(cfg, [], os);
            ObserveAll(cfg, [], os + [o]) == log + [Sent(Update, o.priority, o)]
            <==>
            && o.now >= Last(log).sentAt + cfg.cooldown
            && (o.stats.articles >= Last(log).stats.articles + cfg.minNewArticles
                || o.stats.independent >= Last(log).stats.independent + cfg.minNewSources)
  {
    var log := ObserveAll(cfg, [], os);
    ObserveOneMore(cfg, [], os, o);
    NextMeaning(cfg, log, o);
  }

  // ----- Well-formed threads -----

  /** What each message owes to the one before it. */
  ghost predicate FollowsWell(cfg: Settings, prev: Sent, m: Sent) {
    && m.kind != Initial
    && !Unchanged(m.seen, prev.seen)
    && (m.kind == ResolvedNote <==> m.seen.status == Resolved || m.seen.status == Closed)
    && (m.kind == ResolvedNote ==> m.seen.status != prev.seen.status)
    && (m.kind == Update ==> m.seen.now - prev.seen.sentAt >= cfg.cooldown && QuotaReached(cfg, m.seen, prev.seen))
  }

  ghost predicate WellFormed(cfg: Settings, log: seq<Sent>) {
    && (log != [] ==> log[0].kind == Initial && IsOngoing(log[0].seen.status))
    && (forall i, k :: 0 <= i && k == i + 1 < |log| ==> FollowsWell(cfg, log[i], log[k]))
    && forall i :: 0 <= i < |log| ==> log[i].priority == if log[i].kind == ResolvedNote then P4 else log[i].seen.priority
  }

  lemma ObserveKeeps(cfg: Settings, log: seq<Sent>, o: Observation)
    requires WellFormed(cfg, log)
    ensures WellFormed(cfg, Observe(cfg, log, o))
  {
    var longer := Observe(cfg, log, o);
    if longer != log && log != [] {
      assert FollowsWell(cfg, log[|log| - 1], longer[|log|]);
    }
  }

  /** Every reachable thread is well formed: one initial message, and it comes first; neighbours
      differ in what a signature prints; resolved notes come exactly on a new terminal status;
      every message carries the freshly computed priority, except that a resolved note carries
      P4; an update keeps the cooldown since the message before it. */
  lemma {:induction false} ThreadsWellFormed(cfg: Settings, os: seq<Observation>)
    ensures WellFormed(cfg, ObserveAll(cfg, [], os))
  {
    if os == [] {
    } else {
      ThreadsWellFormed(cfg, os[..|os| - 1]);
      ObserveKeeps(cfg, ObserveAll(cfg, [], os[..|os| - 1]), os[|os| - 1]);
    }
  }

  /** Neighbouring messages were sent under different signatures. */
  lemma NeighbourSignaturesDiffer(cfg: Settings, os: seq<Observation>, k: nat)
    requires 1 <= k < |ObserveAll(cfg, [], os)|
    ensures var prev, m := ObserveAll(cfg, [], os)[k - 1].seen, ObserveAll(cfg, [], os)[k].seen;
            Signature(prev.priority, prev.status, prev.stats) != Signature(m.priority, m.status, m.stats)
  {
    var log := ObserveAll(cfg, [], os);
    ThreadsWellFormed(cfg, os);
    assert FollowsWell(cfg, log[k - 1], log[k]);
    var prev, m := log[k - 1].seen, log[k].seen;
    SignatureInjective(prev.priority, prev.status, prev.stats, m.priority, m.status, m.stats);
  }

  /** While an event stays in one terminal status at most one message is sent, a resolved note;
      and none if the thread already stands in that status, or does not exist. */
  lemma {:induction false} OneNotePerTerminalState(cfg: Settings, log: seq<Sent>, os: seq<Observation>, s: EventStatus)
    requires (s == Resolved || s == Closed) && forall i :: 0 <= i < |os| ==> os[i].status == s
    ensures var end := ObserveAll(cfg, log, os);
            || end == log
            || (|end| == |log| + 1 && end[..|log|] == log && end[|log|].kind == ResolvedNote && Last(end).status == s)
    ensures log == [] || Last(log).status == s ==> ObserveAll(cfg, log, os) == log
  {
    if os == [] {
    } else {
      OneNotePerTerminalState(cfg, log, os[..|os| - 1], s);
    }
  }

  // ----- The bound on updates -----

  function Updates(log: seq<Sent>): nat {
    if log == [] then 0
    else Updates(log[..|log| - 1]) + if log[|log| - 1].kind == Update then 1 else 0
  }

  /** The counts an event shows never decrease from one observation to the next. */
  ghost predicate CountsGrow(os: seq<Observation>) {
    forall i, k :: 0 <= i <= k < |os| ==>
      os[i].stats.articles <= os[k].stats.articles && os[i].stats.independent <= os[k].stats.independent
  }

  ghost predicate LogGrows(log: seq<Sent>) {
    forall i, k :: 0 <= i <= k < |log| ==>
      && log[i].seen.stats.articles <= log[k].seen.stats.articles
      && log[i].seen.stats.independent <= log[k].seen.stats.independent
  }

  /** Every message was sent at counts of at most `top`. */
  ghost predicate UpTo(log: seq<Sent>, top: Stats) {
    forall i :: 0 <= i < |log| ==>
      log[i].seen.stats.articles <= top.articles && log[i].seen.stats.independent <= top.independent
  }

  lemma GrowsByOne(cfg: Settings, log: seq<Sent>, o: Observation, top: Stats)
    requires LogGrows(log) && UpTo(log, o.stats)
    requires o.stats.articles <= top.articles && o.stats.independent <= top.independent
    ensures LogGrows(Observe(cfg, log, o)) && UpTo(Observe(cfg, log, o), top)
  {
  }

  lemma {:induction false} LogOfGrowing(cfg: Settings, os: seq<Observation>, top: Stats)
    requires CountsGrow(os)
    requires forall i :: 0 <= i < |os| ==> os[i].stats.articles <= top.articles && os[i].stats.independent <= top.independent
    ensures LogGrows(ObserveAll(cfg, [], os)) && UpTo(ObserveAll(cfg, [], os), top)
  {
    if os != [] {
      var front, last := os[..|os| - 1], os[|os| - 1];
      LogOfGrowing(cfg, front, last.stats);
      GrowsByOne(cfg, ObserveAll(cfg, [], front), last, top);
    }
  }

  /** An update came with a quota of new articles or of new sources since the message before. */
  ghost predicate Paid(cfg: Settings, prev: Sent, m: Sent) {
    m.kind == Update ==>
      || m.seen.stats.independent - prev.seen.stats.independent >= cfg.minNewSources
      || m.seen.stats.articles - prev.seen.stats.articles >= cfg.minNewArticles
  }

  ghost predicate AllPaid(cfg: Settings, log: seq<Sent>) {
    && (log != [] ==> log[0].kind != Update)
    && forall i, k :: 0 <= i && k == i + 1 < |log| ==> Paid(cfg, log[i], log[k])
  }

  lemma WellFormedIsPaid(cfg: Settings, log: seq<Sent>)
    requires WellFormed(cfg, log)
    ensures AllPaid(cfg, log)
  {
    forall i, k | 0 <= i && k == i + 1 < |log| ensures Paid(cfg, log[i], log[k]) {
      assert FollowsWell(cfg, log[i], log[k]);
    }
  }

  /** Each update uses up at least one quota of new articles or one of new sources. */
  lemma {:induction false} UpdatesUseQuotas(cfg: Settings, log: seq<Sent>) returns (byArticles: nat, bySources: nat)
    requires AllPaid(cfg, log) && LogGrows(log) && log != []
    requires cfg.minNewArticles >= 1 && cfg.minNewSources >= 1
    ensures Updates(log) == byArticles + bySources
    ensures byArticles * cfg.minNewArticles <= log[|log| - 1].seen.stats.articles - log[0].seen.stats.articles
    ensures bySources * cfg.minNewSources <= log[|log| - 1].seen.stats.independent - log[0].seen.stats.independent
  {
    if |log| == 1 {
      assert log[..0] == [];
      byArticles, bySources := 0, 0;
    } else {
      var k := |log| - 1;
      var front := log[..k];
      var prev, m := log[k - 1].seen.stats, log[k].seen.stats;
      assert Paid(cfg, log[k - 1], log[k]);
      var a, s := UpdatesUseQuotas(cfg, front);
      byArticles, bySources := a, s;
      if log[k].kind == Update {
        if m.articles - prev.articles >= cfg.minNewArticles {
          byArticles := a + 1;
          assert (a + 1) * cfg.minNewArticles == a * cfg.minNewArticles + cfg.minNewArticles;
        } else {
          bySources := s + 1;
          assert (s + 1) * cfg.minNewSources == s * cfg.minNewSources + cfg.minNewSources;
        }
      }
    }
  }

  lemma PositiveFactor(x: int, quota: int)
    requires quota >= 1 && x * quota > 0
    ensures x > 0
  {
  }

  lemma {:induction false} QuotaBound(uses: nat, quota: int, total: int)
    requires quota >= 1 && uses * quota <= total
    ensures uses <= total / quota
  {
    var q := total / quota;
    assert total < q * quota + quota;
    assert (q + 1 - uses) * quota == q * quota + quota - uses * quota;
    PositiveFactor(q + 1 - uses, quota);
  }

  /** Every update of the thread is paid for, and its counts grow up to `now`. */
  ghost predicate PaidUpTo(cfg: Settings, log: seq<Sent>, now: Stats) {
    && log != [] && AllPaid(cfg, log) && LogGrows(log)
    && log[|log| - 1].seen.stats.articles <= now.articles
    && log[|log| - 1].seen.stats.independent <= now.independent
  }

  lemma {:induction false} LogBound(cfg: Settings, log: seq<Sent>, now: Stats)
    requires PaidUpTo(cfg, log, now) && cfg.minNewArticles >= 1 && cfg.minNewSources >= 1
    ensures Updates(log) <= (now.articles - log[0].seen.stats.articles) / cfg.minNewArticles
                            + (now.independent - log[0].seen.stats.independent) / cfg.minNewSources
  {
    var a, s := UpdatesUseQuotas(cfg, log);
    QuotaBound(a, cfg.minNewArticles, now.articles - log[0].seen.stats.articles);
    QuotaBound(s, cfg.minNewSources, now.independent - log[0].seen.stats.independent);
  }

  /** The bound on alert spam: over any run of observations whose counts never decrease, with
      whatever priorities and statuses in between, a thread holds no more updates than the new
      articles and the new sources since its initial message pay for. */
  lemma {:induction false} SpamBound(cfg: Settings, os: seq<Observation>)
    requires cfg.minNewArticles >= 1 && cfg.minNewSources >= 1 && os != [] && CountsGrow(os)
    ensures var log, now := ObserveAll(cfg, [], os), os[|os| - 1].stats;
            log != [] ==>
              Updates(log) <= (now.articles - log[0].seen.stats.articles) / cfg.minNewArticles
                              + (now.independent - log[0].seen.stats.independent) / cfg.minNewSources
  {
    var log, now := ObserveAll(cfg, [], os), os[|os| - 1].stats;
    if log != [] {
      GrowingIsPaid(cfg, os);
      LogBound(cfg, log, now);
    }
  }

  lemma {:induction false} GrowingIsPaid(cfg: Settings, os: seq<Observation>)
    requires os != [] && CountsGrow(os) && ObserveAll(cfg, [], os) != []
    ensures PaidUpTo(cfg, ObserveAll(cfg, [], os), os[|os| - 1].stats)
  {
    LogOfGrowing(cfg, os, os[|os| - 1].stats);
    ThreadsWellFormed(cfg, os);
    WellFormedIsPaid(cfg, ObserveAll(cfg, [], os));
  }
}
