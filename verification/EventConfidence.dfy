/** How the counts and the confidence of events behave while the engine runs, and what that means
    for their alert threads. */
module EventConfidence {
  import opened Wrappers
  import opened Loops
  import opened AlertPlan
  import opened AlertEngine
  import opened EventEngine
  import opened EventCounts
  import opened EventBatches
  import opened EventRuns

  // ----- Sources, not articles -----

  lemma {:induction false} DomainsWithin(articles: seq<Article>, rows: seq<nat>, all: set<string>)
    requires RowsUsable(articles, rows)
    requires forall i :: 0 <= i < |rows| ==>
               var d := articles[rows[i]].content.domain; d.Some? && d.value != "" ==> d.value in all
    ensures DomainsOf(articles, rows) <= all
  {
    if rows == [] {
    } else {
      DomainsWithin(articles, rows[..|rows| - 1], all);
    }
  }

  lemma SmallSet(small: set<string>, d: string)
    requires small <= {d}
    ensures |small| <= 1
  {
    if d in small {
      assert small == {d};
    } else {
      assert small == {};
    }
  }

  /** However many articles one source publishes on a news event, its confidence stays low. */
  lemma OneSourceStaysLow(db: Db, e: nat, domain: string)
    requires InRange(db) && e < |db.events| && db.events[e].kind == News
    requires forall m :: 0 <= m < |db.links| && db.links[m].event == e ==>
               var d := db.articles[db.links[m].article].content.domain; d.Some? ==> d.value in {"", domain}
    ensures ComputeConfidence(StatsOf(db, e), db.events[e].kind) == Low
  {
    var rows := RowsOf(db.links, e);
    RowsInRange(db.articles, db.links, e);
    RowsAreLinked(db.links, e);
    forall i | 0 <= i < |rows|
      ensures var d := db.articles[rows[i]].content.domain; d.Some? && d.value != "" ==> d.value in {domain}
    {
      assert rows[i] in rows;
    }
    DomainsWithin(db.articles, rows, {domain});
    SmallSet(DomainsOf(db.articles, rows), domain);
  }

  lemma {:induction false} RowsAreLinked(links: seq<Link>, e: nat)
    ensures forall a :: a in RowsOf(links, e) ==>
              exists m :: 0 <= m < |links| && links[m].event == e && links[m].article == a
  {
    if links == [] {
    } else {
      var n := |links| - 1;
      RowsAreLinked(links[..n], e);
      forall a | a in RowsOf(links, e) ensures exists m :: 0 <= m < |links| && links[m].event == e && links[m].article == a {
        if a in RowsOf(links[..n], e) {
          var m :| 0 <= m < n && links[..n][m].event == e && links[..n][m].article == a;
          assert links[m].article == a;
        } else {
          assert links[n].article == a;
        }
      }
    }
  }

  // ----- Copies are invisible -----

  lemma RowsAppend(links: seq<Link>, l: Link, e: nat)
    ensures RowsOf(links + [l], e) == RowsOf(links, e) + if l.event == e && l.relation != Duplicate then [l.article] else []
  {
    assert (links + [l])[..|links|] == links;
  }

  ghost predicate SameContents(a: seq<Article>, b: seq<Article>) {
    |a| <= |b| && forall i :: 0 <= i < |a| ==> a[i].content == b[i].content
  }

  lemma {:induction false} SameRowsSameStats(a: seq<Article>, b: seq<Article>, rows: seq<nat>)
    requires SameContents(a, b) && RowsUsable(a, rows)
    ensures DomainsOf(a, rows) == DomainsOf(b, rows) && TimesOf(a, rows) == TimesOf(b, rows)
  {
    if rows == [] {
    } else {
      SameRowsSameStats(a, b, rows[..|rows| - 1]);
    }
  }

  /** Clustering an exact copy changes no event: not its status, nor its counts, nor its spread, nor
      the confidence a refresh gives it. */
  lemma CopyIsInvisible(sim: Sim, threshold: real, db: Db, i: nat, e: nat)
    requires InRange(db) && i < |db.articles| && FindCopy(db.articles, i, 0).Some?
    ensures InRange(FreshStep(sim, threshold, db, i))
    ensures FreshStep(sim, threshold, db, i).events == db.events
    ensures StatsOf(FreshStep(sim, threshold, db, i), e) == StatsOf(db, e)
    ensures RefreshAll(FreshStep(sim, threshold, db, i)).events == RefreshAll(db).events
  {
    FreshStepInRange(sim, threshold, db, i);
    var db' := FreshStep(sim, threshold, db, i);
    ProfilesUpToInRange(db, |db.events|);
    assert db' == MarkCopy(db, i, FindCopy(db.articles, i, 0).value);
    forall x: nat ensures StatsOf(db', x) == StatsOf(db, x) {
      MarkKeepsStats(db, i, FindCopy(db.articles, i, 0).value, x);
    }
  }

  lemma MarkKeepsRows(db: Db, i: nat, original: nat, e: nat)
    requires i < |db.articles|
    ensures RowsOf(MarkCopy(db, i, original).links, e) == RowsOf(db.links, e)
    ensures SameContents(db.articles, MarkCopy(db, i, original).articles)
  {
    var found := EventOfPrimary(db.links, original);
    if found.Some? {
      RowsAppend(db.links, Link(found.value, i, Duplicate, 1.0), e);
      assert RowsOf(db.links, e) + [] == RowsOf(db.links, e);
    }
  }

  lemma SameStats(a: seq<Article>, b: seq<Article>, rows: seq<nat>)
    requires SameContents(a, b) && RowsUsable(a, rows)
    ensures RowsUsable(b, rows) && StatsFrom(a, rows) == StatsFrom(b, rows)
  {
    SameRowsSameStats(a, b, rows);
  }

  lemma MarkKeepsStats(db: Db, i: nat, original: nat, e: nat)
    requires InRange(db) && i < |db.articles| && InRange(MarkCopy(db, i, original))
    ensures StatsOf(MarkCopy(db, i, original), e) == StatsOf(db, e)
  {
    MarkKeepsRows(db, i, original, e);
    RowsInRange(db.articles, db.links, e);
    SameStats(db.articles, MarkCopy(db, i, original).articles, RowsOf(db.links, e));
  }

  /** What the alert cycle sees of an event. */
  function Seen(db: Db, e: nat, priority: Priority, now: int, sentAt: int): Observation
    requires InRange(db) && e < |db.events|
  {
    Observation(db.events[e].status, StatsOf(db, e).counts, priority, now, sentAt)
  }

  /** So an event that was reported as it stood stays silent after a copy arrives, at whatever later
      time the alert cycle looks again. */
  lemma {:induction false} CopyIsSilent(cfg: Settings, sim: Sim, threshold: real, db: Db, i: nat, e: nat, log: seq<Sent>,
                     priority: Priority, now: int, sentAt: int)
    requires InRange(db) && i < |db.articles| && FindCopy(db.articles, i, 0).Some? && e < |db.events|
    requires log != [] && Unchanged(Seen(db, e, priority, now, sentAt), Last(log))
    ensures InRange(FreshStep(sim, threshold, db, i)) && e < |FreshStep(sim, threshold, db, i).events|
    ensures var o := Seen(FreshStep(sim, threshold, db, i), e, priority, now, sentAt);
            PlanAlert(cfg, o.status, RowOf(log), o.stats, o.priority, o.now) == None
  {
    CopyIsInvisible(sim, threshold, db, i, e);
    PlanRefines(cfg, log, Seen(FreshStep(sim, threshold, db, i), e, priority, now, sentAt));
  }

  // ----- Counts never decrease -----

  /** The tables only gained links, articles and events, and no event changed its kind. */
  ghost predicate Gained(db: Db, db': Db) {
    && InRange(db) && InRange(db') && db.links <= db'.links && SameContents(db.articles, db'.articles)
    && |db.events| <= |db'.events|
    && forall e :: 0 <= e < |db.events| ==> db'.events[e].kind == db.events[e].kind
  }

  lemma {:induction false} RowsGrow(links: seq<Link>, links': seq<Link>, e: nat)
    requires links <= links'
    ensures RowsOf(links, e) <= RowsOf(links', e)
  {
    if |links'| == |links| {
      assert links == links';
    } else {
      RowsGrow(links, links'[..|links'| - 1], e);
    }
  }

  lemma {:induction false} DomainsGrow(articles: seq<Article>, rows: seq<nat>, rows': seq<nat>)
    requires RowsUsable(articles, rows') && rows <= rows'
    ensures RowsUsable(articles, rows) && DomainsOf(articles, rows) <= DomainsOf(articles, rows')
  {
    if |rows'| == |rows| {
      assert rows == rows';
    } else {
      DomainsGrow(articles, rows, rows'[..|rows'| - 1]);
    }
  }

  lemma SubsetIsSmaller(a: set<string>, b: set<string>)
    requires a <= b
    ensures |a| <= |b|
  {
    assert b == a + (b - a);
  }

  lemma CountsGrowWithTables(db: Db, db': Db, e: nat)
    requires Gained(db, db')
    ensures StatsOf(db, e).counts.articles <= StatsOf(db', e).counts.articles
    ensures StatsOf(db, e).counts.independent <= StatsOf(db', e).counts.independent
  {
    var rows, rows' := RowsOf(db.links, e), RowsOf(db'.links, e);
    RowsInRange(db.articles, db.links, e);
    RowsInRange(db'.articles, db'.links, e);
    RowsGrow(db.links, db'.links, e);
    SameRowsSameStats(db.articles, db'.articles, rows);
    DomainsGrow(db'.articles, rows, rows');
    SubsetIsSmaller(DomainsOf(db'.articles, rows), DomainsOf(db'.articles, rows'));
  }

  lemma GainedTrans(a: Db, b: Db, c: Db)
    requires Gained(a, b) && Gained(b, c)
    ensures Gained(a, c)
  {
  }

  lemma NextGains(sim: Sim, threshold: real, db: Db)
    requires InRange(db)
    ensures Gained(db, NextStep(sim, threshold, db))
  {
    StepShiftsQueue(sim, threshold, db);
    if RawIds(db) != [] {
      RawInRange(db.articles, |db.articles|);
      ProfilesUpToInRange(db, |db.events|);
      var i := RawIds(db)[0];
      CarryMarks(db, i, Judge(sim, threshold, db, i, Profiles(db)));
    }
  }

  lemma {:induction false} DrainGains(sim: Sim, threshold: real, db: Db, n: nat)
    requires InRange(db)
    ensures Gained(db, Drain(sim, threshold, db, n))
  {
    if n == 0 {
    } else {
      DrainGains(sim, threshold, db, n - 1);
      var before := Drain(sim, threshold, db, n - 1);
      IterateLast(Stepper(sim, threshold), n, db);
      NextGains(sim, threshold, before);
      GainedTrans(db, before, Drain(sim, threshold, db, n));
    }
  }

  lemma OpGains(sim: Sim, threshold: real, db: Db, op: RunOp)
    requires InRange(db)
    ensures Gained(db, Runner(sim, threshold)(db, op))
  {
    match op
    case Collect(c) =>
    case Wrap(e) =>
    case Refresh =>
      var db' := RefreshAll(db);
      assert Runner(sim, threshold)(db, op) == db' && |db'.events| == |db.events|;
    case Cluster(batch) =>
      CycleIsDrain(sim, threshold, db, batch);
      DrainGains(sim, threshold, db, Min(batch, |RawIds(db)|));
  }

  /** Over any run of the engine, from any tables on, no event's counts ever decrease. */
  lemma {:induction false} RunGains(sim: Sim, threshold: real, ops: seq<RunOp>, k: nat)
    requires k <= |ops|
    ensures Gained(Reached(sim, threshold, ops[..k]), Reached(sim, threshold, ops))
  {
    if ops == [] {
    } else if k == |ops| {
      assert ops[..k] == ops;
      RunGains(sim, threshold, ops[..k - 1], k - 1);
      assert ops[..k - 1][..k - 1] == ops[..k - 1];
      OpGains(sim, threshold, Reached(sim, threshold, ops[..k - 1]), ops[k - 1]);
    } else {
      var front := ops[..|ops| - 1];
      RunGains(sim, threshold, front, k);
      assert front[..k] == ops[..k];
      OpGains(sim, threshold, Reached(sim, threshold, front), ops[|ops| - 1]);
      GainedTrans(Reached(sim, threshold, ops[..k]), Reached(sim, threshold, front), Reached(sim, threshold, ops));
    }
  }

  /** The alert cycle looked at event `e` at the points `cuts` of a run of the engine. */
  ghost predicate ObservedAt(sim: Sim, threshold: real, ops: seq<RunOp>, cuts: seq<nat>, e: nat, os: seq<Observation>) {
    && |os| == |cuts|
    && (forall i :: 0 <= i < |cuts| ==> cuts[i] <= |ops|)
    && (forall i, k :: 0 <= i <= k < |cuts| ==> cuts[i] <= cuts[k])
    && forall i :: 0 <= i < |cuts| ==>
         var db := Reached(sim, threshold, ops[..cuts[i]]);
         InRange(db) && os[i].stats == StatsOf(db, e).counts
  }

  lemma {:induction false} ObservedCountsGrow(sim: Sim, threshold: real, ops: seq<RunOp>, cuts: seq<nat>, e: nat, os: seq<Observation>)
    requires ObservedAt(sim, threshold, ops, cuts, e, os)
    ensures CountsGrow(os)
  {
    forall i, k | 0 <= i <= k < |os|
      ensures os[i].stats.articles <= os[k].stats.articles && os[i].stats.independent <= os[k].stats.independent
    {
      RunGains(sim, threshold, ops[..cuts[k]], cuts[i]);
      assert ops[..cuts[k]][..cuts[i]] == ops[..cuts[i]];
      CountsGrowWithTables(Reached(sim, threshold, ops[..cuts[i]]), Reached(sim, threshold, ops[..cuts[k]]), e);
    }
  }

  /** Whoever applied `plan_alert` to event `e` at any points of a run, news or not, with whatever
      statuses and priorities, would send no more updates than the articles and sources the engine
      counted since the initial message pay for.  (The alert cycle skips news, and then sends
      none: see AlertRuns.dfy.) */
  lemma {:induction false} UpdatesArePaidFor(cfg: Settings, sim: Sim, threshold: real, ops: seq<RunOp>, cuts: seq<nat>, e: nat,
                          os: seq<Observation>)
    requires cfg.minNewArticles >= 1 && cfg.minNewSources >= 1 && os != []
    requires ObservedAt(sim, threshold, ops, cuts, e, os)
    ensures var log, now := ObserveAll(cfg, [], os), os[|os| - 1].stats;
            log != [] ==>
              Updates(log) <= (now.articles - log[0].seen.stats.articles) / cfg.minNewArticles
                              + (now.independent - log[0].seen.stats.independent) / cfg.minNewSources
  {
    ObservedCountsGrow(sim, threshold, ops, cuts, e, os);
    SpamBound(cfg, os);
  }
}
