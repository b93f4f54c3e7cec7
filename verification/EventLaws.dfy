/** What the tables of the event engine say, in terms of their rows alone: what an event is made of,
    what its counts and its confidence mean, and when the same story is one event. */
module EventLaws {
  import opened Wrappers
  import opened AlertPlan
  import opened EventEngine
  import opened EventCounts
  import opened EventBatches
  import opened EventInvariant
  import opened EventRuns
  import opened Loops
  import S = Similarity
  import L = SimilarityLaws

  // ----- What an event is made of -----

  /** A primary link tells of a news event with the article's title, cut at a thousand characters, its
      description and its time; it and a duplicate link have score one. */
  ghost predicate Tells(db: Db, m: nat)
    requires InRange(db) && m < |db.links|
  {
    var l := db.links[m];
    var c, e := db.articles[l.article].content, db.events[l.event];
    && (l.relation == Primary ==>
          && e.kind == News && e.title <= c.title && |e.title| == Min(|c.title|, 1000)
          && e.description == c.description && e.occurredAt == c.publishedAt)
    && (l.relation in {Primary, Duplicate} ==> l.score == 1.0)
  }

  ghost predicate AllTell(db: Db) {
    InRange(db) && forall m :: 0 <= m < |db.links| ==> Tells(db, m)
  }

  /** The later tables keep what the earlier ones say, and at most add one link, which tells. */
  ghost predicate KeepsTelling(db: Db, db': Db) {
    && InRange(db) && InRange(db') && db.links <= db'.links && |db'.links| <= |db.links| + 1
    && |db.articles| <= |db'.articles| && (forall i :: 0 <= i < |db.articles| ==> db'.articles[i].content == db.articles[i].content)
    && |db.events| <= |db'.events|
    && (forall e :: 0 <= e < |db.events| ==>
          && db'.events[e].kind == db.events[e].kind && db'.events[e].title == db.events[e].title
          && db'.events[e].description == db.events[e].description && db'.events[e].occurredAt == db.events[e].occurredAt)
    && (|db'.links| > |db.links| ==> Tells(db', |db.links|))
  }

  lemma KeptTelling(db: Db, db': Db)
    requires AllTell(db) && KeepsTelling(db, db')
    ensures AllTell(db')
  {
    forall m | 0 <= m < |db'.links| ensures Tells(db', m) {
      if m < |db.links| {
        assert Tells(db, m) && db'.links[m] == db.links[m];
      }
    }
  }

  lemma CarryTells(db: Db, i: nat, v: Verdict)
    requires InRange(db) && i < |db.articles| && (v.Joins? ==> v.event < |db.events|) && InRange(Carry(db, i, v))
    ensures KeepsTelling(db, Carry(db, i, v))
  {
    var db' := Carry(db, i, v);
    match v
    case Copy(original) =>
    case Joins(e, score) =>
    case Founds =>
      assert db'.events[|db.events|] == NewEvent(db.articles[i].content);
  }

  lemma NextTells(sim: Sim, threshold: real, db: Db)
    requires AllTell(db)
    ensures AllTell(NextStep(sim, threshold, db))
  {
    StepShiftsQueue(sim, threshold, db);
    if RawIds(db) != [] {
      RawInRange(db.articles, |db.articles|);
      ProfilesUpToInRange(db, |db.events|);
      var i := RawIds(db)[0];
      var v := Judge(sim, threshold, db, i, Profiles(db));
      CarryTells(db, i, v);
      KeptTelling(db, Carry(db, i, v));
    }
  }

  lemma {:induction false} DrainTells(sim: Sim, threshold: real, db: Db, n: nat)
    requires AllTell(db)
    ensures AllTell(Drain(sim, threshold, db, n))
  {
    if n > 0 {
      DrainTells(sim, threshold, db, n - 1);
      IterateLast(Stepper(sim, threshold), n, db);
      NextTells(sim, threshold, Drain(sim, threshold, db, n - 1));
    }
  }

  lemma OpTells(sim: Sim, threshold: real, db: Db, op: RunOp)
    requires AllTell(db)
    ensures AllTell(Runner(sim, threshold)(db, op))
  {
    match op
    case Collect(c) => KeptTelling(db, Ingest(db, c));
    case Wrap(e) => KeptTelling(db, db.(events := db.events + [e]));
    case Refresh => KeptTelling(db, RefreshAll(db));
    case Cluster(batch) =>
      CycleIsDrain(sim, threshold, db, batch);
      DrainTells(sim, threshold, db, Min(batch, |RawIds(db)|));
  }

  /** Over every run, every event that has a primary article is made of it. */
  lemma EventsTellTheirLeader(sim: Sim, threshold: real, ops: seq<RunOp>)
    ensures AllTell(Reached(sim, threshold, ops))
  {
    var holds := (k: nat, d: Db) => AllTell(d);
    forall k: nat, d: Db | k < |ops| && holds(k, d) ensures holds(k + 1, Runner(sim, threshold)(d, ops[k])) {
      OpTells(sim, threshold, d, ops[k]);
    }
    FoldKeeps(Runner(sim, threshold), EMPTY, ops, holds);
  }

  // ----- Clustering and confidence -----

  /** Clustering judges no confidence: what events had they keep, and new events have none. */
  ghost predicate LeavesConfidence(db: Db, db': Db) {
    && |db.events| <= |db'.events|
    && forall e :: 0 <= e < |db'.events| ==>
         db'.events[e].confidence == if e < |db.events| then db.events[e].confidence else None
  }

  lemma NextLeaves(sim: Sim, threshold: real, db: Db)
    requires InRange(db)
    ensures InRange(NextStep(sim, threshold, db)) && LeavesConfidence(db, NextStep(sim, threshold, db))
  {
    StepShiftsQueue(sim, threshold, db);
    if RawIds(db) != [] {
      RawInRange(db.articles, |db.articles|);
      ProfilesUpToInRange(db, |db.events|);
      CarryLeaves(db, RawIds(db)[0], Judge(sim, threshold, db, RawIds(db)[0], Profiles(db)));
    }
  }

  lemma CarryLeaves(db: Db, i: nat, v: Verdict)
    requires i < |db.articles| && (v.Joins? ==> v.event < |db.events|)
    ensures LeavesConfidence(db, Carry(db, i, v))
  {
  }

  lemma {:induction false} DrainLeaves(sim: Sim, threshold: real, db: Db, n: nat)
    requires InRange(db)
    ensures InRange(Drain(sim, threshold, db, n)) && LeavesConfidence(db, Drain(sim, threshold, db, n))
  {
    if n > 0 {
      DrainLeaves(sim, threshold, db, n - 1);
      IterateLast(Stepper(sim, threshold), n, db);
      NextLeaves(sim, threshold, Drain(sim, threshold, db, n - 1));
    }
  }

  lemma CycleLeavesConfidence(sim: Sim, threshold: real, db: Db, batch: nat)
    requires InRange(db)
    ensures LeavesConfidence(db, Cycle(sim, threshold, db, batch))
  {
    CycleIsDrain(sim, threshold, db, batch);
    DrainLeaves(sim, threshold, db, Min(batch, |RawIds(db)|));
  }

  // ----- The same story -----

  /** The same title and description, with a token that counts. */
  ghost predicate SameStory(c: Content, d: Content) {
    c.title == d.title && c.description == d.description && S.TokensOf(ProfileOf(c)) != {}
  }

  ghost predicate WithinADay(c: Content, d: Content) {
    c.publishedAt.Some? && d.publishedAt.Some? && -86400.0 <= c.publishedAt.value - d.publishedAt.value <= 86400.0
  }

  /** The same story is one event: over every run, at a threshold of at most 0.925, no two events have
      leaders that tell the same story within a day; at one of at most 0.775, at whatever times. */
  lemma SameStoryOneEvent(sim: Sim, root: real -> real, threshold: real, ops: seq<RunOp>, k: nat, m: nat)
    requires RealSimilarity(sim, root) && S.IsRoot(root) && 0.0 < threshold <= 0.925
    requires forall i :: 0 <= i < |ops| ==> Legal(ops[i])
    requires k != m && k < |Reached(sim, threshold, ops).links| && m < |Reached(sim, threshold, ops).links|
    requires Reached(sim, threshold, ops).links[k].relation == Primary == Reached(sim, threshold, ops).links[m].relation
    ensures var db := Reached(sim, threshold, ops);
            && InRange(db)
            && var c, d := ContentOf(db, db.links[k].article), ContentOf(db, db.links[m].article);
            SameStory(c, d) ==> !WithinADay(c, d) && threshold > 0.775
  {
    RealLeadersApart(sim, root, threshold, ops, k, m);
    var db := Reached(sim, threshold, ops);
    var c, d := ContentOf(db, db.links[k].article), ContentOf(db, db.links[m].article);
    if SameStory(c, d) {
      StoryScores(sim, root, c, d);
    }
  }

  lemma StoryScores(sim: Sim, root: real -> real, c: Content, d: Content)
    requires RealSimilarity(sim, root) && S.IsRoot(root) && SameStory(c, d)
    ensures sim(c, d) >= 0.775 && (WithinADay(c, d) ==> sim(c, d) == 0.925)
  {
    L.SameTextAtLeast(root, ProfileOf(c), ProfileOf(d));
    if WithinADay(c, d) {
      L.SameTextScores(root, ProfileOf(c), ProfileOf(d));
    }
    assert sim(c, d) == S.ArticleSimilarity(root, ProfileOf(c), ProfileOf(d));
  }

  // ----- What the counts mean -----

  /** The links of an event that count. */
  ghost predicate CountsFor(db: Db, e: nat, m: nat) {
    m < |db.links| && db.links[m].event == e && db.links[m].relation in {Primary, Related}
  }

  ghost predicate HasDomain(db: Db, e: nat, m: nat, d: string)
    requires InRange(db)
  {
    CountsFor(db, e, m) && d != "" && db.articles[db.links[m].article].content.domain == Some(d)
  }

  ghost predicate HasTime(db: Db, e: nat, m: nat, t: real)
    requires InRange(db)
  {
    CountsFor(db, e, m) && db.articles[db.links[m].article].content.publishedAt == Some(t)
  }

  /** The positions of the links of an event that count. */
  function Counting(links: seq<Link>, e: nat): set<nat> {
    set m: nat | m < |links| && links[m].event == e && links[m].relation in {Primary, Related}
  }

  lemma CountingOneMore(links: seq<Link>, l: Link, e: nat)
    ensures |Counting(links + [l], e)|
         == |Counting(links, e)| + if l.event == e && l.relation != Duplicate then 1 else 0
  {
    assert Counting(links + [l], e) == Counting(links, e) + if l.event == e && l.relation != Duplicate then {|links|} else {};
  }

  lemma {:induction false} RowsCount(links: seq<Link>, e: nat)
    ensures |RowsOf(links, e)| == |Counting(links, e)|
  {
    if links != [] {
      var front, last := links[..|links| - 1], links[|links| - 1];
      RowsCount(front, e);
      CountingOneMore(front, last, e);
      assert links == front + [last];
    }
  }

  /** The rows of an event are the articles of the links that count. */
  lemma {:induction false} RowsAre(links: seq<Link>, e: nat, a: nat)
    ensures a in RowsOf(links, e) <==>
              exists m :: 0 <= m < |links| && links[m].event == e && links[m].relation in {Primary, Related} && links[m].article == a
  {
    if links != [] {
      var n := |links| - 1;
      RowsAre(links[..n], e, a);
      if m :| 0 <= m < |links| && links[m].event == e && links[m].relation in {Primary, Related} && links[m].article == a {
        assert m < n ==> links[..n][m] == links[m];
      }
      if m :| 0 <= m < n && links[..n][m].event == e && links[..n][m].relation in {Primary, Related} && links[..n][m].article == a {
        assert links[m] == links[..n][m];
      }
    }
  }

  lemma {:induction false} DomainsAre(articles: seq<Article>, rows: seq<nat>, d: string)
    requires RowsUsable(articles, rows)
    ensures d in DomainsOf(articles, rows) <==> d != "" && exists a :: a in rows && articles[a].content.domain == Some(d)
  {
    if rows != [] {
      var n := |rows| - 1;
      DomainsAre(articles, rows[..n], d);
      assert forall a :: a in rows <==> a in rows[..n] || a == rows[n];
    }
  }

  lemma {:induction false} TimesAre(articles: seq<Article>, rows: seq<nat>, t: real)
    requires RowsUsable(articles, rows)
    ensures t in EventCounts.TimesOf(articles, rows) <==> exists a :: a in rows && articles[a].content.publishedAt == Some(t)
  {
    if rows != [] {
      var n := |rows| - 1;
      TimesAre(articles, rows[..n], t);
      assert forall a :: a in rows <==> a in rows[..n] || a == rows[n];
    }
  }

  lemma {:induction false} Extremes(times: seq<real>)
    requires times != []
    ensures Latest(times) in times && Earliest(times) in times
    ensures forall t :: t in times ==> Earliest(times) <= t <= Latest(times)
  {
    if |times| > 1 {
      Extremes(times[1..]);
      assert forall t :: t in times <==> t == times[0] || t in times[1..];
    }
  }

  /** The counts of an event: one article for each link that is not a duplicate, one source for each
      domain among their articles that is known and not empty. */
  lemma CountsMeaning(db: Db, e: nat) returns (sources: set<string>)
    requires InRange(db)
    ensures StatsOf(db, e).counts.articles == |Counting(db.links, e)|
    ensures StatsOf(db, e).counts.independent == |sources|
    ensures forall d :: d in sources <==> exists m: nat :: HasDomain(db, e, m, d)
  {
    RowsCount(db.links, e);
    sources := Sources(db, e);
  }

  lemma Sources(db: Db, e: nat) returns (sources: set<string>)
    requires InRange(db)
    ensures StatsOf(db, e).counts.independent == |sources|
    ensures forall d :: d in sources <==> exists m: nat :: HasDomain(db, e, m, d)
  {
    RowsInRange(db.articles, db.links, e);
    sources := DomainsOf(db.articles, RowsOf(db.links, e));
    forall d ensures d in sources <==> exists m: nat :: HasDomain(db, e, m, d) {
      DomainIff(db, e, d);
    }
  }

  lemma DomainIff(db: Db, e: nat, d: string)
    requires InRange(db) && RowsUsable(db.articles, RowsOf(db.links, e))
    ensures d in DomainsOf(db.articles, RowsOf(db.links, e)) <==> exists m: nat :: HasDomain(db, e, m, d)
  {
    var rows := RowsOf(db.links, e);
    DomainsAre(db.articles, rows, d);
    if a :| a in rows && d != "" && db.articles[a].content.domain == Some(d) {
      RowsAre(db.links, e, a);
      var m :| 0 <= m < |db.links| && db.links[m].event == e && db.links[m].relation in {Primary, Related} && db.links[m].article == a;
      assert HasDomain(db, e, m, d);
    }
    if m: nat :| HasDomain(db, e, m, d) {
      RowsAre(db.links, e, db.links[m].article);
    }
  }

  lemma TimeIff(db: Db, e: nat, t: real)
    requires InRange(db) && RowsUsable(db.articles, RowsOf(db.links, e))
    ensures t in EventCounts.TimesOf(db.articles, RowsOf(db.links, e)) <==> exists m: nat :: HasTime(db, e, m, t)
  {
    var rows := RowsOf(db.links, e);
    TimesAre(db.articles, rows, t);
    if a :| a in rows && db.articles[a].content.publishedAt == Some(t) {
      RowsAre(db.links, e, a);
      var m :| 0 <= m < |db.links| && db.links[m].event == e && db.links[m].relation in {Primary, Related} && db.links[m].article == a;
      assert HasTime(db, e, m, t);
    }
    if m: nat :| HasTime(db, e, m, t) {
      RowsAre(db.links, e, db.links[m].article);
    }
  }

  /** The spread of an event: none without a known time, and otherwise the hours between the first and
      the last of them. */
  lemma SpreadMeaning(db: Db, e: nat) returns (first: real, last: real)
    requires InRange(db)
    ensures var spread := StatsOf(db, e).spreadHours;
            && (spread.None? <==> forall m: nat, t :: !HasTime(db, e, m, t))
            && (spread.Some? ==>
                  && spread.value * 3600.0 == last - first
                  && (exists m: nat :: HasTime(db, e, m, first)) && (exists m: nat :: HasTime(db, e, m, last))
                  && forall m: nat, t :: HasTime(db, e, m, t) ==> first <= t <= last)
  {
    RowsInRange(db.articles, db.links, e);
    var times := EventCounts.TimesOf(db.articles, RowsOf(db.links, e));
    first, last := 0.0, 0.0;
    forall t ensures t in times <==> exists m: nat :: HasTime(db, e, m, t) {
      TimeIff(db, e, t);
    }
    if times != [] {
      Extremes(times);
      first, last := Earliest(times), Latest(times);
      assert first in times;
    }
    assert forall m: nat, t :: HasTime(db, e, m, t) ==> t in times;
  }

  /** What a refresh makes of an event: an open one gets high confidence iff it is an earthquake or
      has three sources within a day and a half, low iff it is none and has at most one source, and
      otherwise medium; nothing else changes. */
  lemma ConfidenceMeaning(db: Db, e: nat)
    requires InRange(db) && e < |db.events|
    ensures var st, before, after := StatsOf(db, e), db.events[e], RefreshAll(db).events[e];
            var quake := before.kind == Earthquake;
            var sure := st.counts.independent >= 3 && (st.spreadHours.Some? ==> st.spreadHours.value <= 36.0);
            if before.status == Active || before.status == Updated then
              && after == before.(confidence := after.confidence) && after.confidence.Some?
              && (after.confidence == Some(High) <==> quake || sure)
              && (after.confidence == Some(Medium) <==> !quake && !sure && st.counts.independent >= 2)
              && (after.confidence == Some(Low) <==> !quake && st.counts.independent <= 1)
            else after == before
    ensures RefreshAll(db).articles == db.articles && RefreshAll(db).links == db.links
         && |RefreshAll(db).events| == |db.events|
  {
  }
}
