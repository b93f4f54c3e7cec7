/** The clustering invariant over whole runs, and what a reader of the tables can rely on. */
module EventRuns {
  import opened Wrappers
  import opened AlertPlan
  import opened EventEngine
  import opened EventCounts
  import opened EventBatches
  import opened EventInvariant
  import opened Loops
  import S = Similarity

  /** What may happen to the tables: an article is collected, an earthquake (or any other event
      that is not news) is wrapped, a cluster cycle runs, the confidences are refreshed. */
  datatype RunOp = Collect(content: Content) | Wrap(event: Event) | Cluster(batch: nat) | Refresh

  predicate Legal(op: RunOp) {
    op.Wrap? ==> op.event.kind != News && op.event.status == Active
  }

  function Runner(sim: Sim, threshold: real): (Db, RunOp) -> Db {
    (db: Db, op: RunOp) =>
      match op
      case Collect(c) => Ingest(db, c)
      case Wrap(e) => db.(events := db.events + [e])
      case Refresh => if InRange(db) then RefreshAll(db) else db
      case Cluster(batch) => if InRange(db) then Cycle(sim, threshold, db, batch) else db
  }

  function Reached(sim: Sim, threshold: real, ops: seq<RunOp>): Db {
    Fold(Runner(sim, threshold), EMPTY, ops)
  }

  // ----- Every operation keeps the invariant -----

  ghost predicate Good(sim: Sim, threshold: real, db: Db) {
    exists p: nat :: WellClustered(sim, threshold, db, p)
  }

  lemma CollectKeeps(sim: Sim, threshold: real, db: Db, p: nat, c: Content)
    requires WellClustered(sim, threshold, db, p)
    ensures WellClustered(sim, threshold, Ingest(db, c), p)
  {
    var db' := Ingest(db, c);
    forall i | 0 <= i < |db.articles| ensures HasEarlierCopy(db', i) == HasEarlierCopy(db, i) {
      forall k | 0 <= k < i
        ensures SameText(ContentOf(db', i), ContentOf(db', k)) == SameText(ContentOf(db, i), ContentOf(db, k)) {}
    }
    forall m | 0 <= m < |db.links| ensures GoodLink(sim, threshold, db', m) {
      GrownLink(sim, threshold, db, db', m);
    }
    forall e | 0 <= e < |db.events| ensures GoodEvent(db', e) {
      assert GoodEvent(db, e);
      assert forall r :: HasLink(db', e, r) == HasLink(db, e, r);
    }
    forall i | 0 <= i < p ensures GoodArticle(db', i) {
      GrownArticle(db, db', i);
    }
  }

  /** The tables only grew: more articles or more events behind the ones there were. */
  ghost predicate Grown(db: Db, db': Db) {
    && db.articles <= db'.articles && db.links == db'.links && |db.events| <= |db'.events|
    && forall e :: 0 <= e < |db.events| ==> db'.events[e].kind == db.events[e].kind
  }

  lemma GrownCopies(db: Db, db': Db, i: nat)
    requires Grown(db, db') && i < |db.articles|
    ensures HasEarlierCopy(db', i) == HasEarlierCopy(db, i)
  {
    forall k | 0 <= k <= i ensures ContentOf(db', k) == ContentOf(db, k) {}
  }

  lemma GrownLink(sim: Sim, threshold: real, db: Db, db': Db, m: nat)
    requires InRange(db) && InRange(db') && Grown(db, db') && m < |db.links| && GoodLink(sim, threshold, db, m)
    ensures GoodLink(sim, threshold, db', m)
  {
    var l := db.links[m];
    forall k | 0 <= k < |db.links| ensures ScoreAt(sim, db', l.article, k) == ScoreAt(sim, db, l.article, k) {}
    match l.relation
    case Primary =>
    case Related =>
    case Duplicate =>
      var k :| 0 <= k < m && db.links[k].relation == Primary && db.links[k].event == l.event
               && db.links[k].article < l.article && IsOriginalOf(db, db.links[k].article, l.article);
      GrownCopies(db, db', db.links[k].article);
      assert IsOriginalOf(db', db'.links[k].article, l.article);
  }

  lemma GrownArticle(db: Db, db': Db, i: nat)
    requires Grown(db, db') && i < |db.articles| && GoodArticle(db, i)
    ensures GoodArticle(db', i)
  {
    assert forall k, r :: ArticleHasLink(db', k, r) == ArticleHasLink(db, k, r);
    GrownCopies(db, db', i);
    forall k | 0 <= k < i && IsOriginalOf(db', k, i) ensures IsOriginalOf(db, k, i) {
      GrownCopies(db, db', k);
    }
  }

  lemma WrapKeeps(sim: Sim, threshold: real, db: Db, p: nat, e: Event)
    requires WellClustered(sim, threshold, db, p) && e.kind != News && e.status == Active
    ensures WellClustered(sim, threshold, db.(events := db.events + [e]), p)
  {
    var db' := db.(events := db.events + [e]);
    forall m | 0 <= m < |db.links| ensures GoodLink(sim, threshold, db', m) {
      GrownLink(sim, threshold, db, db', m);
    }
    forall x | 0 <= x < |db'.events| ensures GoodEvent(db', x) {
      assert forall r :: HasLink(db', x, r) == HasLink(db, x, r);
      if x < |db.events| {
        assert GoodEvent(db, x);
      }
    }
    forall i | 0 <= i < p ensures GoodArticle(db', i) {
      GrownArticle(db, db', i);
    }
  }

  lemma RefreshKeeps(sim: Sim, threshold: real, db: Db, p: nat)
    requires WellClustered(sim, threshold, db, p)
    ensures WellClustered(sim, threshold, RefreshAll(db), p)
  {
    var db' := RefreshAll(db);
    forall m | 0 <= m < |db.links| ensures GoodLink(sim, threshold, db', m) {
      GrownLink(sim, threshold, db, db', m);
    }
    forall e | 0 <= e < |db'.events| ensures GoodEvent(db', e) {
      assert GoodEvent(db, e);
      assert forall r :: HasLink(db', e, r) == HasLink(db, e, r);
    }
    forall i | 0 <= i < p ensures GoodArticle(db', i) {
      GrownArticle(db, db', i);
    }
  }

  lemma {:induction false} QueueFront(db: Db, p: nat, n: nat)
    requires QueueAt(db, p) && n <= |db.articles|
    ensures n <= p ==> RawUpTo(db.articles, n) == []
    ensures n > p ==> RawUpTo(db.articles, n) != [] && RawUpTo(db.articles, n)[0] == p
  {
    if n == 0 {
    } else {
      QueueFront(db, p, n - 1);
    }
  }

  lemma NextKeeps(sim: Sim, threshold: real, db: Db)
    requires Good(sim, threshold, db)
    ensures Good(sim, threshold, NextStep(sim, threshold, db))
  {
    var p: nat :| WellClustered(sim, threshold, db, p);
    QueueFront(db, p, |db.articles|);
    if RawIds(db) != [] {
      StepKeeps(sim, threshold, db, p);
    }
  }

  lemma {:induction false} DrainKeeps(sim: Sim, threshold: real, db: Db, n: nat)
    requires Good(sim, threshold, db)
    ensures Good(sim, threshold, Drain(sim, threshold, db, n))
  {
    if n == 0 {
    } else {
      DrainKeeps(sim, threshold, db, n - 1);
      IterateLast(Stepper(sim, threshold), n, db);
      NextKeeps(sim, threshold, Drain(sim, threshold, db, n - 1));
    }
  }

  lemma ClusterKeeps(sim: Sim, threshold: real, db: Db, batch: nat)
    requires Good(sim, threshold, db)
    ensures InRange(db) && Good(sim, threshold, Cycle(sim, threshold, db, batch))
  {
    CycleIsDrain(sim, threshold, db, batch);
    DrainKeeps(sim, threshold, db, Min(batch, |RawIds(db)|));
  }

  lemma OpKeeps(sim: Sim, threshold: real, db: Db, op: RunOp)
    requires Good(sim, threshold, db) && Legal(op)
    ensures Good(sim, threshold, Runner(sim, threshold)(db, op))
  {
    match op
    case Collect(c) =>
      var p: nat :| WellClustered(sim, threshold, db, p);
      CollectKeeps(sim, threshold, db, p, c);
    case Wrap(e) =>
      var p: nat :| WellClustered(sim, threshold, db, p);
      WrapKeeps(sim, threshold, db, p, e);
    case Cluster(batch) => ClusterKeeps(sim, threshold, db, batch);
    case Refresh =>
      var p: nat :| WellClustered(sim, threshold, db, p);
      RefreshKeeps(sim, threshold, db, p);
  }

  /** The clustering invariant holds after every run, for every similarity and threshold. */
  lemma EveryRunIsGood(sim: Sim, threshold: real, ops: seq<RunOp>)
    requires forall k :: 0 <= k < |ops| ==> Legal(ops[k])
    ensures Good(sim, threshold, Reached(sim, threshold, ops))
  {
    var holds := (k: nat, d: Db) => Good(sim, threshold, d);
    forall k: nat, d: Db | k < |ops| && holds(k, d) ensures holds(k + 1, Runner(sim, threshold)(d, ops[k])) {
      OpKeeps(sim, threshold, d, ops[k]);
    }
    assert WellClustered(sim, threshold, EMPTY, 0);
    FoldKeeps(Runner(sim, threshold), EMPTY, ops, holds);
  }

  // ----- What the tables promise -----

  /** Each news event has exactly one primary article, and leaders stay apart: of any two primary
      articles the later one did not attach to the earlier. */
  lemma LeadersStayApart(sim: Sim, threshold: real, ops: seq<RunOp>)
    requires forall k :: 0 <= k < |ops| ==> Legal(ops[k])
    ensures var db := Reached(sim, threshold, ops);
            && InRange(db)
            && (forall e :: 0 <= e < |db.events| && db.events[e].kind == News ==> HasLink(db, e, Primary))
            && forall k, m :: 0 <= k < m < |db.links| && db.links[k].relation == Primary && db.links[m].relation == Primary ==>
                 && db.links[k].event != db.links[m].event
                 && var score := sim(ContentOf(db, db.links[m].article), ContentOf(db, db.links[k].article));
                    score <= 0.0 || score < threshold
  {
    EveryRunIsGood(sim, threshold, ops);
    var db := Reached(sim, threshold, ops);
    var p: nat :| WellClustered(sim, threshold, db, p);
    forall e | 0 <= e < |db.events| && db.events[e].kind == News ensures HasLink(db, e, Primary) {
      assert GoodEvent(db, e);
    }
    forall k, m | 0 <= k < m < |db.links| && db.links[k].relation == Primary && db.links[m].relation == Primary
      ensures db.links[k].event != db.links[m].event && !Attaches(ScoreAt(sim, db, db.links[m].article, k), threshold)
    {
      assert GoodLink(sim, threshold, db, m);
    }
  }

  lemma EarlierCopyIs(db: Db, i: nat)
    requires i < |db.articles|
    ensures var hash := db.articles[i].content.contentHash;
            HasEarlierCopy(db, i) <==>
              hash != None && hash != Some("") && exists k :: 0 <= k < i && db.articles[k].content.contentHash == hash
  {
    if k :| 0 <= k < i && db.articles[k].content.contentHash == db.articles[i].content.contentHash {
      assert SameText(ContentOf(db, i), ContentOf(db, k)) <==> HasHash(ContentOf(db, i));
    }
  }

  /** Deduplication is "first occurrence": at every point of every run the processed articles are
      the first so many, and of those with the same non-empty hash exactly the first is clustered
      and all others are deduplicated. */
  lemma FirstOccurrenceWins(sim: Sim, threshold: real, ops: seq<RunOp>) returns (p: nat)
    requires forall k :: 0 <= k < |ops| ==> Legal(ops[k])
    ensures var db := Reached(sim, threshold, ops);
            && p <= |db.articles|
            && (forall i :: p <= i < |db.articles| ==> db.articles[i].status == Raw)
            && forall i :: 0 <= i < p ==>
                 var hash := db.articles[i].content.contentHash;
                 db.articles[i].status
                 == if hash != None && hash != Some("") && exists k :: 0 <= k < i && db.articles[k].content.contentHash == hash
                    then Deduplicated else Clustered
  {
    EveryRunIsGood(sim, threshold, ops);
    var db := Reached(sim, threshold, ops);
    p :| WellClustered(sim, threshold, db, p);
    forall i | 0 <= i < p ensures db.articles[i].status == if HasEarlierCopy(db, i) then Deduplicated else Clustered {
      assert GoodArticle(db, i);
    }
    forall i | 0 <= i < p
      ensures var hash := db.articles[i].content.contentHash;
              HasEarlierCopy(db, i) <==>
                hash != None && hash != Some("") && exists k :: 0 <= k < i && db.articles[k].content.contentHash == hash
    {
      EarlierCopyIs(db, i);
    }
  }

  // ----- With the real similarity -----

  /** What clustering compares: no location is ever given. */
  function ProfileOf(c: Content): S.Profile {
    S.Profile(Some(c.title), c.description, c.publishedAt, None)
  }

  ghost predicate RealSimilarity(sim: Sim, root: real -> real) {
    forall c, d :: sim(c, d) == S.ArticleSimilarity(root, ProfileOf(c), ProfileOf(d))
  }

  /** With a threshold above 0.225, such as the default 0.45, an article only ever joins an event
      whose primary article shares a token with it. */
  lemma FollowersShareAToken(sim: Sim, root: real -> real, threshold: real, ops: seq<RunOp>, m: nat)
    requires RealSimilarity(sim, root) && threshold > 0.225
    requires forall k :: 0 <= k < |ops| ==> Legal(ops[k])
    requires m < |Reached(sim, threshold, ops).links| && Reached(sim, threshold, ops).links[m].relation == Related
    ensures var db := Reached(sim, threshold, ops);
            && InRange(db)
            && exists k :: 0 <= k < m && db.links[k].relation == Primary && db.links[k].event == db.links[m].event
                 && exists t :: t in S.TokensOf(ProfileOf(ContentOf(db, db.links[m].article)))
                             && t in S.TokensOf(ProfileOf(ContentOf(db, db.links[k].article)))
  {
    EveryRunIsGood(sim, threshold, ops);
    var db := Reached(sim, threshold, ops);
    var p: nat :| WellClustered(sim, threshold, db, p);
    var l := db.links[m];
    assert GoodLink(sim, threshold, db, m);
    var k :| 0 <= k < m && db.links[k].relation == Primary && db.links[k].event == l.event
             && l.score == ScoreAt(sim, db, l.article, k);
    var a, b := ProfileOf(ContentOf(db, l.article)), ProfileOf(ContentOf(db, db.links[k].article));
    assert l.score == S.ArticleSimilarity(root, a, b);
    if S.TokensOf(a) !! S.TokensOf(b) {
      S.NoSharedToken(root, a, b);
    }
    var t :| t in S.TokensOf(a) && t in S.TokensOf(b);
  }

  /** Being symmetric, the real similarity keeps leaders apart in both directions. */
  lemma RealLeadersApart(sim: Sim, root: real -> real, threshold: real, ops: seq<RunOp>, k: nat, m: nat)
    requires RealSimilarity(sim, root) && threshold > 0.0
    requires forall i :: 0 <= i < |ops| ==> Legal(ops[i])
    requires k != m && k < |Reached(sim, threshold, ops).links| && m < |Reached(sim, threshold, ops).links|
    requires Reached(sim, threshold, ops).links[k].relation == Primary == Reached(sim, threshold, ops).links[m].relation
    ensures var db := Reached(sim, threshold, ops);
            && InRange(db)
            && sim(ContentOf(db, db.links[k].article), ContentOf(db, db.links[m].article)) < threshold
  {
    LeadersStayApart(sim, threshold, ops);
    var db := Reached(sim, threshold, ops);
    var c, d := ContentOf(db, db.links[k].article), ContentOf(db, db.links[m].article);
    S.SimilaritySymmetric(root, ProfileOf(c), ProfileOf(d));
    assert sim(c, d) == sim(d, c);
  }
}
