/** What holds of the event tables after any sequence of arrivals, earthquake wrappers and cluster
    cycles: events are led by one primary article each, leaders do not attach to one another,
    followers joined the best leader of their time, and copies are told from originals. */
module EventInvariant {
  import opened Wrappers
  import opened AlertPlan
  import opened EventEngine
  import opened EventBatches

  /** The test a score must pass to attach an article to an event. */
  predicate Attaches(score: real, threshold: real) {
    score > 0.0 && score >= threshold
  }

  function ContentOf(db: Db, i: nat): Content
    requires i < |db.articles|
  {
    db.articles[i].content
  }

  predicate HasEarlierCopy(db: Db, i: nat)
    requires i < |db.articles|
  {
    exists k :: 0 <= k < i && SameText(ContentOf(db, i), ContentOf(db, k))
  }

  /** `k` is the first article with the text of `i`. */
  ghost predicate IsOriginalOf(db: Db, k: nat, i: nat)
    requires k < i < |db.articles|
  {
    SameText(ContentOf(db, i), ContentOf(db, k)) && !HasEarlierCopy(db, k)
  }

  function ScoreAt(sim: Sim, db: Db, i: nat, k: nat): real
    requires InRange(db) && i < |db.articles| && k < |db.links|
  {
    sim(ContentOf(db, i), ContentOf(db, db.links[k].article))
  }

  // ----- The invariant -----

  /** The first `p` articles are processed, the rest are raw. */
  ghost predicate QueueAt(db: Db, p: nat) {
    && p <= |db.articles|
    && (forall i :: 0 <= i < p ==> IsProcessed(db.articles[i].status))
    && (forall i :: p <= i < |db.articles| ==> db.articles[i].status == Raw)
  }

  /** Links are added in the order of their articles, at most one for each. */
  ghost predicate LinksOrdered(db: Db, p: nat) {
    && InRange(db)
    && (forall m :: 0 <= m < |db.links| ==> db.links[m].article < p)
    && forall k, m :: 0 <= k < m < |db.links| ==> db.links[k].article < db.links[m].article
  }

  /** A primary article: no leader before it was similar enough for it to join. */
  ghost predicate GoodPrimary(sim: Sim, threshold: real, db: Db, m: nat)
    requires InRange(db) && m < |db.links|
  {
    var l := db.links[m];
    && db.events[l.event].kind == News
    && forall k :: 0 <= k < m && db.links[k].relation == Primary ==>
         db.links[k].event < l.event && !Attaches(ScoreAt(sim, db, l.article, k), threshold)
  }

  /** A related article: it joined the event whose leader scored highest among the leaders there
      were then, the oldest of them on a tie, with a score that attaches. */
  ghost predicate GoodRelated(sim: Sim, threshold: real, db: Db, m: nat)
    requires InRange(db) && m < |db.links|
  {
    var l := db.links[m];
    && Attaches(l.score, threshold)
    && (exists k :: 0 <= k < m && db.links[k].relation == Primary && db.links[k].event == l.event
                    && l.score == ScoreAt(sim, db, l.article, k))
    && forall k :: 0 <= k < m && db.links[k].relation == Primary ==>
         && ScoreAt(sim, db, l.article, k) <= l.score
         && (ScoreAt(sim, db, l.article, k) == l.score ==> l.event <= db.links[k].event)
  }

  /** A duplicate: it is filed under the event its original leads. */
  ghost predicate GoodDuplicate(db: Db, m: nat)
    requires InRange(db) && m < |db.links|
  {
    var l := db.links[m];
    exists k :: 0 <= k < m && db.links[k].relation == Primary && db.links[k].event == l.event
                && db.links[k].article < l.article && IsOriginalOf(db, db.links[k].article, l.article)
  }

  ghost predicate GoodLink(sim: Sim, threshold: real, db: Db, m: nat)
    requires InRange(db) && m < |db.links|
  {
    match db.links[m].relation
    case Primary => GoodPrimary(sim, threshold, db, m)
    case Related => GoodRelated(sim, threshold, db, m)
    case Duplicate => GoodDuplicate(db, m)
  }

  ghost predicate HasLink(db: Db, e: nat, r: Relation) {
    exists m :: 0 <= m < |db.links| && db.links[m].event == e && db.links[m].relation == r
  }

  ghost predicate ArticleHasLink(db: Db, i: nat, r: Relation) {
    exists m :: 0 <= m < |db.links| && db.links[m].article == i && db.links[m].relation == r
  }

  /** A news event has a primary article, and is `updated` iff it has a related one. */
  ghost predicate GoodEvent(db: Db, e: nat)
    requires e < |db.events|
  {
    && (db.events[e].kind == News ==> HasLink(db, e, Primary))
    && db.events[e].status == if HasLink(db, e, Related) then Updated else Active
  }

  /** An article is clustered iff it is the first with its text, and then it has a primary or a
      related link; otherwise it has a duplicate link iff its original leads an event. */
  ghost predicate GoodArticle(db: Db, i: nat)
    requires i < |db.articles|
  {
    if HasEarlierCopy(db, i) then
      && db.articles[i].status == Deduplicated
      && !ArticleHasLink(db, i, Primary) && !ArticleHasLink(db, i, Related)
      && forall k :: 0 <= k < i && IsOriginalOf(db, k, i) ==>
           (ArticleHasLink(db, i, Duplicate) <==> ArticleHasLink(db, k, Primary))
    else
      && db.articles[i].status == Clustered
      && (ArticleHasLink(db, i, Primary) || ArticleHasLink(db, i, Related))
      && !ArticleHasLink(db, i, Duplicate)
  }

  ghost predicate WellClustered(sim: Sim, threshold: real, db: Db, p: nat) {
    && QueueAt(db, p)
    && LinksOrdered(db, p)
    && (forall m :: 0 <= m < |db.links| ==> GoodLink(sim, threshold, db, m))
    && (forall e :: 0 <= e < |db.events| ==> GoodEvent(db, e))
    && (forall i :: 0 <= i < p ==> GoodArticle(db, i))
  }

  // ----- The best match -----

  function ProfileScore(sim: Sim, articles: seq<Article>, c: Content, x: EventProfile): real
    requires x.article < |articles|
  {
    sim(c, articles[x.article].content)
  }

  ghost predicate Usable(articles: seq<Article>, profiles: seq<EventProfile>) {
    forall i :: 0 <= i < |profiles| ==> profiles[i].article < |articles|
  }

  /** Profile `f` is the first to reach the best score. */
  ghost predicate FirstBest(sim: Sim, articles: seq<Article>, c: Content, profiles: seq<EventProfile>, best: Best, f: nat)
    requires Usable(articles, profiles)
  {
    && f < |profiles| && best.event == Some(profiles[f].event)
    && ProfileScore(sim, articles, c, profiles[f]) == best.score
    && forall j :: 0 <= j < f ==> ProfileScore(sim, articles, c, profiles[j]) < best.score
  }

  /** The comparison loop finds the highest score above zero, and the first profile that reaches
      it. */
  lemma {:induction false} BestMeaning(sim: Sim, articles: seq<Article>, c: Content, profiles: seq<EventProfile>)
    requires Usable(articles, profiles)
    ensures var best := BestMatch(sim, articles, c, profiles);
            && (forall i :: 0 <= i < |profiles| ==> ProfileScore(sim, articles, c, profiles[i]) <= best.score)
            && (best.event.None? ==> best.score == 0.0)
            && (best.event.Some? ==> best.score > 0.0 && exists f: nat :: FirstBest(sim, articles, c, profiles, best, f))
  {
    if profiles == [] {
    } else {
      var n := |profiles| - 1;
      var front := profiles[..n];
      BestMeaning(sim, articles, c, front);
      var before, best := BestMatch(sim, articles, c, front), BestMatch(sim, articles, c, profiles);
      if ProfileScore(sim, articles, c, profiles[n]) > before.score {
        assert FirstBest(sim, articles, c, profiles, best, n);
      } else if before.event.Some? {
        var f: nat :| FirstBest(sim, articles, c, front, before, f);
        assert FirstBest(sim, articles, c, profiles, best, f);
      }
    }
  }

  // ----- Profiles and primary links -----

  predicate PrimaryLink(links: seq<Link>, e: nat, a: nat) {
    EventProfile(e, a) in PrimariesOf(links, e)
  }

  lemma {:induction false} PrimariesAreLinks(links: seq<Link>, e: nat)
    ensures forall x :: x in PrimariesOf(links, e) ==> x.event == e
    ensures forall m :: 0 <= m < |links| && links[m].relation == Primary && links[m].event == e ==>
              PrimaryLink(links, e, links[m].article)
  {
    if links == [] {
    } else {
      PrimariesAreLinks(links[..|links| - 1], e);
    }
  }

  lemma {:induction false} LinkOfPrimary(links: seq<Link>, e: nat, a: nat) returns (m: nat)
    requires PrimaryLink(links, e, a)
    ensures m < |links| && links[m].relation == Primary && links[m].event == e && links[m].article == a
  {
    var n := |links| - 1;
    if PrimaryLink(links[..n], e, a) {
      m := LinkOfPrimary(links[..n], e, a);
    } else {
      m := n;
    }
  }

  predicate HasProfile(db: Db, ps: seq<EventProfile>, m: nat)
    requires m < |db.links|
  {
    EventProfile(db.links[m].event, db.links[m].article) in ps
  }

  predicate FromLinks(db: Db, ps: seq<EventProfile>, n: nat) {
    forall x :: x in ps ==> x.event < n && PrimaryLink(db.links, x.event, x.article)
  }

  predicate CoverLinks(db: Db, ps: seq<EventProfile>, n: nat) {
    forall m: nat {:trigger HasProfile(db, ps, m)} ::
      m < |db.links| && db.links[m].relation == Primary && db.links[m].event < n ==> HasProfile(db, ps, m)
  }

  predicate InEventOrder(ps: seq<EventProfile>) {
    forall i, j :: 0 <= i < j < |ps| ==> ps[i].event <= ps[j].event
  }

  /** The profiles are the primary links of the first `n` events, in event order. */
  predicate ProfilesMatch(db: Db, ps: seq<EventProfile>, n: nat) {
    FromLinks(db, ps, n) && CoverLinks(db, ps, n) && InEventOrder(ps)
  }

  /** Every profile has its event below `n` and the quality that each primary has. */
  lemma {:induction false} ProfilesAreGood(db: Db, n: nat, good: EventProfile -> bool)
    requires n <= |db.events|
    requires forall e: nat, x :: x in PrimariesOf(db.links, e) ==> x.event == e && good(x)
    ensures forall x :: x in ProfilesUpTo(db.events, db.links, n) ==> x.event < n && good(x)
  {
    if n == 0 {
    } else {
      ProfilesAreGood(db, n - 1, good);
    }
  }

  lemma {:induction false} PrimaryIsProfile(db: Db, n: nat, e: nat, x: EventProfile)
    requires e < n <= |db.events| && IsOpen(db.events[e].status) && x in PrimariesOf(db.links, e)
    ensures x in ProfilesUpTo(db.events, db.links, n)
  {
    if e < n - 1 {
      PrimaryIsProfile(db, n - 1, e, x);
    }
  }

  lemma OrderedAppend(before: seq<EventProfile>, own: seq<EventProfile>, e: nat)
    requires InEventOrder(before)
    requires (forall x :: x in before ==> x.event < e) && forall x :: x in own ==> x.event == e
    ensures InEventOrder(before + own)
  {
    forall i | 0 <= i < |before| ensures before[i].event < e { assert before[i] in before; }
    forall i | 0 <= i < |own| ensures own[i].event == e { assert own[i] in own; }
  }

  lemma {:induction false} ProfilesInEventOrder(db: Db, n: nat)
    requires n <= |db.events|
    requires forall e: nat, x :: x in PrimariesOf(db.links, e) ==> x.event == e
    ensures InEventOrder(ProfilesUpTo(db.events, db.links, n))
  {
    if n == 0 {
    } else {
      ProfilesInEventOrder(db, n - 1);
      ProfilesAreGood(db, n - 1, _ => true);
      var before, own := ProfilesUpTo(db.events, db.links, n - 1), PrimariesOf(db.links, n - 1);
      if IsOpen(db.events[n - 1].status) {
        OrderedAppend(before, own, n - 1);
      } else {
        assert before + [] == before;
      }
    }
  }

  lemma ProfilesCoverLinks(db: Db, n: nat)
    requires n <= |db.events| && forall e :: 0 <= e < n ==> IsOpen(db.events[e].status)
    ensures CoverLinks(db, ProfilesUpTo(db.events, db.links, n), n)
  {
    var ps := ProfilesUpTo(db.events, db.links, n);
    forall m: nat | m < |db.links| && db.links[m].relation == Primary && db.links[m].event < n ensures HasProfile(db, ps, m) {
      var e := db.links[m].event;
      PrimariesAreLinks(db.links, e);
      assert IsOpen(db.events[e].status) && PrimaryLink(db.links, e, db.links[m].article);
      PrimaryIsProfile(db, n, e, EventProfile(e, db.links[m].article));
    }
  }

  lemma OwnPrimaries(links: seq<Link>)
    ensures forall e: nat, x :: x in PrimariesOf(links, e) ==> x.event == e
  {
    forall e: nat, x | x in PrimariesOf(links, e) ensures x.event == e {
      PrimariesAreLinks(links, e);
    }
  }

  lemma ProfilesFromLinks(db: Db, n: nat)
    requires n <= |db.events|
    ensures FromLinks(db, ProfilesUpTo(db.events, db.links, n), n)
  {
    var good := (x: EventProfile) => PrimaryLink(db.links, x.event, x.article);
    OwnPrimaries(db.links);
    forall e: nat, x | x in PrimariesOf(db.links, e) ensures x.event == e && good(x) {
      assert x == EventProfile(e, x.article);
    }
    ProfilesAreGood(db, n, good);
  }

  lemma ProfilesAreLinks(db: Db, n: nat)
    requires n <= |db.events| && forall e :: 0 <= e < n ==> IsOpen(db.events[e].status)
    ensures ProfilesMatch(db, ProfilesUpTo(db.events, db.links, n), n)
  {
    ProfilesFromLinks(db, n);
    ProfilesCoverLinks(db, n);
    OwnPrimaries(db.links);
    ProfilesInEventOrder(db, n);
  }

  /** The judgement of an article that is no copy, in terms of the primary links. */
  ghost predicate JoinsBest(sim: Sim, threshold: real, db: Db, i: nat, e: nat, score: real)
    requires InRange(db) && i < |db.articles|
  {
    && Attaches(score, threshold)
    && (exists k :: 0 <= k < |db.links| && db.links[k].relation == Primary && db.links[k].event == e
                    && score == ScoreAt(sim, db, i, k))
    && forall k :: 0 <= k < |db.links| && db.links[k].relation == Primary ==>
         && ScoreAt(sim, db, i, k) <= score
         && (ScoreAt(sim, db, i, k) == score ==> e <= db.links[k].event)
  }

  ghost predicate AttachesToNone(sim: Sim, threshold: real, db: Db, i: nat)
    requires InRange(db) && i < |db.articles|
  {
    forall k :: 0 <= k < |db.links| && db.links[k].relation == Primary ==>
      !Attaches(ScoreAt(sim, db, i, k), threshold)
  }

  /** No primary link beats the best match, and an equal one belongs to no older event. */
  lemma LinkBelowBest(sim: Sim, db: Db, i: nat, ps: seq<EventProfile>, best: Best, k: nat)
    requires InRange(db) && i < |db.articles| && Usable(db.articles, ps) && ProfilesMatch(db, ps, |db.events|)
    requires forall j :: 0 <= j < |ps| ==> ProfileScore(sim, db.articles, ContentOf(db, i), ps[j]) <= best.score
    requires k < |db.links| && db.links[k].relation == Primary
    ensures ScoreAt(sim, db, i, k) <= best.score
    ensures forall f: nat :: FirstBest(sim, db.articles, ContentOf(db, i), ps, best, f) && ScoreAt(sim, db, i, k) == best.score ==>
              best.event.value <= db.links[k].event
  {
    var x := EventProfile(db.links[k].event, db.links[k].article);
    assert HasProfile(db, ps, k);
    var j: nat :| j < |ps| && ps[j] == x;
    forall f: nat | FirstBest(sim, db.articles, ContentOf(db, i), ps, best, f) && ScoreAt(sim, db, i, k) == best.score
      ensures best.event.value <= db.links[k].event
    {
      assert ProfileScore(sim, db.articles, ContentOf(db, i), ps[j]) == best.score;
      if f != j {
        assert f < j;
      }
    }
  }

  lemma BestJoins(sim: Sim, threshold: real, db: Db, i: nat, ps: seq<EventProfile>, best: Best, f: nat)
    requires InRange(db) && i < |db.articles| && Usable(db.articles, ps) && ProfilesMatch(db, ps, |db.events|)
    requires forall j :: 0 <= j < |ps| ==> ProfileScore(sim, db.articles, ContentOf(db, i), ps[j]) <= best.score
    requires FirstBest(sim, db.articles, ContentOf(db, i), ps, best, f) && best.score > 0.0 && best.score >= threshold
    ensures JoinsBest(sim, threshold, db, i, best.event.value, best.score)
  {
    forall k | 0 <= k < |db.links| && db.links[k].relation == Primary
      ensures ScoreAt(sim, db, i, k) <= best.score
      ensures ScoreAt(sim, db, i, k) == best.score ==> best.event.value <= db.links[k].event
    {
      LinkBelowBest(sim, db, i, ps, best, k);
    }
    assert ps[f] in ps;
    var m := LinkOfPrimary(db.links, ps[f].event, ps[f].article);
    assert ScoreAt(sim, db, i, m) == best.score;
  }

  lemma BestDecides(sim: Sim, threshold: real, db: Db, i: nat, ps: seq<EventProfile>)
    requires InRange(db) && i < |db.articles| && Usable(db.articles, ps) && ProfilesMatch(db, ps, |db.events|)
    ensures var best := BestMatch(sim, db.articles, ContentOf(db, i), ps);
            if best.event.Some? && best.score >= threshold then JoinsBest(sim, threshold, db, i, best.event.value, best.score)
            else AttachesToNone(sim, threshold, db, i)
  {
    var c := ContentOf(db, i);
    BestMeaning(sim, db.articles, c, ps);
    var best := BestMatch(sim, db.articles, c, ps);
    if best.event.Some? && best.score >= threshold {
      var f: nat :| FirstBest(sim, db.articles, c, ps, best, f);
      BestJoins(sim, threshold, db, i, ps, best, f);
    } else {
      forall k | 0 <= k < |db.links| && db.links[k].relation == Primary
        ensures !Attaches(ScoreAt(sim, db, i, k), threshold)
      {
        LinkBelowBest(sim, db, i, ps, best, k);
      }
    }
  }

  lemma JudgeMeaning(sim: Sim, threshold: real, db: Db, i: nat)
    requires InRange(db) && i < |db.articles| && FindCopy(db.articles, i, 0).None?
    requires forall e :: 0 <= e < |db.events| ==> IsOpen(db.events[e].status)
    ensures ProfilesInRange(db, Profiles(db))
    ensures var v := Judge(sim, threshold, db, i, Profiles(db));
            && !v.Copy?
            && (v.Joins? ==> JoinsBest(sim, threshold, db, i, v.event, v.score))
            && (v.Founds? ==> AttachesToNone(sim, threshold, db, i))
  {
    ProfilesUpToInRange(db, |db.events|);
    ProfilesAreLinks(db, |db.events|);
    BestDecides(sim, threshold, db, i, Profiles(db));
  }

  // ----- One article keeps the invariant -----

  /** The tables after article `p`: the same contents, at most one more link, and that for `p`. */
  ghost predicate Extends(db: Db, db': Db, p: nat, added: seq<Link>) {
    && InRange(db) && InRange(db')
    && |db'.articles| == |db.articles|
    && (forall i :: 0 <= i < |db.articles| ==> db'.articles[i].content == db.articles[i].content)
    && |db.events| <= |db'.events|
    && (forall e :: 0 <= e < |db.events| ==> db'.events[e].kind == db.events[e].kind)
    && db'.links == db.links + added && |added| <= 1
    && forall m :: 0 <= m < |added| ==> added[m].article == p
  }

  lemma CopiesSame(db: Db, db': Db, p: nat, added: seq<Link>, i: nat)
    requires Extends(db, db', p, added) && i < |db.articles|
    ensures HasEarlierCopy(db', i) == HasEarlierCopy(db, i)
  {
    forall k | 0 <= k < i
      ensures SameText(ContentOf(db', i), ContentOf(db', k)) == SameText(ContentOf(db, i), ContentOf(db, k)) {}
  }

  lemma GoodLinkStable(sim: Sim, threshold: real, db: Db, db': Db, p: nat, added: seq<Link>, m: nat)
    requires Extends(db, db', p, added) && m < |db.links| && GoodLink(sim, threshold, db, m)
    ensures GoodLink(sim, threshold, db', m)
  {
    var l := db.links[m];
    assert db'.links[m] == l;
    forall k | 0 <= k < m
      ensures db'.links[k] == db.links[k] && ScoreAt(sim, db', l.article, k) == ScoreAt(sim, db, l.article, k) {}
    match l.relation
    case Primary =>
    case Related =>
      var k :| 0 <= k < m && db.links[k].relation == Primary && db.links[k].event == l.event
               && l.score == ScoreAt(sim, db, l.article, k);
      assert db'.links[k].relation == Primary && l.score == ScoreAt(sim, db', l.article, k);
    case Duplicate =>
      var k :| 0 <= k < m && db.links[k].relation == Primary && db.links[k].event == l.event
               && db.links[k].article < l.article && IsOriginalOf(db, db.links[k].article, l.article);
      CopiesSame(db, db', p, added, db.links[k].article);
      assert db'.links[k].relation == Primary && IsOriginalOf(db', db'.links[k].article, l.article);
  }

  lemma ArticleLinksStable(db: Db, db': Db, p: nat, added: seq<Link>, i: nat, r: Relation)
    requires Extends(db, db', p, added) && i != p
    ensures ArticleHasLink(db', i, r) == ArticleHasLink(db, i, r)
  {
    if ArticleHasLink(db, i, r) {
      var m :| 0 <= m < |db.links| && db.links[m].article == i && db.links[m].relation == r;
      assert db'.links[m] == db.links[m];
    }
  }

  lemma EventLinks(db: Db, db': Db, p: nat, added: seq<Link>, e: nat, r: Relation)
    requires Extends(db, db', p, added)
    ensures HasLink(db', e, r) == (HasLink(db, e, r) || (added != [] && added[0].event == e && added[0].relation == r))
  {
    if HasLink(db, e, r) {
      var m :| 0 <= m < |db.links| && db.links[m].event == e && db.links[m].relation == r;
      assert db'.links[m] == db.links[m];
    }
    if added != [] {
      assert db'.links[|db.links|] == added[0];
    }
  }

  /** The articles before `p` stay as they were. */
  lemma GoodArticleStable(db: Db, db': Db, p: nat, added: seq<Link>, i: nat)
    requires Extends(db, db', p, added) && i < p < |db.articles| && GoodArticle(db, i)
    requires db'.articles[i].status == db.articles[i].status
    ensures GoodArticle(db', i)
  {
    CopiesSame(db, db', p, added, i);
    forall r: Relation ensures ArticleHasLink(db', i, r) == ArticleHasLink(db, i, r) {
      ArticleLinksStable(db, db', p, added, i, r);
    }
    forall k | 0 <= k < i && IsOriginalOf(db', k, i)
      ensures ArticleHasLink(db', i, Duplicate) <==> ArticleHasLink(db', k, Primary)
    {
      CopiesSame(db, db', p, added, k);
      assert IsOriginalOf(db, k, i);
      ArticleLinksStable(db, db', p, added, k, Primary);
    }
  }

  /** A step on article `p` that does what it should with that article, with its link and with the
      events. */
  ghost predicate GoodStep(sim: Sim, threshold: real, db: Db, db': Db, p: nat, added: seq<Link>) {
    && p < |db.articles| && Extends(db, db', p, added)
    && (forall i :: 0 <= i < |db.articles| && i != p ==> db'.articles[i].status == db.articles[i].status)
    && IsProcessed(db'.articles[p].status)
    && (added != [] ==> GoodLink(sim, threshold, db', |db.links|))
    && (forall e :: 0 <= e < |db'.events| ==> GoodEvent(db', e))
    && GoodArticle(db', p)
  }

  /** Such a step keeps the invariant. */
  lemma Assemble(sim: Sim, threshold: real, db: Db, db': Db, p: nat, added: seq<Link>)
    requires WellClustered(sim, threshold, db, p) && GoodStep(sim, threshold, db, db', p, added)
    ensures WellClustered(sim, threshold, db', p + 1)
  {
    forall m | 0 <= m < |db'.links| ensures GoodLink(sim, threshold, db', m) {
      if m < |db.links| {
        GoodLinkStable(sim, threshold, db, db', p, added, m);
      }
    }
    forall i | 0 <= i < p + 1 ensures GoodArticle(db', i) {
      if i < p {
        GoodArticleStable(db, db', p, added, i);
      }
    }
  }

  // ----- Copies -----

  /** The lookup for article `p` finds exactly its original, among the articles before it. */
  lemma CopyMeaning(db: Db, p: nat)
    requires QueueAt(db, p) && p < |db.articles|
    ensures var r := FindCopy(db.articles, p, 0);
            && (r.Some? <==> HasEarlierCopy(db, p))
            && (r.Some? ==> r.value < p && IsOriginalOf(db, r.value, p))
            && (r.Some? ==> forall k :: 0 <= k < p && IsOriginalOf(db, k, p) ==> k == r.value)
  {
    var r := FindCopy(db.articles, p, 0);
    forall k | 0 <= k < |db.articles|
      ensures IsCopyOf(db.articles, p, k) == (k < p && SameText(ContentOf(db, p), ContentOf(db, k))) {}
    if r.Some? {
      forall m | 0 <= m < r.value ensures !SameText(ContentOf(db, r.value), ContentOf(db, m)) {
        assert !IsCopyOf(db.articles, p, m);
      }
    }
  }

  lemma NoArticleLinks(sim: Sim, threshold: real, db: Db, p: nat, r: Relation)
    requires LinksOrdered(db, p)
    ensures !ArticleHasLink(db, p, r)
  {
  }

  lemma CopyExtends(db: Db, p: nat, original: nat, added: seq<Link>)
    requires InRange(db) && p < |db.articles|
    requires added == CopyLinks(db, p, original)
    ensures Extends(db, MarkCopy(db, p, original), p, added)
  {
    var db', e := MarkCopy(db, p, original), EventOfPrimary(db.links, original);
    CarryInRange(db, p, Copy(original));
    assert db'.links == db.links + added;
  }

  lemma CopyKeepsEvents(db: Db, db': Db, p: nat, added: seq<Link>)
    requires Extends(db, db', p, added) && db'.events == db.events
    requires forall m :: 0 <= m < |added| ==> added[m].relation == Duplicate
    requires forall e :: 0 <= e < |db.events| ==> GoodEvent(db, e)
    ensures forall e :: 0 <= e < |db'.events| ==> GoodEvent(db', e)
  {
    forall e | 0 <= e < |db'.events| ensures GoodEvent(db', e) {
      EventLinks(db, db', p, added, e, Primary);
      EventLinks(db, db', p, added, e, Related);
      assert GoodEvent(db, e);
    }
  }

  /** The link that `mark_deduplicated` adds, if any. */
  function CopyLinks(db: Db, p: nat, original: nat): seq<Link> {
    var e := EventOfPrimary(db.links, original);
    if e.Some? then [Link(e.value, p, Duplicate, 1.0)] else []
  }

  lemma CopyIsDuplicate(db: Db, p: nat, original: nat)
    requires QueueAt(db, p) && LinksOrdered(db, p) && p < |db.articles| && FindCopy(db.articles, p, 0) == Some(original)
    ensures var db', n := MarkCopy(db, p, original), |db.links|;
            && Extends(db, db', p, CopyLinks(db, p, original)) && GoodArticle(db', p)
            && (CopyLinks(db, p, original) != [] ==> GoodDuplicate(db', n) && db'.links[n].relation == Duplicate)
  {
    CopyMeaning(db, p);
    CopyExtends(db, p, original, CopyLinks(db, p, original));
    NewDuplicate(db, MarkCopy(db, p, original), p, original, CopyLinks(db, p, original));
  }

  lemma CopyIsGood(sim: Sim, threshold: real, db: Db, p: nat, original: nat)
    requires QueueAt(db, p) && LinksOrdered(db, p) && p < |db.articles|
    requires forall e :: 0 <= e < |db.events| ==> GoodEvent(db, e)
    requires FindCopy(db.articles, p, 0) == Some(original)
    ensures GoodStep(sim, threshold, db, MarkCopy(db, p, original), p, CopyLinks(db, p, original))
  {
    CopyIsDuplicate(db, p, original);
    CopyKeepsEvents(db, MarkCopy(db, p, original), p, CopyLinks(db, p, original));
  }

  lemma CopyKeeps(sim: Sim, threshold: real, db: Db, p: nat, original: nat)
    requires WellClustered(sim, threshold, db, p) && p < |db.articles|
    requires FindCopy(db.articles, p, 0) == Some(original)
    ensures WellClustered(sim, threshold, MarkCopy(db, p, original), p + 1)
  {
    CopyIsGood(sim, threshold, db, p, original);
    Assemble(sim, threshold, db, MarkCopy(db, p, original), p, CopyLinks(db, p, original));
  }

  lemma NewDuplicateLink(db: Db, db': Db, p: nat, original: nat, added: seq<Link>)
    requires InRange(db) && p < |db.articles| && Extends(db, db', p, added) && original < p
    requires IsOriginalOf(db, original, p) && added == CopyLinks(db, p, original) && added != []
    ensures ArticleHasLink(db, original, Primary)
    ensures GoodDuplicate(db', |db.links|) && db'.links[|db.links|].relation == Duplicate
  {
    var n := |db.links|;
    var m :| 0 <= m < n && db.links[m].article == original && db.links[m].relation == Primary
             && db.links[m].event == added[0].event;
    assert db'.links[m] == db.links[m] && db'.links[n] == added[0];
    CopiesSame(db, db', p, added, original);
    assert IsOriginalOf(db', db'.links[m].article, p);
  }

  lemma NewDuplicate(db: Db, db': Db, p: nat, original: nat, added: seq<Link>)
    requires LinksOrdered(db, p) && p < |db.articles| && Extends(db, db', p, added) && original < p
    requires db'.articles[p].status == Deduplicated
    requires IsOriginalOf(db, original, p) && forall k :: 0 <= k < p && IsOriginalOf(db, k, p) ==> k == original
    requires added == CopyLinks(db, p, original)
    ensures added != [] ==> GoodDuplicate(db', |db.links|) && db'.links[|db.links|].relation == Duplicate
    ensures GoodArticle(db', p)
  {
    if added != [] {
      NewDuplicateLink(db, db', p, original, added);
      assert db'.links[|db.links|].article == p;
    }
    CopiesSame(db, db', p, added, p);
    ArticleLinksStable(db, db', p, added, original, Primary);
    forall k | 0 <= k < p && IsOriginalOf(db', k, p) ensures k == original {
      CopiesSame(db, db', p, added, k);
      assert IsOriginalOf(db, k, p);
    }
  }

  // ----- Followers and founders -----

  lemma JoinKeeps(sim: Sim, threshold: real, db: Db, p: nat, e: nat, score: real)
    requires WellClustered(sim, threshold, db, p) && p < |db.articles| && e < |db.events|
    requires !HasEarlierCopy(db, p) && JoinsBest(sim, threshold, db, p, e, score)
    ensures WellClustered(sim, threshold, Attach(db, p, e, score), p + 1)
  {
    var db', added := Attach(db, p, e, score), [Link(e, p, Related, score)];
    assert Extends(db, db', p, added);
    CopiesSame(db, db', p, added, p);
    assert db'.links[|db.links|] == added[0];
    NewRelated(sim, threshold, db, db', p, e, score);
    forall x | 0 <= x < |db'.events| ensures GoodEvent(db', x) {
      EventLinks(db, db', p, added, x, Primary);
      EventLinks(db, db', p, added, x, Related);
      assert GoodEvent(db, x);
    }
    forall r: Relation | r != Related ensures !ArticleHasLink(db', p, r) {
      NoArticleLinks(sim, threshold, db, p, r);
    }
    assert ArticleHasLink(db', p, Related);
    Assemble(sim, threshold, db, db', p, added);
  }

  lemma NewRelated(sim: Sim, threshold: real, db: Db, db': Db, p: nat, e: nat, score: real)
    requires p < |db.articles| && Extends(db, db', p, [Link(e, p, Related, score)])
    requires JoinsBest(sim, threshold, db, p, e, score)
    ensures GoodRelated(sim, threshold, db', |db.links|)
  {
    var n := |db.links|;
    assert db'.links[n] == Link(e, p, Related, score);
    forall k | 0 <= k < n ensures db'.links[k] == db.links[k] && ScoreAt(sim, db', p, k) == ScoreAt(sim, db, p, k) {}
    var k :| 0 <= k < n && db.links[k].relation == Primary && db.links[k].event == e && score == ScoreAt(sim, db, p, k);
    assert db'.links[k].relation == Primary && score == ScoreAt(sim, db', p, k);
  }

  lemma FoundKeeps(sim: Sim, threshold: real, db: Db, p: nat)
    requires WellClustered(sim, threshold, db, p) && p < |db.articles|
    requires !HasEarlierCopy(db, p) && AttachesToNone(sim, threshold, db, p)
    ensures WellClustered(sim, threshold, Found(db, p), p + 1)
  {
    var db', added, n := Found(db, p), [Link(|db.events|, p, Primary, 1.0)], |db.links|;
    assert Extends(db, db', p, added);
    CopiesSame(db, db', p, added, p);
    assert db'.links[n] == added[0];
    forall k | 0 <= k < n && db'.links[k].relation == Primary
      ensures db'.links[k].event < |db.events| && !Attaches(ScoreAt(sim, db', p, k), threshold)
    {
      assert ScoreAt(sim, db', p, k) == ScoreAt(sim, db, p, k);
    }
    assert GoodPrimary(sim, threshold, db', n);
    forall x | 0 <= x < |db'.events| ensures GoodEvent(db', x) {
      EventLinks(db, db', p, added, x, Primary);
      EventLinks(db, db', p, added, x, Related);
      if x < |db.events| {
        assert GoodEvent(db, x);
      }
    }
    forall r: Relation | r != Primary ensures !ArticleHasLink(db', p, r) {
      NoArticleLinks(sim, threshold, db, p, r);
    }
    assert ArticleHasLink(db', p, Primary);
    Assemble(sim, threshold, db, db', p, added);
  }

  /** Clustering the next article keeps the invariant. */
  lemma StepKeeps(sim: Sim, threshold: real, db: Db, p: nat)
    requires WellClustered(sim, threshold, db, p) && p < |db.articles|
    ensures WellClustered(sim, threshold, FreshStep(sim, threshold, db, p), p + 1)
  {
    CopyMeaning(db, p);
    var r := FindCopy(db.articles, p, 0);
    forall e | 0 <= e < |db.events| ensures IsOpen(db.events[e].status) {
      assert GoodEvent(db, e);
    }
    ProfilesUpToInRange(db, |db.events|);
    if r.Some? {
      CopyKeeps(sim, threshold, db, p, r.value);
    } else {
      JudgeMeaning(sim, threshold, db, p);
      var v := Judge(sim, threshold, db, p, Profiles(db));
      if v.Joins? {
        JoinKeeps(sim, threshold, db, p, v.event, v.score);
      } else {
        FoundKeeps(sim, threshold, db, p);
      }
    }
  }
}
