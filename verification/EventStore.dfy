/** app/event_engine/clustering.py and dedup.py: the clustering cycle over the stored tables, proved
    against the functions of EventEngine.dfy. */
module EventStore {
  import opened Wrappers
  import opened AlertPlan
  import opened EventEngine
  import opened EventCounts

  /** The counters a cycle returns. */
  datatype CycleResult = CycleResult(processed: nat, newEvents: nat, related: nat, duplicates: nat, failed: nat)

  class EventTables {
    var articles: seq<Article>
    var events: seq<Event>
    var links: seq<Link>

    constructor ()
      ensures Tables() == EMPTY
    {
      articles, events, links := [], [], [];
    }

    function Tables(): Db
      reads this
    {
      Db(articles, events, links)
    }

    /** `_pending_articles`: the first raw articles by id, at most `batch` of them. */
    method PendingArticles(batch: nat) returns (pending: seq<nat>)
      ensures pending == Pending(Tables(), batch)
    {
      var raw: seq<nat> := [];
      for i := 0 to |articles|
        invariant raw == RawUpTo(articles, i)
      {
        if articles[i].status == Raw {
          raw := raw + [i];
        }
      }
      pending := if |raw| <= batch then raw else raw[..batch];
    }

    /** `_event_profiles`. */
    method EventProfiles() returns (profiles: seq<EventProfile>)
      ensures profiles == Profiles(Tables())
    {
      profiles := [];
      for e := 0 to |events|
        invariant profiles == ProfilesUpTo(events, links, e)
      {
        if IsOpen(events[e].status) {
          var own := [];
          for m := 0 to |links|
            invariant own == PrimariesOf(links[..m], e)
          {
            assert links[..m + 1][..m] == links[..m];
            if links[m].event == e && links[m].relation == Primary {
              own := own + [EventProfile(e, links[m].article)];
            }
          }
          assert links[..|links|] == links;
          profiles := profiles + own;
        }
      }
    }

    /** `find_exact_duplicate`. */
    method FindExactDuplicate(i: nat) returns (r: Option<nat>)
      requires i < |articles|
      ensures r == FindCopy(articles, i, 0)
    {
      if !HasHash(articles[i].content) {
        NoHashNoCopy(articles, i, 0);
        return None;
      }
      var k := 0;
      while k < |articles|
        invariant k <= |articles| && FindCopy(articles, i, 0) == FindCopy(articles, i, k)
      {
        if articles[k].content.contentHash == articles[i].content.contentHash && k != i && IsProcessed(articles[k].status) {
          return Some(k);
        }
        k := k + 1;
      }
      return None;
    }

    /** `mark_deduplicated`. */
    method MarkDeduplicated(i: nat, original: nat)
      requires i < |articles|
      modifies this
      ensures Tables() == MarkCopy(old(Tables()), i, original)
    {
      articles := articles[i := articles[i].(status := Deduplicated)];
      var m := 0;
      while m < |links|
        invariant m <= |links|
        invariant EventOfPrimary(links[..m], original) == None
      {
        if links[m].article == original && links[m].relation == Primary {
          break;
        }
        assert links[..m + 1][..m] == links[..m];
        m := m + 1;
      }
      FirstPrimary(links, original, m);
      if m < |links| {
        links := links + [Link(links[m].event, i, Duplicate, 1.0)];
      }
    }

    /** The comparison of one article with the profiles. */
    method Compare(sim: Sim, i: nat, profiles: seq<EventProfile>) returns (bestEvent: Option<nat>, bestScore: real)
      requires i < |articles| && ProfilesInRange(Tables(), profiles)
      ensures Best(bestEvent, bestScore) == BestMatch(sim, articles, articles[i].content, profiles)
    {
      bestEvent, bestScore := None, 0.0;
      for k := 0 to |profiles|
        invariant Best(bestEvent, bestScore) == BestMatch(sim, articles, articles[i].content, profiles[..k])
      {
        assert profiles[..k + 1][..k] == profiles[..k];
        var score := sim(articles[i].content, articles[profiles[k].article].content);
        if score > bestScore {
          bestScore, bestEvent := score, Some(profiles[k].event);
        }
      }
      assert profiles[..|profiles|] == profiles;
    }

    /** One turn of the batch loop. */
    method ClusterArticle(sim: Sim, threshold: real, i: nat, profiles: seq<EventProfile>, r: CycleResult)
      returns (profiles': seq<EventProfile>, r': CycleResult)
      requires i < |articles| && ProfilesInRange(Tables(), profiles)
      modifies this
      ensures var v := Judge(sim, threshold, old(Tables()), i, profiles);
              && Tables() == Carry(old(Tables()), i, v)
              && profiles' == Remember(old(Tables()), i, v, profiles)
              && r' == r.(processed := r.processed + 1,
                          newEvents := r.newEvents + if v.Founds? then 1 else 0,
                          related := r.related + if v.Joins? then 1 else 0,
                          duplicates := r.duplicates + if v.Copy? then 1 else 0)
    {
      var original := FindExactDuplicate(i);
      if original.Some? {
        MarkDeduplicated(i, original.value);
        return profiles, r.(duplicates := r.duplicates + 1, processed := r.processed + 1);
      }
      var bestEvent, bestScore := Compare(sim, i, profiles);
      BestInRange(sim, articles, articles[i].content, profiles, |events|);
      if bestEvent.Some? && bestScore >= threshold {
        var e := bestEvent.value;
        links := links + [Link(e, i, Related, bestScore)];
        if events[e].status == Active {
          events := events[e := events[e].(status := Updated)];
        }
        articles := articles[i := articles[i].(status := Clustered)];
        return profiles, r.(related := r.related + 1, processed := r.processed + 1);
      }
      var e := |events|;
      events := events + [NewEvent(articles[i].content)];
      links := links + [Link(e, i, Primary, 1.0)];
      articles := articles[i := articles[i].(status := Clustered)];
      return profiles + [EventProfile(e, i)], r.(newEvents := r.newEvents + 1, processed := r.processed + 1);
    }

    /** `cluster_new_articles`: the pending articles are fetched once, the profiles are read once and
        then kept in memory. */
    method ClusterNewArticles(sim: Sim, threshold: real, batch: nat) returns (r: CycleResult)
      requires InRange(Tables())
      modifies this
      ensures InRange(Tables()) && Tables() == Cycle(sim, threshold, old(Tables()), batch)
      ensures r.processed == |Pending(old(Tables()), batch)| == r.newEvents + r.related + r.duplicates
      ensures r.failed == 0
      ensures |events| == |old(events)| + r.newEvents
      ensures Linked(links, Primary) == Linked(old(links), Primary) + r.newEvents
      ensures Linked(links, Related) == Linked(old(links), Related) + r.related
    {
      var pending := PendingArticles(batch);
      var profiles := EventProfiles();
      r := CycleResult(0, 0, 0, 0, 0);
      RawInRange(articles, |articles|);
      ProfilesUpToInRange(Tables(), |events|);
      for k := 0 to |pending|
        invariant InRange(Tables()) && profiles == Profiles(Tables()) && ProfilesInRange(Tables(), profiles)
        invariant |articles| == |old(articles)|
        invariant RunBatch(sim, threshold, Tables(), pending[k..], profiles)
               == Cycle(sim, threshold, old(Tables()), batch)
        invariant r.processed == k == r.newEvents + r.related + r.duplicates && r.failed == 0
        invariant |events| == |old(events)| + r.newEvents
        invariant Linked(links, Primary) == Linked(old(links), Primary) + r.newEvents
        invariant Linked(links, Related) == Linked(old(links), Related) + r.related
      {
        assert pending[k..][1..] == pending[k + 1..];
        ghost var db := Tables();
        ghost var v := Judge(sim, threshold, db, pending[k], profiles);
        RememberIsProfiles(db, pending[k], v);
        CarrySizes(db, pending[k], v);
        CarryLinks(db, pending[k], v);
        profiles, r := ClusterArticle(sim, threshold, pending[k], profiles, r);
        ProfilesUpToInRange(Tables(), |events|);
      }
      assert pending[|pending|..] == [];
    }

    /** `event_stats`: duplicates do not count, and a domain counts once. */
    method CountEvent(e: nat) returns (st: EventStats)
      requires InRange(Tables())
      ensures st == StatsOf(Tables(), e)
    {
      RowsInRange(articles, links, e);
      var rows := Rows(e);
      var domains := Domains(rows);
      var times := Times(rows);
      st := EventStats(Stats(|rows|, |domains|),
                       if times == [] then None else Some((Latest(times) - Earliest(times)) / 3600.0));
    }

    method Rows(e: nat) returns (rows: seq<nat>)
      ensures rows == RowsOf(links, e)
    {
      rows := [];
      for m := 0 to |links|
        invariant rows == RowsOf(links[..m], e)
      {
        assert links[..m + 1][..m] == links[..m];
        if links[m].event == e && links[m].relation != Duplicate {
          rows := rows + [links[m].article];
        }
      }
      assert links[..|links|] == links;
    }

    method Domains(rows: seq<nat>) returns (domains: set<string>)
      requires RowsUsable(articles, rows)
      ensures domains == DomainsOf(articles, rows)
    {
      domains := {};
      for i := 0 to |rows|
        invariant domains == DomainsOf(articles, rows[..i])
      {
        assert rows[..i + 1][..i] == rows[..i];
        var d := articles[rows[i]].content.domain;
        if d.Some? && d.value != "" {
          domains := domains + {d.value};
        }
      }
      assert rows[..|rows|] == rows;
    }

    method Times(rows: seq<nat>) returns (times: seq<real>)
      requires RowsUsable(articles, rows)
      ensures times == EventCounts.TimesOf(articles, rows)
    {
      times := [];
      for i := 0 to |rows|
        invariant times == EventCounts.TimesOf(articles, rows[..i])
      {
        assert rows[..i + 1][..i] == rows[..i];
        var t := articles[rows[i]].content.publishedAt;
        if t.Some? {
          times := times + [t.value];
        }
      }
      assert rows[..|rows|] == rows;
    }

    method RefreshOne(e: nat) returns (changed: bool)
      requires InRange(Tables()) && e < |events|
      modifies this`events
      ensures events == old(events)[e := Refreshed(old(Tables()), e)]
      ensures changed == (Refreshed(old(Tables()), e) != old(events)[e])
    {
      changed := false;
      if IsOpen(events[e].status) {
        var st := CountEvent(e);
        var confidence := ComputeConfidence(st, events[e].kind);
        if events[e].confidence != Some(confidence) {
          events := events[e := events[e].(confidence := Some(confidence))];
          changed := true;
        }
      }
    }

    /** The loop below after `n` turns; `db` is what the tables were before it. */
    ghost predicate RefreshInStep(db: Db, n: nat, updated: nat)
      requires InRange(db)
      reads this
    {
      && Tables() == db.(events := events) && RefreshedUpTo(db, events, n)
      && n <= |db.events| && updated == ChangedUpTo(db, n)
    }

    /** One turn of it. */
    method RefreshTurn(e: nat, updated: nat, ghost db: Db) returns (updated': nat)
      requires InRange(db) && RefreshInStep(db, e, updated) && e < |events|
      modifies this`events
      ensures RefreshInStep(db, e + 1, updated')
    {
      RefreshStep(db, events, e);
      var changed := RefreshOne(e);
      updated' := if changed then updated + 1 else updated;
    }

    /** `refresh_event_confidences`; returns how many events got another confidence. */
    method RefreshConfidences() returns (updated: nat)
      requires InRange(Tables())
      modifies this`events
      ensures Tables() == RefreshAll(old(Tables()))
      ensures updated == ChangedUpTo(old(Tables()), |old(events)|)
    {
      updated := 0;
      ghost var db := Tables();
      for e := 0 to |events|
        invariant RefreshInStep(db, e, updated)
      {
        updated := RefreshTurn(e, updated, db);
      }
      RefreshEnds(db, events);
    }
  }

  /** The first `n` events have been refreshed, and the others are as they were. */
  ghost predicate RefreshedUpTo(db: Db, events: seq<Event>, n: nat)
    requires InRange(db)
  {
    && |events| == |db.events|
    && (forall k :: 0 <= k < n && k < |events| ==> events[k] == Refreshed(db, k))
    && forall k :: n <= k < |events| ==> events[k] == db.events[k]
  }

  /** Refreshing one event reads nothing that an earlier refresh has written. */
  lemma RefreshStep(db: Db, events: seq<Event>, e: nat)
    requires InRange(db) && RefreshedUpTo(db, events, e) && e < |events|
    ensures InRange(db.(events := events)) && Refreshed(db.(events := events), e) == Refreshed(db, e)
    ensures events[e] == db.events[e] && RefreshedUpTo(db, events[e := Refreshed(db, e)], e + 1)
    ensures ChangedUpTo(db, e + 1) == ChangedUpTo(db, e) + if Refreshed(db, e) != db.events[e] then 1 else 0
  {
    SameStats(db, events, e);
  }

  lemma SameStats(db: Db, events: seq<Event>, e: nat)
    requires InRange(db) && |events| == |db.events|
    ensures InRange(db.(events := events)) && StatsOf(db.(events := events), e) == StatsOf(db, e)
  {
  }

  lemma RefreshEnds(db: Db, events: seq<Event>)
    requires InRange(db) && RefreshedUpTo(db, events, |events|)
    ensures events == RefreshAll(db).events
  {
  }

  /** How many of the first `n` events a refresh changes. */
  function ChangedUpTo(db: Db, n: nat): nat
    requires InRange(db) && n <= |db.events|
  {
    if n == 0 then 0
    else ChangedUpTo(db, n - 1) + if Refreshed(db, n - 1) != db.events[n - 1] then 1 else 0
  }

  lemma {:induction false} NoHashNoCopy(articles: seq<Article>, i: nat, k: nat)
    requires i < |articles| && k <= |articles| && !HasHash(articles[i].content)
    ensures FindCopy(articles, i, k) == None
    decreases |articles| - k
  {
    if k == |articles| {
    } else {
      NoHashNoCopy(articles, i, k + 1);
    }
  }

  /** The first primary link found by scanning is the one the specification takes. */
  lemma {:induction false} FirstPrimary(links: seq<Link>, article: nat, m: nat)
    requires m <= |links| && EventOfPrimary(links[..m], article) == None
    requires m < |links| ==> links[m].article == article && links[m].relation == Primary
    ensures EventOfPrimary(links, article) == if m < |links| then Some(links[m].event) else None
  {
    if m >= |links| - 1 {
      if m == |links| {
        assert links[..m] == links;
      }
    } else {
      var front := links[..|links| - 1];
      assert front[..m] == links[..m];
      FirstPrimary(front, article, m);
    }
  }
}
