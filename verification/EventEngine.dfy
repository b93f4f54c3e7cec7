/** app/event_engine/clustering.py and dedup.py: the tables, and what clustering one article and
    one batch does to them.

    Ids grow with insertion, so an id is the position in its table.  The similarity of two
    articles is a parameter; Similarity.dfy supplies the real one. */
module EventEngine {
  import opened Wrappers
  import opened AlertPlan

  datatype ProcessingStatus = Raw | Deduplicated | Clustered | Verified | Failed

  datatype EventType = Earthquake | News | Network | Other

  datatype Confidence = High | Medium | Low

  datatype Relation = Primary | Related | Duplicate

  /** What is collected once and never changes; `domain` is the normalized domain of the source. */
  datatype Content = Content(title: string, description: Option<string>, publishedAt: Option<real>,
                             contentHash: Option<string>, domain: Option<string>)

  datatype Article = Article(content: Content, status: ProcessingStatus)

  datatype Event = Event(kind: EventType, title: string, description: Option<string>, occurredAt: Option<real>,
                         confidence: Option<Confidence>, status: EventStatus)

  datatype Link = Link(event: nat, article: nat, relation: Relation, score: real)

  datatype Db = Db(articles: seq<Article>, events: seq<Event>, links: seq<Link>)

  type Sim = (Content, Content) -> real

  const EMPTY := Db([], [], [])

  predicate IsProcessed(s: ProcessingStatus) {
    s == Clustered || s == Deduplicated
  }

  predicate IsOpen(s: EventStatus) {
    s == Active || s == Updated
  }

  // ----- Lookups -----

  predicate HasHash(c: Content) {
    c.contentHash.Some? && c.contentHash.value != ""
  }

  /** Two articles carry the same non-empty content hash. */
  predicate SameText(c: Content, d: Content) {
    HasHash(c) && c.contentHash == d.contentHash
  }

  predicate IsCopyOf(articles: seq<Article>, i: nat, k: nat)
    requires i < |articles| && k < |articles|
  {
    k != i && SameText(articles[i].content, articles[k].content) && IsProcessed(articles[k].status)
  }

  /** `find_exact_duplicate`: the processed article of lowest id with the same hash. */
  function FindCopy(articles: seq<Article>, i: nat, k: nat): (r: Option<nat>)
    requires i < |articles| && k <= |articles|
    ensures r.Some? ==> k <= r.value < |articles| && IsCopyOf(articles, i, r.value)
    ensures r.Some? ==> forall m :: k <= m < r.value ==> !IsCopyOf(articles, i, m)
    ensures r.None? ==> forall m :: k <= m < |articles| ==> !IsCopyOf(articles, i, m)
    decreases |articles| - k
  {
    if k == |articles| then None
    else if IsCopyOf(articles, i, k) then Some(k)
    else FindCopy(articles, i, k + 1)
  }

  /** The event of the first primary link of an article. */
  function EventOfPrimary(links: seq<Link>, article: nat): (r: Option<nat>)
    ensures r.Some? ==> exists m :: 0 <= m < |links| && links[m].article == article && links[m].relation == Primary
                                 && links[m].event == r.value
    ensures r.None? ==> forall m :: 0 <= m < |links| ==> !(links[m].article == article && links[m].relation == Primary)
  {
    if links == [] then None
    else
      var front, last := EventOfPrimary(links[..|links| - 1], article), links[|links| - 1];
      if front.Some? then front
      else if last.article == article && last.relation == Primary then Some(last.event)
      else None
  }

  /** An open event with its primary article. */
  datatype EventProfile = EventProfile(event: nat, article: nat)

  /** The primary articles of event `e`, in link order. */
  function PrimariesOf(links: seq<Link>, e: nat): seq<EventProfile> {
    if links == [] then []
    else
      var last := links[|links| - 1];
      PrimariesOf(links[..|links| - 1], e)
      + if last.event == e && last.relation == Primary then [EventProfile(e, last.article)] else []
  }

  /** `_event_profiles`: the open events among the first `n`, in id order, with their primaries. */
  function ProfilesUpTo(events: seq<Event>, links: seq<Link>, n: nat): seq<EventProfile>
    requires n <= |events|
  {
    if n == 0 then []
    else ProfilesUpTo(events, links, n - 1) + if IsOpen(events[n - 1].status) then PrimariesOf(links, n - 1) else []
  }

  function Profiles(db: Db): seq<EventProfile> {
    ProfilesUpTo(db.events, db.links, |db.events|)
  }

  // ----- One article -----

  datatype Best = Best(event: Option<nat>, score: real)

  /** The comparison loop: the first profile of strictly highest score above zero. */
  function BestMatch(sim: Sim, articles: seq<Article>, c: Content, profiles: seq<EventProfile>): Best
    requires forall i :: 0 <= i < |profiles| ==> profiles[i].article < |articles|
  {
    if profiles == [] then Best(None, 0.0)
    else
      var best, last := BestMatch(sim, articles, c, profiles[..|profiles| - 1]), profiles[|profiles| - 1];
      var score := sim(c, articles[last.article].content);
      if score > best.score then Best(Some(last.event), score) else best
  }

  function Marked(db: Db, i: nat, s: ProcessingStatus): seq<Article>
    requires i < |db.articles|
  {
    db.articles[i := db.articles[i].(status := s)]
  }

  function Truncated(title: string): string {
    if |title| <= 1000 then title else title[..1000]
  }

  function NewEvent(c: Content): Event {
    Event(News, Truncated(c.title), c.description, c.publishedAt, None, Active)
  }

  /** `mark_deduplicated`: a duplicate link only if the original is the primary of an event. */
  function MarkCopy(db: Db, i: nat, original: nat): Db
    requires i < |db.articles|
  {
    var e := EventOfPrimary(db.links, original);
    Db(Marked(db, i, Deduplicated), db.events,
       if e.Some? then db.links + [Link(e.value, i, Duplicate, 1.0)] else db.links)
  }

  function Attach(db: Db, i: nat, e: nat, score: real): Db
    requires i < |db.articles| && e < |db.events|
  {
    Db(Marked(db, i, Clustered),
       if db.events[e].status == Active then db.events[e := db.events[e].(status := Updated)] else db.events,
       db.links + [Link(e, i, Related, score)])
  }

  function Found(db: Db, i: nat): Db
    requires i < |db.articles|
  {
    Db(Marked(db, i, Clustered), db.events + [NewEvent(db.articles[i].content)],
       db.links + [Link(|db.events|, i, Primary, 1.0)])
  }

  predicate InRange(db: Db) {
    forall m :: 0 <= m < |db.links| ==> db.links[m].event < |db.events| && db.links[m].article < |db.articles|
  }

  predicate ProfilesInRange(db: Db, profiles: seq<EventProfile>) {
    forall m :: 0 <= m < |profiles| ==> profiles[m].event < |db.events| && profiles[m].article < |db.articles|
  }

  lemma {:induction false} BestInRange(sim: Sim, articles: seq<Article>, c: Content, profiles: seq<EventProfile>, bound: nat)
    requires forall i :: 0 <= i < |profiles| ==> profiles[i].article < |articles| && profiles[i].event < bound
    ensures var best := BestMatch(sim, articles, c, profiles); best.event.Some? ==> best.event.value < bound
  {
    if profiles == [] {
    } else {
      BestInRange(sim, articles, c, profiles[..|profiles| - 1], bound);
    }
  }

  datatype Verdict = Copy(original: nat) | Joins(event: nat, score: real) | Founds

  /** What becomes of article `i`, given the profiles kept in memory. */
  function Judge(sim: Sim, threshold: real, db: Db, i: nat, profiles: seq<EventProfile>): (v: Verdict)
    requires i < |db.articles| && ProfilesInRange(db, profiles)
    ensures v.Joins? ==> v.event < |db.events|
  {
    var original := FindCopy(db.articles, i, 0);
    if original.Some? then Copy(original.value)
    else
      var best := BestMatch(sim, db.articles, db.articles[i].content, profiles);
      BestInRange(sim, db.articles, db.articles[i].content, profiles, |db.events|);
      if best.event.Some? && best.score >= threshold then Joins(best.event.value, best.score) else Founds
  }

  function Carry(db: Db, i: nat, v: Verdict): Db
    requires i < |db.articles| && (v.Joins? ==> v.event < |db.events|)
  {
    match v
    case Copy(original) => MarkCopy(db, i, original)
    case Joins(e, score) => Attach(db, i, e, score)
    case Founds => Found(db, i)
  }

  /** The profiles in memory after the article. */
  function Remember(db: Db, i: nat, v: Verdict, profiles: seq<EventProfile>): seq<EventProfile> {
    if v.Founds? then profiles + [EventProfile(|db.events|, i)] else profiles
  }

  // ----- A batch -----

  /** The ids of the raw articles among the first `n`, lowest first. */
  function RawUpTo(articles: seq<Article>, n: nat): seq<nat>
    requires n <= |articles|
  {
    if n == 0 then []
    else RawUpTo(articles, n - 1) + if articles[n - 1].status == Raw then [n - 1] else []
  }

  function RawIds(db: Db): (ids: seq<nat>) {
    RawUpTo(db.articles, |db.articles|)
  }

  /** `_pending_articles`. */
  function Pending(db: Db, batch: nat): seq<nat> {
    if |RawIds(db)| <= batch then RawIds(db) else RawIds(db)[..batch]
  }

  /** The batch loop as the code runs it: pending articles fixed at the start, profiles in memory. */
  function RunBatch(sim: Sim, threshold: real, db: Db, pending: seq<nat>, profiles: seq<EventProfile>): Db
    requires ProfilesInRange(db, profiles) && forall m :: 0 <= m < |pending| ==> pending[m] < |db.articles|
    decreases |pending|
  {
    if pending == [] then db
    else
      var i := pending[0];
      var v := Judge(sim, threshold, db, i, profiles);
      RunBatch(sim, threshold, Carry(db, i, v), pending[1..], Remember(db, i, v, profiles))
  }

  lemma {:induction false} RawInRange(articles: seq<Article>, n: nat)
    requires n <= |articles|
    ensures forall m :: 0 <= m < |RawUpTo(articles, n)| ==> RawUpTo(articles, n)[m] < n
    ensures forall m :: 0 <= m < |RawUpTo(articles, n)| ==> articles[RawUpTo(articles, n)[m]].status == Raw
  {
    if n == 0 {
    } else {
      RawInRange(articles, n - 1);
    }
  }

  lemma {:induction false} PrimariesInRange(db: Db, links: seq<Link>, e: nat)
    requires InRange(db) && links <= db.links
    ensures forall m :: 0 <= m < |PrimariesOf(links, e)| ==>
              PrimariesOf(links, e)[m].event == e && PrimariesOf(links, e)[m].article < |db.articles|
  {
    if links == [] {
    } else {
      assert links[|links| - 1] == db.links[|links| - 1];
      PrimariesInRange(db, links[..|links| - 1], e);
    }
  }

  lemma {:induction false} ProfilesUpToInRange(db: Db, n: nat)
    requires InRange(db) && n <= |db.events|
    ensures ProfilesInRange(db, ProfilesUpTo(db.events, db.links, n))
  {
    if n == 0 {
    } else {
      ProfilesUpToInRange(db, n - 1);
      PrimariesInRange(db, db.links, n - 1);
    }
  }

  /** `cluster_new_articles`. */
  function Cycle(sim: Sim, threshold: real, db: Db, batch: nat): Db
    requires InRange(db)
  {
    ProfilesUpToInRange(db, |db.events|);
    RawInRange(db.articles, |db.articles|);
    RunBatch(sim, threshold, db, Pending(db, batch), Profiles(db))
  }

  // ----- The profiles in memory are the profiles in the tables -----

  lemma PrimariesAppend(links: seq<Link>, l: Link, e: nat)
    ensures PrimariesOf(links + [l], e)
         == PrimariesOf(links, e) + if l.event == e && l.relation == Primary then [EventProfile(e, l.article)] else []
  {
    assert (links + [l])[..|links|] == links;
  }

  /** A link that is not primary, or belongs to an event outside, changes no profile. */
  lemma {:induction false} ProfilesOfLinks(events: seq<Event>, links: seq<Link>, l: Link, n: nat)
    requires n <= |events| && (l.relation != Primary || l.event >= n)
    ensures ProfilesUpTo(events, links + [l], n) == ProfilesUpTo(events, links, n)
  {
    if n > 0 {
      ProfilesOfLinks(events, links, l, n - 1);
      PrimariesAppend(links, l, n - 1);
    }
  }

  /** Moving an event from active to updated changes no profile. */
  lemma {:induction false} ProfilesOfStatuses(events: seq<Event>, links: seq<Link>, events': seq<Event>, n: nat)
    requires n <= |events| && n <= |events'|
    requires forall e :: 0 <= e < n ==> IsOpen(events[e].status) == IsOpen(events'[e].status)
    ensures ProfilesUpTo(events', links, n) == ProfilesUpTo(events, links, n)
  {
    if n > 0 {
      ProfilesOfStatuses(events, links, events', n - 1);
    }
  }

  lemma {:induction false} ProfilesStable(events: seq<Event>, links: seq<Link>, events': seq<Event>, l: Link, n: nat)
    requires n <= |events| && n <= |events'|
    requires l.relation != Primary || l.event >= n
    requires forall e :: 0 <= e < n ==> IsOpen(events[e].status) == IsOpen(events'[e].status)
    ensures ProfilesUpTo(events', links + [l], n) == ProfilesUpTo(events, links, n)
    ensures ProfilesUpTo(events', links, n) == ProfilesUpTo(events, links, n)
  {
    ProfilesOfLinks(events', links, l, n);
    ProfilesOfStatuses(events, links, events', n);
  }

  lemma {:induction false} NoPrimariesBeyond(links: seq<Link>, e: nat)
    requires forall m :: 0 <= m < |links| ==> links[m].event < e
    ensures PrimariesOf(links, e) == []
  {
    if links == [] {
    } else {
      NoPrimariesBeyond(links[..|links| - 1], e);
    }
  }

  /** How many links are of one kind. */
  function Linked(links: seq<Link>, r: Relation): nat {
    if links == [] then 0
    else Linked(links[..|links| - 1], r) + if links[|links| - 1].relation == r then 1 else 0
  }

  lemma LinkedOneMore(links: seq<Link>, l: Link, r: Relation)
    ensures Linked(links + [l], r) == Linked(links, r) + if l.relation == r then 1 else 0
  {
    assert (links + [l])[..|links|] == links;
  }

  /** An article that joins or founds an event adds one link, of that kind. */
  lemma CarryLinks(db: Db, i: nat, v: Verdict)
    requires i < |db.articles| && (v.Joins? ==> v.event < |db.events|)
    ensures var links := Carry(db, i, v).links;
            && Linked(links, Related) == Linked(db.links, Related) + (if v.Joins? then 1 else 0)
            && Linked(links, Primary) == Linked(db.links, Primary) + if v.Founds? then 1 else 0
  {
    var links := Carry(db, i, v).links;
    if links != db.links {
      LinkedOneMore(db.links, links[|db.links|], Related);
      LinkedOneMore(db.links, links[|db.links|], Primary);
      assert links == db.links + [links[|db.links|]];
    }
  }

  lemma CarrySizes(db: Db, i: nat, v: Verdict)
    requires i < |db.articles| && (v.Joins? ==> v.event < |db.events|)
    ensures |Carry(db, i, v).articles| == |db.articles|
    ensures |Carry(db, i, v).events| == |db.events| + if v.Founds? then 1 else 0
  {
  }

  lemma CarryInRange(db: Db, i: nat, v: Verdict)
    requires InRange(db) && i < |db.articles| && (v.Joins? ==> v.event < |db.events|)
    ensures InRange(Carry(db, i, v))
  {
  }

  /** Founding an event adds its own profile, after all others. */
  lemma FoundAddsProfile(db: Db, i: nat)
    requires InRange(db) && i < |db.articles|
    ensures Profiles(Found(db, i)) == Profiles(db) + [EventProfile(|db.events|, i)]
  {
    var db', n := Found(db, i), |db.events|;
    var l := Link(n, i, Primary, 1.0);
    ProfilesStable(db.events, db.links, db'.events, l, n);
    PrimariesAppend(db.links, l, n);
    NoPrimariesBeyond(db.links, n);
    assert PrimariesOf(db'.links, n) == [] + [EventProfile(n, i)] == [EventProfile(n, i)];
  }

  /** After any article, the list kept in memory is again what a fresh query would return. */
  lemma RememberIsProfiles(db: Db, i: nat, v: Verdict)
    requires InRange(db) && i < |db.articles| && (v.Joins? ==> v.event < |db.events|)
    ensures InRange(Carry(db, i, v))
    ensures Remember(db, i, v, Profiles(db)) == Profiles(Carry(db, i, v))
  {
    var db', n := Carry(db, i, v), |db.events|;
    CarryInRange(db, i, v);
    match v
    case Copy(original) =>
      var e := EventOfPrimary(db.links, original);
      ProfilesStable(db.events, db.links, db'.events, Link(if e.Some? then e.value else 0, i, Duplicate, 1.0), n);
    case Joins(e, score) =>
      ProfilesStable(db.events, db.links, db'.events, Link(e, i, Related, score), n);
    case Founds =>
      FoundAddsProfile(db, i);
  }
}
