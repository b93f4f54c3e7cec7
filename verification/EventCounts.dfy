/** app/event_engine/confidence.py: an event's counted articles and independent sources, and the
    confidence they give it. */
module EventCounts {
  import opened Wrappers
  import opened AlertPlan
  import opened EventEngine

  /** The articles that count for an event: all linked ones except duplicates. */
  function RowsOf(links: seq<Link>, e: nat): seq<nat> {
    if links == [] then []
    else
      var last := links[|links| - 1];
      RowsOf(links[..|links| - 1], e) + if last.event == e && last.relation != Duplicate then [last.article] else []
  }

  predicate RowsUsable(articles: seq<Article>, rows: seq<nat>) {
    forall i :: 0 <= i < |rows| ==> rows[i] < |articles|
  }

  lemma {:induction false} RowsInRange(articles: seq<Article>, links: seq<Link>, e: nat)
    requires forall m :: 0 <= m < |links| ==> links[m].article < |articles|
    ensures RowsUsable(articles, RowsOf(links, e))
  {
    if links == [] {
    } else {
      RowsInRange(articles, links[..|links| - 1], e);
    }
  }

  /** The non-empty source domains of these articles. */
  function DomainsOf(articles: seq<Article>, rows: seq<nat>): set<string>
    requires RowsUsable(articles, rows)
  {
    if rows == [] then {}
    else
      var d := articles[rows[|rows| - 1]].content.domain;
      DomainsOf(articles, rows[..|rows| - 1]) + if d.Some? && d.value != "" then {d.value} else {}
  }

  /** The publication times of these articles. */
  function TimesOf(articles: seq<Article>, rows: seq<nat>): seq<real>
    requires RowsUsable(articles, rows)
  {
    if rows == [] then []
    else
      var t := articles[rows[|rows| - 1]].content.publishedAt;
      TimesOf(articles, rows[..|rows| - 1]) + if t.Some? then [t.value] else []
  }

  function Latest(times: seq<real>): real
    requires times != []
  {
    if |times| == 1 then times[0]
    else if times[0] >= Latest(times[1..]) then times[0] else Latest(times[1..])
  }

  function Earliest(times: seq<real>): real
    requires times != []
  {
    if |times| == 1 then times[0]
    else if times[0] <= Earliest(times[1..]) then times[0] else Earliest(times[1..])
  }

  datatype EventStats = EventStats(counts: Stats, spreadHours: Option<real>)

  function StatsFrom(articles: seq<Article>, rows: seq<nat>): EventStats
    requires RowsUsable(articles, rows)
  {
    var times := TimesOf(articles, rows);
    EventStats(Stats(|rows|, |DomainsOf(articles, rows)|),
               if times == [] then None else Some((Latest(times) - Earliest(times)) / 3600.0))
  }

  /** `event_stats`. */
  function StatsOf(db: Db, e: nat): EventStats
    requires InRange(db)
  {
    RowsInRange(db.articles, db.links, e);
    StatsFrom(db.articles, RowsOf(db.links, e))
  }

  /** `compute_confidence`. */
  function ComputeConfidence(st: EventStats, kind: EventType): Confidence {
    var consistent := st.spreadHours.None? || st.spreadHours.value <= 36.0;
    if kind == Earthquake then High
    else if st.counts.independent >= 3 && consistent then High
    else if st.counts.independent >= 2 then Medium
    else Low
  }

  /** `refresh_event_confidences` on one event. */
  function Refreshed(db: Db, e: nat): Event
    requires InRange(db) && e < |db.events|
  {
    var event := db.events[e];
    if IsOpen(event.status) then event.(confidence := Some(ComputeConfidence(StatsOf(db, e), event.kind))) else event
  }

  function RefreshAll(db: Db): Db
    requires InRange(db)
  {
    db.(events := seq(|db.events|, e requires 0 <= e < |db.events| => Refreshed(db, e)))
  }
}
