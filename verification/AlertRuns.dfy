/** The event engine and the alert engine together.  The alert cycle skips news, and only news
    events ever get articles; so the threads it keeps tell of status and severity alone. */
module AlertRuns {
  import opened AlertPlan
  import opened AlertEngine
  import opened AlertCycle
  import opened AlertStore
  import opened EventEngine
  import opened EventCounts
  import opened EventInvariant
  import opened EventRuns
  import opened EventConfidence

  /** One alert cycle: it ran after the first `cut` operations of the engine and read these events. */
  datatype Look = Look(cut: nat, views: seq<EventView>, capacity: int)

  /** The view shows the kind and the counts that the tables have; status, priority and clock may
      be anything. */
  ghost predicate Shows(db: Db, v: EventView) {
    InRange(db) && v.id < |db.events| && v.kind == db.events[v.id].kind && v.seen.stats == StatsOf(db, v.id).counts
  }

  ghost predicate LooksAt(sim: Sim, threshold: real, ops: seq<RunOp>, look: Look) {
    && look.cut <= |ops|
    && forall v :: v in look.views ==> Shows(Reached(sim, threshold, ops[..look.cut]), v)
  }

  /** The threads after these alert cycles. */
  function ThreadsAfter(cfg: Settings, looks: seq<Look>): Threads {
    if looks == [] then _ => []
    else
      var last := looks[|looks| - 1];
      AfterCycle(cfg, ThreadsAfter(cfg, looks[..|looks| - 1]), last.views, last.capacity)
  }

  function ThreadAfter(cfg: Settings, looks: seq<Look>, id: nat): seq<Sent> {
    ThreadsAfter(cfg, looks)(id)
  }

  /** The events the last of these cycles took up. */
  function LastTaken(cfg: Settings, looks: seq<Look>): seq<EventView>
    requires looks != []
  {
    var last := looks[|looks| - 1];
    Selected(last.views, Known(ThreadsAfter(cfg, looks[..|looks| - 1])), last.capacity)
  }

  lemma LastStep(cfg: Settings, looks: seq<Look>, id: nat)
    requires looks != []
    ensures ThreadAfter(cfg, looks, id)
         == ObserveAll(cfg, ThreadAfter(cfg, looks[..|looks| - 1], id), SeenOf(LastTaken(cfg, looks), id))
    ensures forall v :: v in LastTaken(cfg, looks) ==> v in looks[|looks| - 1].views
  {
    var last := looks[|looks| - 1];
    SelectedWithin(last.views, Known(ThreadsAfter(cfg, looks[..|looks| - 1])), last.capacity);
  }

  /** The alert table goes through the same cycles: afterwards its rows hold exactly these threads. */
  method RunCycles(table: AlertTable, cfg: Settings, looks: seq<Look>)
    requires table.Valid() && table.rows == []
    modifies table
    ensures table.Valid() && forall id :: LogFor(table.rows, id) == ThreadAfter(cfg, looks, id)
  {
    for i := 0 to |looks|
      invariant table.Valid() && RowsAreThreads(cfg, table.rows, looks[..i])
    {
      ghost var before := table.rows;
      var created, sent := table.RunAlertIntelligence(cfg, looks[i].views, looks[i].capacity);
      RowsOneMore(cfg, before, table.rows, looks, i);
    }
    assert looks[..|looks|] == looks;
  }

  function ThreadsBefore(cfg: Settings, looks: seq<Look>, k: nat): Threads {
    ThreadsAfter(cfg, if k <= |looks| then looks[..k] else looks)
  }

  /** The cycles as a run: what each of them listed, and the threads before it. */
  function RunOf(cfg: Settings, looks: seq<Look>): Cycles {
    Cycles((k: nat) => if k < |looks| then looks[k].views else [], (k: nat) => ThreadsBefore(cfg, looks, k))
  }

  /** Under one capacity it is a run in the sense of `AlertCycle`, whose theorems so hold of it. */
  lemma LooksAreRun(cfg: Settings, looks: seq<Look>, capacity: int)
    requires forall k :: 0 <= k < |looks| ==> looks[k].capacity == capacity
    ensures Runs(cfg, RunOf(cfg, looks), capacity, |looks|)
    ensures RunOf(cfg, looks).threads(0) == ThreadsAfter(cfg, []) && RunOf(cfg, looks).threads(|looks|) == ThreadsAfter(cfg, looks)
  {
    var run := RunOf(cfg, looks);
    assert looks[..0] == [] && looks[..|looks|] == looks;
    forall k: nat | k < |looks| ensures CycleStep(cfg, run, capacity, k) {
      assert looks[..k + 1][..k] == looks[..k];
    }
  }

  ghost predicate RowsAreThreads(cfg: Settings, rows: seq<Row>, looks: seq<Look>) {
    forall id :: LogFor(rows, id) == ThreadAfter(cfg, looks, id)
  }

  lemma RowsOneMore(cfg: Settings, before: seq<Row>, rows: seq<Row>, looks: seq<Look>, i: nat)
    requires i < |looks| && RowsAreThreads(cfg, before, looks[..i]) && RowsInStep(before)
    requires Fed(cfg, before, rows, Selected(looks[i].views, HasRow(before), looks[i].capacity))
    ensures RowsAreThreads(cfg, rows, looks[..i + 1])
  {
    assert looks[..i + 1][..i] == looks[..i];
    var threads := ThreadsAfter(cfg, looks[..i]);
    forall id ensures LogFor(rows, id) == ThreadAfter(cfg, looks[..i + 1], id) {
      FedIsCycle(cfg, before, rows, looks[i].views, looks[i].capacity, id);
      SameCycle(cfg, ThreadsOf(before), threads, looks[i].views, looks[i].capacity, id);
    }
  }

  lemma SameCycle(cfg: Settings, a: Threads, b: Threads, views: seq<EventView>, capacity: int, id: nat)
    requires forall x :: a(x) == b(x)
    ensures AfterCycle(cfg, a, views, capacity)(id) == AfterCycle(cfg, b, views, capacity)(id)
  {
    forall x ensures Known(a)(x) == Known(b)(x) {}
    SelectedSame(views, Known(a), Known(b), capacity);
    CycleAt(cfg, a, views, capacity, id);
    CycleAt(cfg, b, views, capacity, id);
  }

  // ----- Only news events have articles -----

  lemma OnlyNewsIsLinked(sim: Sim, threshold: real, db: Db, p: nat, m: nat)
    requires WellClustered(sim, threshold, db, p) && m < |db.links|
    ensures db.events[db.links[m].event].kind == News
  {
    assert GoodLink(sim, threshold, db, m);
    match db.links[m].relation
    case Primary =>
    case Related =>
      var k :| 0 <= k < m && db.links[k].relation == Primary && db.links[k].event == db.links[m].event;
      assert GoodLink(sim, threshold, db, k);
    case Duplicate =>
      var k :| 0 <= k < m && db.links[k].relation == Primary && db.links[k].event == db.links[m].event;
      assert GoodLink(sim, threshold, db, k);
  }

  lemma {:induction false} NoRows(links: seq<Link>, e: nat)
    requires forall m :: 0 <= m < |links| ==> links[m].event != e
    ensures RowsOf(links, e) == []
  {
    if links == [] {
    } else {
      NoRows(links[..|links| - 1], e);
    }
  }

  /** Over every run, an event that is not news has no articles and no sources. */
  lemma OthersCountNothing(sim: Sim, threshold: real, ops: seq<RunOp>, e: nat)
    requires forall k :: 0 <= k < |ops| ==> Legal(ops[k])
    requires e < |Reached(sim, threshold, ops).events| && Reached(sim, threshold, ops).events[e].kind != News
    ensures InRange(Reached(sim, threshold, ops)) && StatsOf(Reached(sim, threshold, ops), e).counts == Stats(0, 0)
  {
    EveryRunIsGood(sim, threshold, ops);
    var db := Reached(sim, threshold, ops);
    var p: nat :| WellClustered(sim, threshold, db, p);
    forall m | 0 <= m < |db.links| ensures db.links[m].event != e {
      OnlyNewsIsLinked(sim, threshold, db, p, m);
    }
    NoRows(db.links, e);
  }

  // ----- What the threads hold -----

  ghost predicate AllZero(os: seq<Observation>) {
    forall i :: 0 <= i < |os| ==> os[i].stats == Stats(0, 0)
  }

  ghost predicate NoCounts(log: seq<Sent>) {
    forall i :: 0 <= i < |log| ==> log[i].seen.stats == Stats(0, 0) && log[i].kind != Update
  }

  lemma {:induction false} ZeroNeverUpdates(cfg: Settings, log: seq<Sent>, os: seq<Observation>)
    requires cfg.minNewArticles >= 1 && cfg.minNewSources >= 1 && NoCounts(log) && AllZero(os)
    ensures NoCounts(ObserveAll(cfg, log, os))
  {
    if os == [] {
    } else {
      ZeroNeverUpdates(cfg, log, os[..|os| - 1]);
    }
  }

  lemma {:induction false} NoneUpdates(log: seq<Sent>)
    requires NoCounts(log)
    ensures Updates(log) == 0
  {
    if log == [] {
    } else {
      NoneUpdates(log[..|log| - 1]);
    }
  }

  lemma {:induction false} SeenIsZero(sim: Sim, threshold: real, ops: seq<RunOp>, views: seq<EventView>, id: nat)
    requires forall k :: 0 <= k < |ops| ==> Legal(ops[k])
    requires forall v :: v in views ==> Shows(Reached(sim, threshold, ops), v)
    ensures AllZero(SeenOf(views, id))
  {
    if views == [] {
    } else {
      SeenIsZero(sim, threshold, ops, views[..|views| - 1], id);
      var last := views[|views| - 1];
      assert last in views;
      if last.id == id && Notifies(last) {
        OthersCountNothing(sim, threshold, ops, id);
      }
    }
  }

  /** End to end: whatever runs the engine goes through, and at whatever points the alert cycle
      looks in, no thread ever gets an update, and every message is about an event with no
      articles; only severities and terminal states are told after the initial message. */
  lemma {:induction false} ThreadsNeverUpdate(cfg: Settings, sim: Sim, threshold: real, ops: seq<RunOp>, looks: seq<Look>, id: nat)
    requires cfg.minNewArticles >= 1 && cfg.minNewSources >= 1
    requires forall k :: 0 <= k < |ops| ==> Legal(ops[k])
    requires forall i :: 0 <= i < |looks| ==> LooksAt(sim, threshold, ops, looks[i])
    ensures NoCounts(ThreadAfter(cfg, looks, id)) && Updates(ThreadAfter(cfg, looks, id)) == 0
  {
    if looks == [] {
    } else {
      var look := looks[|looks| - 1];
      ThreadsNeverUpdate(cfg, sim, threshold, ops, looks[..|looks| - 1], id);
      assert LooksAt(sim, threshold, ops, look);
      LastStep(cfg, looks, id);
      SeenIsZero(sim, threshold, ops[..look.cut], LastTaken(cfg, looks), id);
      ZeroNeverUpdates(cfg, ThreadAfter(cfg, looks[..|looks| - 1], id), SeenOf(LastTaken(cfg, looks), id));
    }
    NoneUpdates(ThreadAfter(cfg, looks, id));
  }

  /** And news never gets a thread at all. */
  lemma {:induction false} NewsHasNoThread(cfg: Settings, sim: Sim, threshold: real, ops: seq<RunOp>, looks: seq<Look>, id: nat)
    requires forall i :: 0 <= i < |looks| ==> LooksAt(sim, threshold, ops, looks[i])
    requires id < |Reached(sim, threshold, ops).events| && Reached(sim, threshold, ops).events[id].kind == News
    ensures ThreadAfter(cfg, looks, id) == []
  {
    if looks == [] {
    } else {
      var look := looks[|looks| - 1];
      NewsHasNoThread(cfg, sim, threshold, ops, looks[..|looks| - 1], id);
      assert LooksAt(sim, threshold, ops, look);
      RunGains(sim, threshold, ops, look.cut);
      LastStep(cfg, looks, id);
      forall v | v in LastTaken(cfg, looks) && v.id == id ensures !Notifies(v) {
        assert Shows(Reached(sim, threshold, ops[..look.cut]), v);
      }
      Unseen(LastTaken(cfg, looks), id);
    }
  }
}
