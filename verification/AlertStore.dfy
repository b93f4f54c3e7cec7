/** app/alert_engine/__init__.py: the alert cycle over the stored alert rows, proved against the
    threads of AlertEngine.dfy. */
module AlertStore {
  import opened Wrappers
  import opened AlertPlan
  import opened AlertEngine
  import opened AlertCycle

  /** A row of the alerts table with its messages. */
  datatype Row = Row(eventId: nat, alert: Alert, messages: seq<Sent>)

  /** The index of the first row of an event; the length of the table if there is none. */
  function IndexOf(rows: seq<Row>, id: nat): (i: nat)
    ensures i <= |rows| && (i < |rows| ==> rows[i].eventId == id)
    ensures forall k :: 0 <= k < i ==> rows[k].eventId != id
  {
    if rows == [] || rows[0].eventId == id then 0 else IndexOf(rows[1..], id) + 1
  }

  function LogFor(rows: seq<Row>, id: nat): seq<Sent> {
    if IndexOf(rows, id) < |rows| then rows[IndexOf(rows, id)].messages else []
  }

  function MessageTotal(rows: seq<Row>): nat {
    if rows == [] then 0 else MessageTotal(rows[..|rows| - 1]) + |rows[|rows| - 1].messages|
  }

  ghost predicate OnePerEvent(rows: seq<Row>) {
    forall i, k :: 0 <= i < k < |rows| ==> rows[i].eventId != rows[k].eventId
  }

  ghost predicate RowsInStep(rows: seq<Row>) {
    forall i :: 0 <= i < |rows| ==> rows[i].messages != [] && RowOf(rows[i].messages) == Some(rows[i].alert)
  }

  lemma {:induction false} TotalUpdate(rows: seq<Row>, i: nat, row: Row)
    requires i < |rows|
    ensures MessageTotal(rows[i := row]) == MessageTotal(rows) - |rows[i].messages| + |row.messages|
  {
    var n := |rows| - 1;
    if i == n {
      assert rows[i := row][..n] == rows[..n];
    } else {
      TotalUpdate(rows[..n], i, row);
      assert rows[i := row][..n] == rows[..n][i := row];
    }
  }

  lemma TotalAppend(rows: seq<Row>, row: Row)
    ensures MessageTotal(rows + [row]) == MessageTotal(rows) + |row.messages|
  {
    assert (rows + [row])[..|rows|] == rows;
  }

  /** The table with the row of an event replaced, or added where there is none. */
  function Put(rows: seq<Row>, row: Row): seq<Row> {
    var i := IndexOf(rows, row.eventId);
    if i < |rows| then rows[i := row] else rows + [row]
  }

  lemma PutLog(rows: seq<Row>, row: Row, id: nat)
    ensures LogFor(Put(rows, row), id) == if id == row.eventId then row.messages else LogFor(rows, id)
  {
    var i, rows' := IndexOf(rows, row.eventId), Put(rows, row);
    var k, k' := IndexOf(rows, id), IndexOf(rows', id);
    assert rows'[i] == row;
    if id == row.eventId {
      assert k' == i;
    } else if k < |rows| {
      assert rows'[k].eventId == id;
      assert k' == k;
    }
  }

  lemma PutKeepsRows(rows: seq<Row>, row: Row)
    requires OnePerEvent(rows) && RowsInStep(rows)
    requires row.messages != [] && RowOf(row.messages) == Some(row.alert)
    ensures OnePerEvent(Put(rows, row)) && RowsInStep(Put(rows, row))
  {
    var i, rows' := IndexOf(rows, row.eventId), Put(rows, row);
    forall k | 0 <= k < |rows'| ensures rows'[k].messages != [] && RowOf(rows'[k].messages) == Some(rows'[k].alert) {
      if k == i {
        assert rows'[k] == row;
      } else {
        assert rows'[k] == rows[k];
      }
    }
  }

  /** Putting a row keeps one row per event and changes the log of its event only. */
  lemma PutRow(rows: seq<Row>, row: Row)
    requires OnePerEvent(rows) && RowsInStep(rows)
    requires row.messages != [] && RowOf(row.messages) == Some(row.alert)
    requires |row.messages| == |LogFor(rows, row.eventId)| + 1
    ensures OnePerEvent(Put(rows, row)) && RowsInStep(Put(rows, row))
    ensures forall id :: LogFor(Put(rows, row), id) == if id == row.eventId then row.messages else LogFor(rows, id)
    ensures MessageTotal(Put(rows, row)) == MessageTotal(rows) + 1
  {
    PutTotals(rows, row);
    PutKeepsRows(rows, row);
    assert MessageTotal(Put(rows, row)) == MessageTotal(rows) + 1;
    forall id ensures LogFor(Put(rows, row), id) == if id == row.eventId then row.messages else LogFor(rows, id) {
      PutLog(rows, row, id);
    }
  }

  class AlertTable {
    var rows: seq<Row>

    ghost predicate Valid()
      reads this
    {
      OnePerEvent(rows) && RowsInStep(rows)
    }

    constructor ()
      ensures Valid() && rows == []
    {
      rows := [];
    }

    /** `get_alert_for_event`. */
    method Find(id: nat) returns (i: nat)
      ensures i == IndexOf(rows, id)
    {
      i := 0;
      while i < |rows| && rows[i].eventId != id
        invariant i <= |rows|
        invariant forall k :: 0 <= k < i ==> rows[k].eventId != id
      {
        i := i + 1;
      }
    }

    /** The step for one event. */
    method Process(cfg: Settings, id: nat, o: Observation) returns (created: nat, sent: nat)
      requires Valid()
      modifies this
      ensures Valid()
      ensures forall other :: LogFor(rows, other)
                == if other == id then Observe(cfg, LogFor(old(rows), id), o) else LogFor(old(rows), other)
      ensures |rows| == |old(rows)| + created
      ensures MessageTotal(rows) == MessageTotal(old(rows)) + sent
    {
      var i := Find(id);
      var alert := if i < |rows| then Some(rows[i].alert) else None;
      var messages := if i < |rows| then rows[i].messages else [];
      var entry := NextRow(cfg, id, alert, messages, o);
      if entry.None? {
        return 0, 0;
      }
      PutRow(rows, entry.value);
      if i < |rows| {
        rows := rows[i := entry.value];
        return 0, 1;
      }
      rows := rows + [entry.value];
      return 1, 1;
    }

    /** `run_alert_intelligence` over an events table that the two queries read. */
    method RunAlertIntelligence(cfg: Settings, views: seq<EventView>, capacity: int) returns (created: nat, sent: nat)
      requires Valid()
      modifies this
      ensures Valid() && Fed(cfg, old(rows), rows, Selected(views, HasRow(old(rows)), capacity))
      ensures |rows| == |old(rows)| + created
      ensures MessageTotal(rows) == MessageTotal(old(rows)) + sent
    {
      var missing := Newest(Where(views, HasRow(rows), false), Cap(capacity));
      var others := Newest(Where(views, HasRow(rows), true), Cap(capacity));
      created, sent := ProcessAll(cfg, missing + others);
    }

    /** The loop over the events. */
    method ProcessAll(cfg: Settings, events: seq<EventView>) returns (created: nat, sent: nat)
      requires Valid()
      modifies this
      ensures Valid() && Fed(cfg, old(rows), rows, events)
      ensures |rows| == |old(rows)| + created
      ensures MessageTotal(rows) == MessageTotal(old(rows)) + sent
    {
      created, sent := 0, 0;
      ghost var start := rows;
      for i := 0 to |events|
        invariant Valid() && Fed(cfg, start, rows, events[..i])
        invariant |rows| == |start| + created
        invariant MessageTotal(rows) == MessageTotal(start) + sent
      {
        ghost var before := rows;
        if Notifies(events[i]) {
          var c, s := Process(cfg, events[i].id, events[i].seen);
          created, sent := created + c, sent + s;
        }
        FedOneMore(cfg, start, before, rows, events, i);
      }
      assert events[..|events|] == events;
    }
  }

  function HasRow(rows: seq<Row>): nat -> bool {
    (id: nat) => IndexOf(rows, id) < |rows|
  }

  /** The table as threads. */
  function ThreadsOf(rows: seq<Row>): Threads {
    (id: nat) => LogFor(rows, id)
  }

  lemma RowIffThread(rows: seq<Row>, id: nat)
    requires RowsInStep(rows)
    ensures HasRow(rows)(id) == Known(ThreadsOf(rows))(id)
  {
  }

  /** Feeding the selected events is a cycle over the threads: an event has a row exactly if it has
      a thread. */
  lemma FedIsCycle(cfg: Settings, before: seq<Row>, rows: seq<Row>, views: seq<EventView>, capacity: int, id: nat)
    requires RowsInStep(before) && Fed(cfg, before, rows, Selected(views, HasRow(before), capacity))
    ensures LogFor(rows, id) == AfterCycle(cfg, ThreadsOf(before), views, capacity)(id)
  {
    var threads := ThreadsOf(before);
    forall x ensures HasRow(before)(x) == Known(threads)(x) {
      RowIffThread(before, x);
    }
    SelectedSame(views, HasRow(before), Known(threads), capacity);
    CycleAt(cfg, threads, views, capacity, id);
  }

  /** Every thread has taken in exactly the observations of its event, in order. */
  ghost predicate Fed(cfg: Settings, before: seq<Row>, rows: seq<Row>, events: seq<EventView>) {
    forall id :: LogFor(rows, id) == ObserveAll(cfg, LogFor(before, id), SeenOf(events, id))
  }

  lemma FedOneMore(cfg: Settings, start: seq<Row>, before: seq<Row>, rows: seq<Row>, events: seq<EventView>, i: nat)
    requires i < |events| && Fed(cfg, start, before, events[..i])
    requires forall id :: LogFor(rows, id) == NextLog(cfg, LogFor(before, id), events[i], id)
    ensures Fed(cfg, start, rows, events[..i + 1])
  {
    forall id ensures LogFor(rows, id) == ObserveAll(cfg, LogFor(start, id), SeenOf(events[..i + 1], id)) {
      assert LogFor(before, id) == ObserveAll(cfg, LogFor(start, id), SeenOf(events[..i], id));
      NextSeen(cfg, LogFor(start, id), events, i, id);
    }
  }

  /** What one event of the cycle does to the log of `id`. */
  function NextLog(cfg: Settings, log: seq<Sent>, e: EventView, id: nat): seq<Sent> {
    if e.id == id && Notifies(e) then Observe(cfg, log, e.seen) else log
  }

  lemma NextSeen(cfg: Settings, log: seq<Sent>, events: seq<EventView>, i: nat, id: nat)
    requires i < |events|
    ensures ObserveAll(cfg, log, SeenOf(events[..i + 1], id))
         == NextLog(cfg, ObserveAll(cfg, log, SeenOf(events[..i], id)), events[i], id)
  {
    var seen := SeenOf(events[..i], id);
    assert events[..i + 1][..i] == events[..i];
    if events[i].id == id && Notifies(events[i]) {
      assert SeenOf(events[..i + 1], id) == seen + [events[i].seen];
      assert (seen + [events[i].seen])[..|seen|] == seen;
    } else {
      assert SeenOf(events[..i + 1], id) == seen;
    }
  }

  /** Planning for one event, and the new row if there is a message to add: the row is created
      with the first message, and then follows every message. */
  method NextRow(cfg: Settings, id: nat, alert: Option<Alert>, messages: seq<Sent>, o: Observation)
    returns (entry: Option<Row>)
    requires alert == RowOf(messages)
    ensures entry.None? ==> Observe(cfg, messages, o) == messages
    ensures entry.Some? ==>
              && entry.value.eventId == id
              && entry.value.messages == Observe(cfg, messages, o)
              && |entry.value.messages| == |messages| + 1
              && RowOf(entry.value.messages) == Some(entry.value.alert)
  {
    PlanRefines(cfg, messages, o);
    var action := PlanAlert(cfg, o.status, alert, o.stats, o.priority, o.now);
    if action.None? {
      return None;
    }
    RowAdvances(cfg, messages, o);
    var kind := action.value.kind;
    var row := if alert.None? then Alert(o.priority, o.status, 0, None, None) else alert.value;
    var message := Sent(kind, MessagePriority(row, kind, o.priority), o);
    var updated := row.(messageCount := row.messageCount + 1, lastSignature := Some(action.value.signature),
                        lastSentAt := Some(o.sentAt), status := o.status);
    if kind == Initial || kind == Severity {
      updated := updated.(priority := o.priority);
    }
    entry := Some(Row(id, updated, messages + [message]));
  }

  lemma PutTotals(rows: seq<Row>, row: Row)
    ensures MessageTotal(Put(rows, row)) == MessageTotal(rows) - |LogFor(rows, row.eventId)| + |row.messages|
  {
    var i := IndexOf(rows, row.eventId);
    if i < |rows| {
      TotalUpdate(rows, i, row);
    } else {
      TotalAppend(rows, row);
    }
  }
}
