/** app/alert_engine/__init__.py: which events an alert cycle takes up.  Two queries return the
    events without an alert and those with one, each the most recently updated up to a capacity;
    news is dropped only afterwards. */
module AlertCycle {
  import opened AlertPlan
  import opened AlertEngine
  import opened Loops
  import E = EventEngine

  /** One event as the cycle reads it. */
  datatype EventView = EventView(id: nat, kind: E.EventType, updatedAt: int, seen: Observation)

  /** News never notifies. */
  predicate Notifies(v: EventView) {
    v.kind != E.News
  }

  /** What these events show of one of them; news events are skipped. */
  function SeenOf(events: seq<EventView>, id: nat): seq<Observation> {
    if events == [] then []
    else
      var last := events[|events| - 1];
      SeenOf(events[..|events| - 1], id) + if last.id == id && Notifies(last) then [last.seen] else []
  }

  // ----- The queries -----

  function NewestIndex(views: seq<EventView>): (r: nat)
    requires views != []
    ensures r < |views| && forall k :: 0 <= k < |views| ==> views[k].updatedAt <= views[r].updatedAt
    ensures forall k :: 0 <= k < r ==> views[k].updatedAt < views[r].updatedAt
  {
    if |views| == 1 then 0
    else
      var n := |views| - 1;
      var r := NewestIndex(views[..n]);
      if views[n].updatedAt > views[r].updatedAt then n else r
  }

  function Drop(views: seq<EventView>, i: nat): seq<EventView>
    requires i < |views|
  {
    views[..i] + views[i + 1..]
  }

  /** The most recently updated events, at most `cap` of them. */
  function Newest(views: seq<EventView>, cap: nat): seq<EventView> {
    if cap == 0 || views == [] then []
    else var i := NewestIndex(views); [views[i]] + Newest(Drop(views, i), cap - 1)
  }

  /** The events that do, or do not, have an alert. */
  function Where(views: seq<EventView>, known: nat -> bool, wanted: bool): seq<EventView> {
    if views == [] then []
    else (if known(views[0].id) == wanted then [views[0]] else []) + Where(views[1..], known, wanted)
  }

  function Cap(capacity: int): (cap: nat)
    ensures cap >= 1 && cap >= capacity && (cap == 1 || cap == capacity)
  {
    if capacity >= 1 then capacity else 1
  }

  /** The events a cycle takes up. */
  function Selected(views: seq<EventView>, known: nat -> bool, capacity: int): seq<EventView> {
    Newest(Where(views, known, false), Cap(capacity)) + Newest(Where(views, known, true), Cap(capacity))
  }

  lemma {:induction false} NewestWithin(views: seq<EventView>, cap: nat)
    ensures forall v :: v in Newest(views, cap) ==> v in views
  {
    if cap != 0 && views != [] {
      NewestWithin(Drop(views, NewestIndex(views)), cap - 1);
    }
  }

  lemma {:induction false} WhereWithin(views: seq<EventView>, known: nat -> bool, wanted: bool)
    ensures forall v :: v in Where(views, known, wanted) <==> v in views && known(v.id) == wanted
  {
    if views != [] {
      WhereWithin(views[1..], known, wanted);
      assert forall v :: v in views <==> v == views[0] || v in views[1..];
    }
  }

  lemma SelectedWithin(views: seq<EventView>, known: nat -> bool, capacity: int)
    ensures forall v :: v in Selected(views, known, capacity) ==> v in views
  {
    WhereWithin(views, known, false);
    WhereWithin(views, known, true);
    NewestWithin(Where(views, known, false), Cap(capacity));
    NewestWithin(Where(views, known, true), Cap(capacity));
  }

  lemma {:induction false} WhereSame(views: seq<EventView>, f: nat -> bool, g: nat -> bool, wanted: bool)
    requires forall id :: f(id) == g(id)
    ensures Where(views, f, wanted) == Where(views, g, wanted)
  {
    if views != [] {
      WhereSame(views[1..], f, g, wanted);
    }
  }

  lemma SelectedSame(views: seq<EventView>, f: nat -> bool, g: nat -> bool, capacity: int)
    requires forall id :: f(id) == g(id)
    ensures Selected(views, f, capacity) == Selected(views, g, capacity)
  {
    WhereSame(views, f, g, false);
    WhereSame(views, f, g, true);
  }

  // ----- Who is within the capacity -----

  function Count(views: seq<EventView>, p: EventView -> bool): nat {
    if views == [] then 0 else (if p(views[0]) then 1 else 0) + Count(views[1..], p)
  }

  /** Those of `p` updated after `t`. */
  function After(t: int, p: EventView -> bool): EventView -> bool {
    (v: EventView) => p(v) && v.updatedAt > t
  }

  /** Those of `p` updated at `t` or later. */
  function Since(t: int, p: EventView -> bool): EventView -> bool {
    (v: EventView) => p(v) && v.updatedAt >= t
  }

  /** How many of `p` stand before `v` in the order of the query: what was updated later, and what
      was updated at the same time and comes earlier in the table. */
  function Ahead(views: seq<EventView>, v: EventView, p: EventView -> bool): nat {
    if views == [] then 0
    else if views[0] == v then Count(views[1..], After(v.updatedAt, p))
    else (if Since(v.updatedAt, p)(views[0]) then 1 else 0) + Ahead(views[1..], v, p)
  }

  function Anyone(): EventView -> bool {
    (v: EventView) => true
  }

  lemma {:induction false} CountDrop(views: seq<EventView>, i: nat, p: EventView -> bool)
    requires i < |views|
    ensures Count(views, p) == Count(Drop(views, i), p) + if p(views[i]) then 1 else 0
  {
    if i == 0 {
      assert Drop(views, 0) == views[1..];
    } else {
      DropRest(views, i);
      CountDrop(views[1..], i - 1, p);
    }
  }

  lemma DropRest(views: seq<EventView>, i: nat)
    requires 0 < i < |views|
    ensures Drop(views, i)[0] == views[0] && Drop(views, i)[1..] == Drop(views[1..], i - 1)
  {
  }

  lemma {:induction false} CountNone(views: seq<EventView>, p: EventView -> bool)
    requires forall v :: v in views ==> !p(v)
    ensures Count(views, p) == 0
  {
    if views != [] {
      CountNone(views[1..], p);
    }
  }

  lemma {:induction false} CountMonotone(views: seq<EventView>, p: EventView -> bool, q: EventView -> bool)
    requires forall v :: v in views && p(v) ==> q(v)
    ensures Count(views, p) <= Count(views, q)
  {
    if views != [] {
      assert views[0] in views;
      CountMonotone(views[1..], p, q);
    }
  }

  lemma {:induction false} AheadMonotone(views: seq<EventView>, v: EventView, p: EventView -> bool, q: EventView -> bool)
    requires forall x :: x in views && p(x) ==> q(x)
    ensures Ahead(views, v, p) <= Ahead(views, v, q)
  {
    if views != [] {
      assert views[0] in views;
      if views[0] == v {
        CountMonotone(views[1..], After(v.updatedAt, p), After(v.updatedAt, q));
      } else {
        AheadMonotone(views[1..], v, p, q);
      }
    }
  }

  /** An event that is taken before `v` stands before it. */
  lemma {:induction false} AheadDrop(views: seq<EventView>, i: nat, v: EventView)
    requires i < |views| && views[i] != v && v in views && views[i].updatedAt >= v.updatedAt
    requires views[i].updatedAt == v.updatedAt ==> v !in views[..i]
    ensures Ahead(views, v, Anyone()) == Ahead(Drop(views, i), v, Anyone()) + 1
  {
    if i == 0 {
      assert Drop(views, 0) == views[1..];
    } else {
      DropRest(views, i);
      if views[0] == v {
        assert views[..i][0] == v;
        CountDrop(views[1..], i - 1, After(v.updatedAt, Anyone()));
      } else {
        assert forall x :: x in views[1..][..i - 1] ==> x in views[..i];
        AheadDrop(views[1..], i - 1, v);
      }
    }
  }

  /** Nobody stands before the first of the newest. */
  lemma {:induction false} NobodyAhead(views: seq<EventView>, i: nat)
    requires i < |views| && forall k :: 0 <= k < |views| ==> views[k].updatedAt <= views[i].updatedAt
    requires forall k :: 0 <= k < i ==> views[k].updatedAt < views[i].updatedAt
    ensures Ahead(views, views[i], Anyone()) == 0
  {
    if i == 0 {
      CountNone(views[1..], After(views[0].updatedAt, Anyone()));
    } else {
      NobodyAhead(views[1..], i - 1);
    }
  }

  /** Either `v` is taken first, or it is up to the rest. */
  lemma TakenStep(views: seq<EventView>, cap: nat, v: EventView) returns (first: bool, rest: seq<EventView>)
    requires v in views && cap > 0
    ensures first ==> v in Newest(views, cap) && Ahead(views, v, Anyone()) == 0
    ensures !first ==> v in rest && Ahead(views, v, Anyone()) == Ahead(rest, v, Anyone()) + 1
    ensures !first ==> (v in Newest(views, cap) <==> v in Newest(rest, cap - 1))
  {
    var i := NewestIndex(views);
    first, rest := views[i] == v, Drop(views, i);
    if first {
      NobodyAhead(views, i);
    } else {
      NewestGoesFirst(views, v);
      AheadDrop(views, i, v);
    }
  }

  /** An event is taken exactly if fewer than the capacity stand before it, whatever the times. */
  lemma {:induction false} TakenIffFewAhead(views: seq<EventView>, cap: nat, v: EventView)
    requires v in views
    ensures v in Newest(views, cap) <==> Ahead(views, v, Anyone()) < cap
    decreases cap
  {
    if cap > 0 {
      var first, rest := TakenStep(views, cap, v);
      if !first {
        TakenIffFewAhead(rest, cap - 1, v);
      }
    }
  }

  lemma NewestGoesFirst(views: seq<EventView>, v: EventView)
    requires v in views && views[NewestIndex(views)] != v
    ensures var i := NewestIndex(views);
            && v in Drop(views, i) && views[i].updatedAt >= v.updatedAt
            && (views[i].updatedAt == v.updatedAt ==> v !in views[..i])
  {
    var i, k := NewestIndex(views), 0;
    k :| 0 <= k < |views| && views[k] == v;
    assert Drop(views, i)[if k < i then k else k - 1] == v;
  }

  // ----- The events with an alert, and those without -----

  function Group(known: nat -> bool, wanted: bool): EventView -> bool {
    (v: EventView) => known(v.id) == wanted
  }

  function Missing(known: nat -> bool): EventView -> bool {
    Group(known, false)
  }

  lemma {:induction false} CountWhere(views: seq<EventView>, known: nat -> bool, wanted: bool, t: int)
    ensures Count(Where(views, known, wanted), After(t, Anyone())) == Count(views, After(t, Group(known, wanted)))
  {
    if views != [] {
      CountWhere(views[1..], known, wanted, t);
      var rest := Where(views[1..], known, wanted);
      assert ([views[0]] + rest)[1..] == rest && [] + rest == rest;
    }
  }

  lemma {:induction false} AheadWhere(views: seq<EventView>, known: nat -> bool, wanted: bool, v: EventView)
    requires known(v.id) == wanted
    ensures Ahead(Where(views, known, wanted), v, Anyone()) == Ahead(views, v, Group(known, wanted))
  {
    if views != [] {
      AheadWhere(views[1..], known, wanted, v);
      var rest := Where(views[1..], known, wanted);
      assert ([views[0]] + rest)[1..] == rest && [] + rest == rest;
      CountWhere(views[1..], known, wanted, v.updatedAt);
    }
  }

  /** An event is taken up exactly if fewer than the capacity of those that, like it, have an alert,
      or have none, stand before it. */
  lemma SelectedIffFewAhead(views: seq<EventView>, known: nat -> bool, capacity: int, v: EventView)
    requires v in views
    ensures v in Selected(views, known, capacity) <==> Ahead(views, v, Group(known, known(v.id))) < Cap(capacity)
  {
    WhereWithin(views, known, false);
    WhereWithin(views, known, true);
    NewestWithin(Where(views, known, false), Cap(capacity));
    NewestWithin(Where(views, known, true), Cap(capacity));
    TakenIffFewAhead(Where(views, known, known(v.id)), Cap(capacity), v);
    AheadWhere(views, known, known(v.id), v);
  }

  lemma {:induction false} WhereDistinct(views: seq<EventView>, known: nat -> bool, wanted: bool)
    requires DistinctIds(views)
    ensures DistinctIds(Where(views, known, wanted))
  {
    if views != [] {
      WhereDistinct(views[1..], known, wanted);
      WhereWithin(views[1..], known, wanted);
      var rest := Where(views[1..], known, wanted);
      forall v | v in rest ensures v.id != views[0].id {
        var k :| 0 <= k < |views[1..]| && views[1..][k] == v;
      }
      ConsDistinct(views[0], rest);
    }
  }

  lemma ConsDistinct(v: EventView, rest: seq<EventView>)
    requires DistinctIds(rest) && forall x :: x in rest ==> x.id != v.id
    ensures DistinctIds([v] + rest) && [] + rest == rest
  {
  }

  lemma {:induction false} NewestDistinct(views: seq<EventView>, cap: nat)
    requires DistinctIds(views)
    ensures DistinctIds(Newest(views, cap))
  {
    if cap != 0 && views != [] {
      var i := NewestIndex(views);
      DropDistinct(views, i);
      NewestDistinct(Drop(views, i), cap - 1);
      NewestWithin(Drop(views, i), cap - 1);
      ConsDistinct(views[i], Newest(Drop(views, i), cap - 1));
    }
  }

  lemma DropDistinct(views: seq<EventView>, i: nat)
    requires DistinctIds(views) && i < |views|
    ensures DistinctIds(Drop(views, i)) && forall x :: x in Drop(views, i) ==> x.id != views[i].id
  {
  }

  /** A cycle takes up no event twice. */
  lemma SelectedDistinct(views: seq<EventView>, known: nat -> bool, capacity: int)
    requires DistinctIds(views)
    ensures DistinctIds(Selected(views, known, capacity))
  {
    var a, b := Newest(Where(views, known, false), Cap(capacity)), Newest(Where(views, known, true), Cap(capacity));
    WhereDistinct(views, known, false);
    WhereDistinct(views, known, true);
    NewestDistinct(Where(views, known, false), Cap(capacity));
    NewestDistinct(Where(views, known, true), Cap(capacity));
    WhereWithin(views, known, false);
    WhereWithin(views, known, true);
    NewestWithin(Where(views, known, false), Cap(capacity));
    NewestWithin(Where(views, known, true), Cap(capacity));
    JoinDistinct(a, b, known);
  }

  lemma JoinDistinct(a: seq<EventView>, b: seq<EventView>, known: nat -> bool)
    requires DistinctIds(a) && DistinctIds(b) && (forall v :: v in a ==> !known(v.id)) && forall v :: v in b ==> known(v.id)
    ensures DistinctIds(a + b)
  {
    forall i, k | 0 <= i < k < |a + b| ensures (a + b)[i].id != (a + b)[k].id {
      if i < |a| <= k {
        assert (a + b)[i] in a && (a + b)[k] in b;
      }
    }
  }

  // ----- Threads -----

  /** The thread of each event. */
  type Threads = nat -> seq<Sent>

  function Known(threads: Threads): nat -> bool {
    (id: nat) => threads(id) != []
  }

  /** The threads after a cycle that read these events. */
  function AfterCycle(cfg: Settings, threads: Threads, views: seq<EventView>, capacity: int): Threads {
    (id: nat) => ObserveAll(cfg, threads(id), SeenOf(Selected(views, Known(threads), capacity), id))
  }

  lemma CycleAt(cfg: Settings, threads: Threads, views: seq<EventView>, capacity: int, id: nat)
    ensures AfterCycle(cfg, threads, views, capacity)(id)
         == ObserveAll(cfg, threads(id), SeenOf(Selected(views, Known(threads), capacity), id))
  {
  }

  /** A run of cycles: the table as each of them lists it, and the threads before each. */
  datatype Cycles = Cycles(tables: nat -> seq<EventView>, threads: nat -> Threads)

  ghost predicate CycleStep(cfg: Settings, run: Cycles, capacity: int, k: nat) {
    run.threads(k + 1) == AfterCycle(cfg, run.threads(k), run.tables(k), capacity)
  }

  /** The threads are those that the first `n` cycles leave. */
  ghost predicate Runs(cfg: Settings, run: Cycles, capacity: int, n: nat) {
    forall k: nat {:trigger CycleStep(cfg, run, capacity, k)} :: k < n ==> CycleStep(cfg, run, capacity, k)
  }

  lemma {:induction false} Unseen(events: seq<EventView>, id: nat)
    requires forall v :: v in events && v.id == id ==> !Notifies(v)
    ensures SeenOf(events, id) == []
  {
    if events != [] {
      assert events[|events| - 1] in events;
      Unseen(events[..|events| - 1], id);
    }
  }

  lemma {:induction false} SeenIs(events: seq<EventView>, v: EventView)
    requires v in events && Notifies(v)
    ensures v.seen in SeenOf(events, v.id)
  {
    var n := |events| - 1;
    if events[n] != v {
      assert v in events[..n];
      SeenIs(events[..n], v);
    }
  }

  lemma {:induction false} ObservedStarts(cfg: Settings, os: seq<Observation>)
    requires exists o :: o in os && !Terminal(o.status)
    ensures ObserveAll(cfg, [], os) != []
  {
    var n := |os| - 1;
    var before := ObserveAll(cfg, [], os[..n]);
    if before == [] && Terminal(os[n].status) {
      var o :| o in os && !Terminal(o.status);
      assert o in os[..n];
      ObservedStarts(cfg, os[..n]);
    }
  }

  /** An event has one row in the table. */
  ghost predicate DistinctIds(views: seq<EventView>) {
    forall i, k :: 0 <= i < k < |views| ==> views[i].id != views[k].id
  }

  lemma SameById(views: seq<EventView>, x: EventView, y: EventView)
    requires DistinctIds(views) && x in views && y in views && x.id == y.id
    ensures x == y
  {
  }

  /** An event that an alert may be opened for. */
  predicate CanStart(v: EventView) {
    v.kind != E.News && (v.seen.status == Active || v.seen.status == Updated)
  }

  /** No thread comes of what cannot start one. */
  lemma {:induction false} NeverStarts(cfg: Settings, events: seq<EventView>, id: nat)
    requires forall v :: v in events && v.id == id ==> !CanStart(v)
    ensures ObserveAll(cfg, [], SeenOf(events, id)) == []
  {
    if events != [] {
      var front, last := events[..|events| - 1], events[|events| - 1];
      assert last in events;
      NeverStarts(cfg, front, id);
      var seen := SeenOf(front, id);
      if last.id == id && Notifies(last) {
        assert (seen + [last.seen])[..|seen|] == seen && !CanStart(last);
        assert Observe(cfg, [], last.seen) == [];
      } else {
        assert seen + [] == seen;
      }
    }
  }

  /** An event taken up starts its thread, if it can. */
  lemma SeenStarts(cfg: Settings, events: seq<EventView>, v: EventView)
    requires v in events && CanStart(v)
    ensures ObserveAll(cfg, [], SeenOf(events, v.id)) != []
  {
    SeenIs(events, v);
    ObservedStarts(cfg, SeenOf(events, v.id));
  }

  /** An event without an alert gets its initial message in a cycle exactly if it is open and not
      news, and fewer than the capacity of the events without an alert stand before it. */
  lemma InitialIffFewAhead(cfg: Settings, threads: Threads, views: seq<EventView>, capacity: int, v: EventView)
    requires DistinctIds(views) && v in views && threads(v.id) == []
    ensures AfterCycle(cfg, threads, views, capacity)(v.id) != [] <==>
              CanStart(v) && Ahead(views, v, Missing(Known(threads))) < Cap(capacity)
  {
    var known := Known(threads);
    var events := Selected(views, known, capacity);
    CycleAt(cfg, threads, views, capacity, v.id);
    SelectedIffFewAhead(views, known, capacity, v);
    if v in events && CanStart(v) {
      SeenStarts(cfg, events, v);
    } else {
      SelectedWithin(views, known, capacity);
      forall x | x in events && x.id == v.id ensures !CanStart(x) {
        SameById(views, x, v);
      }
      NeverStarts(cfg, events, v.id);
    }
  }

  lemma {:induction false} SeenOnce(events: seq<EventView>, v: EventView)
    requires DistinctIds(events) && v in events
    ensures SeenOf(events, v.id) == if Notifies(v) then [v.seen] else []
  {
    var n := |events| - 1;
    if events[n] == v {
      NotSeen(events[..n], v.id);
    } else {
      assert v in events[..n];
      SeenOnce(events[..n], v);
      assert events[n].id != v.id;
    }
  }

  lemma {:induction false} NotSeen(events: seq<EventView>, id: nat)
    requires forall v :: v in events ==> v.id != id
    ensures SeenOf(events, id) == []
  {
    if events != [] {
      assert events[|events| - 1] in events;
      NotSeen(events[..|events| - 1], id);
    }
  }

  /** A cycle, in full: a thread takes in what the table shows of its event iff the event is not news
      and fewer than the capacity of those that, like it, have an alert, or have none, stand before
      it; every other thread stays as it is. */
  lemma CycleMeaning(cfg: Settings, threads: Threads, views: seq<EventView>, capacity: int, id: nat)
    requires DistinctIds(views)
    ensures forall v :: v in views && v.id == id ==>
              AfterCycle(cfg, threads, views, capacity)(id)
              == if v.kind != E.News && Ahead(views, v, Group(Known(threads), threads(id) != [])) < Cap(capacity) then
                   Observe(cfg, threads(id), v.seen)
                 else threads(id)
    ensures (forall v :: v in views ==> v.id != id) ==> AfterCycle(cfg, threads, views, capacity)(id) == threads(id)
  {
    var known := Known(threads);
    var events := Selected(views, known, capacity);
    CycleAt(cfg, threads, views, capacity, id);
    SelectedWithin(views, known, capacity);
    if v :| v in views && v.id == id {
      forall x | x in views && x.id == id ensures x == v {
        SameById(views, x, v);
      }
      SelectedIffFewAhead(views, known, capacity, v);
      if v in events {
        SelectedDistinct(views, known, capacity);
        SeenOnce(events, v);
        ObserveOne(cfg, threads(id), v.seen);
      } else {
        NotSeen(events, id);
      }
    } else {
      NotSeen(events, id);
    }
  }

  lemma ObserveOne(cfg: Settings, log: seq<Sent>, o: Observation)
    ensures ObserveAll(cfg, log, [o]) == Observe(cfg, log, o)
  {
    ObserveOneMore(cfg, log, [], o);
    assert [] + [o] == [o];
  }

  // ----- Every order of the table -----

  /** The same events, in whatever order the database lists them. */
  ghost predicate SameEvents(order: seq<EventView>, views: seq<EventView>) {
    multiset(order) == multiset(views)
  }

  lemma {:induction false} CountSame(order: seq<EventView>, views: seq<EventView>, p: EventView -> bool)
    requires SameEvents(order, views)
    ensures Count(order, p) == Count(views, p)
  {
    if order == [] {
      assert |multiset(views)| == 0;
    } else {
      var x := order[0];
      assert x in multiset(order);
      var k :| 0 <= k < |views| && views[k] == x;
      CutOut(order, 0);
      CutOut(views, k);
      CountDrop(order, 0, p);
      CountDrop(views, k, p);
      CountSame(Drop(order, 0), Drop(views, k), p);
    }
  }

  lemma CutOut(views: seq<EventView>, k: nat)
    requires k < |views|
    ensures multiset(Drop(views, k)) == multiset(views) - multiset{views[k]}
  {
    assert views == views[..k] + [views[k]] + views[k + 1..];
  }

  lemma {:induction false} AheadBounds(views: seq<EventView>, v: EventView, p: EventView -> bool)
    requires v in views && p(v)
    ensures Count(views, After(v.updatedAt, p)) <= Ahead(views, v, p) < Count(views, Since(v.updatedAt, p))
  {
    if views[0] == v {
      CountMonotone(views[1..], After(v.updatedAt, p), Since(v.updatedAt, p));
    } else {
      AheadBounds(views[1..], v, p);
    }
  }

  lemma {:induction false} AheadLast(front: seq<EventView>, v: EventView, p: EventView -> bool)
    requires v !in front
    ensures Ahead(front + [v], v, p) == Count(front, Since(v.updatedAt, p))
  {
    if front == [] {
      assert front + [v] == [v];
    } else {
      assert (front + [v])[1..] == front[1..] + [v];
      AheadLast(front[1..], v, p);
    }
  }

  /** The cycle over this order opens the event's alert. */
  ghost predicate Opens(cfg: Settings, threads: Threads, order: seq<EventView>, capacity: int, id: nat) {
    AfterCycle(cfg, threads, order, capacity)(id) != []
  }

  lemma Twice(order: seq<EventView>, i: nat, k: nat)
    requires i < k < |order| && order[i] == order[k]
    ensures multiset(order)[order[i]] >= 2
  {
    CutOut(order, i);
    assert Drop(order, i)[k - 1] == order[i];
    assert order[i] in multiset(Drop(order, i));
  }

  lemma OnlyOnce(views: seq<EventView>, k: nat)
    requires DistinctIds(views) && k < |views|
    ensures views[k] !in Drop(views, k) && multiset(views)[views[k]] == 1
  {
    CutOut(views, k);
    assert views[k] !in multiset(Drop(views, k));
  }

  lemma SameDistinct(order: seq<EventView>, views: seq<EventView>)
    requires SameEvents(order, views) && DistinctIds(views)
    ensures DistinctIds(order)
  {
    forall i, k | 0 <= i < k < |order| ensures order[i].id != order[k].id {
      assert order[i] in multiset(order) && order[k] in multiset(order);
      if order[i].id == order[k].id {
        SameById(views, order[i], order[k]);
        var m :| 0 <= m < |views| && views[m] == order[i];
        OnlyOnce(views, m);
        Twice(order, i, k);
      }
    }
  }

  lemma FitsEveryOrder(cfg: Settings, threads: Threads, views: seq<EventView>, capacity: int, v: EventView)
    requires DistinctIds(views) && v in views && threads(v.id) == [] && CanStart(v)
    ensures (forall order :: SameEvents(order, views) ==> Opens(cfg, threads, order, capacity, v.id)) <==>
              Count(views, Since(v.updatedAt, Missing(Known(threads)))) <= Cap(capacity)
  {
    if Count(views, Since(v.updatedAt, Missing(Known(threads)))) <= Cap(capacity) {
      forall order | SameEvents(order, views) ensures Opens(cfg, threads, order, capacity, v.id) {
        OneOrder(cfg, threads, order, views, capacity, v);
      }
    } else {
      var k :| 0 <= k < |views| && views[k] == v;
      var last := Drop(views, k) + [v];
      FirstAndLast(views, k, Missing(Known(threads)));
      OneOrder(cfg, threads, last, views, capacity, v);
      assert SameEvents(last, views) && !Opens(cfg, threads, last, capacity, v.id);
    }
  }

  lemma FitsSomeOrder(cfg: Settings, threads: Threads, views: seq<EventView>, capacity: int, v: EventView)
    requires DistinctIds(views) && v in views && threads(v.id) == [] && CanStart(v)
    ensures (exists order :: SameEvents(order, views) && Opens(cfg, threads, order, capacity, v.id)) <==>
              Count(views, After(v.updatedAt, Missing(Known(threads)))) < Cap(capacity)
  {
    if Count(views, After(v.updatedAt, Missing(Known(threads)))) < Cap(capacity) {
      var k :| 0 <= k < |views| && views[k] == v;
      var first := [v] + Drop(views, k);
      FirstAndLast(views, k, Missing(Known(threads)));
      OneOrder(cfg, threads, first, views, capacity, v);
      assert SameEvents(first, views) && Opens(cfg, threads, first, capacity, v.id);
    } else {
      forall order | SameEvents(order, views) ensures !Opens(cfg, threads, order, capacity, v.id) {
        OneOrder(cfg, threads, order, views, capacity, v);
      }
    }
  }

  /** Where the order of the table does not matter, and where it decides: an event that can start
      gets its initial message under every order exactly if the events without an alert updated at
      its instant or later, itself included, fit the capacity; and under some order exactly if
      those updated later leave room. */
  lemma InitialUnderEveryOrder(cfg: Settings, threads: Threads, views: seq<EventView>, capacity: int, v: EventView)
    requires DistinctIds(views) && v in views && threads(v.id) == [] && CanStart(v)
    ensures (forall order :: SameEvents(order, views) ==> Opens(cfg, threads, order, capacity, v.id)) <==>
              Count(views, Since(v.updatedAt, Missing(Known(threads)))) <= Cap(capacity)
    ensures (exists order :: SameEvents(order, views) && Opens(cfg, threads, order, capacity, v.id)) <==>
              Count(views, After(v.updatedAt, Missing(Known(threads)))) < Cap(capacity)
  {
    FitsEveryOrder(cfg, threads, views, capacity, v);
    FitsSomeOrder(cfg, threads, views, capacity, v);
  }

  lemma OneOrder(cfg: Settings, threads: Threads, order: seq<EventView>, views: seq<EventView>, capacity: int, v: EventView)
    requires SameEvents(order, views) && DistinctIds(views) && v in views && threads(v.id) == [] && CanStart(v)
    ensures var p := Missing(Known(threads));
            && (Opens(cfg, threads, order, capacity, v.id) <==> Ahead(order, v, p) < Cap(capacity))
            && Count(views, After(v.updatedAt, p)) <= Ahead(order, v, p) < Count(views, Since(v.updatedAt, p))
  {
    var p := Missing(Known(threads));
    SameDistinct(order, views);
    assert v in multiset(order);
    InitialIffFewAhead(cfg, threads, order, capacity, v);
    AheadBounds(order, v, p);
    CountSame(order, views, After(v.updatedAt, p));
    CountSame(order, views, Since(v.updatedAt, p));
  }

  /** Listed first among its equals an event has only the newer ones before it, listed last all. */
  lemma FirstAndLast(views: seq<EventView>, k: nat, p: EventView -> bool)
    requires DistinctIds(views) && k < |views| && p(views[k])
    ensures var v, first, last := views[k], [views[k]] + Drop(views, k), Drop(views, k) + [views[k]];
            && SameEvents(first, views) && Ahead(first, v, p) == Count(views, After(v.updatedAt, p))
            && SameEvents(last, views) && Ahead(last, v, p) + 1 == Count(views, Since(v.updatedAt, p))
  {
    var v, rest := views[k], Drop(views, k);
    CutOut(views, k);
    CountDrop(views, k, After(v.updatedAt, p));
    CountDrop(views, k, Since(v.updatedAt, p));
    assert ([v] + rest)[1..] == rest;
    OnlyOnce(views, k);
    AheadLast(rest, v, p);
  }

  // ----- Runs of cycles -----

  /** It is the event's turn: it can start, and fewer than the capacity of the events without an
      alert stand before it. */
  ghost predicate IsTurn(threads: Threads, views: seq<EventView>, capacity: int, id: nat) {
    exists v :: v in views && v.id == id && CanStart(v) && Ahead(views, v, Missing(Known(threads))) < Cap(capacity)
  }

  /** At cycle `k` of the run it was. */
  ghost predicate TurnAt(run: Cycles, capacity: int, k: nat, id: nat) {
    IsTurn(run.threads(k), run.tables(k), capacity, id)
  }

  lemma {:induction false} ThreadsGrow(cfg: Settings, log: seq<Sent>, os: seq<Observation>)
    requires log != []
    ensures ObserveAll(cfg, log, os) != []
  {
    if os != [] {
      ThreadsGrow(cfg, log, os[..|os| - 1]);
    }
  }

  /** One cycle: an event has an alert after it iff it had one, or it was its turn. */
  lemma OpenedIffTurn(cfg: Settings, threads: Threads, views: seq<EventView>, capacity: int, id: nat)
    requires DistinctIds(views)
    ensures AfterCycle(cfg, threads, views, capacity)(id) != [] <==> threads(id) != [] || IsTurn(threads, views, capacity, id)
  {
    var events := Selected(views, Known(threads), capacity);
    CycleAt(cfg, threads, views, capacity, id);
    if threads(id) != [] {
      ThreadsGrow(cfg, threads(id), SeenOf(events, id));
    } else if v :| v in views && v.id == id {
      InitialIffFewAhead(cfg, threads, views, capacity, v);
      forall x | x in views && x.id == id ensures x == v {
        SameById(views, x, v);
      }
    } else {
      SelectedWithin(views, Known(threads), capacity);
      NeverStarts(cfg, events, id);
    }
  }

  lemma OpenedAt(cfg: Settings, run: Cycles, capacity: int, k: nat, id: nat)
    requires CycleStep(cfg, run, capacity, k) && DistinctIds(run.tables(k))
    ensures run.threads(k + 1)(id) != [] <==> run.threads(k)(id) != [] || TurnAt(run, capacity, k, id)
  {
    OpenedIffTurn(cfg, run.threads(k), run.tables(k), capacity, id);
  }

  /** Over any run of cycles, whatever the table shows in each and in whatever order: an event has
      an alert after `n` cycles iff at one of them it was its turn. */
  lemma AlertIffTurnCame(cfg: Settings, run: Cycles, capacity: int, n: nat, id: nat)
    requires Runs(cfg, run, capacity, n) && run.threads(0)(id) == []
    requires forall k: nat :: k < n ==> DistinctIds(run.tables(k))
    ensures run.threads(n)(id) != [] <==> exists k: nat :: k < n && TurnAt(run, capacity, k, id)
  {
    var holds, turn := (k: nat) => run.threads(k)(id) != [], (k: nat) => TurnAt(run, capacity, k, id);
    forall k: nat | k < n ensures holds(k + 1) <==> holds(k) || turn(k) {
      assert CycleStep(cfg, run, capacity, k);
      OpenedAt(cfg, run, capacity, k, id);
    }
    TrueOnceTurned(holds, turn, n);
    assert forall k: nat :: turn(k) == TurnAt(run, capacity, k, id);
  }

  // ----- Starvation -----

  function Among(ids: set<nat>): EventView -> bool {
    (v: EventView) => v.id in ids
  }

  /** None of these events can start a thread: each is news, resolved or closed. */
  ghost predicate Stuck(views: seq<EventView>, ids: set<nat>) {
    forall v :: v in views && v.id in ids ==> !CanStart(v)
  }

  /** As many of these events as the capacity stand before the event. */
  ghost predicate CrowdedOut(views: seq<EventView>, ids: set<nat>, id: nat, capacity: int) {
    forall v :: v in views && v.id == id ==> Ahead(views, v, Among(ids)) >= Cap(capacity)
  }

  lemma StuckUnseen(cfg: Settings, threads: Threads, views: seq<EventView>, capacity: int, ids: set<nat>, id: nat)
    requires threads(id) == [] && Stuck(views, ids) && id in ids
    ensures AfterCycle(cfg, threads, views, capacity)(id) == []
  {
    SelectedWithin(views, Known(threads), capacity);
    NeverStarts(cfg, Selected(views, Known(threads), capacity), id);
    CycleAt(cfg, threads, views, capacity, id);
  }

  /** An event that stuck events crowd out is not taken up. */
  lemma CrowdedUnseen(cfg: Settings, threads: Threads, views: seq<EventView>, capacity: int, ids: set<nat>, id: nat)
    requires threads(id) == [] && CrowdedOut(views, ids, id, capacity) && forall x :: x in ids ==> threads(x) == []
    ensures AfterCycle(cfg, threads, views, capacity)(id) == []
  {
    var known := Known(threads);
    SelectedWithin(views, known, capacity);
    forall v | v in Selected(views, known, capacity) ensures v.id != id {
      if v.id == id {
        AheadMonotone(views, v, Among(ids), Missing(known));
        SelectedIffFewAhead(views, known, capacity, v);
      }
    }
    NeverStarts(cfg, Selected(views, known, capacity), id);
    CycleAt(cfg, threads, views, capacity, id);
  }

  /** Neither the event nor any of these has an alert. */
  ghost predicate NoneHas(threads: Threads, ids: set<nat>, id: nat) {
    threads(id) == [] && forall x :: x in ids ==> threads(x) == []
  }

  lemma StarvedStep(cfg: Settings, run: Cycles, capacity: int, k: nat, ids: set<nat>, id: nat)
    requires CycleStep(cfg, run, capacity, k) && NoneHas(run.threads(k), ids, id)
    requires Stuck(run.tables(k), ids) && CrowdedOut(run.tables(k), ids, id, capacity)
    ensures NoneHas(run.threads(k + 1), ids, id)
  {
    CrowdedUnseen(cfg, run.threads(k), run.tables(k), capacity, ids, id);
    forall x | x in ids ensures run.threads(k + 1)(x) == [] {
      StuckUnseen(cfg, run.threads(k), run.tables(k), capacity, ids, x);
    }
  }

  /** The promise that no event starves fails: an event without an alert gets none in any number of
      cycles, as long as in each as many stuck events without an alert as the capacity stand before
      it; for these never get an alert, and so never leave the first query. */
  lemma StuckStarve(cfg: Settings, run: Cycles, capacity: int, n: nat, ids: set<nat>, id: nat)
    requires Runs(cfg, run, capacity, n) && NoneHas(run.threads(0), ids, id)
    requires forall k: nat :: k < n ==> Stuck(run.tables(k), ids) && CrowdedOut(run.tables(k), ids, id, capacity)
    ensures NoneHas(run.threads(n), ids, id)
  {
    var none := (k: nat) => NoneHas(run.threads(k), ids, id);
    forall k: nat | k < n && none(k) ensures none(k + 1) {
      assert CycleStep(cfg, run, capacity, k);
      StarvedStep(cfg, run, capacity, k, ids, id);
    }
    KeptThrough(none, n);
  }

  /** For instance: with a capacity of one, a single news, resolved or closed event keeps an open
      one without an alert for good, if it is newer, or as new and listed first. */
  lemma OneStuckEventStarves(cfg: Settings, run: Cycles, quake: EventView, other: EventView, n: nat)
    requires CanStart(quake) && !CanStart(other) && quake.id != other.id && other.updatedAt >= quake.updatedAt
    requires Runs(cfg, run, 1, n) && run.threads(0)(quake.id) == [] && run.threads(0)(other.id) == []
    requires forall k: nat :: k < n ==> run.tables(k) == [other, quake]
    ensures run.threads(n)(quake.id) == []
  {
    var views, ids := [other, quake], {other.id};
    assert views[1..] == [quake] && [quake][1..] == [];
    assert Ahead([quake], quake, Among(ids)) == 0;
    assert Ahead(views, quake, Among(ids)) == 1;
    assert CrowdedOut(views, ids, quake.id, 1) && Stuck(views, ids);
    StuckStarve(cfg, run, 1, n, ids, quake.id);
  }
}
