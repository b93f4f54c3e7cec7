/** How the raw queue is cut into batches, and when articles arrive, does not matter: clustering in
    bounded cycles with the profiles kept in memory ends in the same tables as one article at a
    time with everything read afresh. */
module EventBatches {
  import opened Wrappers
  import opened EventEngine
  import opened Loops
  import opened Text

  /** One article, with the profiles read from the tables. */
  function FreshStep(sim: Sim, threshold: real, db: Db, i: nat): Db
    requires InRange(db) && i < |db.articles|
  {
    ProfilesUpToInRange(db, |db.events|);
    Carry(db, i, Judge(sim, threshold, db, i, Profiles(db)))
  }

  lemma FreshStepInRange(sim: Sim, threshold: real, db: Db, i: nat)
    requires InRange(db) && i < |db.articles|
    ensures InRange(FreshStep(sim, threshold, db, i))
    ensures |FreshStep(sim, threshold, db, i).articles| == |db.articles|
  {
    ProfilesUpToInRange(db, |db.events|);
    RememberIsProfiles(db, i, Judge(sim, threshold, db, i, Profiles(db)));
  }

  /** The first raw article, if there is one. */
  function NextStep(sim: Sim, threshold: real, db: Db): Db {
    if !InRange(db) || RawIds(db) == [] then db
    else
      RawInRange(db.articles, |db.articles|);
      FreshStep(sim, threshold, db, RawIds(db)[0])
  }

  function Stepper(sim: Sim, threshold: real): Db -> Db {
    db => NextStep(sim, threshold, db)
  }

  /** The first `n` raw articles, one at a time. */
  function Drain(sim: Sim, threshold: real, db: Db, n: nat): Db {
    Iterate(Stepper(sim, threshold), n, db)
  }

  // ----- The queue -----

  lemma {:induction false} NoRawBefore(articles: seq<Article>, n: nat)
    requires n <= |articles| && RawUpTo(articles, n) != []
    ensures forall k :: 0 <= k < RawUpTo(articles, n)[0] && k < n ==> articles[k].status != Raw
  {
    if n > 0 && RawUpTo(articles, n - 1) != [] {
      NoRawBefore(articles, n - 1);
      RawInRange(articles, n - 1);
    } else {
      NoneRaw(articles, n - 1);
    }
  }

  lemma {:induction false} NoneRaw(articles: seq<Article>, n: nat)
    requires n <= |articles| && RawUpTo(articles, n) == []
    ensures forall k :: 0 <= k < n ==> articles[k].status != Raw
  {
    if n == 0 {
    } else {
      NoneRaw(articles, n - 1);
    }
  }

  lemma {:induction false} RawLast(articles: seq<Article>, n: nat)
    requires n < |articles|
    ensures RawUpTo(articles, n + 1) == RawUpTo(articles, n) + if articles[n].status == Raw then [n] else []
  {
  }

  lemma {:induction false} NothingRaw(articles: seq<Article>, n: nat)
    requires n <= |articles| && forall k :: 0 <= k < n ==> articles[k].status != Raw
    ensures RawUpTo(articles, n) == []
  {
    if n > 0 {
      NothingRaw(articles, n - 1);
    }
  }

  /** Processing the first raw article takes it off the front of the queue. */
  lemma {:induction false} QueueShift(articles: seq<Article>, i: nat, articles': seq<Article>, n: nat)
    requires i < n <= |articles| == |articles'| && articles[i].status == Raw && articles'[i].status != Raw
    requires forall k :: 0 <= k < i ==> articles[k].status != Raw
    requires forall k :: 0 <= k < |articles| && k != i ==> articles'[k] == articles[k]
    ensures RawUpTo(articles, n) == [i] + RawUpTo(articles', n)
  {
    RawLast(articles, n - 1);
    RawLast(articles', n - 1);
    if n == i + 1 {
      NothingRaw(articles, i);
      NothingRaw(articles', i);
      assert [] + [i] == [i] + ([] + []);
    } else {
      QueueShift(articles, i, articles', n - 1);
      ConcatAssociates([i], RawUpTo(articles', n - 1), if articles[n - 1].status == Raw then [n - 1] else []);
    }
  }

  /** A step takes one article off the front of the queue. */
  lemma StepShiftsQueue(sim: Sim, threshold: real, db: Db)
    requires InRange(db)
    ensures var db' := NextStep(sim, threshold, db);
            && InRange(db') && |db'.articles| == |db.articles|
            && RawIds(db') == if RawIds(db) == [] then [] else RawIds(db)[1..]
  {
    if RawIds(db) != [] {
      RawInRange(db.articles, |db.articles|);
      var i := RawIds(db)[0];
      FreshStepInRange(sim, threshold, db, i);
      NoRawBefore(db.articles, |db.articles|);
      ProfilesUpToInRange(db, |db.events|);
      var v := Judge(sim, threshold, db, i, Profiles(db));
      CarryMarks(db, i, v);
      QueueShift(db.articles, i, Carry(db, i, v).articles, |db.articles|);
    }
  }

  lemma CarryMarks(db: Db, i: nat, v: Verdict)
    requires i < |db.articles| && (v.Joins? ==> v.event < |db.events|)
    ensures Carry(db, i, v).articles == Marked(db, i, if v.Copy? then Deduplicated else Clustered)
  {
  }

  lemma DrainStep(sim: Sim, threshold: real, db: Db, n: nat)
    ensures Drain(sim, threshold, db, n + 1) == Drain(sim, threshold, NextStep(sim, threshold, db), n)
  {
  }

  ghost predicate BatchFits(db: Db, pending: seq<nat>) {
    && InRange(db) && pending <= RawIds(db) && ProfilesInRange(db, Profiles(db))
    && forall m :: 0 <= m < |pending| ==> pending[m] < |db.articles|
  }

  lemma RunBatchStep(sim: Sim, threshold: real, db: Db, pending: seq<nat>, profiles: seq<EventProfile>, v: Verdict)
    requires pending != [] && forall m :: 0 <= m < |pending| ==> pending[m] < |db.articles|
    requires ProfilesInRange(db, profiles) && v == Judge(sim, threshold, db, pending[0], profiles)
    requires |Carry(db, pending[0], v).articles| == |db.articles|
    requires ProfilesInRange(Carry(db, pending[0], v), Remember(db, pending[0], v, profiles))
    ensures RunBatch(sim, threshold, db, pending, profiles)
         == RunBatch(sim, threshold, Carry(db, pending[0], v), pending[1..], Remember(db, pending[0], v, profiles))
  {
  }

  /** One turn of the code's batch is one fresh step, and leaves the rest of the batch. */
  lemma BatchStep(sim: Sim, threshold: real, db: Db, pending: seq<nat>) returns (db': Db)
    requires BatchFits(db, pending) && pending != []
    ensures BatchFits(db', pending[1..])
    ensures RunBatch(sim, threshold, db, pending, Profiles(db)) == RunBatch(sim, threshold, db', pending[1..], Profiles(db'))
    ensures Drain(sim, threshold, db, |pending|) == Drain(sim, threshold, db', |pending[1..]|)
  {
    db' := TurnOfBatch(sim, threshold, db, pending);
    DrainStep(sim, threshold, db, |pending| - 1);
  }

  lemma TurnOfBatch(sim: Sim, threshold: real, db: Db, pending: seq<nat>) returns (db': Db)
    requires BatchFits(db, pending) && pending != []
    ensures BatchFits(db', pending[1..]) && db' == NextStep(sim, threshold, db)
    ensures RunBatch(sim, threshold, db, pending, Profiles(db)) == RunBatch(sim, threshold, db', pending[1..], Profiles(db'))
  {
    var v := Judge(sim, threshold, db, pending[0], Profiles(db));
    db' := NextStep(sim, threshold, db);
    StepShiftsQueue(sim, threshold, db);
    RememberIsProfiles(db, pending[0], v);
    ProfilesUpToInRange(db', |db'.events|);
    RunBatchStep(sim, threshold, db, pending, Profiles(db), v);
  }

  /** The code's batch is a drain of its length. */
  lemma {:induction false} BatchIsDrain(sim: Sim, threshold: real, db: Db, pending: seq<nat>)
    requires BatchFits(db, pending)
    ensures RunBatch(sim, threshold, db, pending, Profiles(db)) == Drain(sim, threshold, db, |pending|)
    decreases |pending|
  {
    if pending != [] {
      var db' := BatchStep(sim, threshold, db, pending);
      BatchIsDrain(sim, threshold, db', pending[1..]);
    }
  }

  /** A cycle with batch size `b` processes exactly the first min(b, backlog) raw articles. */
  lemma CycleIsDrain(sim: Sim, threshold: real, db: Db, batch: nat)
    requires InRange(db)
    ensures Cycle(sim, threshold, db, batch) == Drain(sim, threshold, db, Min(batch, |RawIds(db)|))
  {
    ProfilesUpToInRange(db, |db.events|);
    RawInRange(db.articles, |db.articles|);
    BatchIsDrain(sim, threshold, db, Pending(db, batch));
  }

  lemma {:induction false} DrainInRange(sim: Sim, threshold: real, db: Db, n: nat)
    requires InRange(db)
    ensures InRange(Drain(sim, threshold, db, n)) && |Drain(sim, threshold, db, n).articles| == |db.articles|
    ensures RawIds(Drain(sim, threshold, db, n)) == RawIds(db)[Min(n, |RawIds(db)|)..]
  {
    if n == 0 {
    } else {
      DrainInRange(sim, threshold, db, n - 1);
      var before := Drain(sim, threshold, db, n - 1);
      IterateLast(Stepper(sim, threshold), n, db);
      StepShiftsQueue(sim, threshold, before);
    }
  }

  lemma DrainSplits(sim: Sim, threshold: real, db: Db, a: nat, b: nat)
    ensures Drain(sim, threshold, Drain(sim, threshold, db, a), b) == Drain(sim, threshold, db, a + b)
  {
    IterateSplits(Stepper(sim, threshold), a, b, db);
  }

  /** Steps beyond the end of the queue do nothing. */
  lemma DrainStops(sim: Sim, threshold: real, db: Db, n: nat)
    requires InRange(db) && n >= |RawIds(db)|
    ensures Drain(sim, threshold, db, n) == Drain(sim, threshold, db, |RawIds(db)|)
  {
    var most := |RawIds(db)|;
    DrainInRange(sim, threshold, db, most);
    DrainSplits(sim, threshold, db, most, n - most);
    IterateStays(Stepper(sim, threshold), n - most, Drain(sim, threshold, db, most));
  }

  // ----- Cycles of any sizes -----

  function Total(batches: seq<nat>): nat {
    if batches == [] then 0 else Total(batches[..|batches| - 1]) + batches[|batches| - 1]
  }

  lemma CycleInRange(sim: Sim, threshold: real, db: Db, batch: nat)
    requires InRange(db)
    ensures InRange(Cycle(sim, threshold, db, batch))
    ensures |RawIds(Cycle(sim, threshold, db, batch))| == |RawIds(db)| - Min(batch, |RawIds(db)|)
  {
    CycleIsDrain(sim, threshold, db, batch);
    DrainInRange(sim, threshold, db, Min(batch, |RawIds(db)|));
  }

  function Cycler(sim: Sim, threshold: real): (Db, nat) -> Db {
    (db: Db, batch: nat) => if InRange(db) then Cycle(sim, threshold, db, batch) else db
  }

  function Cycles(sim: Sim, threshold: real, db: Db, batches: seq<nat>): Db {
    Fold(Cycler(sim, threshold), db, batches)
  }

  /** A cycle may be read as taking its whole batch: steps beyond the queue do nothing. */
  lemma CycleIsFullDrain(sim: Sim, threshold: real, db: Db, batch: nat)
    requires InRange(db)
    ensures Cycle(sim, threshold, db, batch) == Drain(sim, threshold, db, batch)
  {
    CycleIsDrain(sim, threshold, db, batch);
    if batch > |RawIds(db)| {
      DrainStops(sim, threshold, db, batch);
    }
  }

  /** A cycle after a drain is a longer drain. */
  lemma CycleAfterDrain(sim: Sim, threshold: real, db: Db, n: nat, batch: nat)
    requires InRange(Drain(sim, threshold, db, n))
    ensures Cycle(sim, threshold, Drain(sim, threshold, db, n), batch) == Drain(sim, threshold, db, n + batch)
  {
    CycleIsFullDrain(sim, threshold, Drain(sim, threshold, db, n), batch);
    DrainSplits(sim, threshold, db, n, batch);
  }

  /** The tables are those of `db` with `n` raw articles clustered, or with all of them. */
  ghost predicate IsDrain(sim: Sim, threshold: real, db: Db, n: nat, d: Db) {
    d == Drain(sim, threshold, db, n)
  }

  lemma AnotherCycle(sim: Sim, threshold: real, db: Db, n: nat, d: Db, batch: nat)
    requires InRange(db) && IsDrain(sim, threshold, db, n, d)
    ensures InRange(d) && IsDrain(sim, threshold, db, n + batch, Cycle(sim, threshold, d, batch))
  {
    DrainInRange(sim, threshold, db, n);
    CycleAfterDrain(sim, threshold, db, n, batch);
  }

  lemma CyclerStep(sim: Sim, threshold: real, db: Db, batches: seq<nat>, k: nat, d: Db)
    requires InRange(db) && k < |batches| && IsDrain(sim, threshold, db, Total(batches[..k]), d)
    ensures IsDrain(sim, threshold, db, Total(batches[..k + 1]), Cycler(sim, threshold)(d, batches[k]))
  {
    AnotherCycle(sim, threshold, db, Total(batches[..k]), d, batches[k]);
    assert batches[..k + 1][..k] == batches[..k];
    assert Total(batches[..k + 1]) == Total(batches[..k]) + batches[k];
  }

  lemma CyclesAreDrain(sim: Sim, threshold: real, db: Db, batches: seq<nat>)
    requires InRange(db)
    ensures IsDrain(sim, threshold, db, Total(batches), Cycles(sim, threshold, db, batches))
  {
    var f := Cycler(sim, threshold);
    var holds := (k: nat, d: Db) => k <= |batches| && IsDrain(sim, threshold, db, Total(batches[..k]), d);
    forall k: nat, d: Db | k < |batches| && holds(k, d) ensures holds(k + 1, f(d, batches[k])) {
      CyclerStep(sim, threshold, db, batches, k, d);
    }
    FoldKeeps(f, db, batches, holds);
    assert batches[..|batches|] == batches;
  }

  /** Batch splitting does not matter: whatever the batch sizes, cycles that together take in the
      whole backlog end in the very tables that one cycle over all of it produces, and nothing
      is left raw. */
  lemma BatchSizesDoNotMatter(sim: Sim, threshold: real, db: Db, batches: seq<nat>)
    requires InRange(db) && Total(batches) >= |RawIds(db)|
    ensures Cycles(sim, threshold, db, batches) == Cycle(sim, threshold, db, |RawIds(db)|)
    ensures RawIds(Cycles(sim, threshold, db, batches)) == []
  {
    CyclesAreDrain(sim, threshold, db, batches);
    DrainStops(sim, threshold, db, Total(batches));
    CycleIsDrain(sim, threshold, db, |RawIds(db)|);
    DrainInRange(sim, threshold, db, |RawIds(db)|);
  }

  // ----- Arrivals between cycles -----

  /** A newly collected article. */
  function Ingest(db: Db, c: Content): Db {
    db.(articles := db.articles + [Article(c, Raw)])
  }

  lemma {:induction false} FindCopyPrefix(articles: seq<Article>, a: Article, i: nat, k: nat)
    requires i < |articles| && k <= |articles| && a.status == Raw
    ensures FindCopy(articles + [a], i, k) == FindCopy(articles, i, k)
    decreases |articles| - k
  {
    if k == |articles| {
      assert !IsCopyOf(articles + [a], i, k);
    } else {
      assert IsCopyOf(articles + [a], i, k) == IsCopyOf(articles, i, k);
      FindCopyPrefix(articles, a, i, k + 1);
    }
  }

  lemma {:induction false} BestMatchPrefix(sim: Sim, articles: seq<Article>, a: Article, c: Content, profiles: seq<EventProfile>)
    requires forall m :: 0 <= m < |profiles| ==> profiles[m].article < |articles|
    ensures BestMatch(sim, articles + [a], c, profiles) == BestMatch(sim, articles, c, profiles)
  {
    if profiles == [] {
    } else {
      BestMatchPrefix(sim, articles, a, c, profiles[..|profiles| - 1]);
    }
  }

  lemma {:induction false} RawPrefix(articles: seq<Article>, a: Article, n: nat)
    requires n <= |articles|
    ensures RawUpTo(articles + [a], n) == RawUpTo(articles, n)
  {
    if n == 0 {
    } else {
      RawPrefix(articles, a, n - 1);
    }
  }

  lemma IngestQueues(db: Db, c: Content)
    ensures RawIds(Ingest(db, c)) == RawIds(db) + [|db.articles|]
  {
    RawPrefix(db.articles, Article(c, Raw), |db.articles|);
  }

  /** An arrival does not disturb the clustering of an article before it. */
  lemma StepThenIngest(sim: Sim, threshold: real, db: Db, i: nat, c: Content)
    requires InRange(db) && i < |db.articles|
    ensures InRange(Ingest(db, c))
    ensures FreshStep(sim, threshold, Ingest(db, c), i) == Ingest(FreshStep(sim, threshold, db, i), c)
  {
    var a := Article(c, Raw);
    ProfilesUpToInRange(db, |db.events|);
    FindCopyPrefix(db.articles, a, i, 0);
    BestMatchPrefix(sim, db.articles, a, db.articles[i].content, Profiles(db));
    var v := Judge(sim, threshold, db, i, Profiles(db));
    assert v == Judge(sim, threshold, Ingest(db, c), i, Profiles(Ingest(db, c)));
    var s := if v.Copy? then Deduplicated else Clustered;
    assert Marked(Ingest(db, c), i, s) == Marked(db, i, s) + [a];
  }

  lemma NextThenIngest(sim: Sim, threshold: real, db: Db, c: Content)
    requires InRange(db) && RawIds(db) != []
    ensures NextStep(sim, threshold, Ingest(db, c)) == Ingest(NextStep(sim, threshold, db), c)
  {
    RawInRange(db.articles, |db.articles|);
    IngestQueues(db, c);
    StepThenIngest(sim, threshold, db, RawIds(db)[0], c);
  }

  lemma DrainThenIngest(sim: Sim, threshold: real, db: Db, n: nat, c: Content)
    requires InRange(db) && n <= |RawIds(db)|
    ensures Drain(sim, threshold, Ingest(db, c), n) == Ingest(Drain(sim, threshold, db, n), c)
  {
    var f, g := Stepper(sim, threshold), (d: Db) => Ingest(d, c);
    forall k: nat | k < n ensures f(g(Iterate(f, k, db))) == g(f(Iterate(f, k, db))) {
      DrainInRange(sim, threshold, db, k);
      NextThenIngest(sim, threshold, Drain(sim, threshold, db, k), c);
    }
    IterateCommutes(f, g, n, db);
  }

  datatype Op = Arrive(content: Content) | RunCycle(batch: nat)

  function Applier(sim: Sim, threshold: real): (Db, Op) -> Db {
    (db: Db, op: Op) =>
      match op
      case Arrive(c) => Ingest(db, c)
      case RunCycle(batch) => if InRange(db) then Cycle(sim, threshold, db, batch) else db
  }

  function ApplyAll(sim: Sim, threshold: real, ops: seq<Op>): Db {
    Fold(Applier(sim, threshold), EMPTY, ops)
  }

  /** All the articles of a schedule, collected before anything is clustered. */
  function Collected(ops: seq<Op>): (db: Db)
    ensures InRange(db)
  {
    if ops == [] then EMPTY
    else
      match ops[|ops| - 1]
      case Arrive(c) => Ingest(Collected(ops[..|ops| - 1]), c)
      case RunCycle(_) => Collected(ops[..|ops| - 1])
  }

  /** The tables are those of the collected articles with some first part of them clustered. */
  ghost predicate DrainOf(sim: Sim, threshold: real, all: Db, db: Db) {
    exists n: nat :: n <= |RawIds(all)| && db == Drain(sim, threshold, all, n)
  }

  lemma ArrivalStep(sim: Sim, threshold: real, all: Db, db: Db, c: Content)
    requires InRange(all) && DrainOf(sim, threshold, all, db)
    ensures DrainOf(sim, threshold, Ingest(all, c), Ingest(db, c))
  {
    var n: nat :| n <= |RawIds(all)| && db == Drain(sim, threshold, all, n);
    DrainThenIngest(sim, threshold, all, n, c);
    IngestQueues(all, c);
  }

  lemma CycleWithin(sim: Sim, threshold: real, all: Db, n: nat, batch: nat) returns (more: nat)
    requires InRange(all) && n <= |RawIds(all)|
    ensures InRange(Drain(sim, threshold, all, n)) && more <= |RawIds(all)|
    ensures Cycle(sim, threshold, Drain(sim, threshold, all, n), batch) == Drain(sim, threshold, all, more)
  {
    DrainInRange(sim, threshold, all, n);
    var db := Drain(sim, threshold, all, n);
    var taken := Min(batch, |RawIds(db)|);
    CycleIsDrain(sim, threshold, db, batch);
    DrainSplits(sim, threshold, all, n, taken);
    more := n + taken;
  }

  lemma CycleStep(sim: Sim, threshold: real, all: Db, db: Db, batch: nat)
    requires InRange(all) && DrainOf(sim, threshold, all, db)
    ensures InRange(db) && DrainOf(sim, threshold, all, Cycle(sim, threshold, db, batch))
  {
    var n: nat :| n <= |RawIds(all)| && db == Drain(sim, threshold, all, n);
    var more := CycleWithin(sim, threshold, all, n, batch);
  }

  lemma ScheduleStep(sim: Sim, threshold: real, ops: seq<Op>, k: nat, d: Db)
    requires k < |ops| && DrainOf(sim, threshold, Collected(ops[..k]), d)
    ensures DrainOf(sim, threshold, Collected(ops[..k + 1]), Applier(sim, threshold)(d, ops[k]))
  {
    assert ops[..k + 1][..k] == ops[..k];
    match ops[k]
    case Arrive(c) =>
      ArrivalStep(sim, threshold, Collected(ops[..k]), d, c);
      assert Collected(ops[..k + 1]) == Ingest(Collected(ops[..k]), c);
    case RunCycle(batch) =>
      CycleStep(sim, threshold, Collected(ops[..k]), d, batch);
      assert Collected(ops[..k + 1]) == Collected(ops[..k]);
  }

  lemma ScheduleIsDrain(sim: Sim, threshold: real, ops: seq<Op>)
    ensures DrainOf(sim, threshold, Collected(ops), ApplyAll(sim, threshold, ops))
  {
    var f := Applier(sim, threshold);
    var holds := (k: nat, d: Db) => k <= |ops| && DrainOf(sim, threshold, Collected(ops[..k]), d);
    forall k: nat, d: Db | k < |ops| && holds(k, d) ensures holds(k + 1, f(d, ops[k])) {
      ScheduleStep(sim, threshold, ops, k, d);
    }
    assert EMPTY == Drain(sim, threshold, EMPTY, 0);
    FoldKeeps(f, EMPTY, ops, holds);
    assert ops[..|ops|] == ops;
  }

  /** Neither does the schedule matter: however arrivals and cycles of any sizes are interleaved,
      once nothing is raw the tables are those of one pass over all the articles. */
  lemma {:induction false} ScheduleDoesNotMatter(sim: Sim, threshold: real, ops: seq<Op>)
    requires RawIds(ApplyAll(sim, threshold, ops)) == []
    ensures ApplyAll(sim, threshold, ops) == Cycle(sim, threshold, Collected(ops), |RawIds(Collected(ops))|)
  {
    var all := Collected(ops);
    ScheduleIsDrain(sim, threshold, ops);
    var n: nat :| n <= |RawIds(all)| && ApplyAll(sim, threshold, ops) == Drain(sim, threshold, all, n);
    DrainInRange(sim, threshold, all, n);
    assert n == |RawIds(all)|;
    CycleIsDrain(sim, threshold, all, n);
  }
}
