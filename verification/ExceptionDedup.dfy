/**
 The dedup loop of evaluateShipmentGeofences in backend/handlers/logistics_execution.go: each
 geofence event of a GPS ingest raises an exception row unless an OPEN row of the same
 shipment and type was raised in the last five minutes.

 Clock readings are nanoseconds; a TIMESTAMPTZ column and a query parameter hold microseconds.
 A shipment belongs to one tenant, so its id stands for the tenant filter too.
 */
module ExceptionDedup {
  import opened Geofence

  const MICROSECOND: int := 1000
  /** geofenceDedupWindowMinutes, in microseconds and in nanoseconds. */
  const WINDOW: int := 5 * 60 * 1_000_000
  const WINDOW_NS: int := WINDOW * MICROSECOND

  /** What the database keeps of a moment. */
  function Stored(t: int): int {
    t / MICROSECOND
  }

  datatype Status = OPEN | ACKNOWLEDGED | ESCALATED | RESOLVED
  datatype Row = Row(shipment: string, exType: string, status: Status, raisedAt: int)

  /** One event of an ingest, with the clock at its insert and whether that insert succeeds. */
  datatype Observed = Observed(event: Event, at: int, inserts: bool)

  /** The same with the event's type code, and times as the database keeps them. */
  datatype Sighting = Sighting(exType: string, at: int, inserts: bool)
  datatype Ingest = Ingest(shipment: string, now: int, sightings: seq<Sighting>)

  function Sight(o: Observed): Sighting {
    Sighting(EventTypeCode(o.event), Stored(o.at), o.inserts)
  }

  function IngestOf(shipment: string, now: int, events: seq<Observed>): Ingest {
    Ingest(shipment, Stored(now), seq(|events|, k requires 0 <= k < |events| => Sight(events[k])))
  }

  /** The clock does not run backwards while an ingest is handled. */
  predicate Timely(g: Ingest) {
    forall k | 0 <= k < |g.sightings| :: g.now <= g.sightings[k].at
  }

  /**
   Five minutes are whole microseconds, so it does not matter that the cutoff is cut to microseconds
   after the subtraction.
   */
  lemma CutoffIsStored(now: int)
    ensures Stored(now - WINDOW_NS) == Stored(now) - WINDOW
  {
  }

  lemma ClockIsTimely(shipment: string, now: int, events: seq<Observed>)
    requires NotBefore(now, events)
    ensures Timely(IngestOf(shipment, now, events))
  {
    forall k | 0 <= k < |events|
      ensures Stored(now) <= Stored(events[k].at)
    {
      assert now <= events[k].at;
    }
  }

  /** The WHERE clause of the dedup query. */
  predicate Recent(row: Row, shipment: string, exType: string, cutoff: int) {
    row.shipment == shipment && row.exType == exType && row.status.OPEN? && row.raisedAt > cutoff
  }

  /** SELECT count(*). */
  function Count(rows: seq<Row>, shipment: string, exType: string, cutoff: int): nat {
    if rows == [] then 0
    else
      var n := |rows| - 1;
      Count(rows[..n], shipment, exType, cutoff) + (if Recent(rows[n], shipment, exType, cutoff) then 1 else 0)
  }

  /** No OPEN row of the type was raised for the shipment in the window. */
  predicate NewType(rows: seq<Row>, g: Ingest, exType: string) {
    forall i | 0 <= i < |rows| :: !Recent(rows[i], g.shipment, exType, g.now - WINDOW)
  }

  function Raised(g: Ingest, s: Sighting): Row {
    Row(g.shipment, s.exType, OPEN, s.at)
  }

  /** The rows one sighting adds. */
  function Added(rows: seq<Row>, g: Ingest, s: Sighting): seq<Row> {
    if NewType(rows, g, s.exType) && s.inserts then [Raised(g, s)] else []
  }

  /** The table after the first k events of an ingest. */
  function RowsAfter(rows: seq<Row>, g: Ingest, k: nat): seq<Row>
    requires k <= |g.sightings|
  {
    if k == 0 then rows
    else
      var before := RowsAfter(rows, g, k - 1);
      before + Added(before, g, g.sightings[k - 1])
  }

  class ExceptionTable {
    var rows: seq<Row>

    method Raise(shipment: string, now: int, events: seq<Observed>) returns (raised: nat)
      modifies this
      ensures rows == RowsAfter(old(rows), IngestOf(shipment, now, events), |events|)
      ensures raised == |rows| - |old(rows)|
    {
      CutoffIsStored(now);
      raised := RaiseAll(IngestOf(shipment, now, events), Stored(now - WINDOW_NS));
    }

    method RaiseAll(g: Ingest, cutoff: int) returns (raised: nat)
      requires cutoff == g.now - WINDOW
      modifies this
      ensures rows == RowsAfter(old(rows), g, |g.sightings|)
      ensures raised == |rows| - |old(rows)|
    {
      raised := 0;
      for k := 0 to |g.sightings|
        invariant rows == RowsAfter(old(rows), g, k)
        invariant |rows| == |old(rows)| + raised
      {
        var s := g.sightings[k];
        var recent := Count(rows, g.shipment, s.exType, cutoff);
        CountIsZero(rows, g.shipment, s.exType, cutoff);
        if recent > 0 {
          continue;
        }
        if s.inserts {
          rows := rows + [Row(g.shipment, s.exType, OPEN, s.at)];
          raised := raised + 1;
        }
      }
    }
  }

  // ---- One ingest ----

  lemma {:induction false} CountIsZero(rows: seq<Row>, shipment: string, exType: string, cutoff: int)
    ensures Count(rows, shipment, exType, cutoff) == 0
       <==> forall i | 0 <= i < |rows| :: !Recent(rows[i], shipment, exType, cutoff)
  {
    if rows != [] {
      CountIsZero(rows[..|rows| - 1], shipment, exType, cutoff);
    }
  }

  lemma {:induction false} RowsOnlyGrow(rows: seq<Row>, g: Ingest, j: nat, k: nat)
    requires j <= k <= |g.sightings|
    ensures RowsAfter(rows, g, j) <= RowsAfter(rows, g, k)
  {
    if j < k {
      var before := RowsAfter(rows, g, k - 1);
      RowsOnlyGrow(rows, g, j, k - 1);
      assert RowsAfter(rows, g, k) == before + Added(before, g, g.sightings[k - 1]);
    }
  }

  /** An OPEN row of the shipment and type, raised less than five minutes before the ingest read its clock. */
  predicate Blocks(row: Row, shipment: string, exType: string, now: int) {
    && row.shipment == shipment && row.exType == exType && row.status == OPEN
    && row.raisedAt > now / 1000 - 300_000_000
  }

  /**
   Event by event: its row is added, with its type and the clock at its insert, exactly when the
   insert works and no row of the table so far blocks it.
   */
  lemma EachEventExactly(rows: seq<Row>, shipment: string, now: int, events: seq<Observed>, k: nat)
    requires k < |events|
    ensures var g := IngestOf(shipment, now, events);
      var (before, o) := (RowsAfter(rows, g, k), events[k]);
      var exType := EventTypeCode(o.event);
      RowsAfter(rows, g, k + 1) == before +
        if o.inserts && forall i | 0 <= i < |before| :: !Blocks(before[i], shipment, exType, now)
        then [Row(shipment, exType, OPEN, o.at / 1000)] else []
  {
    var g := IngestOf(shipment, now, events);
    var before := RowsAfter(rows, g, k);
    forall i | 0 <= i < |before|
      ensures Recent(before[i], shipment, EventTypeCode(events[k].event), g.now - WINDOW)
        <==> Blocks(before[i], shipment, EventTypeCode(events[k].event), now)
    {
    }
  }

  lemma TypeCodesTellEventsApart(a: Event, b: Event)
    ensures EventTypeCode(a) == EventTypeCode(b)
       <==> a.kind == b.kind && (a.kind.ENTER? || a.kind.EXIT? ==> a.fenceKind == b.fenceKind)
  {
    var x, y := EventTypeCode(a), EventTypeCode(b);
    assert a.kind.ENTER? ==> x[9] == 'A' && x[17..] == KindName(a.fenceKind);
    assert b.kind.ENTER? ==> y[9] == 'A' && y[17..] == KindName(b.fenceKind);
    assert a.kind.EXIT? ==> x[9] == 'D' && x[18..] == KindName(a.fenceKind);
    assert b.kind.EXIT? ==> y[9] == 'D' && y[18..] == KindName(b.fenceKind);
    assert a.kind.DEVIATION? ==> x[9] == 'R' && x[15] == 'D';
    assert b.kind.DEVIATION? ==> y[9] == 'R' && y[15] == 'D';
    assert a.kind.RETURN? ==> x[9] == 'R' && x[15] == 'R';
    assert b.kind.RETURN? ==> y[9] == 'R' && y[15] == 'R';
  }

  predicate SameKey(a: Row, b: Row) {
    a.shipment == b.shipment && a.exType == b.exType
  }

  /** What dedup means: b comes five minutes after a, unless they differ in key or a is no longer OPEN. */
  predicate Apart(a: Row, b: Row) {
    a.status.OPEN? && SameKey(a, b) ==> a.raisedAt + WINDOW <= b.raisedAt
  }

  /** Every row an ingest adds is apart from every row before it, old or of the same ingest. */
  lemma {:induction false} AddedRowsAreApart(rows: seq<Row>, g: Ingest, k: nat, i: nat, j: nat)
    requires Timely(g) && k <= |g.sightings|
    requires i < j && |rows| <= j < |RowsAfter(rows, g, k)|
    ensures Apart(RowsAfter(rows, g, k)[i], RowsAfter(rows, g, k)[j])
  {
    var before := RowsAfter(rows, g, k - 1);
    if j < |before| {
      AddedRowsAreApart(rows, g, k - 1, i, j);
    }
  }

  lemma {:induction false} AddedRowsAreRecent(rows: seq<Row>, g: Ingest, k: nat, j: nat)
    requires Timely(g) && k <= |g.sightings|
    requires |rows| <= j < |RowsAfter(rows, g, k)|
    ensures var row := RowsAfter(rows, g, k)[j];
      row.shipment == g.shipment && row.status.OPEN? && row.raisedAt > g.now - WINDOW
  {
    if j < |RowsAfter(rows, g, k - 1)| {
      AddedRowsAreRecent(rows, g, k - 1, j);
    }
  }

  /**
   However many events of one type an ingest sees, it raises at most one of them: two stops of
   one kind entered by the same ping share a type and so a row.
   */
  lemma {:induction false} OneRowPerTypeAndIngest(rows: seq<Row>, g: Ingest, k: nat, i: nat, j: nat)
    requires Timely(g) && k <= |g.sightings|
    requires |rows| <= i < j < |RowsAfter(rows, g, k)|
    ensures RowsAfter(rows, g, k)[i].exType != RowsAfter(rows, g, k)[j].exType
  {
    var before := RowsAfter(rows, g, k - 1);
    if j < |before| {
      OneRowPerTypeAndIngest(rows, g, k - 1, i, j);
    } else {
      AddedRowsAreRecent(rows, g, k - 1, i);
    }
  }

  predicate Covered(rows: seq<Row>, g: Ingest, s: Sighting) {
    exists i | 0 <= i < |rows| :: Recent(rows[i], g.shipment, s.exType, g.now - WINDOW)
  }

  /** Nothing goes unreported: once its insert works, every event has an OPEN row raised within the window. */
  lemma {:induction false} EveryEventIsCovered(rows: seq<Row>, g: Ingest, k: nat, e: nat)
    requires Timely(g) && e < k <= |g.sightings| && g.sightings[e].inserts
    ensures Covered(RowsAfter(rows, g, k), g, g.sightings[e])
  {
    var before := RowsAfter(rows, g, k - 1);
    if e < k - 1 {
      EveryEventIsCovered(rows, g, k - 1, e);
      CoveredStays(before, Added(before, g, g.sightings[k - 1]), g, g.sightings[e]);
    } else {
      AddedCovers(before, g, g.sightings[e]);
    }
  }

  lemma CoveredStays(rows: seq<Row>, more: seq<Row>, g: Ingest, s: Sighting)
    requires Covered(rows, g, s)
    ensures Covered(rows + more, g, s)
  {
    var i :| 0 <= i < |rows| && Recent(rows[i], g.shipment, s.exType, g.now - WINDOW);
    assert (rows + more)[i] == rows[i];
  }

  lemma AddedCovers(rows: seq<Row>, g: Ingest, s: Sighting)
    requires s.inserts && g.now <= s.at
    ensures Covered(rows + Added(rows, g, s), g, s)
  {
    if NewType(rows, g, s.exType) {
      assert (rows + [Raised(g, s)])[|rows|] == Raised(g, s);
    } else {
      CoveredStays(rows, [], g, s);
    }
  }

  lemma {:induction false} NoMoreRowsThanEvents(rows: seq<Row>, g: Ingest, k: nat)
    requires k <= |g.sightings|
    ensures |RowsAfter(rows, g, k)| <= |rows| + k
  {
    if k > 0 {
      NoMoreRowsThanEvents(rows, g, k - 1);
    }
  }

  /** While every event has got its row, the new rows are theirs in order. */
  lemma {:induction false} RowsOfAllEvents(rows: seq<Row>, g: Ingest, k: nat, i: nat)
    requires i < k <= |g.sightings| && |RowsAfter(rows, g, k)| == |rows| + k
    ensures RowsAfter(rows, g, k)[|rows| + i] == Raised(g, g.sightings[i])
  {
    var before := RowsAfter(rows, g, k - 1);
    NoMoreRowsThanEvents(rows, g, k - 1);
    if i < k - 1 {
      RowsOfAllEvents(rows, g, k - 1, i);
    } else {
      assert Added(before, g, g.sightings[k - 1]) == [Raised(g, g.sightings[k - 1])];
    }
  }

  /** The next event's type is new to the table exactly when it is new to the old rows and to the events before it. */
  lemma NextTypeIsNew(rows: seq<Row>, g: Ingest, k: nat)
    requires Timely(g) && k < |g.sightings| && |RowsAfter(rows, g, k)| == |rows| + k
    ensures NewType(RowsAfter(rows, g, k), g, g.sightings[k].exType) <==> NewAfter(rows, g, k)
  {
    var before, exType := RowsAfter(rows, g, k), g.sightings[k].exType;
    RowsOnlyGrow(rows, g, 0, k);
    forall i | 0 <= i < k
      ensures Recent(before[|rows| + i], g.shipment, exType, g.now - WINDOW) <==> g.sightings[i].exType == exType
    {
      RowsOfAllEvents(rows, g, k, i);
    }
    forall j | |rows| <= j < |before|
      ensures Recent(before[j], g.shipment, exType, g.now - WINDOW) <==> g.sightings[j - |rows|].exType == exType
    {
      assert before[j] == before[|rows| + (j - |rows|)];
    }
  }

  /** Event k is of a type new to the old rows and to the events before it. */
  predicate NewAfter(rows: seq<Row>, g: Ingest, k: nat)
    requires k < |g.sightings|
  {
    NewType(rows, g, g.sightings[k].exType) && forall i | 0 <= i < k :: g.sightings[i].exType != g.sightings[k].exType
  }

  predicate NewSoFar(rows: seq<Row>, g: Ingest, k: nat)
    requires k <= |g.sightings|
  {
    k == 0 || (NewSoFar(rows, g, k - 1) && NewAfter(rows, g, k - 1))
  }

  lemma {:induction false} EveryEventSoFar(rows: seq<Row>, g: Ingest, k: nat)
    requires Timely(g) && k <= |g.sightings| && forall i | 0 <= i < k :: g.sightings[i].inserts
    ensures |RowsAfter(rows, g, k)| == |rows| + k <==> NewSoFar(rows, g, k)
  {
    if k > 0 {
      var before := RowsAfter(rows, g, k - 1);
      EveryEventSoFar(rows, g, k - 1);
      NoMoreRowsThanEvents(rows, g, k - 1);
      if |before| == |rows| + k - 1 {
        NextTypeIsNew(rows, g, k - 1);
      }
      assert RowsAfter(rows, g, k) == before + Added(before, g, g.sightings[k - 1]);
    }
  }

  /** The types of all events are pairwise distinct, and none has an OPEN row from the window already. */
  predicate AllNew(rows: seq<Row>, g: Ingest) {
    && (forall i, j | 0 <= i < j < |g.sightings| :: g.sightings[i].exType != g.sightings[j].exType)
    && (forall i | 0 <= i < |g.sightings| :: NewType(rows, g, g.sightings[i].exType))
  }

  lemma {:induction false} NewSoFarMeaning(rows: seq<Row>, g: Ingest, k: nat)
    requires k <= |g.sightings|
    ensures NewSoFar(rows, g, k) <==> forall i | 0 <= i < k :: NewAfter(rows, g, i)
  {
    if k > 0 {
      NewSoFarMeaning(rows, g, k - 1);
    }
  }

  lemma AllNewMeaning(rows: seq<Row>, g: Ingest)
    ensures AllNew(rows, g) <==> forall i | 0 <= i < |g.sightings| :: NewAfter(rows, g, i)
  {
    if AllNew(rows, g) {
      forall j | 0 <= j < |g.sightings|
        ensures NewAfter(rows, g, j)
      {
      }
    } else if i, j :| 0 <= i < j < |g.sightings| && g.sightings[i].exType == g.sightings[j].exType {
      assert !NewAfter(rows, g, j);
    } else {
      var i :| 0 <= i < |g.sightings| && !NewType(rows, g, g.sightings[i].exType);
      assert !NewAfter(rows, g, i);
    }
  }

  /** When every event of an ingest gets a row of its own, all inserts working: exactly when all types are new. */
  lemma EveryEventGetsARowExactly(rows: seq<Row>, g: Ingest)
    requires Timely(g) && forall i | 0 <= i < |g.sightings| :: g.sightings[i].inserts
    ensures |RowsAfter(rows, g, |g.sightings|)| == |rows| + |g.sightings| <==> AllNew(rows, g)
  {
    EveryEventSoFar(rows, g, |g.sightings|);
    NewSoFarMeaning(rows, g, |g.sightings|);
    AllNewMeaning(rows, g);
  }

  function Observe(events: seq<Event>, now: int): seq<Observed> {
    seq(|events|, i requires 0 <= i < |events| => Observed(events[i], now, true))
  }

  /**
   Two stops of one kind entered by one ping share a row: whatever the corridor says, and even
   though every insert works, there are fewer rows than events.
   */
  lemma TwoStopsOneRow(e: Earth, prev: Option<LatLng>, curr: LatLng, a: Circle, b: Circle, corridor: Option<Corridor>,
                       rows: seq<Row>, shipment: string, now: int)
    requires a.kind == b.kind
    requires PointInCircle(e, curr, a) && PointInCircle(e, curr, b)
    requires prev.Some? ==> !PointInCircle(e, prev.value, a) && !PointInCircle(e, prev.value, b)
    ensures var events := Events(e, prev, curr, [a, b], corridor);
      && 2 <= |events| && events[..2] == [Event(ENTER, a.id, a.kind), Event(ENTER, b.id, b.kind)]
      && |RowsAfter(rows, IngestOf(shipment, now, Observe(events, now)), |events|)| < |rows| + |events|
  {
    var events := Events(e, prev, curr, [a, b], corridor);
    assert [a, b][..1] == [a] && [a][..0] == [];
    assert CircleEvents(e, prev, curr, [a]) == [Event(ENTER, a.id, a.kind)];
    assert CircleEvents(e, prev, curr, [a, b]) == [Event(ENTER, a.id, a.kind), Event(ENTER, b.id, b.kind)];
    SharedTypeLosesARow(rows, IngestOf(shipment, now, Observe(events, now)), 0, 1);
  }

  lemma SharedTypeLosesARow(rows: seq<Row>, g: Ingest, i: nat, j: nat)
    requires Timely(g) && forall k | 0 <= k < |g.sightings| :: g.sightings[k].inserts
    requires i < j < |g.sightings| && g.sightings[i].exType == g.sightings[j].exType
    ensures |RowsAfter(rows, g, |g.sightings|)| < |rows| + |g.sightings|
  {
    EveryEventGetsARowExactly(rows, g);
    NoMoreRowsThanEvents(rows, g, |g.sightings|);
  }

  // ---- Whole runs ----

  /** Ingests one after the other, each with its clock, mixed with anything the exception screens do to the rows. */
  datatype Action =
    | Evaluate(shipment: string, now: int, events: seq<Observed>)
    | SetStatus(index: nat, status: Status)
    | Report(row: Row)

  function Step(rows: seq<Row>, a: Action): seq<Row> {
    match a
    case Evaluate(shipment, now, events) => RowsAfter(rows, IngestOf(shipment, now, events), |events|)
    case SetStatus(i, status) => if i < |rows| then rows[i := rows[i].(status := status)] else rows
    case Report(row) => rows + [row]
  }

  function After(start: seq<Row>, run: seq<Action>): seq<Row> {
    if run == [] then start else Step(After(start, run[..|run| - 1]), run[|run| - 1])
  }

  /** After an ingest every event whose insert works is in the table: by a row of its own or one that blocks it. */
  lemma IngestCoversItsEvents(start: seq<Row>, run: seq<Action>, k: nat)
    requires run != [] && run[|run| - 1].Evaluate? && NotBefore(run[|run| - 1].now, run[|run| - 1].events)
    requires k < |run[|run| - 1].events| && run[|run| - 1].events[k].inserts
    ensures var a := run[|run| - 1];
      exists i | 0 <= i < |After(start, run)| ::
        Blocks(After(start, run)[i], a.shipment, EventTypeCode(a.events[k].event), a.now)
  {
    var a := run[|run| - 1];
    var g := IngestOf(a.shipment, a.now, a.events);
    var before := After(start, run[..|run| - 1]);
    ClockIsTimely(a.shipment, a.now, a.events);
    EveryEventIsCovered(before, g, |g.sightings|, k);
    var i :| 0 <= i < |After(start, run)|
      && Recent(After(start, run)[i], g.shipment, g.sightings[k].exType, g.now - WINDOW);
    assert Blocks(After(start, run)[i], a.shipment, EventTypeCode(a.events[k].event), a.now);
  }

  /** Within each ingest the clock does not run backwards: no insert reads an earlier time than the cutoff did. */
  predicate ClockAdvances(run: seq<Action>) {
    forall k | 0 <= k < |run| && run[k].Evaluate? :: NotBefore(run[k].now, run[k].events)
  }

  predicate NotBefore(now: int, events: seq<Observed>) {
    forall e | 0 <= e < |events| :: now <= events[e].at
  }

  predicate RaisedAt(start: seq<Row>, run: seq<Action>, k: nat, j: nat)
    requires k < |run|
  {
    run[k].Evaluate? && |After(start, run[..k])| <= j < |After(start, run[..k + 1])|
  }

  /** Row j was written by a geofence ingest of the run. */
  predicate RaisedByIngest(start: seq<Row>, run: seq<Action>, j: nat) {
    exists k | 0 <= k < |run| :: RaisedAt(start, run, k, j)
  }

  /** Row i was OPEN after every action from its insert on. */
  predicate StayedOpen(start: seq<Row>, run: seq<Action>, i: nat) {
    forall k | 0 <= k <= |run| :: OpenIfThere(After(start, run[..k]), i)
  }

  predicate OpenIfThere(rows: seq<Row>, i: nat) {
    i < |rows| ==> rows[i].status.OPEN?
  }

  lemma StepKeepsRows(rows: seq<Row>, a: Action, i: nat)
    requires i < |rows|
    ensures |rows| <= |Step(rows, a)|
    ensures SameKey(Step(rows, a)[i], rows[i]) && Step(rows, a)[i].raisedAt == rows[i].raisedAt
  {
    if a.Evaluate? {
      RowsOnlyGrow(rows, IngestOf(a.shipment, a.now, a.events), 0, |a.events|);
    }
  }

  lemma TakeTake(run: seq<Action>, n: nat, k: nat)
    requires k <= n <= |run|
    ensures run[..n][..k] == run[..k]
  {
  }

  /**
   No duplicates over any run: a row raised by an ingest comes at least five minutes after every
   earlier row of its shipment and type that stayed OPEN.
   */
  lemma DedupWindow(start: seq<Row>, run: seq<Action>, i: nat, j: nat)
    requires ClockAdvances(run) && i < j < |After(start, run)|
    requires RaisedByIngest(start, run, j) && StayedOpen(start, run, i)
    requires SameKey(After(start, run)[i], After(start, run)[j])
    ensures After(start, run)[i].raisedAt + WINDOW <= After(start, run)[j].raisedAt
  {
    var k :| 0 <= k < |run| && RaisedAt(start, run, k, j);
    RaisedApart(start, run, k, i, j);
  }

  lemma {:induction false} RaisedApart(start: seq<Row>, run: seq<Action>, k: nat, i: nat, j: nat)
    requires ClockAdvances(run) && i < j < |After(start, run)|
    requires k < |run| && RaisedAt(start, run, k, j) && StayedOpen(start, run, i)
    requires SameKey(After(start, run)[i], After(start, run)[j])
    ensures After(start, run)[i].raisedAt + WINDOW <= After(start, run)[j].raisedAt
  {
    var n := |run| - 1;
    assert run[..n + 1] == run;
    if k == n {
      RaisedLast(start, run, i, j);
    } else {
      RaisedBefore(start, run, k, j);
      StepKeepsRows(After(start, run[..n]), run[n], i);
      StepKeepsRows(After(start, run[..n]), run[n], j);
      StayedOpenBefore(start, run, i);
      RaisedApart(start, run[..n], k, i, j);
    }
  }

  lemma RaisedBefore(start: seq<Row>, run: seq<Action>, k: nat, j: nat)
    requires k < |run| - 1 && RaisedAt(start, run, k, j)
    ensures RaisedAt(start, run[..|run| - 1], k, j) && j < |After(start, run[..|run| - 1])|
  {
    TakeTake(run, |run| - 1, k);
    TakeTake(run, |run| - 1, k + 1);
    RunKeepsRows(start, run[..|run| - 1], k + 1, j);
  }

  lemma RaisedLast(start: seq<Row>, run: seq<Action>, i: nat, j: nat)
    requires ClockAdvances(run) && run != [] && run[|run| - 1].Evaluate?
    requires i < j && |After(start, run[..|run| - 1])| <= j < |After(start, run)|
    requires StayedOpen(start, run, i)
    ensures Apart(After(start, run)[i], After(start, run)[j]) && After(start, run)[i].status.OPEN?
  {
    var a := run[|run| - 1];
    var g := IngestOf(a.shipment, a.now, a.events);
    ClockIsTimely(a.shipment, a.now, a.events);
    assert run[..|run|] == run;
    assert OpenIfThere(After(start, run[..|run|]), i);
    AddedRowsAreApart(After(start, run[..|run| - 1]), g, |g.sightings|, i, j);
  }

  lemma StayedOpenBefore(start: seq<Row>, run: seq<Action>, i: nat)
    requires run != [] && StayedOpen(start, run, i)
    ensures StayedOpen(start, run[..|run| - 1], i)
  {
    var n := |run| - 1;
    forall m | 0 <= m <= n
      ensures OpenIfThere(After(start, run[..n][..m]), i)
    {
      TakeTake(run, n, m);
    }
  }

  lemma {:induction false} RunKeepsRows(start: seq<Row>, run: seq<Action>, k: nat, i: nat)
    requires k <= |run| && i < |After(start, run[..k])|
    ensures i < |After(start, run)|
  {
    if k == |run| {
      assert run[..k] == run;
    } else {
      TakeTake(run, |run| - 1, k);
      RunKeepsRows(start, run[..|run| - 1], k, i);
      StepKeepsRows(After(start, run[..|run| - 1]), run[|run| - 1], i);
    }
  }
}
