/**
 backend/handlers/logistics_sla.go: SLA alerts from two sources, delivery deadlines and open
 exceptions with an SLA timer, folded into one alert per shipment.

 Times are nanoseconds; hoursLate is kept in tenths of an hour, as it is rounded to.
 */
module SlaAlerts {
  import opened Rounding
  import opened StableSort

  datatype Option<+T> = None | Some(value: T)

  const HOUR: int := 3_600_000_000_000
  const TENTH: int := HOUR / 10
  const WARN: int := 2 * HOUR
  const BREACH: int := 4 * HOUR

  datatype Tier = WARNING | BREACHED | CRITICAL
  datatype Grade = Grade(tier: Tier, hoursLate: int)

  /** How a deadline grades, or None when it is not alert-worthy. */
  function SlaTier(deadline: int, now: int): Option<Grade> {
    var raw := now - deadline;
    var rounded := RoundQuotient(raw, TENTH);
    if raw > BREACH then Some(Grade(CRITICAL, rounded))
    else if raw > 0 then Some(Grade(BREACHED, rounded))
    else if -raw <= WARN then Some(Grade(WARNING, rounded))
    else None
  }

  function SlaRank(t: Tier): int {
    match t
    case CRITICAL => 3
    case BREACHED => 2
    case WARNING => 1
  }

  datatype Status = DISPATCHED | ENROUTE_PICKUP | LOADED | ENROUTE_DELIVERY | ACTIVE | ASSIGNED | Other(name: string)
  datatype Shipment = Shipment(id: string, shipmentNo: string, status: Status, deliveryWindowTo: Option<int>)
  datatype Exc = Exc(shipmentID: string, resolved: bool, slaDueAt: Option<int>)

  /** deadline is a millisecond, as the ISO text holds it. */
  datatype Alert = Alert(id: string, bookingRef: string, status: Status, deadline: int, grade: Grade)

  /** What the ISO text keeps of a moment. */
  function Printed(deadline: int): int {
    deadline / 1_000_000
  }

  function SlaAlertFor(s: Shipment, deadline: int, g: Grade): Alert {
    Alert(s.id, s.shipmentNo, s.status, Printed(deadline), g)
  }

  // ---- The fold ----

  predicate Outranks(a: Grade, b: Grade) {
    SlaRank(a.tier) > SlaRank(b.tier) || (SlaRank(a.tier) == SlaRank(b.tier) && a.hoursLate > b.hoursLate)
  }

  type Alerts = map<string, Alert>

  function Consider(alerts: Alerts, a: Alert): Alerts {
    if a.id !in alerts || Outranks(a.grade, alerts[a.id].grade) then alerts[a.id := a] else alerts
  }

  /** A deadline of a shipment, from either source. */
  datatype Candidate = Candidate(shipment: Shipment, deadline: int)

  function ConsiderCandidate(alerts: Alerts, c: Candidate, now: int): Alerts {
    var g := SlaTier(c.deadline, now);
    if g.Some? then Consider(alerts, SlaAlertFor(c.shipment, c.deadline, g.value)) else alerts
  }

  function Fold(cs: seq<Candidate>, now: int): Alerts {
    if cs == [] then map[]
    else ConsiderCandidate(Fold(cs[..|cs| - 1], now), cs[|cs| - 1], now)
  }

  function Earlier(a: Option<int>, b: int): Option<int> {
    if a.None? || b < a.value then Some(b) else a
  }

  /** The one-line specification: a shipment's earliest deadline. */
  function Earliest(cs: seq<Candidate>, id: string): Option<int> {
    if cs == [] then None
    else
      var n := |cs| - 1;
      if cs[n].shipment.id == id then Earlier(Earliest(cs[..n], id), cs[n].deadline) else Earliest(cs[..n], id)
  }

  lemma {:induction false} EarliestIsEarliest(cs: seq<Candidate>, id: string)
    ensures Earliest(cs, id).None? <==> forall i | 0 <= i < |cs| :: cs[i].shipment.id != id
    ensures Earliest(cs, id).Some? ==> exists i | 0 <= i < |cs| ::
      cs[i] == Candidate(cs[i].shipment, Earliest(cs, id).value) && cs[i].shipment.id == id
    ensures Earliest(cs, id).Some? ==>
      forall i | 0 <= i < |cs| && cs[i].shipment.id == id :: Earliest(cs, id).value <= cs[i].deadline
  {
    if cs != [] {
      EarliestIsEarliest(cs[..|cs| - 1], id);
    }
  }

  /**
   What a grade says: due within two hours, late, or more than four hours late; and by how much, to
   the nearest tenth of an hour. A deadline further off has none.
   */
  lemma GradeMeaning(deadline: int, now: int)
    ensures var g := SlaTier(deadline, now);
      && (g.None? <==> now + 7_200_000_000_000 < deadline)
      && (g.Some? ==>
        && (g.value.tier.CRITICAL? <==> deadline + 14_400_000_000_000 < now)
        && (g.value.tier.WARNING? <==> now <= deadline)
        && -360_000_000_000 <= 2 * (g.value.hoursLate * 360_000_000_000 - (now - deadline)) <= 360_000_000_000)
  {
    RoundQuotientIsNear(now - deadline, TENTH);
  }

  /** The later a shipment is, the worse its grade. */
  lemma LaterIsWorse(a: int, b: int, now: int)
    requires a <= b
    ensures SlaTier(b, now).Some? ==> SlaTier(a, now).Some? && !Outranks(SlaTier(b, now).value, SlaTier(a, now).value)
  {
    RoundQuotientIsMonotone(now - b, now - a, TENTH);
  }

  function GradeOf(alerts: Alerts, id: string): Option<Grade> {
    if id in alerts then Some(alerts[id].grade) else None
  }

  /** How the earliest of a shipment's deadlines grades; None without one. */
  function EarliestGrade(cs: seq<Candidate>, id: string, now: int): Option<Grade> {
    var e := Earliest(cs, id);
    if e.Some? then SlaTier(e.value, now) else None
  }

  /**
   Each shipment's alert grades as its earliest deadline does, and is absent exactly when that is not
   alert-worthy.
   */
  lemma {:induction false} FoldIsEarliest(cs: seq<Candidate>, id: string, now: int)
    ensures GradeOf(Fold(cs, now), id) == EarliestGrade(cs, id, now)
  {
    if cs != [] {
      var n := |cs| - 1;
      FoldIsEarliest(cs[..n], id, now);
      var e, d := Earliest(cs[..n], id), cs[n].deadline;
      if cs[n].shipment.id == id && e.Some? {
        if d <= e.value {
          LaterIsWorse(d, e.value, now);
        } else {
          LaterIsWorse(e.value, d, now);
        }
      }
    }
  }

  /** The order the sources are read in does not show in any grade. */
  lemma OrderIsIrrelevant(cs: seq<Candidate>, ds: seq<Candidate>, id: string, now: int)
    requires multiset(cs) == multiset(ds)
    ensures GradeOf(Fold(cs, now), id) == GradeOf(Fold(ds, now), id)
  {
    FoldIsEarliest(cs, id, now);
    FoldIsEarliest(ds, id, now);
    SameEarliest(cs, ds, id);
    SameEarliest(ds, cs, id);
  }

  lemma SameEarliest(cs: seq<Candidate>, ds: seq<Candidate>, id: string)
    requires multiset(cs) == multiset(ds)
    ensures Earliest(cs, id).Some? ==> Earliest(ds, id).Some? && Earliest(ds, id).value <= Earliest(cs, id).value
  {
    EarliestIsEarliest(cs, id);
    EarliestIsEarliest(ds, id);
    if Earliest(cs, id).Some? {
      var i :| 0 <= i < |cs| && cs[i] == Candidate(cs[i].shipment, Earliest(cs, id).value) && cs[i].shipment.id == id;
      assert cs[i] in multiset(ds);
      var j :| 0 <= j < |ds| && ds[j] == cs[i];
    }
  }

  /** An alert is the one some deadline of its shipment makes. */
  predicate MadeBy(a: Alert, c: Candidate, now: int) {
    && SlaTier(c.deadline, now) == Some(a.grade)
    && a.id == c.shipment.id && a.bookingRef == c.shipment.shipmentNo && a.status == c.shipment.status
    && a.deadline * 1_000_000 <= c.deadline < (a.deadline + 1) * 1_000_000
  }

  lemma {:induction false} AlertsAreGrounded(cs: seq<Candidate>, id: string, now: int)
    requires id in Fold(cs, now)
    ensures exists i | 0 <= i < |cs| :: Fold(cs, now)[id].id == id && MadeBy(Fold(cs, now)[id], cs[i], now)
  {
    var n := |cs| - 1;
    var before := Fold(cs[..n], now);
    if id in before && Fold(cs, now)[id] == before[id] {
      AlertsAreGrounded(cs[..n], id, now);
    } else {
      assert MadeBy(Fold(cs, now)[id], cs[n], now);
    }
  }

  /** The first deadline read of a shipment that grades so. */
  function FirstOfGrade(cs: seq<Candidate>, id: string, g: Grade, now: int): Option<Candidate> {
    if cs == [] then None
    else
      var n := |cs| - 1;
      var before := FirstOfGrade(cs[..n], id, g, now);
      if before.Some? then before else if Grades(cs[n], id, g, now) then Some(cs[n]) else None
  }

  predicate Grades(c: Candidate, id: string, g: Grade, now: int) {
    c.shipment.id == id && SlaTier(c.deadline, now) == Some(g)
  }

  lemma {:induction false} FirstOfGradeIsFirst(cs: seq<Candidate>, id: string, g: Grade, now: int)
    ensures FirstOfGrade(cs, id, g, now).None? <==> forall i | 0 <= i < |cs| :: !Grades(cs[i], id, g, now)
    ensures FirstOfGrade(cs, id, g, now).Some? ==> Grades(FirstOfGrade(cs, id, g, now).value, id, g, now)
  {
    if cs != [] {
      FirstOfGradeIsFirst(cs[..|cs| - 1], id, g, now);
    }
  }

  lemma {:induction false} FirstOfGradeConcat(a: seq<Candidate>, b: seq<Candidate>, id: string, g: Grade, now: int)
    ensures FirstOfGrade(a + b, id, g, now)
         == if FirstOfGrade(a, id, g, now).Some? then FirstOfGrade(a, id, g, now) else FirstOfGrade(b, id, g, now)
  {
    if b == [] {
      assert a + b == a;
    } else {
      assert (a + b)[..|a + b| - 1] == a + b[..|b| - 1];
      FirstOfGradeConcat(a, b[..|b| - 1], id, g, now);
    }
  }

  /** Which deadline is printed, for any list: of those that grade as the shipment does, the first one read. */
  lemma {:induction false} FirstReadIsPrinted(cs: seq<Candidate>, id: string, now: int)
    requires id in Fold(cs, now)
    ensures var g := Fold(cs, now)[id].grade;
      var c := FirstOfGrade(cs, id, g, now);
      && EarliestGrade(cs, id, now) == Some(g)
      && c.Some? && Fold(cs, now)[id] == SlaAlertFor(c.value.shipment, c.value.deadline, g)
  {
    FoldIsEarliest(cs, id, now);
    var n := |cs| - 1;
    var before, after := Fold(cs[..n], now), Fold(cs, now);
    if id in before && after[id] == before[id] {
      FirstReadIsPrinted(cs[..n], id, now);
    } else {
      NothingGradedSoBefore(cs[..n], id, after[id].grade, now);
    }
  }

  /** A grade worse than the shipment's so far is new. */
  lemma NothingGradedSoBefore(cs: seq<Candidate>, id: string, g: Grade, now: int)
    requires GradeOf(Fold(cs, now), id).None? || Outranks(g, GradeOf(Fold(cs, now), id).value)
    ensures FirstOfGrade(cs, id, g, now).None?
  {
    FoldIsEarliest(cs, id, now);
    EarliestIsEarliest(cs, id);
    FirstOfGradeIsFirst(cs, id, g, now);
    forall i | 0 <= i < |cs|
      ensures !Grades(cs[i], id, g, now)
    {
      if Grades(cs[i], id, g, now) {
        LaterIsWorse(Earliest(cs, id).value, cs[i].deadline, now);
      }
    }
  }

  /** Deadlines of one grade need not be the same: an hour late and an hour and a minute late grade alike. */
  lemma NearDeadlinesGradeAlike(now: int)
    ensures SlaTier(now - HOUR - HOUR / 60, now) == SlaTier(now - HOUR, now) == Some(Grade(BREACHED, 10))
  {
    assert now - (now - HOUR - HOUR / 60) == HOUR + HOUR / 60;
    assert now - (now - HOUR) == HOUR;
  }

  // ---- The two sources ----

  /** What one tenant can see, and which of the three queries fail. */
  datatype Db = Db(shipments: seq<Shipment>, exceptions: seq<Exc>, failing: set<nat>)

  predicate KeyedByID(shipments: seq<Shipment>) {
    forall i, j | 0 <= i < |shipments| && 0 <= j < |shipments| && shipments[i].id == shipments[j].id :: i == j
  }

  function Where<T>(xs: seq<T>, p: T -> bool): seq<T> {
    if xs == [] then [] else (if p(xs[0]) then [xs[0]] else []) + Where(xs[1..], p)
  }

  lemma {:induction false} InWhere<T>(xs: seq<T>, p: T -> bool, x: T)
    ensures x in Where(xs, p) <==> x in xs && p(x)
  {
    if xs != [] {
      InWhere(xs[1..], p, x);
      assert xs == [xs[0]] + xs[1..];
    }
  }

  predicate OnTheClock(s: Shipment) {
    !s.status.Other? && s.deliveryWindowTo.Some?
  }

  predicate OpenWithTimer(e: Exc) {
    !e.resolved && e.slaDueAt.Some?
  }

  predicate SoonerWindow(a: Shipment, b: Shipment) {
    a.deliveryWindowTo.Some? && b.deliveryWindowTo.Some? && a.deliveryWindowTo.value < b.deliveryWindowTo.value
  }

  function ActiveShipments(db: Db): seq<Shipment> {
    Sort(Where(db.shipments, OnTheClock), SoonerWindow)
  }

  function OpenExceptions(db: Db): seq<Exc> {
    Where(db.exceptions, OpenWithTimer)
  }

  function Find(shipments: seq<Shipment>, id: string): Option<Shipment> {
    if shipments == [] then None
    else if shipments[0].id == id then Some(shipments[0])
    else Find(shipments[1..], id)
  }

  function FromWindows(ss: seq<Shipment>): seq<Candidate> {
    if ss == [] then []
    else
      var n := |ss| - 1;
      FromWindows(ss[..n])
        + (if ss[n].deliveryWindowTo.Some? then [Candidate(ss[n], ss[n].deliveryWindowTo.value)] else [])
  }

  function FromExceptions(shipments: seq<Shipment>, es: seq<Exc>): seq<Candidate> {
    if es == [] then []
    else
      var n := |es| - 1;
      var s := Find(shipments, es[n].shipmentID);
      FromExceptions(shipments, es[..n])
        + (if s.Some? && es[n].slaDueAt.Some? then [Candidate(s.value, es[n].slaDueAt.value)] else [])
  }

  function Candidates(db: Db): seq<Candidate> {
    FromWindows(ActiveShipments(db)) + FromExceptions(db.shipments, OpenExceptions(db))
  }

  /** A deadline of a shipment that can be seen: its window while it is active, or the due time of an open exception. */
  predicate Due(db: Db, id: string, deadline: int) {
    exists s | s in db.shipments && s.id == id ::
      (!s.status.Other? && s.deliveryWindowTo == Some(deadline)) || Exc(id, false, Some(deadline)) in db.exceptions
  }

  lemma {:induction false} FindFinds(shipments: seq<Shipment>, id: string)
    ensures Find(shipments, id).None? <==> forall s | s in shipments :: s.id != id
    ensures Find(shipments, id).Some? ==> Find(shipments, id).value in shipments && Find(shipments, id).value.id == id
  {
    if shipments != [] {
      FindFinds(shipments[1..], id);
      assert shipments == [shipments[0]] + shipments[1..];
    }
  }

  lemma {:induction false} InFromWindows(ss: seq<Shipment>, c: Candidate)
    ensures c in FromWindows(ss) <==> c.shipment in ss && c.shipment.deliveryWindowTo == Some(c.deadline)
  {
    if ss != [] {
      InFromWindows(ss[..|ss| - 1], c);
      assert ss == ss[..|ss| - 1] + [ss[|ss| - 1]];
    }
  }

  lemma {:induction false} InFromExceptions(shipments: seq<Shipment>, es: seq<Exc>, c: Candidate)
    requires forall e | e in es :: !e.resolved
    ensures c in FromExceptions(shipments, es)
       <==> Exc(c.shipment.id, false, Some(c.deadline)) in es && Find(shipments, c.shipment.id) == Some(c.shipment)
  {
    if es != [] {
      var n := |es| - 1;
      assert es == es[..n] + [es[n]];
      InFromExceptions(shipments, es[..n], c);
      FindFinds(shipments, es[n].shipmentID);
    }
  }

  predicate IsWindow(db: Db, c: Candidate) {
    c.shipment in db.shipments && !c.shipment.status.Other? && c.shipment.deliveryWindowTo == Some(c.deadline)
  }

  predicate IsTimer(db: Db, c: Candidate) {
    Exc(c.shipment.id, false, Some(c.deadline)) in db.exceptions
      && Find(db.shipments, c.shipment.id) == Some(c.shipment)
  }

  lemma InCandidates(db: Db, c: Candidate)
    ensures c in Candidates(db) <==> IsWindow(db, c) || IsTimer(db, c)
  {
    InWhere(db.shipments, OnTheClock, c.shipment);
    InSort(Where(db.shipments, OnTheClock), SoonerWindow, c.shipment);
    InFromWindows(ActiveShipments(db), c);
    forall e
      ensures e in OpenExceptions(db) <==> e in db.exceptions && OpenWithTimer(e)
    {
      InWhere(db.exceptions, OpenWithTimer, e);
    }
    InFromExceptions(db.shipments, OpenExceptions(db), c);
  }

  lemma CandidatesAreDue(db: Db, id: string, deadline: int)
    ensures Due(db, id, deadline) <==>
      exists i | 0 <= i < |Candidates(db)| :: DeadlineOf(Candidates(db)[i], id, deadline)
  {
    var cs := Candidates(db);
    if i :| 0 <= i < |cs| && DeadlineOf(cs[i], id, deadline) {
      InCandidates(db, cs[i]);
      FindFinds(db.shipments, id);
    }
    if Due(db, id, deadline) {
      var s :| s in db.shipments && s.id == id
        && ((!s.status.Other? && s.deliveryWindowTo == Some(deadline))
          || Exc(id, false, Some(deadline)) in db.exceptions);
      FindFinds(db.shipments, id);
      var c := if !s.status.Other? && s.deliveryWindowTo == Some(deadline) then Candidate(s, deadline)
               else Candidate(Find(db.shipments, id).value, deadline);
      InCandidates(db, c);
      var i :| 0 <= i < |cs| && cs[i] == c;
      assert DeadlineOf(cs[i], id, deadline);
    }
  }

  predicate DeadlineOf(c: Candidate, id: string, deadline: int) {
    c.shipment.id == id && c.deadline == deadline
  }

  /**
   The specification in one line: a shipment's alert grades as the earliest of its deadlines
   from both sources does, and there is none exactly when it has no deadline or that one is not
   alert-worthy.
   */
  lemma AlertOfEarliestDeadline(db: Db, id: string, now: int, earliest: int)
    requires Due(db, id, earliest) && forall d :: Due(db, id, d) ==> earliest <= d
    ensures GradeOf(Fold(Candidates(db), now), id) == SlaTier(earliest, now)
  {
    var cs := Candidates(db);
    FoldIsEarliest(cs, id, now);
    EarliestIsEarliest(cs, id);
    CandidatesAreDue(db, id, earliest);
    var i :| 0 <= i < |cs| && DeadlineOf(cs[i], id, earliest);
    var e := Earliest(cs, id).value;
    var j :| 0 <= j < |cs| && cs[j] == Candidate(cs[j].shipment, e) && cs[j].shipment.id == id;
    assert DeadlineOf(cs[j], id, e);
    CandidatesAreDue(db, id, e);
  }

  lemma NoDeadlineNoAlert(db: Db, id: string, now: int)
    requires forall d :: !Due(db, id, d)
    ensures id !in Fold(Candidates(db), now)
  {
    var cs := Candidates(db);
    FoldIsEarliest(cs, id, now);
    EarliestIsEarliest(cs, id);
    if i :| 0 <= i < |cs| && cs[i].shipment.id == id {
      assert DeadlineOf(cs[i], id, cs[i].deadline);
      CandidatesAreDue(db, id, cs[i].deadline);
    }
  }

  /**
   Whether the printed deadline is the earliest one: exactly when the first deadline read of the
   alert's grade is, to the millisecond.
   */
  lemma PrintedIsEarliestExactly(db: Db, id: string, now: int, earliest: int)
    requires Due(db, id, earliest) && forall d :: Due(db, id, d) ==> earliest <= d
    requires SlaTier(earliest, now).Some?
    ensures var alerts := Fold(Candidates(db), now);
      var first := FirstOfGrade(Candidates(db), id, SlaTier(earliest, now).value, now);
      && id in alerts && first.Some?
      && (alerts[id].deadline == Printed(earliest) <==> Printed(first.value.deadline) == Printed(earliest))
  {
    AlertOfEarliestDeadline(db, id, now, earliest);
    FirstReadIsPrinted(Candidates(db), id, now);
  }

  /**
   What that comes to: windows are read first, so an active shipment's delivery window is printed
   whenever it grades as the alert does, even when an exception was due before it.
   */
  lemma WindowIsPrintedFirst(db: Db, s: Shipment, window: int, now: int, earliest: int)
    requires KeyedByID(db.shipments) && s in db.shipments
    requires !s.status.Other? && s.deliveryWindowTo == Some(window)
    requires Due(db, s.id, earliest) && forall d :: Due(db, s.id, d) ==> earliest <= d
    requires SlaTier(window, now).Some? && SlaTier(window, now) == SlaTier(earliest, now)
    ensures var alerts := Fold(Candidates(db), now);
      && s.id in alerts && alerts[s.id] == SlaAlertFor(s, window, SlaTier(window, now).value)
      && (alerts[s.id].deadline == Printed(earliest) <==> Printed(window) == Printed(earliest))
  {
    var g := SlaTier(window, now).value;
    var windows := FromWindows(ActiveShipments(db));
    AlertOfEarliestDeadline(db, s.id, now, earliest);
    FirstReadIsPrinted(Candidates(db), s.id, now);
    FirstOfGradeConcat(windows, FromExceptions(db.shipments, OpenExceptions(db)), s.id, g, now);
    FirstOfGradeIsFirst(windows, s.id, g, now);
    WindowIsRead(db, Candidate(s, window));
    assert Grades(Candidate(s, window), s.id, g, now);
    FirstOfGradeIsRead(windows, s.id, g, now);
    WindowIsRead(db, FirstOfGrade(windows, s.id, g, now).value);
  }

  /** And it does: a shipment an hour past its window, with an exception due a minute before that, prints the window. */
  lemma ALaterDeadlineIsPrinted(s: Shipment, now: int)
    requires s.status.ACTIVE? && s.deliveryWindowTo == Some(now - HOUR)
    ensures var due := now - HOUR - HOUR / 60;
      var db := Db([s], [Exc(s.id, false, Some(due))], {});
      && Due(db, s.id, due) && (forall d :: Due(db, s.id, d) ==> due <= d)
      && s.id in Fold(Candidates(db), now)
      && Fold(Candidates(db), now)[s.id].deadline == Printed(now - HOUR) > Printed(due)
  {
    var due := now - HOUR - HOUR / 60;
    var db := Db([s], [Exc(s.id, false, Some(due))], {});
    assert s in db.shipments && Exc(s.id, false, Some(due)) in db.exceptions;
    NearDeadlinesGradeAlike(now);
    WindowIsPrintedFirst(db, s, now - HOUR, now, due);
  }

  // ---- Whatever order the exceptions come in ----

  /** The exception query has no ORDER BY: the same rows may come in any order. */
  predicate Reordered(es: seq<Exc>, db: Db) {
    multiset(es) == multiset(db.exceptions)
  }

  predicate PrintsEarliest(db: Db, id: string, now: int, earliest: int) {
    var alerts := Fold(Candidates(db), now);
    id in alerts && alerts[id].deadline == Printed(earliest)
  }

  /** An open exception of the shipment that grades so. */
  predicate GradesOpen(e: Exc, id: string, g: Grade, now: int) {
    OpenWithTimer(e) && e.shipmentID == id && SlaTier(e.slaDueAt.value, now) == Some(g)
  }

  predicate WindowGrades(db: Db, id: string, g: Grade, now: int) {
    exists s | s in db.shipments :: OnTheClock(s) && Grades(Candidate(s, s.deliveryWindowTo.value), id, g, now)
  }

  /**
   What the rows must be like: the window prints so when it has the grade, and otherwise every
   exception of it does.
   */
  predicate AllPrint(db: Db, id: string, g: Grade, now: int, earliest: int) {
    && (forall s | s in db.shipments && OnTheClock(s) && Grades(Candidate(s, s.deliveryWindowTo.value), id, g, now) ::
          Printed(s.deliveryWindowTo.value) == Printed(earliest))
    && (WindowGrades(db, id, g, now) ||
        forall e | e in db.exceptions && GradesOpen(e, id, g, now) :: Printed(e.slaDueAt.value) == Printed(earliest))
  }

  lemma SameRows(db: Db, es: seq<Exc>)
    requires Reordered(es, db)
    ensures forall e :: e in es <==> e in db.exceptions
    ensures forall id, d :: Due(db.(exceptions := es), id, d) <==> Due(db, id, d)
  {
    forall e
      ensures e in es <==> e in db.exceptions
    {
      assert e in multiset(es) <==> e in multiset(db.exceptions);
    }
  }

  /**
   The printed deadline is the earliest one for every order of the exceptions if and only if the
   delivery window prints so or, when no window has the alert's grade, every exception of that
   grade does.
   */
  lemma PrintedIsEarliestInAnyOrder(db: Db, id: string, now: int, earliest: int, g: Grade)
    requires KeyedByID(db.shipments)
    requires Due(db, id, earliest) && forall d :: Due(db, id, d) ==> earliest <= d
    requires SlaTier(earliest, now) == Some(g)
    ensures (forall es | Reordered(es, db) :: PrintsEarliest(db.(exceptions := es), id, now, earliest))
       <==> AllPrint(db, id, g, now, earliest)
  {
    if AllPrint(db, id, g, now, earliest) {
      forall es | Reordered(es, db)
        ensures PrintsEarliest(db.(exceptions := es), id, now, earliest)
      {
        PrintsWhenAllPrint(db, es, id, now, earliest, g);
      }
    } else {
      var es := SomeOrderFails(db, id, now, earliest, g);
    }
  }

  lemma PrintsWhenAllPrint(db: Db, es: seq<Exc>, id: string, now: int, earliest: int, g: Grade)
    requires KeyedByID(db.shipments) && Reordered(es, db)
    requires Due(db, id, earliest) && forall d :: Due(db, id, d) ==> earliest <= d
    requires SlaTier(earliest, now) == Some(g) && AllPrint(db, id, g, now, earliest)
    ensures PrintsEarliest(db.(exceptions := es), id, now, earliest)
  {
    var other := db.(exceptions := es);
    SameRows(db, es);
    PrintedIsEarliestExactly(other, id, now, earliest);
    var first := FirstOfGrade(Candidates(other), id, g, now).value;
    FirstOfGradeIsFirst(Candidates(other), id, g, now);
    FirstOfGradeIsRead(Candidates(other), id, g, now);
    InCandidates(other, first);
    if WindowGrades(other, id, g, now) {
      WindowComesFirst(other, id, g, now);
    }
    if IsWindow(other, first) {
      assert OnTheClock(first.shipment);
    } else {
      assert GradesOpen(Exc(id, false, Some(first.deadline)), id, g, now);
    }
  }

  /** A window of the grade, if there is one, is the first deadline of the grade. */
  lemma WindowComesFirst(db: Db, id: string, g: Grade, now: int)
    requires FirstOfGrade(Candidates(db), id, g, now).Some? && WindowGrades(db, id, g, now)
    ensures IsWindow(db, FirstOfGrade(Candidates(db), id, g, now).value)
  {
    var windows := FromWindows(ActiveShipments(db));
    var s :| s in db.shipments && OnTheClock(s) && Grades(Candidate(s, s.deliveryWindowTo.value), id, g, now);
    WindowIsRead(db, Candidate(s, s.deliveryWindowTo.value));
    FirstOfGradeIsFirst(windows, id, g, now);
    FirstOfGradeConcat(windows, FromExceptions(db.shipments, OpenExceptions(db)), id, g, now);
    FirstOfGradeIsRead(windows, id, g, now);
    WindowIsRead(db, FirstOfGrade(windows, id, g, now).value);
  }

  lemma SomeOrderFails(db: Db, id: string, now: int, earliest: int, g: Grade) returns (es: seq<Exc>)
    requires KeyedByID(db.shipments)
    requires Due(db, id, earliest) && forall d :: Due(db, id, d) ==> earliest <= d
    requires SlaTier(earliest, now) == Some(g) && !AllPrint(db, id, g, now, earliest)
    ensures Reordered(es, db) && !PrintsEarliest(db.(exceptions := es), id, now, earliest)
  {
    if s :| s in db.shipments && OnTheClock(s) && Grades(Candidate(s, s.deliveryWindowTo.value), id, g, now)
            && Printed(s.deliveryWindowTo.value) != Printed(earliest) {
      es := db.exceptions;
      assert db.(exceptions := es) == db;
      WindowIsPrintedFirst(db, s, s.deliveryWindowTo.value, now, earliest);
    } else {
      var e :| e in db.exceptions && GradesOpen(e, id, g, now) && Printed(e.slaDueAt.value) != Printed(earliest);
      var i :| 0 <= i < |db.exceptions| && db.exceptions[i] == e;
      es := [e] + (db.exceptions[..i] + db.exceptions[i + 1..]);
      assert db.exceptions == db.exceptions[..i] + [e] + db.exceptions[i + 1..];
      SameRows(db, es);
      PrintedIsEarliestExactly(db.(exceptions := es), id, now, earliest);
      ExceptionAtFrontIsFirst(db.(exceptions := es), e, id, g, now);
    }
  }

  /** Without a window of the grade, the first exception of the grade is the first deadline of it. */
  lemma ExceptionAtFrontIsFirst(db: Db, e: Exc, id: string, g: Grade, now: int)
    requires db.exceptions != [] && db.exceptions[0] == e && GradesOpen(e, id, g, now)
    requires Find(db.shipments, id).Some? || exists s | s in db.shipments :: s.id == id
    requires !WindowGrades(db, id, g, now)
    ensures FirstOfGrade(Candidates(db), id, g, now).Some?
    ensures FirstOfGrade(Candidates(db), id, g, now).value.deadline == e.slaDueAt.value
  {
    FindFinds(db.shipments, id);
    var windows, open := FromWindows(ActiveShipments(db)), OpenExceptions(db);
    NoWindowIsFirst(db, id, g, now);
    FirstOfGradeConcat(windows, FromExceptions(db.shipments, open), id, g, now);
    assert open == [e] + open[1..];
    FromExceptionsConcat(db.shipments, [e], open[1..]);
    var c := Candidate(Find(db.shipments, id).value, e.slaDueAt.value);
    assert [e][..0] == [] && FromExceptions(db.shipments, [e]) == [c];
    FirstOfGradeConcat([c], FromExceptions(db.shipments, open[1..]), id, g, now);
    assert [c][..0] == [];
    assert FirstOfGrade([c], id, g, now) == Some(c);
  }

  lemma NoWindowIsFirst(db: Db, id: string, g: Grade, now: int)
    requires !WindowGrades(db, id, g, now)
    ensures FirstOfGrade(FromWindows(ActiveShipments(db)), id, g, now).None?
  {
    var windows := FromWindows(ActiveShipments(db));
    FirstOfGradeIsFirst(windows, id, g, now);
    forall i | 0 <= i < |windows|
      ensures !Grades(windows[i], id, g, now)
    {
      WindowIsRead(db, windows[i]);
      assert OnTheClock(windows[i].shipment);
      assert windows[i] == Candidate(windows[i].shipment, windows[i].shipment.deliveryWindowTo.value);
    }
  }

  lemma {:induction false} FromExceptionsConcat(shipments: seq<Shipment>, a: seq<Exc>, b: seq<Exc>)
    ensures FromExceptions(shipments, a + b) == FromExceptions(shipments, a) + FromExceptions(shipments, b)
  {
    if b == [] {
      assert a + b == a;
    } else {
      assert (a + b)[..|a + b| - 1] == a + b[..|b| - 1];
      FromExceptionsConcat(shipments, a, b[..|b| - 1]);
    }
  }

  lemma WindowIsRead(db: Db, c: Candidate)
    ensures c in FromWindows(ActiveShipments(db)) <==> IsWindow(db, c)
  {
    InWhere(db.shipments, OnTheClock, c.shipment);
    InSort(Where(db.shipments, OnTheClock), SoonerWindow, c.shipment);
    InFromWindows(ActiveShipments(db), c);
  }

  lemma {:induction false} FirstOfGradeIsRead(cs: seq<Candidate>, id: string, g: Grade, now: int)
    requires FirstOfGrade(cs, id, g, now).Some?
    ensures FirstOfGrade(cs, id, g, now).value in cs
  {
    if FirstOfGrade(cs[..|cs| - 1], id, g, now).Some? {
      FirstOfGradeIsRead(cs[..|cs| - 1], id, g, now);
    }
  }

  // ---- The response ----

  predicate MoreUrgent(a: Alert, b: Alert) {
    Outranks(a.grade, b.grade)
  }

  lemma UrgencyIsAnOrder()
    ensures StrictWeakOrder(MoreUrgent)
  {
  }

  datatype Summary = Summary(total: nat, warning: nat, breached: nat, critical: nat)
  datatype Response = Failed | Reply(alerts: seq<Alert>, summary: Summary)

  function CountTier(alerts: seq<Alert>, t: Tier): nat {
    if alerts == [] then 0
    else
      var n := |alerts| - 1;
      CountTier(alerts[..n], t) + (if alerts[n].grade.tier == t then 1 else 0)
  }

  function SummaryOf(alerts: seq<Alert>): Summary {
    Summary(|alerts|, CountTier(alerts, WARNING), CountTier(alerts, BREACHED), CountTier(alerts, CRITICAL))
  }

  /** The positions of the alerts of a tier. */
  function OfTier(alerts: seq<Alert>, t: Tier): set<nat> {
    set i | 0 <= i < |alerts| && alerts[i].grade.tier == t
  }

  lemma {:induction false} CountIsOfTier(alerts: seq<Alert>, t: Tier)
    ensures CountTier(alerts, t) == |OfTier(alerts, t)|
  {
    if alerts != [] {
      var n := |alerts| - 1;
      CountIsOfTier(alerts[..n], t);
      if alerts[n].grade.tier == t {
        assert OfTier(alerts, t) == OfTier(alerts[..n], t) + {n};
      } else {
        assert OfTier(alerts, t) == OfTier(alerts[..n], t);
      }
    }
  }

  /** Each count is that of its tier's alerts, and the three add up to the length of the list. */
  lemma {:induction false} CountsPartition(alerts: seq<Alert>)
    ensures var s := SummaryOf(alerts); s.warning + s.breached + s.critical == s.total == |alerts|
    ensures var s := SummaryOf(alerts);
      && s.warning == |OfTier(alerts, WARNING)| && s.breached == |OfTier(alerts, BREACHED)|
      && s.critical == |OfTier(alerts, CRITICAL)|
  {
    CountIsOfTier(alerts, WARNING);
    CountIsOfTier(alerts, BREACHED);
    CountIsOfTier(alerts, CRITICAL);
    if alerts != [] {
      CountsPartition(alerts[..|alerts| - 1]);
    }
  }

  /** The list holds every alert of the map once. */
  ghost predicate Lists(out: seq<Alert>, alerts: Alerts) {
    && (forall a | a in out :: a.id in alerts && alerts[a.id] == a)
    && (forall id | id in alerts :: alerts[id] in out)
    && (forall i, j | 0 <= i < j < |out| :: out[i].id != out[j].id)
  }

  lemma SortLists(out: seq<Alert>, alerts: Alerts)
    requires Lists(out, alerts)
    ensures Lists(Sort(out, MoreUrgent), alerts) && Ordered(Sort(out, MoreUrgent), MoreUrgent)
  {
    UrgencyIsAnOrder();
    SortOrdered(out, MoreUrgent);
    forall a
      ensures a in Sort(out, MoreUrgent) <==> a in out
    {
      InSort(out, MoreUrgent, a);
    }
    SortPermutes(out, MoreUrgent);
    DistinctAcrossPermutation(out, Sort(out, MoreUrgent));
  }

  lemma DistinctAcrossPermutation(xs: seq<Alert>, ys: seq<Alert>)
    requires multiset(xs) == multiset(ys)
    requires forall i, j | 0 <= i < j < |xs| :: xs[i].id != xs[j].id
    ensures forall i, j | 0 <= i < j < |ys| :: ys[i].id != ys[j].id
  {
    forall i, j | 0 <= i < j < |ys|
      ensures ys[i].id != ys[j].id
    {
      assert ys[i] in multiset(xs) && ys[j] in multiset(xs);
      if ys[i] == ys[j] {
        TwiceInMultiset(ys, i, j);
        OnceInMultiset(xs, ys[i]);
        assert false;
      }
    }
  }

  lemma TwiceInMultiset(ys: seq<Alert>, i: nat, j: nat)
    requires i < j < |ys| && ys[i] == ys[j]
    ensures multiset(ys)[ys[i]] >= 2
  {
    assert ys == ys[..j] + [ys[j]] + ys[j + 1..];
    assert ys[i] == ys[..j][i] && ys[..j][i] in multiset(ys[..j]);
  }

  lemma {:induction false} OnceInMultiset(xs: seq<Alert>, a: Alert)
    requires forall i, j | 0 <= i < j < |xs| :: xs[i].id != xs[j].id
    ensures multiset(xs)[a] <= 1
  {
    if xs != [] {
      OnceInMultiset(xs[1..], a);
      assert xs == [xs[0]] + xs[1..];
      if xs[0] == a {
        assert a !in xs[1..];
      }
    }
  }

  /** Go hands out a map's values in no fixed order. */
  method Values(alerts: Alerts) returns (out: seq<Alert>)
    requires forall id | id in alerts :: alerts[id].id == id
    ensures Lists(out, alerts)
  {
    out := [];
    var rest := alerts.Keys;
    while rest != {}
      invariant rest <= alerts.Keys
      invariant forall i | 0 <= i < |out| :: out[i].id in alerts && alerts[out[i].id] == out[i] && out[i].id !in rest
      invariant forall id | id in alerts && id !in rest :: alerts[id] in out
      invariant forall i, j | 0 <= i < j < |out| :: out[i].id != out[j].id
      decreases |rest|
    {
      var id :| id in rest;
      out := out + [alerts[id]];
      rest := rest - {id};
    }
  }

  lemma {:induction false} FoldIsKeyed(cs: seq<Candidate>, now: int)
    ensures forall id | id in Fold(cs, now) :: Fold(cs, now)[id].id == id
  {
    if cs != [] {
      FoldIsKeyed(cs[..|cs| - 1], now);
    }
  }

  /** shipByID, once it has an entry for every shipment an open exception refers to and that can be seen. */
  predicate Indexes(shipByID: map<string, Shipment>, shipments: seq<Shipment>, es: seq<Exc>) {
    forall e | e in es ::
      Find(shipments, e.shipmentID) == if e.shipmentID in shipByID then Some(shipByID[e.shipmentID]) else None
  }

  /** Some open exception is of a shipment the deadline scan did not bring. */
  predicate NeedsThirdQuery(db: Db) {
    exists e | e in OpenExceptions(db) :: forall s | s in ActiveShipments(db) :: s.id != e.shipmentID
  }

  ghost predicate HasKeys(shipByID: map<string, Shipment>, shipments: seq<Shipment>) {
    forall id :: id in shipByID <==> exists s | s in shipments :: s.id == id
  }

  /** Critical before breached before warning, and within a tier the most overdue first. */
  predicate MostUrgentFirst(alerts: seq<Alert>) {
    forall i, j | 0 <= i < j < |alerts| ::
      var (a, b) := (alerts[i].grade, alerts[j].grade);
      || (a.tier == b.tier && a.hoursLate >= b.hoursLate)
      || (a.tier.CRITICAL? && !b.tier.CRITICAL?) || (a.tier.BREACHED? && b.tier.WARNING?)
  }

  lemma OrderedIsMostUrgentFirst(alerts: seq<Alert>)
    requires Ordered(alerts, MoreUrgent)
    ensures MostUrgentFirst(alerts)
  {
    forall i, j | 0 <= i < j < |alerts|
      ensures !MoreUrgent(alerts[j], alerts[i])
    {
    }
  }

  method GetLogisticsSla(db: Db, now: int) returns (r: Response)
    requires KeyedByID(db.shipments)
    ensures r.Failed? <==> 1 in db.failing || 2 in db.failing || (3 in db.failing && NeedsThirdQuery(db))
    ensures r.Reply? ==>
      && Lists(r.alerts, Fold(Candidates(db), now))
      && MostUrgentFirst(r.alerts)
      && r.summary == SummaryOf(r.alerts)
  {
    if 1 in db.failing {
      return Failed;
    }
    var shipments := ActiveShipments(db);
    var shipByID := IndexActive(db, shipments);
    var alerts := ScanWindows(shipments, now);
    if 2 in db.failing {
      return Failed;
    }
    var excs := OpenExceptions(db);
    shipByID, r := LoadReferenced(db, shipByID, excs);
    if r.Failed? {
      return;
    }
    alerts := ScanExceptions(db, shipByID, excs, FromWindows(shipments), alerts, now);
    FoldIsKeyed(Candidates(db), now);
    r := Respond(alerts);
    OrderedIsMostUrgentFirst(r.alerts);
  }

  method IndexActive(db: Db, shipments: seq<Shipment>) returns (shipByID: map<string, Shipment>)
    requires shipments == ActiveShipments(db)
    ensures forall id | id in shipByID :: shipByID[id] in db.shipments && shipByID[id].id == id
    ensures HasKeys(shipByID, shipments)
  {
    shipByID := map[];
    for i := 0 to |shipments|
      invariant forall id | id in shipByID :: shipByID[id] in db.shipments && shipByID[id].id == id
      invariant forall id | id in shipByID :: shipByID[id] in shipments
      invariant forall k | 0 <= k < i :: shipments[k].id in shipByID
    {
      InSort(Where(db.shipments, OnTheClock), SoonerWindow, shipments[i]);
      InWhere(db.shipments, OnTheClock, shipments[i]);
      shipByID := shipByID[shipments[i].id := shipments[i]];
    }
  }

  /** Source 1. */
  method ScanWindows(shipments: seq<Shipment>, now: int) returns (alerts: Alerts)
    ensures alerts == Fold(FromWindows(shipments), now)
  {
    alerts := map[];
    for i := 0 to |shipments|
      invariant alerts == Fold(FromWindows(shipments[..i]), now)
    {
      var s := shipments[i];
      assert shipments[..i + 1][..i] == shipments[..i];
      if s.deliveryWindowTo.Some? {
        FoldAppend(FromWindows(shipments[..i]), Candidate(s, s.deliveryWindowTo.value), now);
        assert FromWindows(shipments[..i + 1]) ==
          FromWindows(shipments[..i]) + [Candidate(s, s.deliveryWindowTo.value)];
        var g := SlaTier(s.deliveryWindowTo.value, now);
        if g.Some? {
          alerts := Consider(alerts, SlaAlertFor(s, s.deliveryWindowTo.value, g.value));
        }
      } else {
        assert FromWindows(shipments[..i + 1]) == FromWindows(shipments[..i]);
      }
    }
    assert shipments[..|shipments|] == shipments;
  }

  /** Source 2, on top of what source 1 left. */
  method ScanExceptions(db: Db, shipByID: map<string, Shipment>, excs: seq<Exc>, ghost windows: seq<Candidate>,
      before: Alerts, now: int)
    returns (alerts: Alerts)
    requires Indexes(shipByID, db.shipments, excs) && before == Fold(windows, now)
    ensures alerts == Fold(windows + FromExceptions(db.shipments, excs), now)
  {
    alerts := before;
    assert windows + [] == windows;
    for i := 0 to |excs|
      invariant alerts == Fold(windows + FromExceptions(db.shipments, excs[..i]), now)
    {
      var e := excs[i];
      assert excs[..i + 1][..i] == excs[..i];
      if e.slaDueAt.Some? && e.shipmentID in shipByID {
        var s := shipByID[e.shipmentID];
        var c := Candidate(s, e.slaDueAt.value);
        FoldAppend(windows + FromExceptions(db.shipments, excs[..i]), c, now);
        assert windows + FromExceptions(db.shipments, excs[..i + 1]) ==
          windows + FromExceptions(db.shipments, excs[..i]) + [c];
        var g := SlaTier(e.slaDueAt.value, now);
        if g.Some? {
          alerts := Consider(alerts, SlaAlertFor(s, e.slaDueAt.value, g.value));
        }
      } else {
        assert FromExceptions(db.shipments, excs[..i + 1]) == FromExceptions(db.shipments, excs[..i]);
      }
    }
    assert excs[..|excs|] == excs;
  }

  lemma FoldAppend(cs: seq<Candidate>, c: Candidate, now: int)
    ensures Fold(cs + [c], now) == ConsiderCandidate(Fold(cs, now), c, now)
  {
    assert (cs + [c])[..|cs|] == cs;
  }

  /** The sort and the counting at the end. */
  method Respond(alerts: Alerts) returns (r: Response)
    requires forall id | id in alerts :: alerts[id].id == id
    ensures r.Reply? && Lists(r.alerts, alerts) && Ordered(r.alerts, MoreUrgent) && r.summary == SummaryOf(r.alerts)
  {
    var values := Values(alerts);
    var out := Sort(values, MoreUrgent);
    SortLists(values, alerts);
    var summary := Summarise(out);
    r := Reply(out, summary);
  }

  method Summarise(out: seq<Alert>) returns (summary: Summary)
    ensures summary == SummaryOf(out)
  {
    var warning, breached, critical := 0, 0, 0;
    for i := 0 to |out|
      invariant SummaryOf(out[..i]) == Summary(i, warning, breached, critical)
    {
      assert out[..i + 1][..i] == out[..i];
      match out[i].grade.tier
      case WARNING => warning := warning + 1;
      case BREACHED => breached := breached + 1;
      case CRITICAL => critical := critical + 1;
    }
    assert out[..|out|] == out;
    summary := Summary(|out|, warning, breached, critical);
  }

  /** Loads the shipments that open exceptions refer to and the deadline scan did not bring. */
  method LoadReferenced(db: Db, loaded: map<string, Shipment>, excs: seq<Exc>)
    returns (shipByID: map<string, Shipment>, r: Response)
    requires KeyedByID(db.shipments)
    requires forall id | id in loaded :: loaded[id] in db.shipments && loaded[id].id == id
    ensures r.Failed? <==> 3 in db.failing && exists e | e in excs :: e.shipmentID !in loaded
    ensures r.Reply? ==> Indexes(shipByID, db.shipments, excs)
  {
    shipByID := loaded;
    r := Reply([], SummaryOf([]));
    var needIDs := [];
    for i := 0 to |excs|
      invariant forall k | 0 <= k < i :: excs[k].shipmentID in loaded || excs[k].shipmentID in needIDs
      invariant needIDs != [] ==> exists e | e in excs :: e.shipmentID !in loaded
    {
      if excs[i].shipmentID !in shipByID {
        needIDs := needIDs + [excs[i].shipmentID];
      }
    }
    if |needIDs| > 0 {
      if 3 in db.failing {
        return shipByID, Failed;
      }
      var extra := Where(db.shipments, (s: Shipment) => s.id in needIDs);
      forall s
        ensures s in extra <==> s in db.shipments && s.id in needIDs
      {
        InWhere(db.shipments, (s: Shipment) => s.id in needIDs, s);
      }
      for i := 0 to |extra|
        invariant forall id | id in shipByID :: shipByID[id] in db.shipments && shipByID[id].id == id
        invariant forall id | id in loaded :: id in shipByID
        invariant forall k | 0 <= k < i :: extra[k].id in shipByID
      {
        shipByID := shipByID[extra[i].id := extra[i]];
      }
    }
    forall e | e in excs
      ensures Find(db.shipments, e.shipmentID) == if e.shipmentID in shipByID then Some(shipByID[e.shipmentID])
        else None
    {
      FindFinds(db.shipments, e.shipmentID);
    }
  }
}
