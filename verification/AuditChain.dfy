/**
 backend/audit/audit.go: the append-only audit log, its row hashes, and the verifier.

 SHA-256, the RFC 3339 and UUID texts and the database's JSON normal form are given functions.
 Times are nanoseconds; a UUID is its 128-bit number, so that the database's order on UUIDs is
 the order on numbers and the nil UUID is 0. Each Write is one step.
 */
module AuditChain {
  import opened StableSort

  datatype Option<+T> = None | Some(value: T)

  datatype Env = Env(
    sha256: string -> string,
    timeText: int -> string,
    uuidText: nat -> string,
    jsonb: string -> string)

  /**
   No hash collisions; times and UUIDs have distinct texts without a bar, hashes, times and UUIDs are
   never empty, and no time reads like a UUID.
   */
  ghost predicate Sound(env: Env) {
    && (forall s, t :: env.sha256(s) == env.sha256(t) ==> s == t)
    && (forall s :: NoBar(env.sha256(s)) && env.sha256(s) != "")
    && (forall t, u :: env.timeText(t) == env.timeText(u) ==> t == u)
    && (forall t :: NoBar(env.timeText(t)))
    && (forall t, u :: env.uuidText(t) == env.uuidText(u) ==> t == u)
    && (forall u :: NoBar(env.uuidText(u)) && env.uuidText(u) != "")
    && (forall t, u :: env.timeText(t) != env.uuidText(u))
    && (forall t :: env.timeText(t) != "")
  }

  /** The columns no hash covers. */
  datatype Unhashed = Unhashed(actorRole: string, actorIP: string, actorUserAgent: string, requestID: string)

  /** What a caller hands to Write; a zero time, nil metadata and the nil ID stand for "not given". */
  datatype Event = Event(
    id: nat, occurredAt: Option<int>, tenantID: Option<nat>, actorUserID: Option<nat>,
    action: string, targetType: string, targetID: string, outcome: string,
    metadata: Option<string>, unhashed: Unhashed)

  /** An event with its defaults filled in. */
  datatype Entry = Entry(
    id: nat, occurredAt: int, tenantID: Option<nat>, actorUserID: Option<nat>,
    action: string, targetType: string, targetID: string, outcome: string,
    metadata: string, unhashed: Unhashed)

  datatype Row = Row(entry: Entry, prevHash: string, rowHash: string)

  // ---- Framing ----

  predicate NoBar(s: string) {
    '|' !in s
  }

  /** The fields separated by bars. */
  function Join(fields: seq<string>): string
    requires fields != []
  {
    if |fields| == 1 then fields[0] else fields[0] + "|" + Join(fields[1..])
  }

  function UuidField(env: Env, u: Option<nat>): string {
    if u.Some? then env.uuidText(u.value) else ""
  }

  /** The nine hashed fields of a row, in order. */
  function Fields(env: Env, prevHash: string, e: Entry): seq<string> {
    [prevHash, env.timeText(e.occurredAt), UuidField(env, e.tenantID), UuidField(env, e.actorUserID)] + Texts(e)
  }

  /** The five of them that callers can fill freely. */
  function Texts(e: Entry): seq<string> {
    [e.action, e.targetType, e.targetID, e.outcome, e.metadata]
  }

  function ComputedHash(env: Env, prevHash: string, e: Entry): string {
    env.sha256(Join(Fields(env, prevHash, e)))
  }

  /** sha256.New(), Write and Sum. */
  class Hasher {
    var fed: string

    constructor ()
      ensures fed == ""
    {
      fed := "";
    }

    method Write(s: string)
      modifies this
      ensures fed == old(fed) + s
    {
      fed := fed + s;
    }

    method Sum(env: Env) returns (hex: string)
      ensures hex == env.sha256(fed)
    {
      hex := env.sha256(fed);
    }
  }

  method ComputeHash(env: Env, prevHash: Option<string>, e: Entry) returns (hex: string)
    ensures hex == ComputedHash(env, Known(prevHash), e)
  {
    var h := new Hasher();
    FeedOrigin(h, env, prevHash, e);
    FeedTexts(h, e);
    ghost var f := Fields(env, Known(prevHash), e);
    assert f[4..] == Texts(e);
    JoinNine(f);
    hex := h.Sum(env);
  }

  /** A missing previous hash and an empty one feed the hasher alike. */
  function Known(prevHash: Option<string>): string {
    if prevHash.Some? then prevHash.value else ""
  }

  method FeedOrigin(h: Hasher, env: Env, prevHash: Option<string>, e: Entry)
    requires h.fed == ""
    modifies h
    ensures h.fed == Known(prevHash) + "|" + env.timeText(e.occurredAt) + "|" + UuidField(env, e.tenantID) + "|"
                   + UuidField(env, e.actorUserID) + "|"
  {
    if prevHash.Some? {
      h.Write(prevHash.value);
    }
    assert h.fed == Known(prevHash);
    h.Write("|");
    h.Write(env.timeText(e.occurredAt));
    h.Write("|");
    if e.tenantID.Some? {
      h.Write(env.uuidText(e.tenantID.value));
    }
    assert h.fed == Known(prevHash) + "|" + env.timeText(e.occurredAt) + "|" + UuidField(env, e.tenantID);
    h.Write("|");
    if e.actorUserID.Some? {
      h.Write(env.uuidText(e.actorUserID.value));
    }
    h.Write("|");
  }

  method FeedTexts(h: Hasher, e: Entry)
    modifies h
    ensures h.fed == old(h.fed) + Join(Texts(e))
  {
    h.Write(e.action);
    h.Write("|");
    h.Write(e.targetType);
    h.Write("|");
    h.Write(e.targetID);
    h.Write("|");
    h.Write(e.outcome);
    h.Write("|");
    h.Write(e.metadata);
    JoinFive(Texts(e));
    assert h.fed ==
      old(h.fed) + (e.action + "|" + e.targetType + "|" + e.targetID + "|" + e.outcome + "|" + e.metadata);
  }

  lemma JoinStep(f: seq<string>, k: nat)
    requires k + 1 < |f|
    ensures Join(f[k..]) == f[k] + "|" + Join(f[k + 1..])
  {
    assert f[k..][1..] == f[k + 1..];
  }

  lemma JoinNine(f: seq<string>)
    requires |f| == 9
    ensures Join(f) == f[0] + "|" + f[1] + "|" + f[2] + "|" + f[3] + "|" + Join(f[4..])
  {
    assert f[0..] == f;
    JoinStep(f, 0);
    JoinStep(f, 1);
    JoinStep(f, 2);
    JoinStep(f, 3);
    Reassociate(f[0], f[1], f[2], f[3], Join(f[4..]));
  }

  lemma Reassociate(a: string, b: string, c: string, d: string, e: string)
    ensures a + "|" + (b + "|" + (c + "|" + (d + "|" + e))) == a + "|" + b + "|" + c + "|" + d + "|" + e
  {
    assert c + "|" + (d + "|" + e) == c + "|" + d + "|" + e;
    assert b + "|" + (c + "|" + d + "|" + e) == b + "|" + c + "|" + d + "|" + e;
  }

  lemma JoinFive(f: seq<string>)
    requires |f| == 5
    ensures Join(f) == f[0] + "|" + f[1] + "|" + f[2] + "|" + f[3] + "|" + f[4]
  {
    assert f[0..] == f;
    JoinStep(f, 0);
    JoinStep(f, 1);
    JoinStep(f, 2);
    JoinStep(f, 3);
    Reassociate(f[0], f[1], f[2], f[3], f[4]);
  }

  /** A bar ends the first field: nothing else can. */
  lemma FirstFieldIsDetermined(a: string, b: string, x: string, y: string)
    requires NoBar(a) && NoBar(b) && a + "|" + x == b + "|" + y
    ensures a == b && x == y
  {
    var s, t := a + "|" + x, b + "|" + y;
    assert s[|a|] == '|' && t[|b|] == '|';
    assert forall i | 0 <= i < |a| :: s[i] == a[i];
    assert forall i | 0 <= i < |b| :: t[i] == b[i];
    assert |a| == |b|;
    assert s[..|a|] == a && t[..|b|] == b;
    assert s[|a| + 1..] == x && t[|b| + 1..] == y;
  }

  /** The framing is unambiguous when no field but the last holds a bar. */
  lemma {:induction false} FramingIsInjective(a: seq<string>, b: seq<string>)
    requires a != [] && |a| == |b| && Join(a) == Join(b)
    requires forall i | 0 <= i < |a| - 1 :: NoBar(a[i]) && NoBar(b[i])
    ensures a == b
  {
    if |a| > 1 {
      FirstFieldIsDetermined(a[0], b[0], Join(a[1..]), Join(b[1..]));
      FramingIsInjective(a[1..], b[1..]);
      assert a == [a[0]] + a[1..] && b == [b[0]] + b[1..];
    }
  }

  // ---- The log ----

  const MICROSECOND: int := 1000

  /** What the TIMESTAMPTZ and JSONB columns keep. */
  function Stored(env: Env, e: Entry): Entry {
    e.(occurredAt := e.occurredAt / MICROSECOND * MICROSECOND, metadata := env.jsonb(e.metadata))
  }

  /** Nothing hashed is lost in those columns. */
  predicate Survives(env: Env, e: Entry) {
    e.occurredAt % MICROSECOND == 0 && env.jsonb(e.metadata) == e.metadata
  }

  function Filled(ev: Event, now: int, newID: nat): Entry {
    Entry(if ev.id == 0 then newID else ev.id,
          if ev.occurredAt.Some? then ev.occurredAt.value else now,
          ev.tenantID, ev.actorUserID, ev.action, ev.targetType, ev.targetID,
          if ev.outcome == "" then "SUCCESS" else ev.outcome,
          if ev.metadata.Some? then ev.metadata.value else "null",
          ev.unhashed)
  }

  /** ORDER BY occurred_at, id. */
  predicate Older(a: Row, b: Row) {
    a.entry.occurredAt < b.entry.occurredAt
    || (a.entry.occurredAt == b.entry.occurredAt && a.entry.id < b.entry.id)
  }

  /** The row hash of a tenant's newest row. */
  function Newest(rows: seq<Row>, tenantID: Option<nat>): Option<Row> {
    if rows == [] then None
    else
      var n := |rows| - 1;
      var before := Newest(rows[..n], tenantID);
      if rows[n].entry.tenantID == tenantID && (before.None? || Older(before.value, rows[n])) then Some(rows[n])
      else before
  }

  function NewestHash(rows: seq<Row>, tenantID: Option<nat>): Option<string> {
    var newest := Newest(rows, tenantID);
    if newest.Some? then Some(newest.value.rowHash) else None
  }

  /** The row Write inserts: hashed as given, stored as the columns keep it. */
  function NewRow(env: Env, rows: seq<Row>, e: Entry): Row {
    var prev := Known(NewestHash(rows, e.tenantID));
    Row(Stored(env, e), prev, ComputedHash(env, prev, e))
  }

  /** A call of Write, with the clock, a fresh UUID, and whether the database accepts its statements. */
  datatype Attempt = Attempt(ev: Event, now: int, newID: nat, accepts: bool)

  predicate HasID(rows: seq<Row>, id: nat) {
    exists i | 0 <= i < |rows| :: rows[i].entry.id == id
  }

  function IDOf(a: Attempt): nat {
    if a.ev.id != 0 then a.ev.id else a.newID
  }

  /** Whether the call leaves a new row: it names an action, the database accepts it, and no row has its ID. */
  predicate Inserts(rows: seq<Row>, a: Attempt) {
    a.ev.action != "" && a.accepts && !HasID(rows, IDOf(a))
  }

  function Written(env: Env, rows: seq<Row>, a: Attempt): seq<Row> {
    if Inserts(rows, a) then rows + [NewRow(env, rows, Filled(a.ev, a.now, a.newID))] else rows
  }

  predicate Intact(env: Env, row: Row) {
    ComputedHash(env, row.prevHash, row.entry) == row.rowHash
  }

  function Broken(env: Env, rows: seq<Row>): nat {
    if rows == [] then 0 else (if Intact(env, rows[0]) then 0 else 1) + Broken(env, rows[1..])
  }

  // ---- What a new row says, field by field ----

  function TimeOf(a: Attempt): int {
    if a.ev.occurredAt.Some? then a.ev.occurredAt.value else a.now
  }

  function MetadataOf(a: Attempt): string {
    if a.ev.metadata.Some? then a.ev.metadata.value else "null"
  }

  function OutcomeOf(a: Attempt): string {
    if a.ev.outcome != "" then a.ev.outcome else "SUCCESS"
  }

  /** The columns hold what the caller handed in, and the defaults where nothing was given. */
  predicate HoldsEvent(env: Env, a: Attempt, e: Entry) {
    && e.tenantID == a.ev.tenantID && e.actorUserID == a.ev.actorUserID
    && e.action == a.ev.action && e.targetType == a.ev.targetType && e.targetID == a.ev.targetID
    && e.unhashed == a.ev.unhashed
    && e.id == IDOf(a) && e.outcome == OutcomeOf(a)
    && e.occurredAt == TimeOf(a) - TimeOf(a) % 1000
    && e.metadata == env.jsonb(MetadataOf(a))
  }

  /** Row k is one of the tenant, and none of them has a later time, or the same time and a greater ID. */
  predicate IsNewest(rows: seq<Row>, tenantID: Option<nat>, k: nat)
    requires k < |rows|
  {
    && rows[k].entry.tenantID == tenantID
    && forall j | 0 <= j < |rows| && rows[j].entry.tenantID == tenantID ::
         var (e, newest) := (rows[j].entry, rows[k].entry);
         e.occurredAt < newest.occurredAt || (e.occurredAt == newest.occurredAt && e.id <= newest.id)
  }

  /** The row points at the newest row of its tenant, if there is one. */
  predicate LinksToNewest(rows: seq<Row>, row: Row) {
    if forall k | 0 <= k < |rows| :: rows[k].entry.tenantID != row.entry.tenantID then row.prevHash == ""
    else exists k | 0 <= k < |rows| :: IsNewest(rows, row.entry.tenantID, k) && row.prevHash == rows[k].rowHash
  }

  /** The hash is taken of the link and of what was handed in, before any column cut it. */
  predicate HashesEvent(env: Env, a: Attempt, row: Row) {
    row.rowHash == env.sha256(Join([
      row.prevHash, env.timeText(TimeOf(a)), UuidField(env, a.ev.tenantID), UuidField(env, a.ev.actorUserID),
      a.ev.action, a.ev.targetType, a.ev.targetID, OutcomeOf(a), MetadataOf(a)]))
  }

  predicate Records(env: Env, rows: seq<Row>, a: Attempt, row: Row) {
    HoldsEvent(env, a, row.entry) && LinksToNewest(rows, row) && HashesEvent(env, a, row)
  }

  lemma NewestStays(rows: seq<Row>, last: Row, tenantID: Option<nat>, k: nat)
    requires k < |rows| && IsNewest(rows, tenantID, k)
    requires last.entry.tenantID != tenantID || !Older(rows[k], last)
    ensures IsNewest(rows + [last], tenantID, k)
  {
  }

  lemma NewestIsReplaced(rows: seq<Row>, last: Row, tenantID: Option<nat>, k: nat)
    requires k < |rows| && IsNewest(rows, tenantID, k) && last.entry.tenantID == tenantID && Older(rows[k], last)
    ensures IsNewest(rows + [last], tenantID, |rows|)
  {
  }

  /** The code's newest row is the newest, if the tenant has one; k is where it stands. */
  lemma {:induction false} NewestMeaning(rows: seq<Row>, tenantID: Option<nat>) returns (k: nat)
    ensures Newest(rows, tenantID).None? ==> forall i | 0 <= i < |rows| :: rows[i].entry.tenantID != tenantID
    ensures Newest(rows, tenantID).Some? ==>
      k < |rows| && IsNewest(rows, tenantID, k) && rows[k] == Newest(rows, tenantID).value
  {
    k := 0;
    if rows != [] {
      var n := |rows| - 1;
      var front, last := rows[..n], rows[n];
      assert rows == front + [last];
      k := NewestMeaning(front, tenantID);
      var before := Newest(front, tenantID);
      if before.Some? && (last.entry.tenantID != tenantID || !Older(before.value, last)) {
        NewestStays(front, last, tenantID, k);
      } else if before.Some? {
        NewestIsReplaced(front, last, tenantID, k);
        k := n;
      } else {
        k := n;
      }
    }
  }

  lemma LinksAreToTheNewest(rows: seq<Row>, row: Row)
    requires row.prevHash == Known(NewestHash(rows, row.entry.tenantID))
    ensures LinksToNewest(rows, row)
  {
    var k := NewestMeaning(rows, row.entry.tenantID);
  }

  /**
   Write adds a row that records its event when the event names an action, the database accepts it and
   no row has its ID, and changes nothing otherwise.
   */
  lemma WriteRecordsTheEvent(env: Env, rows: seq<Row>, a: Attempt)
    ensures var after := Written(env, rows, a);
      if a.ev.action != "" && a.accepts && forall i | 0 <= i < |rows| :: rows[i].entry.id != IDOf(a) then
        |after| == |rows| + 1 && after[..|rows|] == rows && Records(env, rows, a, after[|rows|])
      else after == rows
  {
    if Inserts(rows, a) {
      var e := Filled(a.ev, a.now, a.newID);
      LinksAreToTheNewest(rows, NewRow(env, rows, e));
      var prev := Known(NewestHash(rows, e.tenantID));
      assert Fields(env, prev, e) == [
        prev, env.timeText(TimeOf(a)), UuidField(env, a.ev.tenantID), UuidField(env, a.ev.actorUserID),
        a.ev.action, a.ev.targetType, a.ev.targetID, OutcomeOf(a), MetadataOf(a)];
    }
  }

  class AuditLog {
    const env: Env
    var rows: seq<Row>

    constructor (env: Env)
      ensures this.env == env && rows == []
    {
      this.env := env;
      rows := [];
    }

    /** ok is false when an error is returned. */
    method Write(a: Attempt) returns (ok: bool)
      modifies this
      ensures rows == Written(env, old(rows), a)
      ensures ok <==> a.ev.action != "" && a.accepts
    {
      if a.ev.action == "" {
        return false;
      }
      var ev := a.ev;
      if ev.outcome == "" {
        ev := ev.(outcome := "SUCCESS");
      }
      if ev.occurredAt.None? {
        ev := ev.(occurredAt := Some(a.now));
      }
      if ev.metadata.None? {
        ev := ev.(metadata := Some("null"));
      }
      if ev.id == 0 {
        ev := ev.(id := a.newID);
      }
      var e := Filled(ev, a.now, a.newID);
      if !a.accepts {
        return false;
      }
      var prevHash := NewestHash(rows, e.tenantID);
      var rowHash := ComputeHash(env, prevHash, e);
      if !HasID(rows, e.id) {
        rows := rows + [Row(Stored(env, e), if prevHash.Some? then prevHash.value else "", rowHash)];
      }
      return true;
    }

    method VerifyChain() returns (broken: nat)
      ensures broken == Broken(env, rows)
    {
      var ordered := Sort(rows, Older);
      broken := 0;
      for i := 0 to |ordered|
        invariant broken + Broken(env, ordered[i..]) == Broken(env, ordered)
      {
        var ev := ordered[i];
        var prevHash := if ev.prevHash != "" then Some(ev.prevHash) else None;
        var computed := ComputeHash(env, prevHash, ev.entry);
        if computed != ev.rowHash {
          broken := broken + 1;
        }
      }
      BrokenInAnyOrder(env, rows);
    }
  }

  lemma {:induction false} BrokenOfInsert(env: Env, x: Row, ys: seq<Row>)
    ensures Broken(env, Insert(x, ys, Older)) == Broken(env, [x] + ys)
  {
    if ys == [] || !Older(ys[0], x) {
    } else {
      BrokenOfInsert(env, x, ys[1..]);
    }
  }

  lemma {:induction false} BrokenInAnyOrder(env: Env, rows: seq<Row>)
    ensures Broken(env, Sort(rows, Older)) == Broken(env, rows)
  {
    if rows != [] {
      BrokenInAnyOrder(env, rows[1..]);
      BrokenOfInsert(env, rows[0], Sort(rows[1..], Older));
    }
  }

  lemma {:induction false} BrokenConcat(env: Env, a: seq<Row>, b: seq<Row>)
    ensures Broken(env, a + b) == Broken(env, a) + Broken(env, b)
  {
    if a == [] {
      assert a + b == b;
    } else {
      BrokenConcat(env, a[1..], b);
      assert (a + b)[1..] == a[1..] + b;
    }
  }

  // ---- Runs of Write ----

  function LogAfter(env: Env, start: seq<Row>, run: seq<Attempt>): seq<Row> {
    if run == [] then start
    else
      var n := |run| - 1;
      Written(env, LogAfter(env, start, run[..n]), run[n])
  }

  predicate DistinctIDs(rows: seq<Row>) {
    forall i, j | 0 <= i < j < |rows| :: rows[i].entry.id != rows[j].entry.id
  }

  /** No ID is written twice, however often its event is handed in. */
  lemma {:induction false} IDsStayDistinct(env: Env, start: seq<Row>, run: seq<Attempt>)
    requires DistinctIDs(start)
    ensures DistinctIDs(LogAfter(env, start, run))
  {
    if run != [] {
      IDsStayDistinct(env, start, run[..|run| - 1]);
    }
  }

  lemma WriteAppends(env: Env, rows: seq<Row>, a: Attempt)
    ensures rows <= Written(env, rows, a)
  {
  }

  lemma {:induction false} LogOnlyGrows(env: Env, start: seq<Row>, run: seq<Attempt>, k: nat)
    requires k <= |run|
    ensures LogAfter(env, start, run[..k]) <= LogAfter(env, start, run)
    decreases |run|
  {
    var n := |run| - 1;
    if k == |run| {
      assert run[..k] == run;
    } else {
      assert run[..n][..k] == run[..k];
      LogOnlyGrows(env, start, run[..n], k);
      WriteAppends(env, LogAfter(env, start, run[..n]), run[n]);
    }
  }

  /** The log only grows: what every call of a run recorded is still there at its end. */
  lemma LogKeepsItsRecords(env: Env, start: seq<Row>, run: seq<Attempt>, k: nat)
    requires k < |run| && Inserts(LogAfter(env, start, run[..k]), run[k])
    ensures var (before, after) := (LogAfter(env, start, run[..k]), LogAfter(env, start, run));
      before < after && Records(env, before, run[k], after[|before|])
  {
    var before := LogAfter(env, start, run[..k]);
    assert run[..k + 1][..k] == run[..k];
    WriteRecordsTheEvent(env, before, run[k]);
    LogOnlyGrows(env, start, run, k + 1);
  }

  /** How many events of a run got a row that does not hold them as they were hashed. */
  function Lossy(env: Env, start: seq<Row>, run: seq<Attempt>): nat {
    if run == [] then 0
    else
      var n := |run| - 1;
      Lossy(env, start, run[..n]) + (if WritesLossily(env, start, run, n) then 1 else 0)
  }

  predicate WritesLossily(env: Env, start: seq<Row>, run: seq<Attempt>, k: nat)
    requires k < |run|
  {
    Inserts(LogAfter(env, start, run[..k]), run[k]) && !Survives(env, Filled(run[k].ev, run[k].now, run[k].newID))
  }

  /** A new row verifies exactly when its columns lose nothing, bars or no bars. */
  lemma NewRowIsIntact(env: Env, rows: seq<Row>, e: Entry)
    requires Sound(env)
    ensures Intact(env, NewRow(env, rows, e)) <==> Survives(env, e)
  {
    var prev := Known(NewestHash(rows, e.tenantID));
    var given, kept := Fields(env, prev, e), Fields(env, prev, Stored(env, e));
    if Survives(env, e) {
      assert Stored(env, e) == e;
    } else if Join(given) == Join(kept) {
      CommonStart(prev, given[1..], kept[1..]);
      FirstFieldIsDetermined(given[1], kept[1], Join(given[2..]), Join(kept[2..]));
      SameStart(given[2..], kept[2..]);
      assert false;
    }
  }

  lemma CommonStart(first: string, a: seq<string>, b: seq<string>)
    requires a != [] && b != [] && Join([first] + a) == Join([first] + b)
    ensures Join(a) == Join(b)
  {
    assert ([first] + a)[1..] == a && ([first] + b)[1..] == b;
    var front := first + "|";
    assert (front + Join(a))[|front|..] == Join(a) && (front + Join(b))[|front|..] == Join(b);
  }

  /** When all fields but the last agree, so does the last. */
  lemma {:induction false} SameStart(a: seq<string>, b: seq<string>)
    requires a != [] && |a| == |b| && Join(a) == Join(b)
    requires a[..|a| - 1] == b[..|b| - 1]
    ensures a == b
  {
    if |a| > 1 {
      assert a[0] == a[..|a| - 1][0] == b[0];
      assert a == [a[0]] + a[1..] && b == [b[0]] + b[1..];
      CommonStart(a[0], a[1..], b[1..]);
      assert a[1..][..|a| - 2] == a[..|a| - 1][1..];
      assert b[1..][..|b| - 2] == b[..|b| - 1][1..];
      SameStart(a[1..], b[1..]);
    }
  }

  /** The verifier counts exactly what was broken before the run and what the run wrote lossily. */
  lemma {:induction false} VerifierCountsLossyWrites(env: Env, start: seq<Row>, run: seq<Attempt>)
    requires Sound(env)
    ensures Broken(env, LogAfter(env, start, run)) == Broken(env, start) + Lossy(env, start, run)
  {
    if run != [] {
      var n := |run| - 1;
      var before := LogAfter(env, start, run[..n]);
      VerifierCountsLossyWrites(env, start, run[..n]);
      if Inserts(before, run[n]) {
        var e := Filled(run[n].ev, run[n].now, run[n].newID);
        NewRowIsIntact(env, before, e);
        BrokenConcat(env, before, [NewRow(env, before, e)]);
      }
    }
  }

  /** A log built by Write alone passes the verifier if and only if every event written survives its columns. */
  lemma {:induction false} VerifierPassesExactly(env: Env, run: seq<Attempt>)
    requires Sound(env)
    ensures Broken(env, LogAfter(env, [], run)) == 0 <==> forall k | 0 <= k < |run| :: !WritesLossily(env, [], run, k)
  {
    VerifierCountsLossyWrites(env, [], run);
    LossyIsZero(env, [], run);
  }

  lemma {:induction false} LossyIsZero(env: Env, start: seq<Row>, run: seq<Attempt>)
    ensures Lossy(env, start, run) == 0 <==> forall k | 0 <= k < |run| :: !WritesLossily(env, start, run, k)
  {
    if run != [] {
      var n := |run| - 1;
      LossyIsZero(env, start, run[..n]);
      forall k | 0 <= k < n
        ensures WritesLossily(env, start, run[..n], k) == WritesLossily(env, start, run, k)
      {
        assert run[..n][..k] == run[..k];
      }
    }
  }

  /** One event stamped by a clock with nanoseconds is enough to make the verifier report a broken row. */
  lemma NanosecondsBreakTheChain(env: Env, a: Attempt)
    requires Sound(env)
    requires a.ev.action != "" && a.accepts && a.ev.occurredAt.None? && a.now % MICROSECOND != 0
    ensures Broken(env, LogAfter(env, [], [a])) == 1
  {
    var e := Filled(a.ev, a.now, a.newID);
    assert [a][..0] == [];
    assert LogAfter(env, [], [a]) == Written(env, [], a) == [NewRow(env, [], e)];
    NewRowIsIntact(env, [], e);
  }

  // ---- Tampering ----

  /** Everything a row hash covers. */
  function Hashed(row: Row): (Origin, seq<string>) {
    (OriginOf(row), Texts(row.entry))
  }

  /** The hashed fields whose texts hold no bar. */
  datatype Origin = Origin(prevHash: string, occurredAt: int, tenantID: Option<nat>, actorUserID: Option<nat>)

  function OriginOf(row: Row): Origin {
    Origin(row.prevHash, row.entry.occurredAt, row.entry.tenantID, row.entry.actorUserID)
  }

  function OriginFields(env: Env, row: Row): seq<string> {
    [row.prevHash, env.timeText(row.entry.occurredAt), UuidField(env, row.entry.tenantID),
      UuidField(env, row.entry.actorUserID)]
  }

  /** The texts a row hash cannot keep apart from each other. */
  function Quad(e: Entry): seq<string> {
    [e.action, e.targetType, e.targetID, e.outcome]
  }

  /** What the hash sees of a row: where it comes from, and its texts run together. */
  predicate LooksLike(row: Row, edited: Row) {
    OriginOf(row) == OriginOf(edited) && Join(Texts(row.entry)) == Join(Texts(edited.entry))
  }

  lemma {:induction false} JoinConcat(a: seq<string>, b: seq<string>)
    requires a != [] && b != []
    ensures Join(a + b) == Join(a) + "|" + Join(b)
  {
    if |a| > 1 {
      JoinConcat(a[1..], b);
      assert (a + b)[1..] == a[1..] + b;
    } else {
      assert (a + b)[1..] == b;
    }
  }

  lemma Cancel(a: string, x: string, y: string)
    ensures a + x == a + y <==> x == y
    ensures x + a == y + a <==> x == y
  {
    assert (a + x)[|a|..] == x && (a + y)[|a|..] == y;
    assert (x + a)[..|x + a| - |a|] == x && (y + a)[..|y + a| - |a|] == y;
  }

  lemma OriginsTellRowsApart(env: Env, a: Row, b: Row)
    requires Sound(env)
    ensures OriginFields(env, a) == OriginFields(env, b) <==> OriginOf(a) == OriginOf(b)
  {
    var f, g := OriginFields(env, a), OriginFields(env, b);
    if f == g {
      assert f[0] == g[0] && f[1] == g[1] && f[2] == g[2] && f[3] == g[3];
    }
  }

  /** Bar-free fields at the front are determined, and what follows them as one text. */
  lemma {:induction false} FrontIsDetermined(a: seq<string>, b: seq<string>, x: string, y: string)
    requires a != [] && |a| == |b| && AllBarFree(a) && AllBarFree(b)
    requires Join(a) + "|" + x == Join(b) + "|" + y
    ensures a == b && x == y
  {
    if |a| > 1 {
      assert Join(a) + "|" + x == a[0] + "|" + (Join(a[1..]) + "|" + x);
      assert Join(b) + "|" + y == b[0] + "|" + (Join(b[1..]) + "|" + y);
      FirstFieldIsDetermined(a[0], b[0], Join(a[1..]) + "|" + x, Join(b[1..]) + "|" + y);
      FrontIsDetermined(a[1..], b[1..], x, y);
      assert a == [a[0]] + a[1..] && b == [b[0]] + b[1..];
    } else {
      FirstFieldIsDetermined(a[0], b[0], x, y);
    }
  }

  lemma FieldsInTwo(env: Env, row: Row)
    ensures Fields(env, row.prevHash, row.entry) == OriginFields(env, row) + Texts(row.entry)
    ensures Join(Fields(env, row.prevHash, row.entry)) == Join(OriginFields(env, row)) + "|" + Join(Texts(row.entry))
    ensures Join(Texts(row.entry)) == Join(Quad(row.entry)) + "|" + row.entry.metadata
  {
    JoinConcat(OriginFields(env, row), Texts(row.entry));
    TextsInTwo(row.entry);
  }

  // ---- What lies between the bars ----

  /** A text cut at its bars. */
  function Pieces(s: string): (pieces: seq<string>)
    ensures pieces != []
  {
    if s == "" then [""]
    else
      var rest := Pieces(s[1..]);
      if s[0] == '|' then [""] + rest else [[s[0]] + rest[0]] + rest[1..]
  }

  lemma {:induction false} PiecesOfBarFree(a: string)
    requires NoBar(a)
    ensures Pieces(a) == [a]
  {
    if a != "" {
      PiecesOfBarFree(a[1..]);
      assert a == [a[0]] + a[1..];
    }
  }

  /** One more character at the front of some pieces. */
  function Consed(c: char, rest: seq<string>): seq<string>
    requires rest != []
  {
    if c == '|' then [""] + rest else [[c] + rest[0]] + rest[1..]
  }

  lemma PiecesOfCons(c: char, s: string)
    ensures Pieces([c] + s) == Consed(c, Pieces(s))
  {
    assert ([c] + s)[1..] == s;
  }

  lemma ConsedConcat(c: char, rest: seq<string>, more: seq<string>)
    requires rest != []
    ensures Consed(c, rest + more) == Consed(c, rest) + more
  {
  }

  lemma {:induction false} PiecesConcat(a: string, x: string)
    ensures Pieces(a + "|" + x) == Pieces(a) + Pieces(x)
  {
    if a == "" {
      assert a + "|" + x == ['|'] + x;
      PiecesOfCons('|', x);
    } else {
      PiecesConcat(a[1..], x);
      assert a == [a[0]] + a[1..] && a + "|" + x == [a[0]] + (a[1..] + "|" + x);
      PiecesOfCons(a[0], a[1..]);
      PiecesOfCons(a[0], a[1..] + "|" + x);
      ConsedConcat(a[0], Pieces(a[1..]), Pieces(x));
    }
  }

  lemma {:induction false} JoinOfPieces(s: string)
    ensures Join(Pieces(s)) == s
  {
    if s != "" {
      var rest := Pieces(s[1..]);
      JoinOfPieces(s[1..]);
      assert s == [s[0]] + s[1..];
      if s[0] == '|' {
        assert ([""] + rest)[1..] == rest;
      } else {
        assert ([[s[0]] + rest[0]] + rest[1..])[1..] == rest[1..];
      }
    }
  }

  lemma {:induction false} AtLeastAPieceAField(fields: seq<string>)
    requires fields != []
    ensures |Pieces(Join(fields))| >= |fields|
  {
    if |fields| > 1 {
      AtLeastAPieceAField(fields[1..]);
      PiecesConcat(fields[0], Join(fields[1..]));
    }
  }

  lemma BarMakesTwoPieces(s: string)
    requires !NoBar(s)
    ensures |Pieces(s)| >= 2
  {
    var at :| 0 <= at < |s| && s[at] == '|';
    assert s == s[..at] + "|" + s[at + 1..];
    PiecesConcat(s[..at], s[at + 1..]);
  }

  /** The pieces of the hashed text of a row: all that is known of its origin stands in three of them. */
  lemma PiecesOfRow(env: Env, row: Row)
    requires Sound(env)
    ensures Pieces(Join(Fields(env, row.prevHash, row.entry)))
         == Pieces(row.prevHash) + OriginFields(env, row)[1..] + Pieces(Join(Texts(row.entry)))
  {
    var f := OriginFields(env, row);
    var texts := Join(Texts(row.entry));
    FieldsInTwo(env, row);
    PiecesConcat(Join(f), texts);
    assert f == [f[0]] + f[1..] && f[1..] == [f[1]] + f[2..] && f[2..] == [f[2]] + f[3..] && f[3..] == [f[3]];
    PiecesConcat(f[0], Join(f[1..]));
    PiecesConcat(f[1], Join(f[2..]));
    PiecesConcat(f[2], Join(f[3..]));
    PiecesOfBarFree(f[1]);
    PiecesOfBarFree(f[2]);
    PiecesOfBarFree(f[3]);
    assert Pieces(Join(f)) == Pieces(f[0]) + f[1..];
  }

  /**
   Texts in which an origin can be hidden: among their pieces stand a time, a UUID or nothing, and a
   UUID or nothing, one after the other, with five pieces or more behind them.
   */
  ghost predicate HidesOrigin(env: Env, texts: string) {
    exists i, t, u1, u2 :: OriginAt(env, Pieces(texts), i, t, u1, u2)
  }

  predicate OriginAt(env: Env, pieces: seq<string>, i: nat, t: int, u1: Option<nat>, u2: Option<nat>) {
    && i + 8 <= |pieces|
    && pieces[i] == env.timeText(t) && pieces[i + 1] == UuidField(env, u1) && pieces[i + 2] == UuidField(env, u2)
  }

  /** A bar put into prev_hash moves the origin along, and it can only come to lie among the texts. */
  lemma BarInPrevHashNeedsHiding(env: Env, row: Row, edited: Row)
    requires Sound(env) && NoBar(row.prevHash) && !NoBar(edited.prevHash)
    requires Join(Fields(env, row.prevHash, row.entry)) == Join(Fields(env, edited.prevHash, edited.entry))
    ensures HidesOrigin(env, Join(Texts(row.entry)))
  {
    PiecesOfRow(env, row);
    PiecesOfRow(env, edited);
    PiecesOfBarFree(row.prevHash);
    BarMakesTwoPieces(edited.prevHash);
    AtLeastAPieceAField(Texts(edited.entry));
    var all, k := Pieces(Join(Fields(env, row.prevHash, row.entry))), |Pieces(edited.prevHash)|;
    var texts := Pieces(Join(Texts(row.entry)));
    var f, g := OriginFields(env, row), OriginFields(env, edited);
    assert all[k] == g[1] && all[k + 1] == g[2] && all[k + 2] == g[3];
    assert all == [f[0], f[1], f[2], f[3]] + texts;
    assert k != 2 && k != 3;
    assert forall j | 0 <= j < |texts| :: all[4 + j] == texts[j];
    assert |all| == k + 3 + |Pieces(Join(Texts(edited.entry)))|;
    assert OriginAt(env, texts, k - 4, edited.entry.occurredAt, edited.entry.tenantID, edited.entry.actorUserID);
  }

  predicate PrevHashEdit(env: Env, row: Row, edited: Row) {
    edited.rowHash == row.rowHash && !NoBar(edited.prevHash) && Intact(env, edited)
  }

  /** The row with its origin taken from among the pieces of its texts, and everything before it put into prev_hash. */
  function Hidden(env: Env, row: Row, i: nat, t: int, u1: Option<nat>, u2: Option<nat>): Row
    requires OriginAt(env, Pieces(Join(Texts(row.entry))), i, t, u1, u2)
  {
    var p := Pieces(Join(Texts(row.entry)));
    var e := row.entry.(occurredAt := t, tenantID := u1, actorUserID := u2, action := p[i + 3], targetType := p[i + 4],
                        targetID := p[i + 5], outcome := p[i + 6], metadata := Join(p[i + 7..]));
    Row(e, Join(OriginFields(env, row) + p[..i]), row.rowHash)
  }

  lemma HiddenReadsTheSame(env: Env, row: Row, i: nat, t: int, u1: Option<nat>, u2: Option<nat>)
    requires OriginAt(env, Pieces(Join(Texts(row.entry))), i, t, u1, u2)
    ensures var edited := Hidden(env, row, i, t, u1, u2);
      Join(Fields(env, edited.prevHash, edited.entry)) == Join(Fields(env, row.prevHash, row.entry))
  {
    var p := Pieces(Join(Texts(row.entry)));
    JoinOfPieces(Join(Texts(row.entry)));
    FieldsInTwo(env, row);
    JoinConcat(OriginFields(env, row), p);
    JoinAt(OriginFields(env, row), p, i);
    HiddenShape(env, row, i, t, u1, u2);
    HiddenTail(env, Hidden(env, row, i, t, u1, u2), p[i..]);
  }

  lemma JoinAt(a: seq<string>, p: seq<string>, i: nat)
    requires a != [] && i < |p|
    ensures Join(a + p) == Join(a + p[..i]) + "|" + Join(p[i..])
  {
    assert a + p == (a + p[..i]) + p[i..];
    JoinConcat(a + p[..i], p[i..]);
  }

  lemma HiddenShape(env: Env, row: Row, i: nat, t: int, u1: Option<nat>, u2: Option<nat>)
    requires OriginAt(env, Pieces(Join(Texts(row.entry))), i, t, u1, u2)
    ensures var edited := Hidden(env, row, i, t, u1, u2);
      var back := Pieces(Join(Texts(row.entry)))[i..];
      && OriginFields(env, edited)[1..] == back[..3]
      && Quad(edited.entry) == back[3..7] && edited.entry.metadata == Join(back[7..])
  {
    var p := Pieces(Join(Texts(row.entry)));
    assert p[i..][7..] == p[i + 7..];
  }

  lemma HiddenHasABar(env: Env, row: Row, i: nat, t: int, u1: Option<nat>, u2: Option<nat>)
    requires OriginAt(env, Pieces(Join(Texts(row.entry))), i, t, u1, u2)
    ensures !NoBar(Hidden(env, row, i, t, u1, u2).prevHash)
  {
    var prevHash := Hidden(env, row, i, t, u1, u2).prevHash;
    JoinBegins(OriginFields(env, row), Pieces(Join(Texts(row.entry)))[..i]);
    assert prevHash[|row.prevHash|] == '|';
  }

  lemma JoinBegins(a: seq<string>, b: seq<string>)
    requires |a| > 1
    ensures a[0] + "|" <= Join(a + b)
  {
    assert (a + b)[0] == a[0] && |a + b| > 1;
  }

  lemma HiddenTail(env: Env, edited: Row, back: seq<string>)
    requires |back| >= 8
    requires OriginFields(env, edited)[1..] == back[..3]
    requires Quad(edited.entry) == back[3..7] && edited.entry.metadata == Join(back[7..])
    ensures Join(Fields(env, edited.prevHash, edited.entry)) == edited.prevHash + "|" + Join(back)
  {
    FieldsInTwo(env, edited);
    TextsInTwo(edited.entry);
    var f := OriginFields(env, edited);
    assert f == [f[0]] + back[..3];
    JoinConcat([f[0]], back[..3]);
    assert back == back[..3] + (back[3..7] + back[7..]);
    JoinInThree(back[..3], back[3..7], back[7..]);
    TwoBars(f[0], Join(back[..3]), Join(back[3..7]) + "|" + Join(back[7..]));
  }

  lemma JoinInThree(a: seq<string>, b: seq<string>, c: seq<string>)
    requires a != [] && b != [] && c != []
    ensures Join(a + (b + c)) == Join(a) + "|" + (Join(b) + "|" + Join(c))
  {
    JoinConcat(a, b + c);
    JoinConcat(b, c);
  }

  lemma TwoBars(a: string, b: string, c: string)
    ensures a + "|" + b + "|" + c == a + "|" + (b + "|" + c)
  {
  }

  /** An intact row can be given a prev_hash with a bar in it unseen if and only if its texts can hide an origin. */
  lemma PrevHashEditExactly(env: Env, row: Row)
    requires Sound(env) && Intact(env, row) && NoBar(row.prevHash)
    ensures (exists edited :: PrevHashEdit(env, row, edited)) <==> HidesOrigin(env, Join(Texts(row.entry)))
  {
    forall edited | PrevHashEdit(env, row, edited)
      ensures HidesOrigin(env, Join(Texts(row.entry)))
    {
      BarInPrevHashNeedsHiding(env, row, edited);
    }
    if HidesOrigin(env, Join(Texts(row.entry))) {
      var i, t, u1, u2 :| OriginAt(env, Pieces(Join(Texts(row.entry))), i, t, u1, u2);
      HiddenReadsTheSame(env, row, i, t, u1, u2);
      HiddenHasABar(env, row, i, t, u1, u2);
      assert PrevHashEdit(env, row, Hidden(env, row, i, t, u1, u2));
    }
  }

  // ---- Which edits show ----

  /** The previous hash holds no bar before the edit; after it, none that the texts could hide. */
  ghost predicate Traceable(env: Env, row: Row, edited: Row) {
    NoBar(row.prevHash) && (NoBar(edited.prevHash) || !HidesOrigin(env, Join(Texts(row.entry))))
  }

  /** An intact row edited without a new hash stays intact exactly when it looks the same to the hash. */
  lemma EditShowsExactly(env: Env, row: Row, edited: Row)
    requires Sound(env) && Intact(env, row) && edited.rowHash == row.rowHash && Traceable(env, row, edited)
    ensures Intact(env, edited) <==> LooksLike(row, edited)
  {
    FieldsInTwo(env, row);
    FieldsInTwo(env, edited);
    OriginsTellRowsApart(env, row, edited);
    var f, g := OriginFields(env, row), OriginFields(env, edited);
    if Join(Fields(env, row.prevHash, row.entry)) == Join(Fields(env, edited.prevHash, edited.entry)) {
      if NoBar(edited.prevHash) {
        FrontIsDetermined(f, g, Join(Texts(row.entry)), Join(Texts(edited.entry)));
      } else if !NoBar(edited.prevHash) {
        BarInPrevHashNeedsHiding(env, row, edited);
      }
    }
  }

  /** How many rows look different to the hash. */
  function Showing(rows: seq<Row>, edited: seq<Row>): nat
    requires |rows| == |edited|
  {
    if rows == [] then 0 else (if LooksLike(rows[0], edited[0]) then 0 else 1) + Showing(rows[1..], edited[1..])
  }

  ghost predicate EditOf(env: Env, row: Row, edited: Row) {
    edited.rowHash == row.rowHash && Traceable(env, row, edited)
  }

  /** After edits of a healthy log without new hashes the verifier returns the number of rows that look different. */
  lemma {:induction false} VerifierCountsShowingEdits(env: Env, rows: seq<Row>, edited: seq<Row>)
    requires Sound(env) && Broken(env, rows) == 0 && |rows| == |edited|
    requires forall i | 0 <= i < |rows| :: EditOf(env, rows[i], edited[i])
    ensures Broken(env, edited) == Showing(rows, edited)
  {
    if rows != [] {
      EditShowsExactly(env, rows[0], edited[0]);
      forall i | 0 <= i < |rows| - 1
        ensures EditOf(env, rows[1..][i], edited[1..][i])
      {
        assert EditOf(env, rows[i + 1], edited[i + 1]);
      }
      VerifierCountsShowingEdits(env, rows[1..], edited[1..]);
    }
  }

  /** The first four texts hold no bar, in the row and in its edit. */
  predicate Framed(row: Row, edited: Row) {
    AllBarFree(Quad(row.entry)) && AllBarFree(Quad(edited.entry))
  }

  lemma FramedEditsShow(row: Row, edited: Row)
    requires Framed(row, edited)
    ensures LooksLike(row, edited) <==> Hashed(row) == Hashed(edited)
  {
    var a, b := Texts(row.entry), Texts(edited.entry);
    if Join(a) == Join(b) {
      assert forall i | 0 <= i < 4 :: a[i] == Quad(row.entry)[i] && b[i] == Quad(edited.entry)[i];
      FramingIsInjective(a, b);
    }
  }

  /** How many rows differ in what is hashed. */
  function Edits(rows: seq<Row>, edited: seq<Row>): nat
    requires |rows| == |edited|
  {
    if rows == [] then 0 else (if Hashed(rows[0]) == Hashed(edited[0]) then 0 else 1) + Edits(rows[1..], edited[1..])
  }

  /** So, when the first four texts hold no bar, editing hashed fields of k rows makes the verifier return exactly k. */
  lemma VerifierCountsEdits(env: Env, rows: seq<Row>, edited: seq<Row>)
    requires Sound(env) && Broken(env, rows) == 0 && |rows| == |edited|
    requires forall i | 0 <= i < |rows| :: EditOf(env, rows[i], edited[i])
    requires forall i | 0 <= i < |rows| :: Framed(rows[i], edited[i])
    ensures Broken(env, edited) == Edits(rows, edited)
  {
    VerifierCountsShowingEdits(env, rows, edited);
    FramedEditsCount(rows, edited);
  }

  lemma {:induction false} FramedEditsCount(rows: seq<Row>, edited: seq<Row>)
    requires |rows| == |edited| && forall i | 0 <= i < |rows| :: Framed(rows[i], edited[i])
    ensures Showing(rows, edited) == Edits(rows, edited)
  {
    if rows != [] {
      FramedEditsShow(rows[0], edited[0]);
      forall i | 0 <= i < |rows| - 1
        ensures Framed(rows[1..][i], edited[1..][i])
      {
        assert Framed(rows[i + 1], edited[i + 1]);
      }
      FramedEditsCount(rows[1..], edited[1..]);
    }
  }

  /** Rows are checked one by one, so taking one away shows in nothing but its own share of the count. */
  lemma DeletionDoesNotShow(env: Env, rows: seq<Row>, i: nat)
    requires i < |rows|
    ensures Broken(env, rows[..i] + rows[i + 1..]) + (if Intact(env, rows[i]) then 0 else 1) == Broken(env, rows)
  {
    BrokenConcat(env, rows[..i], rows[i + 1..]);
    BrokenConcat(env, rows[..i], rows[i..]);
    assert rows[..i] + rows[i..] == rows;
    assert rows[i..][1..] == rows[i + 1..];
  }

  // ---- Which rows the framing leaves open ----

  /** Another list of as many texts that reads the same. */
  predicate Confusable(texts: seq<string>, other: seq<string>) {
    texts != [] && |texts| == |other| && texts != other && Join(texts) == Join(other)
  }

  predicate AllBarFree(fields: seq<string>) {
    forall i | 0 <= i < |fields| :: NoBar(fields[i])
  }

  function Bars(s: string): nat {
    if s == "" then 0 else (if s[0] == '|' then 1 else 0) + Bars(s[1..])
  }

  lemma {:induction false} BarsOfConcat(a: string, b: string)
    ensures Bars(a + b) == Bars(a) + Bars(b)
  {
    if a == "" {
      assert a + b == b;
    } else {
      BarsOfConcat(a[1..], b);
      assert (a + b)[1..] == a[1..] + b;
    }
  }

  lemma {:induction false} NoBarMeansNoBars(s: string)
    ensures Bars(s) == 0 <==> NoBar(s)
  {
    if s != "" {
      NoBarMeansNoBars(s[1..]);
      assert s == [s[0]] + s[1..];
    }
  }

  /** Joining adds one bar between fields. */
  lemma {:induction false} BarsOfJoin(fields: seq<string>)
    requires fields != []
    ensures Bars(Join(fields)) >= |fields| - 1
    ensures Bars(Join(fields)) == |fields| - 1 <==> AllBarFree(fields)
  {
    NoBarMeansNoBars(fields[0]);
    if |fields| > 1 {
      BarsOfJoin(fields[1..]);
      BarsOfConcat(fields[0] + "|", Join(fields[1..]));
      BarsOfConcat(fields[0], "|");
      assert Bars("|") == 1;
      assert fields == [fields[0]] + fields[1..];
    }
  }

  /** Fields p and p + 1 as one, with the bar between them inside it. */
  function Merged(fields: seq<string>, p: nat): seq<string>
    requires p + 1 < |fields|
  {
    fields[..p] + [fields[p] + "|" + fields[p + 1]] + fields[p + 2..]
  }

  lemma {:induction false} MergedReadsTheSame(fields: seq<string>, p: nat)
    requires p + 1 < |fields|
    ensures Join(Merged(fields, p)) == Join(fields)
  {
    var merged := Merged(fields, p);
    if p > 0 {
      MergedReadsTheSame(fields[1..], p - 1);
      assert merged[1..] == Merged(fields[1..], p - 1);
    } else if |fields| == 2 {
      assert merged == [fields[0] + "|" + fields[1]];
    } else {
      assert merged[1..] == fields[2..] == fields[1..][1..];
      assert Join(merged) == fields[0] + "|" + fields[1] + "|" + Join(fields[2..]);
    }
  }

  /** Field i cut at the bar in it. */
  function Cut(fields: seq<string>, i: nat, at: nat): seq<string>
    requires i < |fields| && at < |fields[i]|
  {
    fields[..i] + [fields[i][..at], fields[i][at + 1..]] + fields[i + 1..]
  }

  /** The texts cut at a bar inside one of them, and two others joined to make up for it. */
  function Shifted(texts: seq<string>, i: nat, at: nat): seq<string>
    requires i < |texts| && 2 <= |texts| && at < |texts[i]|
  {
    Merged(Cut(texts, i, at), if i == 0 then 1 else 0)
  }

  lemma ShiftedReadsTheSame(texts: seq<string>, i: nat, at: nat)
    requires i < |texts| && 2 <= |texts| && at < |texts[i]| && texts[i][at] == '|'
    ensures Confusable(texts, Shifted(texts, i, at))
  {
    var cut := Cut(texts, i, at);
    assert cut[i] + "|" + cut[i + 1] == texts[i];
    assert Merged(cut, i) == texts;
    MergedReadsTheSame(cut, i);
    MergedReadsTheSame(cut, if i == 0 then 1 else 0);
    assert |Shifted(texts, i, at)[0]| != |texts[0]|;
  }

  /** Two texts or more can be rearranged unseen if and only if one of them holds a bar. */
  lemma ConfusableExactly(texts: seq<string>)
    requires 2 <= |texts|
    ensures (exists other :: Confusable(texts, other)) <==> !AllBarFree(texts)
  {
    if !AllBarFree(texts) {
      var i :| 0 <= i < |texts| && !NoBar(texts[i]);
      var at :| 0 <= at < |texts[i]| && texts[i][at] == '|';
      ShiftedReadsTheSame(texts, i, at);
    } else {
      forall other | |other| == |texts| && Join(texts) == Join(other)
        ensures texts == other
      {
        BarsOfJoin(texts);
        BarsOfJoin(other);
        FramingIsInjective(texts, other);
      }
    }
  }

  /**
   The row with other texts in its first four places, and everything else as it was, the metadata and
   the hash included.
   */
  function WithQuad(row: Row, quad: seq<string>): Row
    requires |quad| == 4
  {
    row.(entry := row.entry.(action := quad[0], targetType := quad[1], targetID := quad[2], outcome := quad[3]))
  }

  /** For a row: such an edit stays intact exactly when the four texts run together as before. */
  lemma RearrangementShowsExactly(env: Env, row: Row, quad: seq<string>)
    requires Sound(env) && Intact(env, row) && |quad| == 4
    ensures Intact(env, WithQuad(row, quad)) <==> Join(quad) == Join(Quad(row.entry))
  {
    FieldsInTwo(env, row);
    WithQuadInTwo(env, row, quad);
    CancelAround(Join(OriginFields(env, row)), Join(Quad(row.entry)), Join(quad), row.entry.metadata);
  }

  lemma WithQuadInTwo(env: Env, row: Row, quad: seq<string>)
    requires |quad| == 4
    ensures var other := WithQuad(row, quad);
      Join(Fields(env, other.prevHash, other.entry)) ==
        Join(OriginFields(env, row)) + "|" + (Join(quad) + "|" + row.entry.metadata)
  {
    var other := WithQuad(row, quad);
    FieldsInTwo(env, other);
    assert Quad(other.entry) == quad && OriginFields(env, other) == OriginFields(env, row);
  }

  lemma CancelAround(p: string, a: string, b: string, m: string)
    ensures p + "|" + (a + "|" + m) == p + "|" + (b + "|" + m) <==> a == b
  {
    Cancel(p + "|", a + "|" + m, b + "|" + m);
    Cancel("|" + m, a, b);
    assert a + "|" + m == a + ("|" + m) && b + "|" + m == b + ("|" + m);
  }

  /**
   Which rows can be rearranged unseen, metadata kept: exactly those with a bar in the action, the
   target type, the target ID or the outcome. A bar in the metadata does no harm.
   */
  lemma RearrangeableExactly(env: Env, row: Row)
    requires Sound(env) && Intact(env, row)
    ensures (exists quad :: Rearranges(env, row, quad)) <==> !AllBarFree(Quad(row.entry))
  {
    ConfusableExactly(Quad(row.entry));
    if quad: seq<string> :| Confusable(Quad(row.entry), quad) {
      RearrangementShowsExactly(env, row, quad);
      assert Rearranges(env, row, quad);
    }
    forall quad | Rearranges(env, row, quad)
      ensures Confusable(Quad(row.entry), quad)
    {
      RearrangementShowsExactly(env, row, quad);
    }
  }

  predicate Rearranges(env: Env, row: Row, quad: seq<string>) {
    |quad| == 4 && quad != Quad(row.entry) && Intact(env, WithQuad(row, quad))
  }

  /** The verifier's count is the same before and after. */
  lemma RearrangementDoesNotCount(env: Env, rows: seq<Row>, i: nat, quad: seq<string>)
    requires i < |rows| && Intact(env, rows[i]) && Rearranges(env, rows[i], quad)
    ensures Broken(env, rows[i := WithQuad(rows[i], quad)]) == Broken(env, rows)
  {
    var edited := WithQuad(rows[i], quad);
    assert rows == rows[..i] + ([rows[i]] + rows[i + 1..]);
    assert rows[i := edited] == rows[..i] + ([edited] + rows[i + 1..]);
    BrokenConcat(env, rows[..i], [rows[i]] + rows[i + 1..]);
    BrokenConcat(env, rows[..i], [edited] + rows[i + 1..]);
    assert ([rows[i]] + rows[i + 1..])[1..] == rows[i + 1..] == ([edited] + rows[i + 1..])[1..];
  }

  /** What the target ID holds before a bar can pass for the end of the target type. */
  lemma HeadPassesForTheTextBefore(a: string, tt: string, head: string, tail: string, o: string)
    ensures Join([a, tt, head + "|" + tail, o]) == Join([a, tt + "|" + head, tail, o])
  {
    var five := [a, tt, head, tail, o];
    MergedReadsTheSame(five, 1);
    MergedReadsTheSame(five, 2);
    assert Merged(five, 2) == [a, tt, head + "|" + tail, o];
    assert Merged(five, 1) == [a, tt + "|" + head, tail, o];
  }

  /**
   And there are such logs, written by Write: one event with a bar in its target ID, edited, still
   verifies with 0.
   */
  lemma AnUnseenEdit(env: Env, a: Attempt, head: string, tail: string)
    requires Sound(env) && Inserts([], a) && Survives(env, Filled(a.ev, a.now, a.newID))
    requires a.ev.targetID == head + "|" + tail
    ensures var rows := LogAfter(env, [], [a]);
      && |rows| == 1 && Broken(env, rows) == 0
      && var edited := rows[0].(entry := rows[0].entry.(targetType := a.ev.targetType + "|" + head, targetID := tail));
      edited != rows[0] && Broken(env, [edited]) == 0
  {
    var e := Filled(a.ev, a.now, a.newID);
    assert [a][..0] == [];
    assert LogAfter(env, [], [a]) == Written(env, [], a) == [NewRow(env, [], e)];
    NewRowIsIntact(env, [], e);
    var row := NewRow(env, [], e);
    assert Stored(env, e) == e;
    HeadPassesForTheTextBefore(e.action, e.targetType, head, tail, e.outcome);
    RearrangementShowsExactly(env, row, [e.action, e.targetType + "|" + head, tail, e.outcome]);
    assert |tail| < |row.entry.targetID|;
  }

  // ---- JSON keeps the metadata apart ----

  /** Where a JSON text stands: outside its strings, inside one, after a backslash, or no JSON text at all. */
  datatype Scan = Outside | Inside | Escaped | NoJson

  function Scanned(st: Scan, c: char): Scan {
    match st
    case Outside => if c == '"' then Inside else if c == '|' || c == '\\' then NoJson else Outside
    case Inside => if c == '"' then Outside else if c == '\\' then Escaped else Inside
    case Escaped => Inside
    case NoJson => NoJson
  }

  function ScanFrom(st: Scan, text: string): Scan
    decreases |text|
  {
    if text == "" then st else ScanFrom(Scanned(st, text[0]), text[1..])
  }

  /** What every JSON text does: its strings are closed, and bars and backslashes come only inside them. */
  predicate JsonLike(text: string) {
    ScanFrom(Outside, text) == Outside
  }

  lemma {:induction false} ScanConcat(st: Scan, a: string, b: string)
    ensures ScanFrom(st, a + b) == ScanFrom(ScanFrom(st, a), b)
    decreases |a|
  {
    if a == "" {
      assert a + b == b;
    } else {
      ScanConcat(Scanned(st, a[0]), a[1..], b);
      assert (a + b)[1..] == a[1..] + b;
    }
  }

  /** A number, true, false or null. */
  type Word = w: string | forall i | 0 <= i < |w| :: w[i] !in {'"', '|', '\\'}

  datatype Json = Bare(word: Word) | Text(s: string) | List(items: seq<Json>) | Object(fields: seq<Field>)
  datatype Field = Field(name: string, value: Json)

  /** A string's characters, marks and backslashes behind a backslash. */
  function Escape(s: string): string {
    if s == "" then "" else (if s[0] in {'"', '\\'} then ['\\', s[0]] else [s[0]]) + Escape(s[1..])
  }

  function Quote(s: string): string {
    "\"" + Escape(s) + "\""
  }

  function Printed(j: Json): string
    decreases j
  {
    match j
    case Bare(word) => word
    case Text(s) => Quote(s)
    case List(items) => "[" + PrintedItems(items) + "]"
    case Object(fields) => "{" + PrintedFields(fields) + "}"
  }

  function PrintedItems(items: seq<Json>): string
    decreases items
  {
    if items == [] then ""
    else Printed(items[0]) + (if |items| > 1 then "," else "") + PrintedItems(items[1..])
  }

  function PrintedFields(fields: seq<Field>): string
    decreases fields
  {
    if fields == [] then ""
    else
      Quote(fields[0].name) + ":" + Printed(fields[0].value) + (if |fields| > 1 then "," else "")
        + PrintedFields(fields[1..])
  }

  lemma JsonLikeConcat(a: string, b: string)
    requires JsonLike(a) && JsonLike(b)
    ensures JsonLike(a + b)
  {
    ScanConcat(Outside, a, b);
  }

  lemma {:induction false} WordIsJsonLike(w: Word)
    ensures JsonLike(w)
  {
    if w != "" {
      var rest := w[1..];
      assert forall i | 0 <= i < |rest| :: rest[i] == w[i + 1];
      WordIsJsonLike(rest);
    }
  }

  lemma {:induction false} EscapeStaysInside(s: string)
    ensures ScanFrom(Inside, Escape(s)) == Inside
  {
    if s != "" {
      var first := if s[0] in {'"', '\\'} then ['\\', s[0]] else [s[0]];
      EscapeStaysInside(s[1..]);
      ScanConcat(Inside, first, Escape(s[1..]));
      assert |first| == 2 ==> first[1..] == [s[0]] && first[1..][1..] == "";
      assert |first| == 1 ==> first[1..] == "";
    }
  }

  lemma QuoteIsJsonLike(s: string)
    ensures JsonLike(Quote(s))
  {
    EscapeStaysInside(s);
    ScanConcat(Outside, "\"", Escape(s));
    ScanConcat(Outside, "\"" + Escape(s), "\"");
    assert "\""[1..] == "";
  }

  /** Every JSON text is like that. */
  lemma {:induction false} PrintedIsJsonLike(j: Json)
    ensures JsonLike(Printed(j))
    decreases j, 1
  {
    match j
    case Bare(word) => WordIsJsonLike(word);
    case Text(s) => QuoteIsJsonLike(s);
    case List(items) =>
      ItemsAreJsonLike(items);
      Bracketed("[", PrintedItems(items), "]");
    case Object(fields) =>
      FieldsAreJsonLike(fields);
      Bracketed("{", PrintedFields(fields), "}");
  }

  lemma Bracketed(open: Word, text: string, close: Word)
    requires JsonLike(text)
    ensures JsonLike(open + text + close)
  {
    WordIsJsonLike(open);
    WordIsJsonLike(close);
    JsonLikeConcat(open, text);
    JsonLikeConcat(open + text, close);
  }

  lemma Followed(text: string, close: Word)
    requires JsonLike(text)
    ensures JsonLike(text + close)
  {
    WordIsJsonLike(close);
    JsonLikeConcat(text, close);
  }

  lemma {:induction false} ItemsAreJsonLike(items: seq<Json>)
    ensures JsonLike(PrintedItems(items))
    decreases items, 0
  {
    if items != [] {
      var comma := if |items| > 1 then "," else "";
      PrintedIsJsonLike(items[0]);
      ItemsAreJsonLike(items[1..]);
      Followed(Printed(items[0]), comma);
      JsonLikeConcat(Printed(items[0]) + comma, PrintedItems(items[1..]));
    }
  }

  lemma {:induction false} FieldsAreJsonLike(fields: seq<Field>)
    ensures JsonLike(PrintedFields(fields))
    decreases fields, 0
  {
    if fields != [] {
      var name, comma := Quote(fields[0].name), if |fields| > 1 then "," else "";
      QuoteIsJsonLike(fields[0].name);
      PrintedIsJsonLike(fields[0].value);
      FieldsAreJsonLike(fields[1..]);
      Followed(name, ":");
      JsonLikeConcat(name + ":", Printed(fields[0].value));
      Followed(name + ":" + Printed(fields[0].value), comma);
      JsonLikeConcat(name + ":" + Printed(fields[0].value) + comma, PrintedFields(fields[1..]));
    }
  }

  lemma {:induction false} NoJsonStays(text: string)
    ensures ScanFrom(NoJson, text) == NoJson
  {
    if text != "" {
      NoJsonStays(text[1..]);
    }
  }

  /** Begun once outside a string and once inside one, a text cannot end outside both times. */
  lemma {:induction false} OppositeScans(text: string)
    ensures !(ScanFrom(Outside, text) == Outside && ScanFrom(Inside, text) == Outside)
  {
    if text != "" {
      NoJsonStays(text[1..]);
      OppositeScans(text[1..]);
    }
  }

  /** No JSON text ends in a bar and another JSON text. */
  lemma NoJsonEndsInBarAndJson(front: string, text: string)
    requires JsonLike(text)
    ensures !JsonLike(front + "|" + text)
  {
    ScanConcat(Outside, front + "|", text);
    ScanConcat(Outside, front, "|");
    assert ScanFrom(ScanFrom(Outside, front), "|") == Scanned(ScanFrom(Outside, front), '|') by {
      assert "|"[1..] == "";
    }
    NoJsonStays(text);
    OppositeScans(text);
  }

  lemma LongerEndsInShorter(a: string, m: string, b: string, n: string)
    requires a + "|" + m == b + "|" + n && |m| < |n|
    ensures n == n[..|n| - |m| - 1] + "|" + m
  {
    var s, t := a + "|" + m, b + "|" + n;
    assert n == t[|t| - |n|..] == s[|s| - |n|..];
    assert m == s[|s| - |m|..] == n[|n| - |m|..];
    assert s[|s| - |m| - 1] == '|' == n[|n| - |m| - 1];
  }

  /**
   With JSON in both, an edit that looks the same has the same metadata and the same first four texts
   run together.
   */
  lemma JsonEditsLookAlikeExactly(row: Row, edited: Row)
    requires JsonLike(row.entry.metadata) && JsonLike(edited.entry.metadata)
    ensures LooksLike(row, edited) <==>
      && OriginOf(row) == OriginOf(edited) && row.entry.metadata == edited.entry.metadata
      && Join(Quad(row.entry)) == Join(Quad(edited.entry))
  {
    var a, b, m, n := Join(Quad(row.entry)), Join(Quad(edited.entry)), row.entry.metadata, edited.entry.metadata;
    TextsInTwo(row.entry);
    TextsInTwo(edited.entry);
    if a + "|" + m == b + "|" + n {
      if |m| < |n| {
        LongerEndsInShorter(a, m, b, n);
        NoJsonEndsInBarAndJson(n[..|n| - |m| - 1], m);
      } else if |n| < |m| {
        LongerEndsInShorter(b, n, a, m);
        NoJsonEndsInBarAndJson(m[..|m| - |n| - 1], n);
      } else {
        SameLengthEnds(a, m, b, n);
      }
    }
  }

  lemma SameLengthEnds(a: string, m: string, b: string, n: string)
    requires a + "|" + m == b + "|" + n && |m| == |n|
    ensures a == b && m == n
  {
    var s, t := a + "|" + m, b + "|" + n;
    assert |a| == |b|;
    assert a == s[..|a|] == t[..|b|] == b;
    assert m == s[|a| + 1..] == t[|b| + 1..] == n;
  }

  lemma TextsInTwo(e: Entry)
    ensures Join(Texts(e)) == Join(Quad(e)) + "|" + e.metadata
  {
    JoinConcat(Quad(e), [e.metadata]);
    assert Texts(e) == Quad(e) + [e.metadata];
  }

  // ---- The chain ----

  /** The last row of a tenant, in insert order. */
  function LastOf(rows: seq<Row>, tenantID: Option<nat>): Option<Row> {
    if rows == [] then None
    else
      var n := |rows| - 1;
      if rows[n].entry.tenantID == tenantID then Some(rows[n]) else LastOf(rows[..n], tenantID)
  }

  /** Every row of a tenant points at the tenant's row before it. */
  predicate Chained(rows: seq<Row>) {
    forall i | 0 <= i < |rows| :: LinkedAt(rows, i)
  }

  predicate LinkedAt(rows: seq<Row>, i: nat)
    requires i < |rows|
  {
    var last := LastOf(rows[..i], rows[i].entry.tenantID);
    rows[i].prevHash == if last.Some? then last.value.rowHash else ""
  }

  /** Each tenant's rows come in the order the database sorts them. */
  predicate InOrder(rows: seq<Row>) {
    forall i, j | 0 <= i < j < |rows| && rows[i].entry.tenantID == rows[j].entry.tenantID :: Older(rows[i], rows[j])
  }

  lemma {:induction false} NewestIsLast(rows: seq<Row>, tenantID: Option<nat>)
    requires InOrder(rows)
    ensures Newest(rows, tenantID) == LastOf(rows, tenantID)
    ensures var newest := Newest(rows, tenantID);
      newest.Some? ==> newest.value in rows && newest.value.entry.tenantID == tenantID
  {
    if rows != [] {
      NewestIsLast(rows[..|rows| - 1], tenantID);
    }
  }

  /** As long as each tenant's events keep coming in order, Write keeps one chain per tenant, however tenants mix. */
  lemma {:induction false} WriteKeepsTheChain(env: Env, start: seq<Row>, run: seq<Attempt>)
    requires Chained(start) && InOrder(LogAfter(env, start, run))
    ensures Chained(LogAfter(env, start, run))
  {
    if run != [] {
      var n := |run| - 1;
      var before, after := LogAfter(env, start, run[..n]), LogAfter(env, start, run);
      assert before == after[..|before|];
      assert forall i | 0 <= i < |before| :: before[i] == after[i];
      WriteKeepsTheChain(env, start, run[..n]);
      if Inserts(before, run[n]) {
        NewestIsLast(before, run[n].ev.tenantID);
        forall i | 0 <= i < |after|
          ensures LinkedAt(after, i)
        {
          if i < |before| {
            assert after[..i] == before[..i];
            assert LinkedAt(before, i);
          }
        }
      }
    }
  }
}
