/**
 backend/auth/revocation.go: a cache in front of the session_revocations table.

 A call of RevokedSince reads the clock, looks its key up under the lock, reads the table
 with no lock held when the entry is missing or stale, and stores what it read under the
 lock. Many calls run at once, so a slow reader can overwrite a newer entry with an older
 one. The class holds the code; the step machine below it interleaves any number of calls
 with the clock and with new revocations, and carries the 60-second promise.

 Times are nanoseconds since Go's zero time, which stands for "no revocation".
 */
module Revocation {
  const SECOND: int := 1_000_000_000
  const DEFAULT_RECHECK: int := 60 * SECOND
  const MAX_CACHE_ENTRIES: nat := 10_000
  const ZERO_TIME: int := 0

  datatype Option<+T> = None | Some(value: T)

  /** A PostgreSQL text value: it cannot hold a NUL character. */
  type Id = s: string | '\0' !in s

  /** A revocation moment: any instant after Go's zero time. */
  type Moment = m: int | m > ZERO_TIME witness 1

  datatype CachedNotBefore = CachedNotBefore(notBefore: int, fetchedAt: int)
  type Cache = map<string, CachedNotBefore>

  /** What the table read gives a call: the latest moment (zero when none), or an error. */
  datatype ReadResult = Fresh(notBefore: int) | Failed

  // ---- The decisions of RevokedSince ----

  function KeyOf(userID: string, tenantID: string): string {
    userID + "\0" + tenantID
  }

  function EffectiveRecheck(configured: int): (r: int)
    ensures r > 0
    ensures configured > 0 ==> r == configured
    ensures configured <= 0 ==> r == 60_000_000_000
  {
    if configured <= 0 then DEFAULT_RECHECK else configured
  }

  predicate NeedsRead(hit: Option<CachedNotBefore>, t: int, recheck: int) {
    hit.None? || t - hit.value.fetchedAt >= recheck
  }

  function KnownNotBefore(hit: Option<CachedNotBefore>): int {
    if hit.Some? then hit.value.notBefore else ZERO_TIME
  }

  /** time.Truncate: down to a whole second. Dafny's integer division floors for a positive divisor. */
  function TruncateToSecond(t: int): int {
    t / SECOND * SECOND
  }

  predicate Verdict(notBefore: int, issuedAt: int) {
    notBefore != ZERO_TIME && issuedAt < TruncateToSecond(notBefore)
  }

  /** The second locked section: flush the whole cache when it is full, then insert. */
  function Stored(cache: Cache, key: string, entry: CachedNotBefore): Cache {
    (if |cache| >= MAX_CACHE_ENTRIES then map[] else cache)[key := entry]
  }

  function Found(cache: Cache, key: string): Option<CachedNotBefore> {
    if key in cache then Some(cache[key]) else None
  }

  lemma StoredIsBounded(cache: Cache, key: string, entry: CachedNotBefore)
    requires |cache| <= MAX_CACHE_ENTRIES
    ensures |Stored(cache, key, entry)| <= MAX_CACHE_ENTRIES
    ensures Found(Stored(cache, key, entry), key) == Some(entry)
    ensures forall k | k != key ::
      Found(Stored(cache, key, entry), k) == if |cache| == MAX_CACHE_ENTRIES then None else Found(cache, k)
  {
    var base := if |cache| >= MAX_CACHE_ENTRIES then map[] else cache;
    assert base[key := entry].Keys == base.Keys + {key};
    assert |base[key := entry].Keys| <= |base.Keys| + 1;
  }

  /** What one call comes to: its answer, whether its read failed, and the cache it leaves. */
  datatype CallResult = CallResult(revoked: bool, failed: bool, cache: Cache)

  /** A call with nothing else running: `t` is the clock reading, `read` what the table answers if asked. */
  function LoneCall(cache: Cache, recheck: int, userID: string, tenantID: string, issuedAt: int, t: int,
      read: ReadResult): CallResult {
    var hit := Found(cache, KeyOf(userID, tenantID));
    if !NeedsRead(hit, t, EffectiveRecheck(recheck))
      then CallResult(Verdict(KnownNotBefore(hit), issuedAt), false, cache)
    else match read
      case Failed => CallResult(Verdict(KnownNotBefore(hit), issuedAt), true, cache)
      case Fresh(newest) =>
        CallResult(Verdict(newest, issuedAt), false, Stored(cache, KeyOf(userID, tenantID), CachedNotBefore(newest, t)))
  }

  /** The end of the second a time falls in. */
  function EndOfSecond(t: int): int {
    t - t % SECOND + SECOND
  }

  /** A token is refused when the second it was issued in was over by the revocation, and not before. */
  lemma VerdictMeaning(notBefore: int, issuedAt: int)
    ensures Verdict(notBefore, issuedAt) <==> notBefore != ZERO_TIME && EndOfSecond(issuedAt) <= notBefore
  {
    var (a, b) := (issuedAt / SECOND, notBefore / SECOND);
    assert issuedAt == a * SECOND + issuedAt % SECOND && notBefore == b * SECOND + notBefore % SECOND;
  }

  /**
   One call, with nothing else running: what it goes by is the table's answer when it asks and gets
   one, and its entry otherwise; a token of the revocation's own second is accepted.
   */
  lemma LoneCallMeaning(cache: Cache, recheck: int, userID: string, tenantID: string, issuedAt: int, t: int,
      read: ReadResult)
    ensures var hit := Found(cache, KeyOf(userID, tenantID));
      var asks := hit.None? || t - hit.value.fetchedAt >= EffectiveRecheck(recheck);
      var used := if asks && read.Fresh? then read.notBefore else if hit.Some? then hit.value.notBefore else ZERO_TIME;
      var r := LoneCall(cache, recheck, userID, tenantID, issuedAt, t, read);
      && (r.revoked <==> used != ZERO_TIME && EndOfSecond(issuedAt) <= used)
      && (used - used % SECOND <= issuedAt ==> !r.revoked)
      && (r.failed <==> asks && read.Failed?)
      && Found(r.cache, KeyOf(userID, tenantID))
           == if asks && read.Fresh? then Some(CachedNotBefore(read.notBefore, t)) else hit
  {
    var hit := Found(cache, KeyOf(userID, tenantID));
    VerdictMeaning(KnownNotBefore(hit), issuedAt);
    if read.Fresh? {
      VerdictMeaning(read.notBefore, issuedAt);
    }
  }

  class CachingRevocationChecker {
    const recheck: int
    var cache: Cache

    ghost predicate Valid()
      reads this
    {
      |cache| <= MAX_CACHE_ENTRIES
    }

    constructor (recheck: int)
      ensures Valid() && this.recheck == recheck && cache == map[]
    {
      this.recheck := recheck;
      cache := map[];
    }

    method RevokedSince(userID: string, tenantID: string, issuedAt: int, t: int, read: ReadResult)
      returns (revoked: bool, failed: bool)
      requires Valid()
      modifies this`cache
      ensures Valid()
      ensures CallResult(revoked, failed, cache) == LoneCall(old(cache), recheck, userID, tenantID, issuedAt, t, read)
      ensures KeyOf(userID, tenantID) !in old(cache) && read.Fresh? ==>
        (revoked <==> read.notBefore != ZERO_TIME && EndOfSecond(issuedAt) <= read.notBefore)
    {
      LoneCallMeaning(cache, recheck, userID, tenantID, issuedAt, t, read);
      var key := KeyOf(userID, tenantID);
      var hit: Option<CachedNotBefore> := None;
      if key in cache {
        hit := Some(cache[key]);
      }
      var notBefore := if hit.Some? then hit.value.notBefore else ZERO_TIME;
      failed := false;
      var every := if recheck <= 0 then DEFAULT_RECHECK else recheck;
      if hit.None? || t - hit.value.fetchedAt >= every {
        match read
        case Failed => failed := true;
        case Fresh(newest) =>
          notBefore := newest;
          StoredIsBounded(cache, key, CachedNotBefore(newest, t));
          if |cache| >= MAX_CACHE_ENTRIES {
            cache := map[];
          }
          cache := cache[key := CachedNotBefore(newest, t)];
      }
      if notBefore == ZERO_TIME {
        revoked := false;
      } else {
        revoked := issuedAt < notBefore / SECOND * SECOND;
      }
    }
  }

  /** The NUL separator keeps keys apart: no two (user, tenant) pairs share an entry. */
  lemma KeyInjective(u1: Id, t1: string, u2: Id, t2: string)
    requires KeyOf(u1, t1) == KeyOf(u2, t2)
    ensures u1 == u2 && t1 == t2
  {
    var k := KeyOf(u1, t1);
    assert k[|u1|] == '\0' && k[|u2|] == '\0';
    assert forall i | 0 <= i < |u1| :: k[i] == u1[i] && u1[i] in u1;
    assert forall i | 0 <= i < |u2| :: k[i] == u2[i] && u2[i] in u2;
    assert |u1| == |u2|;
    assert u1 == k[..|u1|] == u2;
    assert t1 == k[|u1| + 1..] == t2;
  }

  // ---- session_revocations ----

  /** Whose sessions a row revokes: a user everywhere, a whole tenant, or a user in a tenant. */
  datatype Scope = UserWide(user: Id) | TenantWide(tenant: Id) | Pair(user: Id, tenant: Id)

  type Table = map<Scope, Moment>

  predicate Matches(scope: Scope, user: Id, tenant: Id) {
    scope == UserWide(user) || scope == TenantWide(tenant) || scope == Pair(user, tenant)
  }

  function MomentOf(table: Table, scope: Scope): int {
    if scope in table then table[scope] else ZERO_TIME
  }

  function Max(a: int, b: int): int {
    if a < b then b else a
  }

  /** SELECT max(not_before) over the matching rows; NULL reads as the zero time. */
  function Latest(table: Table, user: Id, tenant: Id): int {
    Max(MomentOf(table, UserWide(user)), Max(MomentOf(table, TenantWide(tenant)), MomentOf(table, Pair(user, tenant))))
  }

  // ---- Interleaved calls ----

  datatype Pc =
    | Called
    | ClockRead(t: int)
    | LookedUp(t: int, hit: Option<CachedNotBefore>)
    | TableRead(t: int, newest: int)
    | Returned(used: int, revoked: bool, failed: bool)

  /** `calledAt` is when the call began; the code never sees it. */
  datatype Call = Call(user: Id, tenant: Id, issuedAt: int, calledAt: int, pc: Pc)

  /** A committed revocation and when it was committed; the code never sees this history. */
  datatype Revoked = Revoked(scope: Scope, moment: Moment, committedAt: int)

  datatype State = State(
    clock: int,
    table: Table,
    cache: Cache,
    calls: map<nat, Call>,
    history: seq<Revoked>)

  datatype Action =
    | Tick(now: int)
    | Revoke(scope: Scope, moment: Moment)
    | Enter(id: nat, user: Id, tenant: Id, issuedAt: int)
    | ReadClock(id: nat)
    | LookUp(id: nat)
    | UseEntry(id: nat)
    | ReadTable(id: nat)
    | ReadFails(id: nat)
    | Store(id: nat)

  /** The clock never goes back; a scope's moment may, as the upsert stores whatever moment it is given. */
  predicate Enabled(s: State, recheck: int, a: Action) {
    match a
    case Tick(now) => s.clock <= now
    case Revoke(_, _) => true
    case Enter(id, _, _, _) => id !in s.calls
    case ReadClock(id) => id in s.calls && s.calls[id].pc.Called?
    case LookUp(id) => id in s.calls && s.calls[id].pc.ClockRead?
    case UseEntry(id) => AtLookedUp(s, id) && !Asks(s, recheck, id)
    case ReadTable(id) => AtLookedUp(s, id) && Asks(s, recheck, id)
    case ReadFails(id) => AtLookedUp(s, id) && Asks(s, recheck, id)
    case Store(id) => id in s.calls && s.calls[id].pc.TableRead?
  }

  predicate AtLookedUp(s: State, id: nat) {
    id in s.calls && s.calls[id].pc.LookedUp?
  }

  predicate Asks(s: State, recheck: int, id: nat)
    requires AtLookedUp(s, id)
  {
    NeedsRead(s.calls[id].pc.hit, s.calls[id].pc.t, EffectiveRecheck(recheck))
  }

  function Goto(s: State, id: nat, pc: Pc): State
    requires id in s.calls
  {
    s.(calls := s.calls[id := s.calls[id].(pc := pc)])
  }

  function Return(s: State, id: nat, used: int, failed: bool): State
    requires id in s.calls
  {
    Goto(s, id, Returned(used, Verdict(used, s.calls[id].issuedAt), failed))
  }

  function Step(s: State, recheck: int, a: Action): State
    requires Enabled(s, recheck, a)
  {
    match a
    case Tick(now) => s.(clock := now)
    case Revoke(scope, moment) =>
      s.(table := s.table[scope := moment], history := s.history + [Revoked(scope, moment, s.clock)])
    case Enter(id, user, tenant, issuedAt) =>
      s.(calls := s.calls[id := Call(user, tenant, issuedAt, s.clock, Called)])
    case ReadClock(id) => Goto(s, id, ClockRead(s.clock))
    case LookUp(id) =>
      var c := s.calls[id];
      Goto(s, id, LookedUp(c.pc.t, Found(s.cache, KeyOf(c.user, c.tenant))))
    case UseEntry(id) => Return(s, id, KnownNotBefore(s.calls[id].pc.hit), false)
    case ReadTable(id) =>
      var c := s.calls[id];
      Goto(s, id, TableRead(c.pc.t, Latest(s.table, c.user, c.tenant)))
    case ReadFails(id) => Return(s, id, KnownNotBefore(s.calls[id].pc.hit), true)
    case Store(id) =>
      var c := s.calls[id];
      Return(s, id, c.pc.newest, false)
        .(cache := Stored(s.cache, KeyOf(c.user, c.tenant), CachedNotBefore(c.pc.newest, c.pc.t)))
  }

  const START := State(0, map[], map[], map[], [])

  /** Each action of the run is enabled when it happens. */
  ghost predicate Legal(run: seq<Action>, recheck: int)
    decreases |run|, 0
  {
    run == [] || (Legal(Front(run), recheck) && Enabled(After(Front(run), recheck), recheck, Last(run)))
  }

  ghost function After(run: seq<Action>, recheck: int): State
    requires Legal(run, recheck)
    decreases |run|, 1
  {
    if run == [] then START else Step(After(Front(run), recheck), recheck, Last(run))
  }

  function Front<T>(xs: seq<T>): seq<T>
    requires xs != []
  {
    xs[..|xs| - 1]
  }

  function Last<T>(xs: seq<T>): T
    requires xs != []
  {
    xs[|xs| - 1]
  }

  // ---- What every step keeps ----

  /** The table after some commits. */
  function Replay(history: seq<Revoked>): Table {
    if history == [] then map[] else Replay(Front(history))[Last(history).scope := Last(history).moment]
  }

  /** After v commits the table was still in force at `since`, or came into force later. */
  predicate InForce(history: seq<Revoked>, v: nat, since: int) {
    v == |history| || (v < |history| && history[v].committedAt >= since)
  }

  /** `moment` is the table's answer for this user and tenant at a time not before `since`. */
  ghost predicate FreshSince(history: seq<Revoked>, user: Id, tenant: Id, moment: int, since: int) {
    exists v: nat :: AnswersAt(history, v, user, tenant, moment, since)
  }

  predicate AnswersAt(history: seq<Revoked>, v: nat, user: Id, tenant: Id, moment: int, since: int) {
    InForce(history, v, since) && moment == Latest(Replay(history[..v]), user, tenant)
  }

  /** `moment` is zero or one that really was committed for this user and tenant. */
  ghost predicate Grounded(history: seq<Revoked>, user: Id, tenant: Id, moment: int) {
    moment == ZERO_TIME || exists k | 0 <= k < |history| :: Recorded(history[k], user, tenant, moment)
  }

  predicate Recorded(r: Revoked, user: Id, tenant: Id, moment: int) {
    Matches(r.scope, user, tenant) && r.moment == moment
  }

  ghost predicate EntryOk(s: State, user: Id, tenant: Id, e: CachedNotBefore) {
    e.fetchedAt <= s.clock && FreshSince(s.history, user, tenant, e.notBefore, e.fetchedAt)
  }

  ghost predicate TableOk(s: State) {
    && s.table == Replay(s.history)
    && (forall k | 0 <= k < |s.history| :: s.history[k].committedAt <= s.clock)
    && (forall j, k | 0 <= j < k < |s.history| :: s.history[j].committedAt <= s.history[k].committedAt)
  }

  ghost predicate CacheOk(s: State) {
    && |s.cache| <= MAX_CACHE_ENTRIES
    && (forall user: Id, tenant: Id | KeyOf(user, tenant) in s.cache ::
          EntryOk(s, user, tenant, s.cache[KeyOf(user, tenant)]))
  }

  ghost predicate CallOk(s: State, recheck: int, c: Call) {
    && c.calledAt <= s.clock
    && match c.pc
       case Called => true
       case ClockRead(t) => c.calledAt <= t <= s.clock
       case LookedUp(t, hit) =>
         && c.calledAt <= t <= s.clock
         && (hit.Some? ==> EntryOk(s, c.user, c.tenant, hit.value))
       case TableRead(t, newest) =>
         && c.calledAt <= t <= s.clock
         && EntryOk(s, c.user, c.tenant, CachedNotBefore(newest, t))
       case Returned(used, revoked, failed) =>
         && revoked == Verdict(used, c.issuedAt)
         && Grounded(s.history, c.user, c.tenant, used)
         && (!failed ==> FreshSince(s.history, c.user, c.tenant, used, c.calledAt - EffectiveRecheck(recheck) + 1))
  }

  ghost predicate Inv(s: State, recheck: int) {
    && TableOk(s)
    && CacheOk(s)
    && (forall id | id in s.calls :: CallOk(s, recheck, s.calls[id]))
  }

  lemma {:induction false} ReplayIsGrounded(history: seq<Revoked>, scope: Scope)
    requires scope in Replay(history)
    ensures exists k | 0 <= k < |history| :: history[k].scope == scope && history[k].moment == Replay(history)[scope]
  {
    if Last(history).scope != scope {
      ReplayIsGrounded(Front(history), scope);
    } else {
      assert history[|history| - 1].scope == scope;
    }
  }

  /** What was the table's answer once was committed, or is zero. */
  lemma FreshIsGrounded(history: seq<Revoked>, user: Id, tenant: Id, moment: int, since: int)
    requires FreshSince(history, user, tenant, moment, since)
    ensures Grounded(history, user, tenant, moment)
  {
    var v: nat :| AnswersAt(history, v, user, tenant, moment, since);
    if moment != ZERO_TIME {
      var table := Replay(history[..v]);
      var scope :| Matches(scope, user, tenant) && scope in table && table[scope] == moment;
      ReplayIsGrounded(history[..v], scope);
      var k :| 0 <= k < v && history[..v][k].scope == scope && history[..v][k].moment == moment;
      assert Recorded(history[k], user, tenant, moment);
    }
  }

  /** Nothing later takes back what commit k recorded. */
  predicate Stands(history: seq<Revoked>, k: nat)
    requires k < |history|
  {
    forall j | k < j < |history| && history[j].scope == history[k].scope :: history[k].moment <= history[j].moment
  }

  lemma {:induction false} ReplayKeepsStanding(history: seq<Revoked>, v: nat, k: nat)
    requires k < v <= |history| && Stands(history, k)
    ensures history[k].moment <= MomentOf(Replay(history[..v]), history[k].scope)
  {
    assert Front(history[..v]) == history[..v - 1];
    if k < v - 1 {
      ReplayKeepsStanding(history, v - 1, k);
    }
  }

  /** The table's answer at or after a time covers every standing revocation committed before it. */
  lemma FreshCovers(s: State, user: Id, tenant: Id, moment: int, since: int, k: nat)
    requires TableOk(s) && FreshSince(s.history, user, tenant, moment, since)
    requires k < |s.history| && Matches(s.history[k].scope, user, tenant) && s.history[k].committedAt < since
    requires Stands(s.history, k)
    ensures s.history[k].moment <= moment
  {
    var v: nat :| AnswersAt(s.history, v, user, tenant, moment, since);
    assert k < v;
    ReplayKeepsStanding(s.history, v, k);
  }

  /** A table read is the table's answer now. */
  lemma LatestIsFresh(s: State, user: Id, tenant: Id, since: int)
    requires TableOk(s)
    ensures FreshSince(s.history, user, tenant, Latest(s.table, user, tenant), since)
  {
    assert s.history[..|s.history|] == s.history;
    assert AnswersAt(s.history, |s.history|, user, tenant, Latest(s.table, user, tenant), since);
  }

  /** The table read covers every standing revocation committed up to now, and invents nothing. */
  lemma LatestIsRight(s: State, user: Id, tenant: Id)
    requires TableOk(s)
    ensures forall k | 0 <= k < |s.history| && Matches(s.history[k].scope, user, tenant) && Stands(s.history, k) ::
      s.history[k].moment <= Latest(s.table, user, tenant)
    ensures Grounded(s.history, user, tenant, Latest(s.table, user, tenant))
  {
    LatestIsFresh(s, user, tenant, s.clock + 1);
    FreshIsGrounded(s.history, user, tenant, Latest(s.table, user, tenant), s.clock + 1);
    forall k | 0 <= k < |s.history| && Matches(s.history[k].scope, user, tenant) && Stands(s.history, k)
      ensures s.history[k].moment <= Latest(s.table, user, tenant)
    {
      FreshCovers(s, user, tenant, Latest(s.table, user, tenant), s.clock + 1, k);
    }
  }

  lemma FreshIsMonotone(history: seq<Revoked>, user: Id, tenant: Id, moment: int, since: int, earlier: int)
    requires FreshSince(history, user, tenant, moment, since) && earlier <= since
    ensures FreshSince(history, user, tenant, moment, earlier)
  {
    var v: nat :| AnswersAt(history, v, user, tenant, moment, since);
    assert AnswersAt(history, v, user, tenant, moment, earlier);
  }

  /** A commit after `since` leaves an answer as fresh as it was. */
  lemma FreshStays(history: seq<Revoked>, r: Revoked, user: Id, tenant: Id, moment: int, since: int)
    requires FreshSince(history, user, tenant, moment, since) && since <= r.committedAt
    ensures FreshSince(history + [r], user, tenant, moment, since)
  {
    var v: nat :| AnswersAt(history, v, user, tenant, moment, since);
    assert (history + [r])[..v] == history[..v];
    assert AnswersAt(history + [r], v, user, tenant, moment, since);
  }

  lemma GroundedStays(history: seq<Revoked>, r: Revoked, user: Id, tenant: Id, moment: int)
    requires Grounded(history, user, tenant, moment)
    ensures Grounded(history + [r], user, tenant, moment)
  {
    if moment != ZERO_TIME {
      var k :| 0 <= k < |history| && Recorded(history[k], user, tenant, moment);
      assert Recorded((history + [r])[k], user, tenant, moment);
    }
  }

  lemma TableStep(s: State, recheck: int, a: Action)
    requires TableOk(s) && Enabled(s, recheck, a)
    ensures TableOk(Step(s, recheck, a))
  {
    if a.Revoke? {
      assert Front(s.history + [Revoked(a.scope, a.moment, s.clock)]) == s.history;
    }
  }

  /** An entry stays right as the clock runs on and revocations arrive: they commit after it was fetched. */
  lemma EntryStep(s: State, recheck: int, a: Action, user: Id, tenant: Id, e: CachedNotBefore)
    requires Enabled(s, recheck, a) && EntryOk(s, user, tenant, e)
    ensures EntryOk(Step(s, recheck, a), user, tenant, e)
  {
    if a.Revoke? {
      FreshStays(s.history, Revoked(a.scope, a.moment, s.clock), user, tenant, e.notBefore, e.fetchedAt);
    }
  }

  lemma CacheStep(s: State, recheck: int, a: Action)
    requires Inv(s, recheck) && Enabled(s, recheck, a)
    ensures CacheOk(Step(s, recheck, a))
  {
    var s' := Step(s, recheck, a);
    if a.Store? {
      var c := s.calls[a.id];
      StoredIsBounded(s.cache, KeyOf(c.user, c.tenant), CachedNotBefore(c.pc.newest, c.pc.t));
    }
    forall user: Id, tenant: Id | KeyOf(user, tenant) in s'.cache
      ensures EntryOk(s', user, tenant, s'.cache[KeyOf(user, tenant)])
    {
      if a.Store? && KeyOf(user, tenant) == KeyOf(s.calls[a.id].user, s.calls[a.id].tenant) {
        KeyInjective(user, tenant, s.calls[a.id].user, s.calls[a.id].tenant);
        assert CallOk(s, recheck, s.calls[a.id]);
      }
      EntryStep(s, recheck, a, user, tenant, s'.cache[KeyOf(user, tenant)]);
    }
  }

  /** A call the action does not move keeps its invariant. */
  lemma BystanderStep(s: State, recheck: int, a: Action, c: Call)
    requires TableOk(s) && Enabled(s, recheck, a) && CallOk(s, recheck, c)
    ensures CallOk(Step(s, recheck, a), recheck, c)
  {
    match c.pc
    case LookedUp(t, hit) => if hit.Some? { EntryStep(s, recheck, a, c.user, c.tenant, hit.value); }
    case TableRead(t, newest) => EntryStep(s, recheck, a, c.user, c.tenant, CachedNotBefore(newest, t));
    case Returned(used, revoked, failed) => ReturnedStep(s, recheck, a, c);
    case _ =>
  }

  lemma ReturnedStep(s: State, recheck: int, a: Action, c: Call)
    requires TableOk(s) && Enabled(s, recheck, a) && CallOk(s, recheck, c) && c.pc.Returned?
    ensures CallOk(Step(s, recheck, a), recheck, c)
  {
    if a.Revoke? {
      var r := Revoked(a.scope, a.moment, s.clock);
      GroundedStays(s.history, r, c.user, c.tenant, c.pc.used);
      if !c.pc.failed {
        FreshStays(s.history, r, c.user, c.tenant, c.pc.used, c.calledAt - EffectiveRecheck(recheck) + 1);
      }
    }
  }

  /** The call the action moves. A hit younger than Recheck is the table's answer less than Recheck before the call. */
  lemma MoverStep(s: State, recheck: int, a: Action, id: nat)
    requires Inv(s, recheck) && Enabled(s, recheck, a)
    requires a.ReadClock? || a.LookUp? || a.UseEntry? || a.ReadTable? || a.ReadFails? || a.Store?
    requires a.id == id
    ensures CallOk(Step(s, recheck, a), recheck, Step(s, recheck, a).calls[id])
  {
    var c := s.calls[id];
    assert CallOk(s, recheck, c);
    if a.ReadTable? {
      LatestIsFresh(s, c.user, c.tenant, c.pc.t);
    }
    if a.LookUp? {
      assert KeyOf(c.user, c.tenant) in s.cache ==> EntryOk(s, c.user, c.tenant, s.cache[KeyOf(c.user, c.tenant)]);
    }
    if (a.UseEntry? || a.ReadFails?) && c.pc.hit.Some? {
      EntryServes(s, recheck, c, c.pc.hit.value, c.pc.t);
    }
    if a.Store? {
      EntryServes(s, recheck, c, CachedNotBefore(c.pc.newest, c.pc.t), c.pc.t);
    }
  }

  lemma EntryServes(s: State, recheck: int, c: Call, e: CachedNotBefore, t: int)
    requires EntryOk(s, c.user, c.tenant, e) && c.calledAt <= t
    ensures Grounded(s.history, c.user, c.tenant, e.notBefore)
    ensures !NeedsRead(Some(e), t, EffectiveRecheck(recheck)) ==>
      FreshSince(s.history, c.user, c.tenant, e.notBefore, c.calledAt - EffectiveRecheck(recheck) + 1)
  {
    FreshIsGrounded(s.history, c.user, c.tenant, e.notBefore, e.fetchedAt);
    if t - e.fetchedAt < EffectiveRecheck(recheck) {
      FreshIsMonotone(s.history, c.user, c.tenant, e.notBefore, e.fetchedAt,
        c.calledAt - EffectiveRecheck(recheck) + 1);
    }
  }

  lemma InvStep(s: State, recheck: int, a: Action)
    requires Inv(s, recheck) && Enabled(s, recheck, a)
    ensures Inv(Step(s, recheck, a), recheck)
  {
    var s' := Step(s, recheck, a);
    TableStep(s, recheck, a);
    CacheStep(s, recheck, a);
    forall id | id in s'.calls ensures CallOk(s', recheck, s'.calls[id]) {
      if id in s.calls && s'.calls[id] == s.calls[id] {
        BystanderStep(s, recheck, a, s.calls[id]);
      } else if !a.Enter? {
        MoverStep(s, recheck, a, id);
      }
    }
  }

  lemma {:induction false} InvHolds(run: seq<Action>, recheck: int)
    requires Legal(run, recheck)
    ensures Inv(After(run, recheck), recheck)
  {
    if run == [] {
    } else {
      InvHolds(Front(run), recheck);
      InvStep(After(Front(run), recheck), recheck, Last(run));
    }
  }

  // ---- Main results ----

  /**
   Freshness under any interleaving, whatever moments are recorded: a call whose own table read
   (if it made one) succeeded works with the answer the table had at some time less than
   Recheck before the call began, or later. No commit after v was made that long before the call.
   */
  lemma AnswersAreFresh(run: seq<Action>, recheck: int, id: nat) returns (v: nat)
    requires Legal(run, recheck)
    requires var s := After(run, recheck);
      id in s.calls && s.calls[id].pc.Returned? && !s.calls[id].pc.failed
    ensures var s := After(run, recheck);
      && v <= |s.history|
      && s.calls[id].pc.used == Latest(Replay(s.history[..v]), s.calls[id].user, s.calls[id].tenant)
      && forall k | v <= k < |s.history| :: s.calls[id].calledAt < s.history[k].committedAt + EffectiveRecheck(recheck)
  {
    var s := After(run, recheck);
    InvHolds(run, recheck);
    var c := s.calls[id];
    assert CallOk(s, recheck, c);
    v :| AnswersAt(s.history, v, c.user, c.tenant, c.pc.used, c.calledAt - EffectiveRecheck(recheck) + 1);
  }

  /** Every answer the table had from commit k on, as far as it was in force at `since` or later, covers that commit. */
  predicate Prevails(history: seq<Revoked>, k: nat, user: Id, tenant: Id, since: int)
    requires k < |history|
  {
    forall v | k < v <= |history| && InForce(history, v, since) ::
      history[k].moment <= Latest(Replay(history[..v]), user, tenant)
  }

  /** A commit that no later one of its scope takes back prevails. */
  lemma StandingPrevails(history: seq<Revoked>, k: nat, user: Id, tenant: Id, since: int)
    requires k < |history| && Matches(history[k].scope, user, tenant) && Stands(history, k)
    ensures Prevails(history, k, user, tenant, since)
  {
    forall v | k < v <= |history| && InForce(history, v, since)
      ensures history[k].moment <= Latest(Replay(history[..v]), user, tenant)
    {
      ReplayKeepsStanding(history, v, k);
    }
  }

  /**
   Bounded staleness. A call that began at least Recheck after a matching revocation was
   committed, and whose own table read (if it made one) succeeded, works with a moment at least
   as late, so it refuses every token issued in an earlier second; provided the table did not
   take the revocation back in the Recheck before the call or later.
   */
  lemma BoundedStaleness(run: seq<Action>, recheck: int, id: nat, k: nat)
    requires Legal(run, recheck)
    requires var s := After(run, recheck);
      && id in s.calls && s.calls[id].pc.Returned? && !s.calls[id].pc.failed
      && k < |s.history|
      && s.history[k].committedAt + EffectiveRecheck(recheck) <= s.calls[id].calledAt
      && Prevails(s.history, k, s.calls[id].user, s.calls[id].tenant,
        s.calls[id].calledAt - EffectiveRecheck(recheck) + 1)
    ensures var s := After(run, recheck);
      && s.history[k].moment <= s.calls[id].pc.used
      && (EndOfSecond(s.calls[id].issuedAt) <= s.history[k].moment ==> s.calls[id].pc.revoked)
  {
    var s := After(run, recheck);
    InvHolds(run, recheck);
    ReturnedCallIsBounded(s, recheck, s.calls[id], k);
  }

  lemma ReturnedCallIsBounded(s: State, recheck: int, c: Call, k: nat)
    requires TableOk(s) && CallOk(s, recheck, c) && c.pc.Returned? && !c.pc.failed
    requires k < |s.history| && s.history[k].committedAt + EffectiveRecheck(recheck) <= c.calledAt
    requires Prevails(s.history, k, c.user, c.tenant, c.calledAt - EffectiveRecheck(recheck) + 1)
    ensures s.history[k].moment <= c.pc.used
    ensures EndOfSecond(c.issuedAt) <= s.history[k].moment ==> c.pc.revoked
  {
    FreshPrevails(s.history, k, c.user, c.tenant, c.pc.used, c.calledAt - EffectiveRecheck(recheck) + 1);
    VerdictMeaning(c.pc.used, c.issuedAt);
  }

  lemma FreshPrevails(history: seq<Revoked>, k: nat, user: Id, tenant: Id, moment: int, since: int)
    requires k < |history| && history[k].committedAt < since
    requires forall i, j | 0 <= i < j < |history| :: history[i].committedAt <= history[j].committedAt
    requires FreshSince(history, user, tenant, moment, since) && Prevails(history, k, user, tenant, since)
    ensures history[k].moment <= moment
  {
    var v: nat :| AnswersAt(history, v, user, tenant, moment, since);
    assert k < v;
  }

  /** Every revocation that concerns the call was committed at least Recheck before it began. */
  predicate Quiet(s: State, recheck: int, c: Call) {
    forall j | 0 <= j < |s.history| && Matches(s.history[j].scope, c.user, c.tenant) ::
      s.history[j].committedAt + EffectiveRecheck(recheck) <= c.calledAt
  }

  lemma {:induction false} OthersDoNotShow(history: seq<Revoked>, v: nat, user: Id, tenant: Id)
    requires v <= |history|
    requires forall j | v <= j < |history| :: !Matches(history[j].scope, user, tenant)
    ensures Latest(Replay(history), user, tenant) == Latest(Replay(history[..v]), user, tenant)
  {
    if v == |history| {
      assert history[..v] == history;
    } else {
      assert Front(history)[..v] == history[..v];
      OthersDoNotShow(Front(history), v, user, tenant);
    }
  }

  /**
   Once the revocations that concern it are Recheck old, a call whose own read did not fail works
   with exactly what the table holds, however calls interleave.
   */
  lemma QuietCallsAreExact(run: seq<Action>, recheck: int, id: nat)
    requires Legal(run, recheck)
    requires var s := After(run, recheck);
      id in s.calls && s.calls[id].pc.Returned? && !s.calls[id].pc.failed && Quiet(s, recheck, s.calls[id])
    ensures var s := After(run, recheck);
      && s.calls[id].pc.used == Latest(s.table, s.calls[id].user, s.calls[id].tenant)
      && s.calls[id].pc.revoked == Verdict(s.calls[id].pc.used, s.calls[id].issuedAt)
  {
    var s := After(run, recheck);
    InvHolds(run, recheck);
    assert CallOk(s, recheck, s.calls[id]);
    var v := AnswersAreFresh(run, recheck, id);
    OthersDoNotShow(s.history, v, s.calls[id].user, s.calls[id].tenant);
  }

  /** Some row of the table that concerns the user in the tenant records this moment or a later one. */
  ghost predicate StillRecorded(table: Table, user: Id, tenant: Id, moment: int) {
    exists scope | scope in table :: Matches(scope, user, tenant) && moment <= table[scope]
  }

  /** A row of the table refuses the token: the second the token was issued in was over by its moment. */
  ghost predicate RefusedBy(table: Table, user: Id, tenant: Id, issuedAt: int) {
    exists scope | scope in table :: Matches(scope, user, tenant) && EndOfSecond(issuedAt) <= table[scope]
  }

  /**
   When exactly a revocation has reached the backend: Recheck after the last commit that concerns
   the call, if and only if some row that matches still records its moment or a later one. A token,
   whose time is a whole second, is refused if and only if such a row records a moment at least a
   second later: one issued in the revocation's own second is accepted.
   */
  lemma RevocationReachesExactly(run: seq<Action>, recheck: int, id: nat, moment: Moment)
    requires Legal(run, recheck)
    requires var s := After(run, recheck);
      id in s.calls && s.calls[id].pc.Returned? && !s.calls[id].pc.failed && Quiet(s, recheck, s.calls[id])
    ensures var s := After(run, recheck);
      var c := s.calls[id];
      && (moment <= c.pc.used <==> StillRecorded(s.table, c.user, c.tenant, moment))
      && (c.pc.revoked <==> RefusedBy(s.table, c.user, c.tenant, c.issuedAt))
      && (c.issuedAt % 1_000_000_000 == 0 ==>
            (c.pc.revoked <==> StillRecorded(s.table, c.user, c.tenant, c.issuedAt + 1_000_000_000)))
  {
    var s := After(run, recheck);
    var c := s.calls[id];
    QuietCallsAreExact(run, recheck, id);
    LatestMeaning(s.table, c.user, c.tenant, moment, c.issuedAt);
    if c.issuedAt % SECOND == 0 {
      assert EndOfSecond(c.issuedAt) == c.issuedAt + SECOND;
    }
  }

  lemma LatestMeaning(table: Table, user: Id, tenant: Id, moment: Moment, issuedAt: int)
    ensures moment <= Latest(table, user, tenant) <==> StillRecorded(table, user, tenant, moment)
    ensures Verdict(Latest(table, user, tenant), issuedAt) <==> RefusedBy(table, user, tenant, issuedAt)
  {
    var latest := Latest(table, user, tenant);
    if latest != ZERO_TIME {
      var scope :| Matches(scope, user, tenant) && scope in table && table[scope] == latest;
    }
    forall scope | scope in table && Matches(scope, user, tenant)
      ensures table[scope] <= latest
    {
    }
    VerdictMeaning(latest, issuedAt);
  }

  /** The other direction: no call, failed read or not, refuses a token that no committed revocation covers. */
  lemma RefusalIsGrounded(run: seq<Action>, recheck: int, id: nat)
    requires Legal(run, recheck)
    requires var s := After(run, recheck);
      id in s.calls && s.calls[id].pc.Returned? && s.calls[id].pc.revoked
    ensures var s := After(run, recheck);
      exists k | 0 <= k < |s.history| ::
        && Matches(s.history[k].scope, s.calls[id].user, s.calls[id].tenant)
        && EndOfSecond(s.calls[id].issuedAt) <= s.history[k].moment
  {
    var s := After(run, recheck);
    InvHolds(run, recheck);
    var c := s.calls[id];
    assert CallOk(s, recheck, c);
    var k :| 0 <= k < |s.history| && Recorded(s.history[k], c.user, c.tenant, c.pc.used);
    VerdictMeaning(c.pc.used, c.issuedAt);
  }

  lemma CacheStaysBounded(run: seq<Action>, recheck: int)
    requires Legal(run, recheck)
    ensures |After(run, recheck).cache| <= 10_000
  {
    InvHolds(run, recheck);
  }

  lemma Extend(run: seq<Action>, recheck: int, a: Action) returns (longer: seq<Action>)
    requires Legal(run, recheck) && Enabled(After(run, recheck), recheck, a)
    ensures Legal(longer, recheck) && After(longer, recheck) == Step(After(run, recheck), recheck, a)
  {
    longer := run + [a];
    assert Front(longer) == run;
  }

  /** A first call finds no revocation and caches that. */
  lemma FirstCallCachesNothing(recheck: int, user: Id, tenant: Id, now: int) returns (run: seq<Action>)
    requires now >= 0
    ensures Legal(run, recheck)
    ensures var s := After(run, recheck);
      && s.clock == now && s.table == map[] && s.history == [] && s.calls.Keys == {0}
      && s.cache == map[KeyOf(user, tenant) := CachedNotBefore(ZERO_TIME, now)]
  {
    run := Extend([], recheck, Tick(now));
    run := Extend(run, recheck, Enter(0, user, tenant, 0));
    run := Extend(run, recheck, ReadClock(0));
    run := Extend(run, recheck, LookUp(0));
    assert After(run, recheck).calls[0].pc == LookedUp(now, None);
    run := Extend(run, recheck, ReadTable(0));
    assert After(run, recheck).calls[0].pc == TableRead(now, ZERO_TIME);
    run := Extend(run, recheck, Store(0));
  }

  /** Writers read the clock before their statement. */
  predicate ReadBeforeCommit(history: seq<Revoked>) {
    forall k | 0 <= k < |history| :: history[k].moment <= history[k].committedAt
  }

  /**
   The interval in BoundedStaleness cannot be shortened by one nanosecond: for every setting
   there is a run where a call that began Recheck - 1 after the revocation accepts an older token.
   */
  lemma StalenessBoundIsTight(recheck: int, user: Id, tenant: Id) returns (run: seq<Action>)
    ensures Legal(run, recheck)
    ensures var s := After(run, recheck);
      && |s.history| == 1 && Matches(s.history[0].scope, user, tenant) && ReadBeforeCommit(s.history)
      && 1 in s.calls && s.calls[1].user == user && s.calls[1].tenant == tenant
      && s.history[0].committedAt + EffectiveRecheck(recheck) - 1 == s.calls[1].calledAt
      && EndOfSecond(s.calls[1].issuedAt) <= s.history[0].moment
      && s.calls[1].pc == Returned(ZERO_TIME, false, false)
  {
    var start := 2 * SECOND;
    var late := start + EffectiveRecheck(recheck) - 1;
    run := FirstCallCachesNothing(recheck, user, tenant, start);
    run := Extend(run, recheck, Revoke(UserWide(user), start));
    run := Extend(run, recheck, Tick(late));
    run := Extend(run, recheck, Enter(1, user, tenant, 0));
    assert After(run, recheck).history == [Revoked(UserWide(user), start, start)];
    run := Extend(run, recheck, ReadClock(1));
    assert After(run, recheck).calls[1] == Call(user, tenant, 0, late, ClockRead(late));
    run := Extend(run, recheck, LookUp(1));
    assert After(run, recheck).calls[1].pc == LookedUp(late, Some(CachedNotBefore(ZERO_TIME, start)));
    run := Extend(run, recheck, UseEntry(1));
    assert After(run, recheck).history == [Revoked(UserWide(user), start, start)];
  }

  /**
   And a revocation can fail to reach it: two writers read the clock in one order and commit in the
   other, the earlier moment replaces the later one, no other row matches, and Recheck later a
   token issued between the two is accepted on a fresh read.
   */
  lemma EarlierMomentUndoes(recheck: int, user: Id, tenant: Id) returns (run: seq<Action>)
    ensures Legal(run, recheck)
    ensures var s := After(run, recheck);
      && |s.history| == 2 && s.history[0].scope == s.history[1].scope && Matches(s.history[0].scope, user, tenant)
      && ReadBeforeCommit(s.history)
      && 0 in s.calls && s.calls[0].user == user && s.calls[0].tenant == tenant && Quiet(s, recheck, s.calls[0])
      && !StillRecorded(s.table, user, tenant, s.history[0].moment)
      && EndOfSecond(s.calls[0].issuedAt) <= s.history[0].moment
      && s.calls[0].pc == Returned(s.history[1].moment, false, false)
  {
    var now := 3 * SECOND + EffectiveRecheck(recheck);
    run := TwoCommits(recheck, user, now);
    run := Extend(run, recheck, Enter(0, user, tenant, 2 * SECOND));
    assert After(run, recheck).calls == map[0 := Call(user, tenant, 2 * SECOND, now, Called)];
    run := FreshCall(run, recheck, user, tenant);
  }

  lemma TwoCommits(recheck: int, user: Id, now: int) returns (run: seq<Action>)
    requires now >= 3 * SECOND
    ensures Legal(run, recheck)
    ensures After(run, recheck) == State(now, map[UserWide(user) := 2 * SECOND], map[], map[], [
      Revoked(UserWide(user), 3 * SECOND, 3 * SECOND), Revoked(UserWide(user), 2 * SECOND, 3 * SECOND)])
  {
    run := Extend([], recheck, Tick(3 * SECOND));
    run := Extend(run, recheck, Revoke(UserWide(user), 3 * SECOND));
    run := Extend(run, recheck, Revoke(UserWide(user), 2 * SECOND));
    run := Extend(run, recheck, Tick(now));
  }

  /** The first call of a run reads the table. */
  lemma FreshCall(start: seq<Action>, recheck: int, user: Id, tenant: Id) returns (run: seq<Action>)
    requires Legal(start, recheck)
    requires After(start, recheck).cache == map[]
    requires 0 in After(start, recheck).calls && After(start, recheck).calls[0].pc.Called?
    requires After(start, recheck).calls[0].user == user && After(start, recheck).calls[0].tenant == tenant
    ensures Legal(run, recheck)
    ensures var (s, s') := (After(start, recheck), After(run, recheck));
      var newest := Latest(s.table, user, tenant);
      && s'.history == s.history && s'.table == s.table && 0 in s'.calls
      && s'.calls[0] == s.calls[0].(pc := Returned(newest, Verdict(newest, s.calls[0].issuedAt), false))
  {
    var t := After(start, recheck).clock;
    run := Extend(start, recheck, ReadClock(0));
    assert After(run, recheck).calls[0].pc == ClockRead(t);
    run := Extend(run, recheck, LookUp(0));
    assert After(run, recheck).calls[0].pc == LookedUp(t, None);
    run := Extend(run, recheck, ReadTable(0));
    assert After(run, recheck).calls[0].pc == TableRead(t, Latest(After(start, recheck).table, user, tenant));
    run := Extend(run, recheck, Store(0));
  }

  /** The steps a call takes alone, from a state in which it has begun; `answers` says whether the table answers. */
  function RunAlone(s: State, recheck: int, id: nat, answers: bool): State
    requires id in s.calls && s.calls[id].pc.Called?
  {
    var s2 := Step(Step(s, recheck, ReadClock(id)), recheck, LookUp(id));
    if !Asks(s2, recheck, id) then Step(s2, recheck, UseEntry(id))
    else if !answers then Step(s2, recheck, ReadFails(id))
    else Step(Step(s2, recheck, ReadTable(id)), recheck, Store(id))
  }

  /** A call that runs alone through the machine comes to what the class method comes to. */
  lemma SerialCallIsTheMethod(s: State, recheck: int, id: nat, answers: bool)
    requires id in s.calls && s.calls[id].pc.Called?
    ensures var c := s.calls[id];
      var end := RunAlone(s, recheck, id, answers);
      var read := if answers then Fresh(Latest(s.table, c.user, c.tenant)) else Failed;
      && end.calls[id].pc.Returned?
      && CallResult(end.calls[id].pc.revoked, end.calls[id].pc.failed, end.cache)
           == LoneCall(s.cache, recheck, c.user, c.tenant, c.issuedAt, s.clock, read)
  {
  }
}
