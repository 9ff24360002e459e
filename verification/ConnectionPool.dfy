/**
 backend/auth/tenant_tx.go over a shared pool: many requests, each taking a connection for
 its transaction and giving it back, in any interleaving.

 app.tenant_id lives on the connection. A connection keeps a session-level value and, inside
 a transaction, a transaction-local one; PostgreSQL's row level security reads whichever is
 in force. `set_config(..., true)` sets the local one.
 */
module ConnectionPool {
  datatype Option<+T> = None | Some(value: T)

  // ---- PostgreSQL's side of a connection ----

  datatype Conn = Conn(session: Option<string>, local: Option<string>, open: bool)

  const CLEAN := Conn(None, None, false)

  function Begin(c: Conn): Conn {
    c.(open := true)
  }

  /** set_config('app.tenant_id', value, isLocal): a local value outside a transaction is lost at once. */
  function SetConfig(c: Conn, value: string, isLocal: bool): Conn {
    if !isLocal then c.(session := Some(value), local := None)
    else if c.open then c.(local := Some(value))
    else c
  }

  /** COMMIT, a failed COMMIT and ROLLBACK all end the transaction and drop its local settings. */
  function End(c: Conn): Conn {
    c.(local := None, open := false)
  }

  /** current_setting('app.tenant_id', true). */
  function InForce(c: Conn): Option<string> {
    if c.local.Some? then c.local else c.session
  }

  // ---- Requests over the pool ----

  datatype Phase =
    | NotBegun
    | Beginning(conn: nat)  // connection taken, BEGIN sent
    | Binding(conn: nat)    // transaction open, set_config sent
    | Ready(conn: nat)
    | Refusing(conn: nat)   // set_config failed: every statement is refused until the rollback or failed commit
    | Cancelled             // the request's context ended: the driver rolled back and took the connection away
    | Broken                // BEGIN failed: every statement is refused, nothing to settle on a connection
    | Settled

  datatype Request = Request(tenant: string, phase: Phase)

  /** A statement that reached the database: whose it was, the setting in force, and whether a request ran it. */
  datatype Executed = ByRequest(request: nat, setting: Option<string>) | OnBarePool(setting: Option<string>)

  datatype State = State(
    conns: map<nat, Conn>,       // every live connection
    idle: set<nat>,              // those in the pool
    requests: map<nat, Request>,
    log: seq<Executed>)

  datatype Ending = Committed | CommitFailed | RolledBack | Panicked

  datatype Action =
    | Connect(conn: nat)                              // the pool opens a connection
    | Arrive(request: nat, tenant: string)
    | Take(request: nat, conn: nat)                   // first use of TenantDB
    | BeginAnswer(request: nat, ok: bool, keep: bool) // keep: a failed BEGIN returns the connection or discards it
    | BindAnswer(request: nat, ok: bool)
    | Statement(request: nat)
    | Cancel(request: nat, keep: bool)                // the driver ends the transaction the request still holds
    | Settle(request: nat, ending: Ending, keep: bool)
    | BareStatement(conn: nat)                        // database.DB used without a request transaction

  function ConnOf(p: Phase): Option<nat> {
    match p
    case Beginning(c) => Some(c)
    case Binding(c) => Some(c)
    case Ready(c) => Some(c)
    case Refusing(c) => Some(c)
    case _ => None
  }

  predicate InPhase(s: State, request: nat, p: Phase -> bool) {
    request in s.requests && p(s.requests[request].phase)
  }

  predicate Enabled(s: State, a: Action) {
    match a
    case Connect(c) => c !in s.conns
    case Arrive(r, tenant) => r !in s.requests && tenant != ""
    case Take(r, c) => InPhase(s, r, (p: Phase) => p.NotBegun?) && c in s.idle && c in s.conns
    case BeginAnswer(r, _, _) => InPhase(s, r, (p: Phase) => p.Beginning? && p.conn in s.conns)
    case BindAnswer(r, _) => InPhase(s, r, (p: Phase) => p.Binding? && p.conn in s.conns)
    case Statement(r) => InPhase(s, r, (p: Phase) => p.Ready? && p.conn in s.conns)
    case Cancel(r, _) => InPhase(s, r, (p: Phase) => (p.Binding? || p.Ready? || p.Refusing?) && p.conn in s.conns)
    case Settle(r, ending, _) =>
      || InPhase(s, r, (p: Phase) => (p.Ready? || (p.Refusing? && ending != Committed)) && p.conn in s.conns)
      || (InPhase(s, r, (p: Phase) => p.Cancelled?) && ending != Committed)
    case BareStatement(c) => c in s.idle && c in s.conns
  }

  function WithPhase(s: State, r: nat, p: Phase): State
    requires r in s.requests
  {
    s.(requests := s.requests[r := s.requests[r].(phase := p)])
  }

  /** Hand a connection back: to the pool, or closed when the driver found it broken. */
  function Release(s: State, c: nat, conn: Conn, keep: bool): State {
    if keep then s.(conns := s.conns[c := conn], idle := s.idle + {c})
    else s.(conns := s.conns - {c})
  }

  function Step(s: State, a: Action): State
    requires Enabled(s, a)
  {
    match a
    case Connect(c) => s.(conns := s.conns[c := CLEAN], idle := s.idle + {c})
    case Arrive(r, tenant) => s.(requests := s.requests[r := Request(tenant, NotBegun)])
    case Take(r, c) => WithPhase(s, r, Beginning(c)).(idle := s.idle - {c})
    case BeginAnswer(r, ok, keep) =>
      var c := s.requests[r].phase.conn;
      if ok then WithPhase(s, r, Binding(c)).(conns := s.conns[c := Begin(s.conns[c])])
      else Release(WithPhase(s, r, Broken), c, s.conns[c], keep)
    case BindAnswer(r, ok) =>
      var c := s.requests[r].phase.conn;
      if ok then WithPhase(s, r, Ready(c)).(conns := s.conns[c := SetConfig(s.conns[c], s.requests[r].tenant, true)])
      else WithPhase(s, r, Refusing(c))
    case Statement(r) => s.(log := s.log + [ByRequest(r, InForce(s.conns[s.requests[r].phase.conn]))])
    case Cancel(r, keep) =>
      var c := s.requests[r].phase.conn;
      Release(WithPhase(s, r, Cancelled), c, End(s.conns[c]), keep)
    case Settle(r, _, keep) =>
      if s.requests[r].phase.Cancelled? then WithPhase(s, r, Settled)
      else
        var c := s.requests[r].phase.conn;
        Release(WithPhase(s, r, Settled), c, End(s.conns[c]), keep)
    case BareStatement(c) => s.(log := s.log + [OnBarePool(InForce(s.conns[c]))])
  }

  const START := State(map[], {}, map[], [])

  function Front<T>(xs: seq<T>): seq<T>
    requires xs != []
  {
    xs[..|xs| - 1]
  }

  function Last<T>(xs: seq<T>): T
    requires xs != []
  {
    xs[|xs| - 1]
  }

  ghost predicate Legal(run: seq<Action>)
    decreases |run|, 0
  {
    run == [] || (Legal(Front(run)) && Enabled(After(Front(run)), Last(run)))
  }

  ghost function After(run: seq<Action>): State
    requires Legal(run)
    decreases |run|, 1
  {
    if run == [] then START else Step(After(Front(run)), Last(run))
  }

  // ---- What every step keeps ----

  /** What the connection of a request looks like in each phase. */
  predicate ConnFits(p: Phase, tenant: string, c: Conn) {
    match p
    case Beginning(_) => c == CLEAN
    case Binding(_) => c == Begin(CLEAN)
    case Ready(_) => c == SetConfig(Begin(CLEAN), tenant, true)
    case Refusing(_) => c == Begin(CLEAN)
    case _ => true
  }

  ghost predicate Exclusive(s: State) {
    && (forall r | r in s.requests && ConnOf(s.requests[r].phase).Some? ::
          ConnOf(s.requests[r].phase).value !in s.idle)
    && (forall r1, r2 | r1 in s.requests && r2 in s.requests && r1 != r2 && ConnOf(s.requests[r1].phase).Some? ::
          ConnOf(s.requests[r1].phase) != ConnOf(s.requests[r2].phase))
  }

  ghost predicate Fitting(s: State) {
    && (forall c | c in s.idle :: c in s.conns && s.conns[c] == CLEAN)
    && (forall r | r in s.requests && ConnOf(s.requests[r].phase).Some? ::
          var c := ConnOf(s.requests[r].phase).value;
          c in s.conns && ConnFits(s.requests[r].phase, s.requests[r].tenant, s.conns[c]))
  }

  ghost predicate LogOk(s: State) {
    forall i | 0 <= i < |s.log| ::
      match s.log[i]
      case ByRequest(r, setting) => r in s.requests && setting == Some(s.requests[r].tenant)
      case OnBarePool(setting) => setting == None
  }

  ghost predicate Inv(s: State) {
    Exclusive(s) && Fitting(s) && LogOk(s)
  }

  lemma LogStep(s: State, a: Action)
    requires Inv(s) && Enabled(s, a)
    ensures LogOk(Step(s, a))
  {
    var s' := Step(s, a);
    assert forall r | r in s.requests :: r in s'.requests && s'.requests[r].tenant == s.requests[r].tenant;
    if a.Statement? {
      assert ConnOf(s.requests[a.request].phase) == Some(s.requests[a.request].phase.conn);
    }
  }

  lemma ExclusiveStep(s: State, a: Action)
    requires Inv(s) && Enabled(s, a)
    ensures Exclusive(Step(s, a))
  {
    var s' := Step(s, a);
    forall r | r in s'.requests && ConnOf(s'.requests[r].phase).Some?
      ensures ConnOf(s'.requests[r].phase).value !in s'.idle
    {
      if r in s.requests && ConnOf(s.requests[r].phase) == ConnOf(s'.requests[r].phase) {
        assert ConnOf(s.requests[r].phase).value in s.conns;
      }
    }
    forall r1, r2 | r1 in s'.requests && r2 in s'.requests && r1 != r2 && ConnOf(s'.requests[r1].phase).Some?
      ensures ConnOf(s'.requests[r1].phase) != ConnOf(s'.requests[r2].phase)
    {
      assert r1 in s.requests || a.Arrive?;
      assert r2 in s.requests || a.Arrive?;
    }
  }

  /** The request the action moves, if any. */
  predicate Moves(a: Action, r: nat) {
    match a
    case Arrive(m, _) => m == r
    case Take(m, _) => m == r
    case BeginAnswer(m, _, _) => m == r
    case BindAnswer(m, _) => m == r
    case Cancel(m, _) => m == r
    case Settle(m, _, _) => m == r
    case _ => false
  }

  /** The action changes the connection its request holds. */
  predicate Frees(s: State, a: Action)
    requires Enabled(s, a)
  {
    a.BeginAnswer? || a.BindAnswer? || a.Cancel? || (a.Settle? && !s.requests[a.request].phase.Cancelled?)
  }

  lemma BystanderFits(s: State, a: Action, r: nat)
    requires Inv(s) && Enabled(s, a) && !Moves(a, r)
    requires r in s.requests && ConnOf(s.requests[r].phase).Some?
    ensures var s' := Step(s, a);
      var c := ConnOf(s.requests[r].phase).value;
      s'.requests[r] == s.requests[r] && c in s'.conns && s'.conns[c] == s.conns[c]
  {
    var c := ConnOf(s.requests[r].phase).value;
    if Frees(s, a) {
      assert ConnOf(s.requests[a.request].phase) == Some(s.requests[a.request].phase.conn);
      assert ConnOf(s.requests[a.request].phase) != ConnOf(s.requests[r].phase);
    }
  }

  lemma FittingStep(s: State, a: Action)
    requires Inv(s) && Enabled(s, a)
    ensures Fitting(Step(s, a))
  {
    var s' := Step(s, a);
    if Frees(s, a) {
      assert ConnOf(s.requests[a.request].phase) == Some(s.requests[a.request].phase.conn);
    }
    forall r | r in s'.requests && ConnOf(s'.requests[r].phase).Some?
      ensures var c := ConnOf(s'.requests[r].phase).value;
        c in s'.conns && ConnFits(s'.requests[r].phase, s'.requests[r].tenant, s'.conns[c])
    {
      if !Moves(a, r) {
        BystanderFits(s, a, r);
      }
    }
  }

  lemma InvStep(s: State, a: Action)
    requires Inv(s) && Enabled(s, a)
    ensures Inv(Step(s, a))
  {
    LogStep(s, a);
    ExclusiveStep(s, a);
    FittingStep(s, a);
  }

  lemma {:induction false} InvHolds(run: seq<Action>)
    requires Legal(run)
    ensures Inv(After(run))
  {
    if run == [] {
    } else {
      InvHolds(Front(run));
      InvStep(After(Front(run)), Last(run));
    }
  }

  // ---- Main results ----

  /**
   Pool isolation, for any interleaving: every statement of a request runs with
   app.tenant_id equal to that request's tenant, and a statement on the bare pool runs with none.
   */
  lemma EveryStatementRunsAsItsTenant(run: seq<Action>, i: nat)
    requires Legal(run) && i < |After(run).log|
    ensures match After(run).log[i]
      case ByRequest(r, setting) => r in After(run).requests && setting == Some(After(run).requests[r].tenant)
      case OnBarePool(setting) => setting == None
  {
    InvHolds(run);
  }

  /** The tenant a request came with. */
  function ArrivedFor(run: seq<Action>, r: nat): Option<string> {
    if run == [] then None
    else match Last(run)
      case Arrive(m, tenant) => if m == r then Some(tenant) else ArrivedFor(Front(run), r)
      case _ => ArrivedFor(Front(run), r)
  }

  /** What a run's actions send to the database, read off the actions alone. */
  function Sent(run: seq<Action>): seq<Executed> {
    if run == [] then []
    else match Last(run)
      case Statement(r) => Sent(Front(run)) + [ByRequest(r, ArrivedFor(run, r))]
      case BareStatement(_) => Sent(Front(run)) + [OnBarePool(None)]
      case _ => Sent(Front(run))
  }

  lemma TenantStep(s: State, a: Action, r: nat)
    requires Enabled(s, a)
    ensures r in Step(s, a).requests <==> r in s.requests || (a.Arrive? && a.request == r)
    ensures r in s.requests ==> Step(s, a).requests[r].tenant == s.requests[r].tenant
    ensures a.Arrive? && a.request == r ==> r !in s.requests && Step(s, a).requests[r].tenant == a.tenant
  {
  }

  lemma {:induction false} RequestsKeepTheirTenant(run: seq<Action>, r: nat)
    requires Legal(run)
    ensures r in After(run).requests <==> ArrivedFor(run, r).Some?
    ensures r in After(run).requests ==> ArrivedFor(run, r) == Some(After(run).requests[r].tenant)
  {
    if run == [] {
    } else {
      RequestsKeepTheirTenant(Front(run), r);
      TenantStep(After(Front(run)), Last(run), r);
    }
  }

  /**
   So over every run the database executes exactly the statements sent, in order, each of a request
   under the tenant that request came with.
   */
  lemma {:induction false} TheLogIsWhatWasSent(run: seq<Action>)
    requires Legal(run)
    ensures After(run).log == Sent(run)
  {
    if run == [] {
    } else {
      TheLogIsWhatWasSent(Front(run));
      if Last(run).Statement? || Last(run).BareStatement? {
        EveryStatementRunsAsItsTenant(run, |After(run).log| - 1);
      }
      if Last(run).Statement? {
        RequestsKeepTheirTenant(run, Last(run).request);
      }
    }
  }

  /** Somewhere in the run the request's BEGIN succeeded; its set_config did; its transaction was ended. */
  predicate Began(run: seq<Action>, r: nat) {
    run != [] && ((Last(run).BeginAnswer? && Last(run).request == r && Last(run).ok) || Began(Front(run), r))
  }

  predicate Bound(run: seq<Action>, r: nat) {
    run != [] && ((Last(run).BindAnswer? && Last(run).request == r && Last(run).ok) || Bound(Front(run), r))
  }

  predicate Ended(run: seq<Action>, r: nat) {
    run != [] && (((Last(run).Cancel? || Last(run).Settle?) && Last(run).request == r) || Ended(Front(run), r))
  }

  /** What a request has behind it in each phase. */
  predicate Earned(s: State, r: nat, began: bool, bound: bool, ended: bool) {
    if r !in s.requests then !ended
    else
      var p := s.requests[r].phase;
      && (p.Binding? || p.Refusing? || p.Ready? ==> began)
      && (p.Ready? ==> bound)
      && (ended ==> p.Cancelled? || p.Settled?)
  }

  lemma EarnedStep(s: State, a: Action, r: nat, began: bool, bound: bool, ended: bool)
    requires Enabled(s, a) && Earned(s, r, began, bound, ended)
    ensures Earned(Step(s, a), r,
      began || (a.BeginAnswer? && a.request == r && a.ok), bound || (a.BindAnswer? && a.request == r && a.ok),
      ended || ((a.Cancel? || a.Settle?) && a.request == r))
  {
  }

  lemma {:induction false} PhasesAreEarned(run: seq<Action>, r: nat)
    requires Legal(run)
    ensures Earned(After(run), r, Began(run, r), Bound(run, r), Ended(run, r))
  {
    if run == [] {
    } else {
      var front := Front(run);
      PhasesAreEarned(front, r);
      EarnedStep(After(front), Last(run), r, Began(front, r), Bound(front, r), Ended(front, r));
    }
  }

  /** A request's statement runs only after its transaction began and its tenant was bound, and before it is over. */
  lemma StatementsAreInsideTheTransaction(run: seq<Action>, r: nat)
    requires Legal(run) && Enabled(After(run), Statement(r))
    ensures Began(run, r) && Bound(run, r) && !Ended(run, r)
  {
    PhasesAreEarned(run, r);
  }

  /** A live connection is in the pool or with a request. */
  ghost predicate Placed(s: State, c: nat) {
    c in s.idle || exists r | r in s.requests :: ConnOf(s.requests[r].phase) == Some(c)
  }

  lemma PlacedStep(s: State, a: Action, c: nat)
    requires Inv(s) && Enabled(s, a) && c in Step(s, a).conns
    requires c in s.conns ==> Placed(s, c)
    ensures Placed(Step(s, a), c)
  {
    var s' := Step(s, a);
    if c !in s.idle && c in s.conns {
      var r :| r in s.requests && ConnOf(s.requests[r].phase) == Some(c);
      assert r in s'.requests;
      if !Moves(a, r) {
        BystanderFits(s, a, r);
      }
    } else if a.Take? && a.conn == c {
      assert ConnOf(s'.requests[a.request].phase) == Some(c);
    }
  }

  lemma {:induction false} EachIsPlaced(run: seq<Action>, c: nat)
    requires Legal(run) && c in After(run).conns
    ensures Placed(After(run), c)
  {
    if run == [] {
    } else {
      InvHolds(Front(run));
      if c in After(Front(run)).conns {
        EachIsPlaced(Front(run), c);
      }
      PlacedStep(After(Front(run)), Last(run), c);
    }
  }

  /**
   No connection is lost: at any time each live one is in the pool or with a request, and those are
   all there are; so when no request holds one, the pool has them all.
   */
  lemma NoConnectionIsLost(run: seq<Action>, c: nat)
    requires Legal(run)
    ensures c in After(run).conns <==> Placed(After(run), c)
    ensures (forall r | r in After(run).requests :: ConnOf(After(run).requests[r].phase).None?) ==>
      (c in After(run).conns <==> c in After(run).idle)
  {
    InvHolds(run);
    if c in After(run).conns {
      EachIsPlaced(run, c);
    }
  }

  /** No connection serves two requests at once, nor a request and the pool. */
  lemma ConnectionsAreExclusive(run: seq<Action>, r1: nat, r2: nat)
    requires Legal(run)
    requires var s := After(run);
      r1 in s.requests && r2 in s.requests && r1 != r2 && ConnOf(s.requests[r1].phase).Some?
    ensures var s := After(run);
      && ConnOf(s.requests[r1].phase) != ConnOf(s.requests[r2].phase)
      && ConnOf(s.requests[r1].phase).value !in s.idle
  {
    InvHolds(run);
  }

  /** A connection in the pool carries no setting and no open transaction, however its last request ended. */
  lemma PooledConnectionsAreClean(run: seq<Action>, c: nat)
    requires Legal(run) && c in After(run).idle
    ensures c in After(run).conns && After(run).conns[c] == CLEAN
  {
    InvHolds(run);
  }

  /**
   Why the third argument of set_config must be true: a connection that served one request
   goes back to the pool clean if and only if the setting was transaction-local.
   */
  lemma OnlyLocalSettingsAreSafe(tenant: string, isLocal: bool)
    ensures End(SetConfig(Begin(CLEAN), tenant, isLocal)) == CLEAN <==> isLocal
    ensures InForce(SetConfig(Begin(CLEAN), tenant, isLocal)) == Some(tenant)
  {
  }

  /** The request's transaction is over: settled, or taken away while the request still holds it. */
  predicate Over(s: State, r: nat) {
    r in s.requests && (s.requests[r].phase.Cancelled? || s.requests[r].phase.Settled?)
  }

  predicate RanBy(e: Executed, r: nat) {
    e.ByRequest? && e.request == r
  }

  lemma OverStep(s: State, a: Action, r: nat)
    requires Enabled(s, a) && Over(s, r)
    ensures Over(Step(s, a), r)
    ensures s.log <= Step(s, a).log
    ensures |Step(s, a).log| <= |s.log| + 1
    ensures |Step(s, a).log| == |s.log| + 1 ==> !RanBy(Step(s, a).log[|s.log|], r)
  {
  }

  /** A request whose transaction is over reaches the database no more, whatever happens to its old connection. */
  lemma {:induction false} OverIsSilent(run: seq<Action>, more: seq<Action>, r: nat, i: nat)
    requires Legal(run) && Legal(run + more) && Over(After(run), r)
    ensures Over(After(run + more), r)
    ensures |After(run).log| <= i < |After(run + more).log| ==> !RanBy(After(run + more).log[i], r)
  {
    if more == [] {
      assert run + more == run;
    } else {
      assert Front(run + more) == run + Front(more);
      OverIsSilent(run, Front(more), r, i);
      OverStep(After(run + Front(more)), Last(more), r);
    }
  }

  // ---- What the statements see ----

  /** A row of a table under row level security; None is a NULL tenant_id. */
  datatype Row = Row(tenant: Option<string>, data: string)

  const PLATFORM := "*"

  /**
   The policies' condition. Under every policy the setting '*' sees all rows and any other
   setting its own tenant's; under some, rows without a tenant are everybody's.
   */
  predicate Shows(nullIsShared: bool, row: Row, setting: Option<string>) {
    || (nullIsShared && row.tenant.None?)
    || setting == Some(PLATFORM)
    || (row.tenant.Some? && row.tenant == setting)
  }

  function Visible(nullIsShared: bool, rows: seq<Row>, setting: Option<string>): seq<Row> {
    if rows == [] then []
    else (if Shows(nullIsShared, rows[0], setting) then [rows[0]] else []) + Visible(nullIsShared, rows[1..], setting)
  }

  lemma {:induction false} InVisible(nullIsShared: bool, rows: seq<Row>, setting: Option<string>, row: Row)
    ensures row in Visible(nullIsShared, rows, setting) <==> row in rows && Shows(nullIsShared, row, setting)
  {
    if rows != [] {
      InVisible(nullIsShared, rows[1..], setting, row);
      assert rows == [rows[0]] + rows[1..];
    }
  }

  /**
   What isolation comes to, in any run: a request's statement sees all rows of its own tenant,
   and a row of another one, or of none, exactly when its tenant is the platform's '*' or the row
   has no tenant and the table's policy shares such rows.
   */
  lemma SeesForeignRowsExactly(run: seq<Action>, i: nat, nullIsShared: bool, rows: seq<Row>, row: Row)
    requires Legal(run) && i < |After(run).log| && After(run).log[i].ByRequest? && row in rows
    ensures var e := After(run).log[i];
      && e.request in After(run).requests
      && var tenant := After(run).requests[e.request].tenant;
      row in Visible(nullIsShared, rows, e.setting) <==>
        row.tenant == Some(tenant) || tenant == PLATFORM || (nullIsShared && row.tenant.None?)
  {
    EveryStatementRunsAsItsTenant(run, i);
    InVisible(nullIsShared, rows, After(run).log[i].setting, row);
  }

  /** A statement on the bare pool sees the shared rows without a tenant, and no others. */
  lemma BarePoolSeesSharedRowsOnly(run: seq<Action>, i: nat, nullIsShared: bool, rows: seq<Row>, row: Row)
    requires Legal(run) && i < |After(run).log| && After(run).log[i].OnBarePool? && row in rows
    ensures row in Visible(nullIsShared, rows, After(run).log[i].setting) <==> nullIsShared && row.tenant.None?
  {
    EveryStatementRunsAsItsTenant(run, i);
    InVisible(nullIsShared, rows, After(run).log[i].setting, row);
  }
}
