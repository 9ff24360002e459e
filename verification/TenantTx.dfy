/**
 backend/auth/tenant_tx.go: one transaction per request, begun on first use, and a response
 that is held back until the transaction is settled.

 A handler is the tree of what it did: statements through TenantDB with the database's
 answer, savepoints (Try) with whether their function returned an error, writes to the
 response, and possibly a panic. `Serve` is the reference account of a request; the classes
 are the code, proved equal to it; the lemmas say what clients and the database may rely on.
 */
module TenantTx {
  type Statement = string

  datatype Op =
    | Exec(write: Statement, accepted: bool)
    | Try(body: seq<Op>, fails: bool)
    | WriteHeader(code: nat)
    | Write(bytes: string)
    | Panic

  /** The request's tenant, and how BEGIN, set_config and COMMIT would turn out. */
  datatype Env = Env(tenant: string, begins: bool, binds: bool, commits: bool)

  /** The context's transaction slot. Refused: BEGIN or set_config failed, so every statement is refused. */
  datatype Tx = NotBegun | Refused | Live(pending: seq<Statement>, aborted: bool)

  datatype Response = Response(status: nat, body: string)

  datatype Option<+T> = None | Some(value: T)

  const STATUS_OK: nat := 200
  const STATUS_INTERNAL_SERVER_ERROR: nat := 500
  const FIRST_ERROR_STATUS: nat := 400
  const COMMIT_FAILED_BODY := "{\"error\":\"the change could not be saved\"}"

  // ---- Reference account ----

  /** What a request has done so far: its transaction, its buffered response, and whether it panicked. */
  datatype Session = Session(tx: Tx, response: Response, panicked: bool)

  const FRESH_SESSION := Session(NotBegun, Response(STATUS_OK, ""), false)

  function Opened(env: Env, s: Session): Session {
    if s.tx.NotBegun? && env.tenant != ""
    then s.(tx := if env.begins && env.binds then Live([], false) else Refused)
    else s
  }

  predicate Usable(tx: Tx) {
    tx.Live? && !tx.aborted
  }

  /** In PostgreSQL one failed statement aborts the transaction: later statements are refused. */
  function Executed(tx: Tx, write: Statement, accepted: bool): Tx {
    if !Usable(tx) then tx
    else if accepted then Live(tx.pending + [write], false)
    else Live(tx.pending, true)
  }

  function Play(env: Env, op: Op, s: Session): Session
    requires !s.panicked
    decreases op
  {
    match op
    case Exec(write, accepted) =>
      var o := Opened(env, s);
      o.(tx := Executed(o.tx, write, accepted))
    case Try(body, fails) =>
      var o := Opened(env, s);
      if !Usable(o.tx) then o
      else
        var r := PlayAll(env, body, o);
        if fails || r.panicked then r.(tx := o.tx) else r
    case WriteHeader(code) => s.(response := Response(code, s.response.body))
    case Write(bytes) => s.(response := Response(s.response.status, s.response.body + bytes))
    case Panic => s.(panicked := true)
  }

  function PlayAll(env: Env, ops: seq<Op>, s: Session): Session
    requires !s.panicked
    decreases ops
  {
    if ops == [] then s
    else
      var r := Play(env, ops[0], s);
      if r.panicked then r else PlayAll(env, ops[1..], r)
  }

  /** The end of a request. No answer: the panic goes on to the recovery middleware. */
  datatype Outcome = Outcome(database: seq<Statement>, answer: Option<Response>, settlements: nat)

  function Serve(env: Env, ops: seq<Op>, database: seq<Statement>): Outcome {
    var r := PlayAll(env, ops, FRESH_SESSION);
    var settlements := if r.tx.NotBegun? then 0 else 1;
    if r.panicked then Outcome(database, None, settlements)
    else if r.tx.NotBegun? || r.response.status >= FIRST_ERROR_STATUS then
      Outcome(database, Some(r.response), settlements)
    else if Usable(r.tx) && env.commits then
      Outcome(database + r.tx.pending, Some(r.response), settlements)
    else
      Outcome(database, Some(Response(STATUS_INTERNAL_SERVER_ERROR, COMMIT_FAILED_BODY)), settlements)
  }

  // ---- What the writes should come to, without playing anything ----

  /** The accepted writes of the frames that did not fail, in order. */
  function Surviving(ops: seq<Op>): seq<Statement>
    decreases ops
  {
    if ops == [] then [] else SurvivingOp(ops[0]) + Surviving(ops[1..])
  }

  function SurvivingOp(op: Op): seq<Statement>
    decreases op
  {
    match op
    case Exec(write, accepted) => if accepted then [write] else []
    case Try(body, fails) => if fails then [] else Surviving(body)
    case _ => []
  }

  /** Some statement failed with no failing Try around it. */
  predicate Poisoned(ops: seq<Op>)
    decreases ops
  {
    ops != [] && (PoisonedOp(ops[0]) || Poisoned(ops[1..]))
  }

  predicate PoisonedOp(op: Op)
    decreases op
  {
    match op
    case Exec(_, accepted) => !accepted
    case Try(body, fails) => !fails && Poisoned(body)
    case _ => false
  }

  predicate UsesDatabase(op: Op) {
    op.Exec? || op.Try?
  }

  /** A statement or Try comes before any panic. */
  predicate TouchesDatabase(ops: seq<Op>) {
    ops != [] && (UsesDatabase(ops[0]) || (!ops[0].Panic? && TouchesDatabase(ops[1..])))
  }

  // ---- What the response should come to, without playing anything ----

  /**
   What a handler says, in order: its writes to the response and its panics. The frame of a Try is
   entered only while statements are accepted: not before BEGIN, and not after an unguarded failure.
   */
  function Said(ops: seq<Op>, accepting: bool): seq<Op>
    decreases ops
  {
    if ops == [] then [] else SaidOp(ops[0], accepting) + Said(ops[1..], accepting && !PoisonedOp(ops[0]))
  }

  function SaidOp(op: Op, accepting: bool): seq<Op>
    decreases op
  {
    match op
    case Exec(_, _) => []
    case Try(body, _) => if accepting then Said(body, true) else []
    case _ => [op]
  }

  predicate Accepting(env: Env) {
    env.tenant != "" && env.begins && env.binds
  }

  /** The code of the last header in what was said, or `first` when there is none. */
  function LastCode(first: nat, said: seq<Op>): nat {
    if said == [] then first
    else if said[|said| - 1].WriteHeader? then said[|said| - 1].code
    else LastCode(first, said[..|said| - 1])
  }

  /** The bytes of what was said. */
  function AllBytes(said: seq<Op>): string {
    if said == [] then "" else AllBytes(said[..|said| - 1]) + Bytes(said[|said| - 1])
  }

  function Bytes(op: Op): string {
    if op.Write? then op.bytes else ""
  }

  /** The handler's own status and body: the last header, 200 if none, and every byte it wrote. */
  function HandlerStatus(env: Env, ops: seq<Op>): nat {
    LastCode(200, Said(ops, Accepting(env)))
  }

  function HandlerBody(env: Env, ops: seq<Op>): string {
    AllBytes(Said(ops, Accepting(env)))
  }

  predicate HandlerPanics(env: Env, ops: seq<Op>) {
    Panic in Said(ops, Accepting(env))
  }

  // ---- The code ----

  /** bufferedWriter: holds the response until the transaction is settled. */
  class BufferedWriter {
    var status: nat
    var body: string
    var written: bool
    var sent: seq<Response>  // what reached the real writer

    constructor ()
      ensures status == STATUS_OK && body == "" && !written && sent == []
    {
      status, body, written, sent := STATUS_OK, "", false, [];
    }

    ghost function Held(): Response
      reads this
    {
      Response(status, body)
    }

    method WriteHeader(code: nat)
      modifies this
      ensures Held() == Response(code, old(body)) && written && sent == old(sent)
    {
      status := code;
      written := true;
    }

    method Write(bytes: string)
      modifies this
      ensures Held() == Response(old(status), old(body) + bytes) && written && sent == old(sent)
    {
      written := true;
      body := body + bytes;
    }

    method Reset(code: nat, bytes: string)
      modifies this
      ensures Held() == Response(code, bytes) && sent == old(sent)
    {
      status := code;
      body := "";
      body := body + bytes;
    }

    method Flush()
      modifies this
      ensures sent == old(sent) + [old(Held())] && Held() == old(Held())
    {
      sent := sent + [Response(status, body)];
    }
  }

  datatype Slot = Empty | Bound | Broken

  /** One request: the gin context's transaction slot and the server's side of its transaction. */
  class Request {
    const env: Env
    const writer: BufferedWriter
    var slot: Slot
    var pending: seq<Statement>   // writes of the open transaction
    var aborted: bool             // PostgreSQL refuses statements until a rollback
    var database: seq<Statement>  // committed writes
    var settlements: nat          // COMMITs and ROLLBACKs of this request

    constructor (env: Env, database: seq<Statement>)
      ensures this.env == env && this.database == database
      ensures slot == Empty && settlements == 0
      ensures fresh(writer) && writer.Held() == FRESH_SESSION.response && writer.sent == []
    {
      this.env, this.database := env, database;
      slot, pending, aborted, settlements := Empty, [], false, 0;
      writer := new BufferedWriter();
    }

    ghost function Current(): Tx
      reads this
    {
      match slot
      case Empty => NotBegun
      case Broken => Refused
      case Bound => Live(pending, aborted)
    }

    ghost function Now(panicked: bool): Session
      reads this, writer
    {
      Session(Current(), writer.Held(), panicked)
    }

    method TenantDB()
      modifies this`slot, this`pending, this`aborted
      ensures Now(false) == Opened(env, old(Now(false)))
    {
      if slot != Empty {
        return;
      }
      if env.tenant == "" {
        return;
      }
      if env.begins && env.binds {
        slot, pending, aborted := Bound, [], false;
      } else {
        slot := Broken;
      }
    }

    method Exec(write: Statement, accepted: bool)
      modifies this`slot, this`pending, this`aborted
      ensures Now(false) == Play(env, Op.Exec(write, accepted), old(Now(false)))
    {
      TenantDB();
      if slot == Bound && !aborted {
        if accepted {
          pending := pending + [write];
        } else {
          aborted := true;
        }
      }
    }

    /** SAVEPOINT remembers how far the log got; ROLLBACK TO cuts it back there and ends the abort. */
    method Try(body: seq<Op>, fails: bool) returns (panicked: bool)
      modifies this`slot, this`pending, this`aborted, writer
      ensures Now(panicked) == Play(env, Op.Try(body, fails), old(Now(false)))
      ensures writer.sent == old(writer.sent)
      decreases body, 1
    {
      TenantDB();
      if slot != Bound || aborted {
        return false;
      }
      var savepoint := |pending|;
      ghost var start := Now(false);
      PlayKeepsLog(env, body, start);
      panicked := Run(body);
      if fails || panicked {
        pending := pending[..savepoint];
        aborted := false;
      }
    }

    method Run(ops: seq<Op>) returns (panicked: bool)
      modifies this`slot, this`pending, this`aborted, writer
      ensures Now(panicked) == PlayAll(env, ops, old(Now(false)))
      ensures writer.sent == old(writer.sent)
      decreases ops, 0
    {
      if ops == [] {
        return false;
      }
      panicked := false;
      match ops[0] {
        case Exec(write, accepted) => Exec(write, accepted);
        case Try(body, fails) => panicked := Try(body, fails);
        case WriteHeader(code) => writer.WriteHeader(code);
        case Write(bytes) => writer.Write(bytes);
        case Panic => panicked := true;
      }
      if !panicked {
        panicked := Run(ops[1..]);
      }
    }

    method Rollback()
      modifies this`slot, this`pending, this`aborted, this`settlements
      ensures slot == Empty
      ensures settlements == old(settlements) + (if old(slot) == Empty then 0 else 1)
    {
      if slot != Empty {
        settlements := settlements + 1;
        slot, pending, aborted := Empty, [], false;
      }
    }

    method Commit() returns (ok: bool)
      requires slot != Empty
      modifies this
      ensures ok == (Usable(old(Current())) && env.commits)
      ensures database == old(database) + (if ok then old(pending) else [])
      ensures slot == Empty && settlements == old(settlements) + 1
    {
      ok := slot == Bound && !aborted && env.commits;
      if ok {
        database := database + pending;
      }
      settlements := settlements + 1;
      slot, pending, aborted := Empty, [], false;
    }

    /** The only way to the client: it may be called only with no transaction left to settle. */
    method Send()
      requires slot == Empty
      modifies writer
      ensures writer.sent == old(writer.sent) + [old(writer.Held())]
    {
      writer.Flush();
    }

    /** tenantTxWith: run the handler, settle, then send. */
    method Handle(ops: seq<Op>) returns (panicked: bool)
      requires slot == Empty && settlements == 0
      requires writer.Held() == FRESH_SESSION.response && writer.sent == []
      modifies this, writer
      ensures var o := Serve(env, ops, old(database));
        && panicked == o.answer.None?
        && database == o.database
        && settlements == o.settlements
        && writer.sent == (if o.answer.Some? then [o.answer.value] else [])
      ensures slot == Empty
    {
      panicked := Run(ops);
      if panicked {
        Rollback();
        return;
      }
      if slot != Empty {
        if writer.status >= FIRST_ERROR_STATUS {
          Rollback();
        } else {
          var ok := Commit();
          if !ok {
            writer.Reset(STATUS_INTERNAL_SERVER_ERROR, COMMIT_FAILED_BODY);
          }
        }
      }
      Send();
    }
  }

  // ---- Facts about the reference account ----

  /** A live transaction stays live, and nothing already in its log is lost: what makes a savepoint a log position. */
  lemma {:induction false} PlayKeepsLog(env: Env, ops: seq<Op>, s: Session)
    requires !s.panicked && s.tx.Live?
    ensures var r := PlayAll(env, ops, s);
      r.tx.Live? && s.tx.pending <= r.tx.pending && (s.tx.aborted ==> r.tx == s.tx)
    decreases ops, 0
  {
    if ops == [] {
    } else {
      PlayOpKeepsLog(env, ops[0], s);
      var r := Play(env, ops[0], s);
      if !r.panicked {
        PlayKeepsLog(env, ops[1..], r);
      }
    }
  }

  lemma {:induction false} PlayOpKeepsLog(env: Env, op: Op, s: Session)
    requires !s.panicked && s.tx.Live?
    ensures var r := Play(env, op, s);
      r.tx.Live? && s.tx.pending <= r.tx.pending && (s.tx.aborted ==> r.tx == s.tx)
    decreases op, 1
  {
    if op.Try? && Usable(s.tx) {
      PlayKeepsLog(env, op.body, s);
    }
  }

  /**
   Savepoint semantics at any nesting. If the handler got to its end, the transaction holds
   exactly the writes of the non-failing frames, in order, unless a statement failed outside
   every failing Try; then it is aborted.
   */
  lemma {:induction false} SavepointSemantics(env: Env, ops: seq<Op>, s: Session)
    requires !s.panicked && Usable(s.tx) && !PlayAll(env, ops, s).panicked
    ensures var r := PlayAll(env, ops, s);
      if Poisoned(ops) then r.tx.Live? && r.tx.aborted
      else r.tx == Live(s.tx.pending + Surviving(ops), false)
    decreases ops, 0
  {
    if ops == [] {
    } else {
      SavepointSemanticsOp(env, ops[0], s);
      var r := Play(env, ops[0], s);
      if Usable(r.tx) {
        SavepointSemantics(env, ops[1..], r);
      } else {
        PlayKeepsLog(env, ops[1..], r);
      }
    }
  }

  lemma {:induction false} SavepointSemanticsOp(env: Env, op: Op, s: Session)
    requires !s.panicked && Usable(s.tx) && !Play(env, op, s).panicked
    ensures var r := Play(env, op, s);
      if PoisonedOp(op) then r.tx.Live? && r.tx.aborted
      else r.tx == Live(s.tx.pending + SurvivingOp(op), false)
    decreases op, 1
  {
    if op.Try? && !PlayAll(env, op.body, s).panicked {
      SavepointSemantics(env, op.body, s);
    }
  }

  /** A Try that fails, or panics, leaves the transaction exactly as it found it, and usable. */
  lemma FailingTryRestores(env: Env, body: seq<Op>, fails: bool, s: Session)
    requires !s.panicked && Usable(s.tx)
    requires fails || PlayAll(env, body, s).panicked
    ensures Play(env, Try(body, fails), s).tx == s.tx
  {
  }

  lemma UseOpens(env: Env, op: Op, s: Session)
    requires !s.panicked && UsesDatabase(op) && env.tenant != ""
    ensures !Play(env, op, s).tx.NotBegun?
  {
    var o := Opened(env, s);
    if op.Try? && Usable(o.tx) {
      PlayKeepsLog(env, op.body, o);
    }
  }

  /** Until a statement is first sent the request holds no transaction; without a tenant it never does. */
  lemma {:induction false} PlayFromNothing(env: Env, ops: seq<Op>, s: Session)
    requires !s.panicked && !s.tx.Live?
    ensures var r := PlayAll(env, ops, s);
      && (s.tx.Refused? || env.tenant == "" || !env.begins || !env.binds ==> !r.tx.Live?)
      && (s.tx.Refused? ==> r.tx.Refused?)
      && (r.tx.NotBegun? && !r.panicked ==> env.tenant == "" || Surviving(ops) == [])
  {
    if ops == [] {
    } else {
      var r := Play(env, ops[0], s);
      if !r.panicked && !r.tx.Live? {
        PlayFromNothing(env, ops[1..], r);
      } else if !r.panicked {
        PlayKeepsLog(env, ops[1..], r);
      }
      if UsesDatabase(ops[0]) && env.tenant != "" {
        UseOpens(env, ops[0], s);
      }
    }
  }

  /** The first statement of a request opens the transaction and then runs as on a fresh one. */
  lemma {:induction false} PlayFromFresh(env: Env, ops: seq<Op>, s: Session)
    requires !s.panicked && s.tx.NotBegun? && env.tenant != "" && env.begins && env.binds
    requires !PlayAll(env, ops, s).panicked && !PlayAll(env, ops, s).tx.NotBegun?
    ensures var r := PlayAll(env, ops, s);
      if Poisoned(ops) then r.tx.Live? && r.tx.aborted
      else r.tx == Live(Surviving(ops), false)
  {
    var o := s.(tx := Live([], false));
    if UsesDatabase(ops[0]) {
      assert Opened(env, s) == o && Opened(env, o) == o;
      assert Play(env, ops[0], s) == Play(env, ops[0], o);
      assert PlayAll(env, ops, s) == PlayAll(env, ops, o);
      SavepointSemantics(env, ops, o);
    } else {
      PlayFromFresh(env, ops[1..], Play(env, ops[0], s));
      assert SurvivingOp(ops[0]) == [] && !PoisonedOp(ops[0]);
    }
  }

  // ---- The response ----

  lemma {:induction false} LastCodeConcat(first: nat, a: seq<Op>, b: seq<Op>)
    ensures LastCode(first, a + b) == LastCode(LastCode(first, a), b)
  {
    if b == [] {
      assert a + b == a;
    } else {
      assert (a + b)[..|a + b| - 1] == a + b[..|b| - 1];
      LastCodeConcat(first, a, b[..|b| - 1]);
    }
  }

  lemma {:induction false} AllBytesConcat(a: seq<Op>, b: seq<Op>)
    ensures AllBytes(a + b) == AllBytes(a) + AllBytes(b)
  {
    if b == [] {
      assert a + b == a;
    } else {
      assert (a + b)[..|a + b| - 1] == a + b[..|b| - 1];
      AllBytesConcat(a, b[..|b| - 1]);
    }
  }

  /** The next statement will be accepted. */
  predicate AcceptsNow(env: Env, s: Session) {
    Usable(Opened(env, s).tx)
  }

  /** The response so far, after all of this was said. */
  function Answered(r: Response, said: seq<Op>): Response {
    Response(LastCode(r.status, said), r.body + AllBytes(said))
  }

  lemma AnsweredTwice(r: Response, a: seq<Op>, b: seq<Op>)
    ensures Answered(Answered(r, a), b) == Answered(r, a + b)
  {
    LastCodeConcat(r.status, a, b);
    AllBytesConcat(a, b);
  }

  lemma AnsweredOnce(r: Response, op: Op)
    ensures Answered(r, [op]) == Response(if op.WriteHeader? then op.code else r.status, r.body + Bytes(op))
  {
    assert [op][..|[op]| - 1] == [];
    assert AllBytes([op]) == Bytes(op);
    assert LastCode(r.status, [op]) == if op.WriteHeader? then op.code else r.status;
  }

  /** The response is what was said: each header replaces the status, each write adds to the body. */
  lemma {:induction false} ResponseIsWhatWasSaid(env: Env, ops: seq<Op>, s: Session)
    requires !s.panicked
    ensures var r := PlayAll(env, ops, s);
      var said := Said(ops, AcceptsNow(env, s));
      && (r.panicked <==> Panic in said)
      && (!r.panicked ==> r.response == Answered(s.response, said))
      && (!r.panicked ==> (AcceptsNow(env, r) <==> AcceptsNow(env, s) && !Poisoned(ops)))
    decreases ops, 0
  {
    if ops == [] {
    } else {
      ResponseOfOp(env, ops[0], s);
      var r := Play(env, ops[0], s);
      if !r.panicked {
        ResponseIsWhatWasSaid(env, ops[1..], r);
        AnsweredTwice(s.response, SaidOp(ops[0], AcceptsNow(env, s)), Said(ops[1..], AcceptsNow(env, r)));
      }
    }
  }

  lemma {:induction false} ResponseOfOp(env: Env, op: Op, s: Session)
    requires !s.panicked
    ensures var r := Play(env, op, s);
      var said := SaidOp(op, AcceptsNow(env, s));
      && (r.panicked <==> Panic in said)
      && (!r.panicked ==> r.response == Answered(s.response, said))
      && (!r.panicked ==> (AcceptsNow(env, r) <==> AcceptsNow(env, s) && !PoisonedOp(op)))
    decreases op, 1
  {
    match op
    case Try(body, _) =>
      if AcceptsNow(env, s) {
        ResponseIsWhatWasSaid(env, body, Opened(env, s));
        PlayKeepsLog(env, body, Opened(env, s));
      }
    case Exec(_, _) =>
    case _ =>
      AnsweredOnce(s.response, op);
  }

  lemma {:induction false} BeginsExactly(env: Env, ops: seq<Op>, s: Session)
    requires !s.panicked && s.tx.NotBegun?
    ensures PlayAll(env, ops, s).tx.NotBegun? <==> env.tenant == "" || !TouchesDatabase(ops)
  {
    if ops == [] {
    } else {
      var r := Play(env, ops[0], s);
      if UsesDatabase(ops[0]) && env.tenant != "" {
        UseOpens(env, ops[0], s);
        if !r.panicked && r.tx.Live? {
          PlayKeepsLog(env, ops[1..], r);
        } else if !r.panicked {
          PlayFromNothing(env, ops[1..], r);
        }
      } else if !r.panicked {
        BeginsExactly(env, ops[1..], r);
      }
    }
  }

  // ---- Main results ----

  /** When exactly a request's writes reach the database. */
  predicate Lands(env: Env, ops: seq<Op>) {
    && !HandlerPanics(env, ops) && HandlerStatus(env, ops) < 400
    && Accepting(env) && env.commits
    && !Poisoned(ops)
  }

  lemma HandlerIsPlayed(env: Env, ops: seq<Op>)
    ensures var r := PlayAll(env, ops, FRESH_SESSION);
      && (r.panicked <==> HandlerPanics(env, ops))
      && (!r.panicked ==> r.response == Response(HandlerStatus(env, ops), HandlerBody(env, ops)))
      && (r.tx.NotBegun? <==> env.tenant == "" || !TouchesDatabase(ops))
  {
    ResponseIsWhatWasSaid(env, ops, FRESH_SESSION);
    BeginsExactly(env, ops, FRESH_SESSION);
  }

  /** What the transaction comes to when the handler got to its end. */
  lemma EndOfHandler(env: Env, ops: seq<Op>)
    requires !HandlerPanics(env, ops)
    ensures var r := PlayAll(env, ops, FRESH_SESSION);
      && (r.tx.NotBegun? ==> env.tenant == "" || (Surviving(ops) == [] && !Poisoned(ops)))
      && (!r.tx.NotBegun? ==> (Usable(r.tx) <==> Accepting(env) && !Poisoned(ops)))
      && (!r.tx.NotBegun? && Usable(r.tx) ==> r.tx.pending == Surviving(ops))
  {
    var r := PlayAll(env, ops, FRESH_SESSION);
    HandlerIsPlayed(env, ops);
    PlayFromNothing(env, ops, FRESH_SESSION);
    if Poisoned(ops) && env.tenant != "" {
      PoisonBegins(env, ops, FRESH_SESSION);
    }
    if !r.tx.NotBegun? && Accepting(env) {
      PlayFromFresh(env, ops, FRESH_SESSION);
    }
  }

  /** All or nothing: the surviving writes of the handler land together, or the database is as it was. */
  lemma AllOrNothing(env: Env, ops: seq<Op>, database: seq<Statement>)
    ensures Serve(env, ops, database).database
         == database + (if Lands(env, ops) then Surviving(ops) else [])
  {
    HandlerIsPlayed(env, ops);
    if !HandlerPanics(env, ops) {
      EndOfHandler(env, ops);
    }
    assert database + [] == database;
  }

  /**
   The answer is honest. A panic sends nothing. A request that began a transaction answers 500 in
   the handler's place exactly when the handler's success could not be committed; otherwise the
   answer is the handler's own last status and all its bytes. So a request that began a
   transaction answers below 400 exactly when its writes landed. The transaction is settled once.
   */
  lemma HonestAnswer(env: Env, ops: seq<Op>, database: seq<Statement>)
    ensures var o := Serve(env, ops, database);
      var began := env.tenant != "" && TouchesDatabase(ops);
      && o.settlements == (if began then 1 else 0)
      && o.answer == (
           if HandlerPanics(env, ops) then None
           else if began && HandlerStatus(env, ops) < 400 && !Lands(env, ops) then
             Some(Response(500, "{\"error\":\"the change could not be saved\"}"))
           else Some(Response(HandlerStatus(env, ops), HandlerBody(env, ops))))
      && (began && o.answer.Some? ==> (o.answer.value.status < 400 <==> Lands(env, ops)))
  {
    HandlerIsPlayed(env, ops);
    if !HandlerPanics(env, ops) {
      EndOfHandler(env, ops);
    }
  }

  /** A handler that ends with an error status keeps its answer and leaves the database as it was. */
  lemma ErrorStatusLandsNothing(env: Env, ops: seq<Op>, database: seq<Statement>)
    requires !HandlerPanics(env, ops) && HandlerStatus(env, ops) >= 400
    ensures var o := Serve(env, ops, database);
      o.database == database && o.answer == Some(Response(HandlerStatus(env, ops), HandlerBody(env, ops)))
  {
    HonestAnswer(env, ops, database);
    AllOrNothing(env, ops, database);
    assert database + [] == database;
  }

  /** A statement that fails outside every failing Try costs the request its success, whatever the handler says. */
  lemma UnguardedFailureIs500(env: Env, ops: seq<Op>, database: seq<Statement>)
    requires Poisoned(ops) && env.tenant != ""
    requires !HandlerPanics(env, ops) && HandlerStatus(env, ops) < 400
    ensures Serve(env, ops, database)
         == Outcome(database, Some(Response(STATUS_INTERNAL_SERVER_ERROR, COMMIT_FAILED_BODY)), 1)
  {
    HonestAnswer(env, ops, database);
    AllOrNothing(env, ops, database);
    assert database + [] == database;
    HandlerIsPlayed(env, ops);
    PoisonBegins(env, ops, FRESH_SESSION);
  }

  lemma {:induction false} PoisonBegins(env: Env, ops: seq<Op>, s: Session)
    requires !s.panicked && Poisoned(ops) && env.tenant != "" && !PlayAll(env, ops, s).panicked
    ensures !PlayAll(env, ops, s).tx.NotBegun?
  {
    var r := Play(env, ops[0], s);
    if PoisonedOp(ops[0]) {
      UseOpens(env, ops[0], s);
      if r.tx.Live? { PlayKeepsLog(env, ops[1..], r); } else { PlayFromNothing(env, ops[1..], r); }
    } else {
      PoisonBegins(env, ops[1..], r);
    }
  }
}
