/** The transaction session objects `getConnection` hands out
    (server/config/database.js:123-144 for PostgreSQL, 280-289 for SQLite) and
    the database handle under them. A PostgreSQL session sends BEGIN, COMMIT and
    ROLLBACK as asked; a SQLite session keeps an `inTx` flag and only commits or
    rolls back while it is set. All SQLite sessions share one handle. */
module Sessions {
  import opened Common
  import opened Store

  /** The state of one database handle: the data as the handle sees it, the data
      as of the BEGIN of the open transaction, and whether one is open. */
  datatype Handle = Handle(data: Tables, saved: Tables, open: bool)

  /** What a handle has made permanent: the data of its last commit. */
  function Durable(h: Handle): Tables {
    if h.open then h.saved else h.data
  }

  /** A transaction-control statement on the handle: the new handle and whether
      the statement succeeded (a failure is thrown to the caller). */
  datatype Step = Step(handle: Handle, ok: bool)

  /** BEGIN. SQLite refuses to open a transaction inside another; PostgreSQL only
      warns; MySQL commits the open transaction and starts a new one. */
  function BeginOn(kind: Backend, h: Handle): (r: Step)
    ensures r.ok <==> !h.open || kind != Sqlite
    ensures r.ok ==> r.handle.open && r.handle.data == h.data
    ensures !r.ok ==> r.handle == h
  {
    if !h.open then Step(Handle(h.data, h.data, true), true)
    else match kind
      case Sqlite => Step(h, false)
      case Postgres => Step(h, true)
      case MySql => Step(Handle(h.data, h.data, true), true)
  }

  /** COMMIT. Without an open transaction SQLite fails; the others only warn. */
  function CommitOn(kind: Backend, h: Handle): (r: Step)
    ensures r.ok <==> h.open || kind != Sqlite
    ensures !r.handle.open && r.handle.data == h.data
  {
    if h.open then Step(Handle(h.data, h.data, false), true) else Step(h, kind != Sqlite)
  }

  /** ROLLBACK: the data goes back to what it was at BEGIN. */
  function RollbackOn(kind: Backend, h: Handle): (r: Step)
    ensures r.ok <==> h.open || kind != Sqlite
    ensures !r.handle.open && r.handle.data == Durable(h)
  {
    if h.open then Step(Handle(h.saved, h.saved, false), true) else Step(h, kind != Sqlite)
  }

  /** A session's own flag together with the handle it runs on. */
  datatype SessionState = SessionState(inTx: bool, handle: Handle)

  datatype Outcome = Outcome(state: SessionState, ok: bool)

  /** `beginTransaction`: SQLite sets `inTx` once BEGIN has run. */
  function SessionBegin(kind: Backend, st: SessionState): Outcome {
    var s := BeginOn(kind, st.handle);
    Outcome(SessionState(if kind == Sqlite && s.ok then true else st.inTx, s.handle), s.ok)
  }

  /** `commit`: SQLite sends COMMIT only while `inTx` is set and then clears it. */
  function SessionCommit(kind: Backend, st: SessionState): Outcome {
    if kind == Sqlite && !st.inTx then Outcome(st, true)
    else
      var s := CommitOn(kind, st.handle);
      Outcome(SessionState(if kind == Sqlite && s.ok then false else st.inTx, s.handle), s.ok)
  }

  /** `rollback`: SQLite sends ROLLBACK only while `inTx` is set and then clears it. */
  function SessionRollback(kind: Backend, st: SessionState): Outcome {
    if kind == Sqlite && !st.inTx then Outcome(st, true)
    else
      var s := RollbackOn(kind, st.handle);
      Outcome(SessionState(if kind == Sqlite && s.ok then false else st.inTx, s.handle), s.ok)
  }

  // ---------------------------------------------------------------------------
  // The session state machine

  /** A SQLite session's flag is set only while the handle has a transaction open. */
  predicate Tracks(st: SessionState) {
    st.inTx ==> st.handle.open
  }

  /** Every SQLite session operation keeps `Tracks`; with it, a commit or rollback
      while `inTx` is set always reaches the handle, succeeds and closes it. */
  lemma {:induction false} SqliteKeepsTracks(st: SessionState)
    requires Tracks(st)
    ensures Tracks(SessionBegin(Sqlite, st).state)
    ensures Tracks(SessionCommit(Sqlite, st).state)
    ensures Tracks(SessionRollback(Sqlite, st).state)
    ensures st.inTx ==> SessionCommit(Sqlite, st) == Outcome(SessionState(false, Handle(st.handle.data, st.handle.data, false)), true)
    ensures st.inTx ==> SessionRollback(Sqlite, st) == Outcome(SessionState(false, Handle(st.handle.saved, st.handle.saved, false)), true)
  {
  }

  /** On SQLite a second `commit` or `rollback` does nothing: the first one cleared `inTx`. */
  lemma {:induction false} SqliteSecondCallNoop(st: SessionState)
    ensures var c := SessionCommit(Sqlite, st);
      c.ok ==>
        SessionCommit(Sqlite, c.state) == Outcome(c.state, true) &&
        SessionRollback(Sqlite, c.state) == Outcome(c.state, true)
    ensures var r := SessionRollback(Sqlite, st);
      r.ok ==>
        SessionCommit(Sqlite, r.state) == Outcome(r.state, true) &&
        SessionRollback(Sqlite, r.state) == Outcome(r.state, true)
  {
  }

  /** On PostgreSQL `commit` and `rollback` always reach the server, and afterwards no
      transaction is open. */
  lemma {:induction false} PostgresUnguarded(st: SessionState)
    ensures var c := SessionCommit(Postgres, st);
      c.ok && !c.state.handle.open && c.state.handle.data == st.handle.data
    ensures var r := SessionRollback(Postgres, st);
      r.ok && !r.state.handle.open && r.state.handle.data == Durable(st.handle)
  {
  }

  /** A committed transaction makes its data permanent; a rolled-back one leaves the
      permanent data as it was; BEGIN changes nothing permanent. */
  lemma {:induction false} DurableSteps(kind: Backend, h: Handle)
    ensures Durable(CommitOn(kind, h).handle) == h.data
    ensures Durable(RollbackOn(kind, h).handle) == Durable(h)
    ensures Durable(BeginOn(kind, h).handle) == Durable(h) || (kind == MySql && h.open)
  {
  }

  /** A transaction left open on the shared SQLite handle stays open: a new
      session's BEGIN fails, which leaves its `inTx` clear, so its `rollback`
      sends nothing. */
  lemma {:induction false} AbandonedTransactionSticks(h: Handle)
    requires h.open
    ensures var b := SessionBegin(Sqlite, SessionState(false, h));
      !b.ok && b.state == SessionState(false, h)
      && SessionRollback(Sqlite, b.state) == Outcome(SessionState(false, h), true)
  {
  }

  // ---------------------------------------------------------------------------
  // The objects

  /** A database handle: the pooled client of a PostgreSQL session, or the one
      SQLite handle every session shares. */
  class Engine {
    const kind: Backend
    var handle: Handle

    constructor(kind: Backend, data: Tables)
      ensures this.kind == kind && handle == Handle(data, data, false)
    {
      this.kind := kind;
      handle := Handle(data, data, false);
    }

    method Begin() returns (ok: bool)
      modifies this
      ensures Step(handle, ok) == BeginOn(kind, old(handle))
    {
      var s := BeginOn(kind, handle);
      handle, ok := s.handle, s.ok;
    }

    method Commit() returns (ok: bool)
      modifies this
      ensures Step(handle, ok) == CommitOn(kind, old(handle))
    {
      var s := CommitOn(kind, handle);
      handle, ok := s.handle, s.ok;
    }

    method Rollback() returns (ok: bool)
      modifies this
      ensures Step(handle, ok) == RollbackOn(kind, old(handle))
    {
      var s := RollbackOn(kind, handle);
      handle, ok := s.handle, s.ok;
    }

    /** Runs a data statement; only the data changes. */
    method Run(s: Stmt) returns (reply: Reply)
      modifies this
      ensures (handle.data, reply) == Apply(old(handle.data), s)
      ensures handle.saved == old(handle.saved) && handle.open == old(handle.open)
    {
      var (t, r) := Apply(handle.data, s);
      handle := handle.(data := t);
      reply := r;
    }
  }

  /** What a caller asked of a session, in order. */
  datatype Call = CallBegin | CallQuery(stmt: Stmt) | CallCommit | CallRollback | CallRelease

  /** A session from `getConnection`. The driver throws on the query numbered
      `fault` (counting from 0), if any. */
  class Session {
    const engine: Engine
    const fault: Option<nat>
    var inTx: bool
    var queries: nat
    var calls: seq<Call>
    /** Times the PostgreSQL client went back to the pool. */
    var returned: nat

    /** `getConnection`: a fresh session on `engine`, `inTx` clear. */
    constructor(engine: Engine, fault: Option<nat>)
      ensures this.engine == engine && this.fault == fault
      ensures !inTx && queries == 0 && calls == [] && returned == 0
    {
      this.engine := engine;
      this.fault := fault;
      inTx := false;
      queries := 0;
      calls := [];
      returned := 0;
    }

    function State(): SessionState
      reads this, engine
    {
      SessionState(inTx, engine.handle)
    }

    method BeginTransaction() returns (ok: bool)
      modifies this, engine
      ensures Outcome(State(), ok) == SessionBegin(engine.kind, old(State()))
      ensures calls == old(calls) + [CallBegin] && queries == old(queries) && returned == old(returned)
    {
      calls := calls + [CallBegin];
      ok := engine.Begin();
      if engine.kind == Sqlite && ok {
        inTx := true;
      }
    }

    method Commit() returns (ok: bool)
      modifies this, engine
      ensures Outcome(State(), ok) == SessionCommit(engine.kind, old(State()))
      ensures calls == old(calls) + [CallCommit] && queries == old(queries) && returned == old(returned)
    {
      calls := calls + [CallCommit];
      if engine.kind == Sqlite && !inTx {
        ok := true;
      } else {
        ok := engine.Commit();
        if engine.kind == Sqlite && ok {
          inTx := false;
        }
      }
    }

    method Rollback() returns (ok: bool)
      modifies this, engine
      ensures Outcome(State(), ok) == SessionRollback(engine.kind, old(State()))
      ensures calls == old(calls) + [CallRollback] && queries == old(queries) && returned == old(returned)
    {
      calls := calls + [CallRollback];
      if engine.kind == Sqlite && !inTx {
        ok := true;
      } else {
        ok := engine.Rollback();
        if engine.kind == Sqlite && ok {
          inTx := false;
        }
      }
    }

    /** `query`: the statement runs on the handle unless the driver throws. */
    method Query(s: Stmt) returns (r: Result<Reply>)
      modifies this, engine
      ensures calls == old(calls) + [CallQuery(s)] && queries == old(queries) + 1
      ensures inTx == old(inTx) && returned == old(returned)
      ensures fault == Some(old(queries)) ==> r.Err? && engine.handle == old(engine.handle)
      ensures fault != Some(old(queries)) ==>
        r == Ok(Apply(old(engine.handle.data), s).1) &&
        engine.handle == old(engine.handle).(data := Apply(old(engine.handle.data), s).0)
    {
      calls := calls + [CallQuery(s)];
      if fault == Some(queries) {
        r := Err("driver error");
      } else {
        var reply := engine.Run(s);
        r := Ok(reply);
      }
      queries := queries + 1;
    }

    /** `release`: the PostgreSQL client goes back to the pool; SQLite does nothing. */
    method Release()
      modifies this
      ensures calls == old(calls) + [CallRelease] && queries == old(queries) && inTx == old(inTx)
      ensures returned == old(returned) + (if engine.kind == Sqlite then 0 else 1)
    {
      calls := calls + [CallRelease];
      if engine.kind != Sqlite {
        returned := returned + 1;
      }
    }
  }
}
