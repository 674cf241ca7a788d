/** Closing statements, rows and the connection from many threads. Every statement has a mutex; the connection
    has one for its `db` field. A worker goroutine started by `Next` acts while `Next` holds the mutex and waits
    for it, so its calls are those of the waiting thread. */
module Lifecycle {
  import opened Text

  /** Where a thread is. Points that end in Lock wait for a mutex. */
  datatype Point =
    | Idle
    // SQLiteStmt.Close
    | StmtLock | StmtCheck | StmtConnLock | StmtConnRead | StmtFinalize | StmtUnlock
    // SQLiteRows.Close
    | RowsLock | RowsCheck | RowsHandOver | RowsReset | RowsUnlock
    // SQLiteRows.Next
    | NextLock | NextCheck | NextStep | NextReset | NextUnlock
    // SQLiteConn.Close
    | ConnNative | ConnLock | ConnSetNil | ConnUnlock

  /** A thread's point, with the statement and the rows it works on. */
  datatype Thread = Thread(at: Point, s: nat, r: nat)

  /** The counters tell the calls of sqlite3_finalize, sqlite3_step and sqlite3_reset for the native statement. */
  datatype Stmt = Stmt(mu: Option<nat>, closed: bool, finalized: nat, stepped: nat, resets: nat)

  const OPEN := Stmt(None, false, 0, 0, 0)

  datatype Rows = Rows(stmt: nat, cls: bool, closed: bool)

  /** `fault` is set by a native call on a statement already finalized. */
  datatype State = State(
    stmts: seq<Stmt>, rows: seq<Rows>, threads: seq<Thread>, connMu: Option<nat>, dbOpen: bool, fault: bool)

  /** Any number of threads, open statements and open rows on them. */
  predicate Initial(s: State) {
    && (forall i :: 0 <= i < |s.stmts| ==> s.stmts[i] == OPEN)
    && (forall r :: 0 <= r < |s.rows| ==> s.rows[r].stmt < |s.stmts| && !s.rows[r].closed)
    && (forall t :: 0 <= t < |s.threads| ==> s.threads[t].at.Idle?)
    && s.connMu == None && s.dbOpen && !s.fault
  }

  datatype Action =
    | CallStmtClose(t: nat, s: nat)
    | CallRowsClose(t: nat, r: nat)
    | CallNext(t: nat, r: nat)
    | CallConnClose(t: nat)
    | Go(t: nat, row: bool)   // the thread's next step; `row`: a step of the statement ended in a row or was done

  predicate WaitsForStmt(p: Point) {
    p.StmtLock? || p.RowsLock? || p.NextLock?
  }

  predicate WaitsForConn(p: Point) {
    p.StmtConnLock? || p.ConnLock?
  }

  predicate HoldsStmt(p: Point) {
    || p.StmtCheck? || p.StmtConnLock? || p.StmtConnRead? || p.StmtFinalize? || p.StmtUnlock?
    || p.RowsCheck? || p.RowsHandOver? || p.RowsReset? || p.RowsUnlock?
    || p.NextCheck? || p.NextStep? || p.NextReset? || p.NextUnlock?
  }

  predicate HoldsConn(p: Point) {
    p.StmtConnRead? || p.ConnSetNil? || p.ConnUnlock?
  }

  predicate UsesRows(p: Point) {
    || p.RowsLock? || p.RowsCheck? || p.RowsHandOver? || p.RowsReset? || p.RowsUnlock?
    || p.NextLock? || p.NextCheck? || p.NextStep? || p.NextReset? || p.NextUnlock?
  }

  predicate UsesStmt(p: Point) {
    WaitsForStmt(p) || HoldsStmt(p)
  }

  predicate Enabled(s: State, a: Action) {
    && a.t < |s.threads|
    && match a
       case CallStmtClose(t, i) => s.threads[t].at.Idle? && i < |s.stmts|
       case CallRowsClose(t, r) => s.threads[t].at.Idle? && r < |s.rows| && s.rows[r].stmt < |s.stmts|
       case CallNext(t, r) => s.threads[t].at.Idle? && r < |s.rows| && s.rows[r].stmt < |s.stmts|
       case CallConnClose(t) => s.threads[t].at.Idle?
       case Go(t, _) =>
         var th := s.threads[t];
         && !th.at.Idle?
         && (UsesStmt(th.at) ==> th.s < |s.stmts|) && (UsesRows(th.at) ==> th.r < |s.rows|)
         && (WaitsForStmt(th.at) ==> s.stmts[th.s].mu == None)
         && (WaitsForConn(th.at) ==> s.connMu == None)
  }

  function To(s: State, t: nat, p: Point): State
    requires t < |s.threads|
  {
    s.(threads := s.threads[t := s.threads[t].(at := p)])
  }

  function With(s: State, i: nat, st: Stmt): State
    requires i < |s.stmts|
  {
    s.(stmts := s.stmts[i := st])
  }

  function Next(s: State, a: Action): State
    requires Enabled(s, a)
  {
    match a
    case CallStmtClose(t, i) => s.(threads := s.threads[t := Thread(StmtLock, i, 0)])
    case CallRowsClose(t, r) => s.(threads := s.threads[t := Thread(RowsLock, s.rows[r].stmt, r)])
    case CallNext(t, r) => s.(threads := s.threads[t := Thread(NextLock, s.rows[r].stmt, r)])
    case CallConnClose(t) => s.(threads := s.threads[t := Thread(ConnNative, 0, 0)])
    case Go(t, row) =>
      var th := s.threads[t];
      if UsesStmt(th.at) then GoStmt(s, t, th.at, th.s, th.r, row)
      else if th.at.ConnNative? then To(s, t, ConnLock)
      else if th.at.ConnLock? then To(s.(connMu := Some(t)), t, ConnSetNil)
      else if th.at.ConnSetNil? then To(s.(dbOpen := false), t, ConnUnlock)
      else To(s.(connMu := None), t, Idle)
  }

  /** A step at a point that concerns statement `i`. */
  function GoStmt(s: State, t: nat, p: Point, i: nat, r: nat, row: bool): State
    requires t < |s.threads| && i < |s.stmts| && UsesStmt(p) && (UsesRows(p) ==> r < |s.rows|)
  {
    var st := s.stmts[i];
    var locked := With(s, i, st.(mu := Some(t)));
    var unlocked := With(s, i, st.(mu := None));
    var touched := s.(fault := s.fault || st.finalized > 0);
    match p
    case StmtLock => To(locked, t, StmtCheck)
    case StmtCheck => if st.closed then To(s, t, StmtUnlock) else To(With(s, i, st.(closed := true)), t, StmtConnLock)
    case StmtConnLock => To(s.(connMu := Some(t)), t, StmtConnRead)
    case StmtConnRead => To(s.(connMu := None), t, if s.dbOpen then StmtFinalize else StmtUnlock)
    case StmtFinalize => To(With(touched, i, st.(finalized := st.finalized + 1)), t, StmtUnlock)
    case StmtUnlock => To(unlocked, t, Idle)
    case RowsLock => To(locked, t, RowsCheck)
    case RowsCheck =>
      if st.closed || s.rows[r].closed then To(s, t, RowsUnlock)
      else To(s.(rows := s.rows[r := s.rows[r].(closed := true)]), t, if s.rows[r].cls then RowsHandOver else RowsReset)
    case RowsHandOver => To(unlocked, t, StmtLock)
    case RowsReset => To(With(touched, i, st.(resets := st.resets + 1)), t, RowsUnlock)
    case RowsUnlock => To(unlocked, t, Idle)
    case NextLock => To(locked, t, NextCheck)
    case NextCheck => To(s, t, if st.closed then NextUnlock else NextStep)
    case NextStep => To(With(touched, i, st.(stepped := st.stepped + 1)), t, if row then NextUnlock else NextReset)
    case NextReset => To(With(touched, i, st.(resets := st.resets + 1)), t, NextUnlock)
    case NextUnlock => To(unlocked, t, Idle)
  }

  // ---- The invariant ----

  predicate Closing(p: Point) {
    p.StmtConnLock? || p.StmtConnRead? || p.StmtFinalize?
  }

  predicate Touching(p: Point) {
    p.RowsReset? || p.NextStep? || p.NextReset?
  }

  /** A thread holds the mutexes its point says it holds; about to finalize, it is the one that closed the
      statement; about to step or reset it, the statement is open. */
  predicate ThreadOk(s: State, t: nat)
    requires t < |s.threads|
  {
    var th := s.threads[t];
    && (UsesStmt(th.at) ==> th.s < |s.stmts|)
    && (UsesRows(th.at) ==> th.r < |s.rows|)
    && (HoldsStmt(th.at) ==> s.stmts[th.s].mu == Some(t))
    && (HoldsConn(th.at) <==> s.connMu == Some(t))
    && (Closing(th.at) ==> s.stmts[th.s].closed && s.stmts[th.s].finalized == 0)
    && (Touching(th.at) ==> !s.stmts[th.s].closed)
  }

  /** A held mutex has a holder; a finalized statement is closed; a closed one is finalized, or is just being
      closed, or was closed after the connection. */
  predicate StmtOk(s: State, i: nat)
    requires i < |s.stmts|
  {
    var st := s.stmts[i];
    && (st.mu.Some? ==>
          && st.mu.value < |s.threads|
          && HoldsStmt(s.threads[st.mu.value].at) && s.threads[st.mu.value].s == i)
    && st.finalized <= 1
    && (st.finalized == 1 ==> st.closed)
    && (st.closed && st.finalized == 0 && s.dbOpen ==> st.mu.Some? && Closing(s.threads[st.mu.value].at))
  }

  ghost predicate Inv(s: State) {
    && !s.fault
    && (forall t :: 0 <= t < |s.threads| ==> ThreadOk(s, t))
    && (forall i :: 0 <= i < |s.stmts| ==> StmtOk(s, i))
    && (forall r :: 0 <= r < |s.rows| ==> s.rows[r].stmt < |s.stmts|)
    && (s.connMu.Some? ==> s.connMu.value < |s.threads|)
  }

  /** A step changes its own thread and its own statement; everyone else sees at most that the statement's
      mutex, which they do not hold, changed hands. */
  lemma Frame(s: State, u: State, t: nat, i: nat)
    requires Inv(s) && t < |s.threads| == |u.threads| && |s.stmts| == |u.stmts| && |s.rows| == |u.rows|
    requires forall k :: 0 <= k < |s.threads| && k != t ==> u.threads[k] == s.threads[k]
    requires forall k :: 0 <= k < |s.stmts| && k != i ==> u.stmts[k] == s.stmts[k]
    requires forall k :: 0 <= k < |s.rows| ==> u.rows[k].stmt == s.rows[k].stmt
    requires i < |s.stmts| && u.stmts[i] != s.stmts[i] ==> s.stmts[i].mu == None || s.stmts[i].mu == Some(t)
    requires forall k :: k != t ==> (u.connMu == Some(k) <==> s.connMu == Some(k))
    requires u.connMu.Some? ==> u.connMu.value < |u.threads|
    requires u.dbOpen ==> s.dbOpen
    requires s.threads[t].at.Idle? || !HoldsStmt(s.threads[t].at) || s.threads[t].s == i
    requires !u.fault && ThreadOk(u, t) && (i < |u.stmts| ==> StmtOk(u, i))
    ensures Inv(u)
  {
    forall k | 0 <= k < |u.threads| ensures ThreadOk(u, k) {
      assert ThreadOk(s, k);
    }
    forall k | 0 <= k < |u.stmts| ensures StmtOk(u, k) {
      assert StmtOk(s, k);
    }
  }

  predicate InStmtClose(p: Point) {
    p.StmtLock? || p.StmtCheck? || p.StmtConnLock? || p.StmtConnRead? || p.StmtFinalize? || p.StmtUnlock?
  }

  predicate InRowsClose(p: Point) {
    p.RowsLock? || p.RowsCheck? || p.RowsHandOver? || p.RowsReset? || p.RowsUnlock?
  }

  predicate InNext(p: Point) {
    p.NextLock? || p.NextCheck? || p.NextStep? || p.NextReset? || p.NextUnlock?
  }

  /** The step's own thread and statement, after a step of Stmt.Close. */
  lemma StmtCloseLocal(s: State, t: nat, row: bool)
    requires Inv(s) && Enabled(s, Go(t, row)) && InStmtClose(s.threads[t].at)
    ensures var u := Next(s, Go(t, row));
      !u.fault && ThreadOk(u, t) && s.threads[t].s < |u.stmts| && StmtOk(u, s.threads[t].s)
  {
    hide Inv;
    OwnFacts(s, t);
  }

  lemma RowsCloseLocal(s: State, t: nat, row: bool)
    requires Inv(s) && Enabled(s, Go(t, row)) && InRowsClose(s.threads[t].at)
    ensures var u := Next(s, Go(t, row));
      !u.fault && ThreadOk(u, t) && s.threads[t].s < |u.stmts| && StmtOk(u, s.threads[t].s)
  {
    hide Inv;
    OwnFacts(s, t);
  }

  lemma NextLocal(s: State, t: nat, row: bool)
    requires Inv(s) && Enabled(s, Go(t, row)) && InNext(s.threads[t].at)
    ensures var u := Next(s, Go(t, row));
      !u.fault && ThreadOk(u, t) && s.threads[t].s < |u.stmts| && StmtOk(u, s.threads[t].s)
  {
    hide Inv;
    OwnFacts(s, t);
  }

  lemma OwnFacts(s: State, t: nat)
    requires Inv(s) && t < |s.threads|
    ensures !s.fault && ThreadOk(s, t) && (s.threads[t].s < |s.stmts| ==> StmtOk(s, s.threads[t].s))
    ensures s.connMu.Some? ==> s.connMu.value < |s.threads|
  {
  }

  /** What a step that concerns a statement may change beside its own thread and statement. */
  ghost predicate OwnChange(s: State, u: State, t: nat, i: nat) {
    && |s.threads| == |u.threads| && |s.stmts| == |u.stmts| && |s.rows| == |u.rows|
    && (forall k :: 0 <= k < |s.threads| && k != t ==> u.threads[k] == s.threads[k])
    && (forall k :: 0 <= k < |s.stmts| && k != i ==> u.stmts[k] == s.stmts[k])
    && (forall k :: 0 <= k < |s.rows| ==> u.rows[k].stmt == s.rows[k].stmt)
    && i < |s.stmts| && (u.stmts[i] != s.stmts[i] ==> s.stmts[i].mu == None || s.stmts[i].mu == Some(t))
    && (forall k :: k != t ==> (u.connMu == Some(k) <==> s.connMu == Some(k)))
    && (u.connMu.Some? ==> u.connMu.value < |u.threads|)
    && u.dbOpen == s.dbOpen
  }

  lemma StmtCloseChanges(s: State, t: nat, row: bool)
    requires Inv(s) && Enabled(s, Go(t, row)) && InStmtClose(s.threads[t].at)
    ensures OwnChange(s, Next(s, Go(t, row)), t, s.threads[t].s)
  {
    hide Inv, StmtOk, Closing, Touching;
    OwnFacts(s, t);
  }

  lemma RowsCloseChanges(s: State, t: nat, row: bool)
    requires Inv(s) && Enabled(s, Go(t, row)) && InRowsClose(s.threads[t].at)
    ensures OwnChange(s, Next(s, Go(t, row)), t, s.threads[t].s)
  {
    hide Inv, StmtOk, Closing, Touching;
    OwnFacts(s, t);
  }

  lemma NextChanges(s: State, t: nat, row: bool)
    requires Inv(s) && Enabled(s, Go(t, row)) && InNext(s.threads[t].at)
    ensures OwnChange(s, Next(s, Go(t, row)), t, s.threads[t].s)
  {
    hide Inv, StmtOk, Closing, Touching;
    OwnFacts(s, t);
  }

  lemma GoStmtKeeps(s: State, t: nat, row: bool)
    requires Inv(s) && Enabled(s, Go(t, row)) && OwnChange(s, Next(s, Go(t, row)), t, s.threads[t].s)
    requires var u := Next(s, Go(t, row)); !u.fault && ThreadOk(u, t) && StmtOk(u, s.threads[t].s)
    ensures Inv(Next(s, Go(t, row)))
  {
    hide Inv, Next, ThreadOk, StmtOk;
    Frame(s, Next(s, Go(t, row)), t, s.threads[t].s);
  }

  lemma CallKeeps(s: State, a: Action)
    requires Inv(s) && Enabled(s, a) && !a.Go?
    ensures Inv(Next(s, a))
  {
    OwnFacts(s, a.t);
    Frame(s, Next(s, a), a.t, |s.stmts|);
  }

  lemma ConnKeeps(s: State, a: Action)
    requires Inv(s) && Enabled(s, a) && a.Go? && !UsesStmt(s.threads[a.t].at)
    ensures Inv(Next(s, a))
  {
    OwnFacts(s, a.t);
    Frame(s, Next(s, a), a.t, |s.stmts|);
  }

  lemma StepKeepsInv(s: State, a: Action)
    requires Inv(s) && Enabled(s, a)
    ensures Inv(Next(s, a))
  {
    hide Inv, Next;
    if !a.Go? {
      CallKeeps(s, a);
    } else if !UsesStmt(s.threads[a.t].at) {
      ConnKeeps(s, a);
    } else {
      var p := s.threads[a.t].at;
      if InStmtClose(p) {
        StmtCloseLocal(s, a.t, a.row);
        StmtCloseChanges(s, a.t, a.row);
      } else if InRowsClose(p) {
        RowsCloseLocal(s, a.t, a.row);
        RowsCloseChanges(s, a.t, a.row);
      } else {
        NextLocal(s, a.t, a.row);
        NextChanges(s, a.t, a.row);
      }
      GoStmtKeeps(s, a.t, a.row);
    }
  }

  // ---- Whole runs ----

  function Run(start: State, steps: seq<Action>): Option<State> {
    if steps == [] then Some(start)
    else
      var n := |steps| - 1;
      var before := Run(start, steps[..n]);
      if before.Some? && Enabled(before.value, steps[n]) then Some(Next(before.value, steps[n])) else None
  }

  lemma {:induction false} RunKeepsInv(start: State, steps: seq<Action>)
    requires Initial(start) && Run(start, steps).Some?
    ensures Inv(Run(start, steps).value)
  {
    if steps != [] {
      hide Inv, Next, Enabled;
      var n := |steps| - 1;
      RunKeepsInv(start, steps[..n]);
      StepKeepsInv(Run(start, steps[..n]).value, steps[n]);
    }
  }

  /** In every interleaving: a native statement is finalized at most once and never touched afterwards; and no
      thread waits for a mutex it holds. */
  lemma Safety(start: State, steps: seq<Action>)
    requires Initial(start) && Run(start, steps).Some?
    ensures var s := Run(start, steps).value;
      && !s.fault
      && (forall i :: 0 <= i < |s.stmts| ==> s.stmts[i].finalized <= 1)
      && (forall t, i :: 0 <= t < |s.threads| && 0 <= i < |s.stmts| && WaitsForStmt(s.threads[t].at) ==>
            s.stmts[i].mu != Some(t))
      && (forall t :: 0 <= t < |s.threads| && WaitsForConn(s.threads[t].at) ==> s.connMu != Some(t))
  {
    hide Run, Initial;
    RunKeepsInv(start, steps);
    var s := Run(start, steps).value;
    forall t, i | 0 <= t < |s.threads| && 0 <= i < |s.stmts| && WaitsForStmt(s.threads[t].at)
      ensures s.stmts[i].mu != Some(t)
    {
      NoSelfWait(s, t, i);
    }
    forall t | 0 <= t < |s.threads| && WaitsForConn(s.threads[t].at) ensures s.connMu != Some(t) {
      OwnFacts(s, t);
    }
    forall i | 0 <= i < |s.stmts| ensures s.stmts[i].finalized <= 1 {
      StmtFacts(s, i);
    }
  }

  lemma NoSelfWait(s: State, t: nat, i: nat)
    requires Inv(s) && t < |s.threads| && i < |s.stmts| && WaitsForStmt(s.threads[t].at)
    ensures s.stmts[i].mu != Some(t)
  {
    StmtFacts(s, i);
  }

  lemma StmtFacts(s: State, i: nat)
    requires Inv(s) && i < |s.stmts|
    ensures StmtOk(s, i)
  {
  }

  // ---- Which statements are finalized ----

  /** The step in which a closing thread reads `db` for statement `i` and finds the connection open. */
  predicate ReadsOpen(s: State, a: Action, i: nat) {
    && a.Go? && a.t < |s.threads| && s.threads[a.t].at.StmtConnRead? && s.threads[a.t].s == i
    && s.dbOpen
  }

  /** Such a step was taken. */
  ghost predicate FoundOpen(start: State, steps: seq<Action>, i: nat) {
    exists k :: 0 <= k < |steps| && Run(start, steps[..k]).Some? && ReadsOpen(Run(start, steps[..k]).value, steps[k], i)
  }

  /** A thread is about to finalize statement `i`. */
  predicate Due(s: State, i: nat)
    requires i < |s.stmts|
  {
    var mu := s.stmts[i].mu;
    mu.Some? && mu.value < |s.threads| && s.threads[mu.value].at.StmtFinalize? && s.threads[mu.value].s == i
  }

  lemma FoundOpenStep(start: State, steps: seq<Action>, i: nat)
    requires steps != [] && Run(start, steps).Some?
    ensures var n := |steps| - 1;
      FoundOpen(start, steps, i) <==>
      FoundOpen(start, steps[..n], i) || ReadsOpen(Run(start, steps[..n]).value, steps[n], i)
  {
    hide Run, ReadsOpen;
    var n := |steps| - 1;
    assert Run(start, steps[..n]).Some? by { RunPrefix(start, steps); }
    assert forall k :: 0 <= k < n ==> steps[..n][..k] == steps[..k] && steps[..n][k] == steps[k];
    if FoundOpen(start, steps[..n], i) {
      var k :|
        && 0 <= k < n && Run(start, steps[..n][..k]).Some?
        && ReadsOpen(Run(start, steps[..n][..k]).value, steps[..n][k], i);
      assert Run(start, steps[..k]).Some? && ReadsOpen(Run(start, steps[..k]).value, steps[k], i);
    }
  }

  lemma RunPrefix(start: State, steps: seq<Action>)
    requires steps != [] && Run(start, steps).Some?
    ensures var n := |steps| - 1;
      && Run(start, steps[..n]).Some? && Enabled(Run(start, steps[..n]).value, steps[n])
      && Run(start, steps).value == Next(Run(start, steps[..n]).value, steps[n])
  {
  }

  /** The statement is finalized or about to be. */
  predicate Sure(s: State, i: nat)
    requires i < |s.stmts|
  {
    s.stmts[i].finalized == 1 || Due(s, i)
  }

  /** A step of a thread that works on no statement, or on another one. */
  lemma SureElsewhere(s: State, u: State, t: nat, i: nat)
    requires Inv(s) && t < |s.threads| == |u.threads| && i < |s.stmts| == |u.stmts| && u.stmts[i] == s.stmts[i]
    requires forall k :: 0 <= k < |s.threads| && k != t ==> u.threads[k] == s.threads[k]
    requires s.threads[t].s != i || !UsesStmt(s.threads[t].at)
    requires u.threads[t].at.StmtFinalize? ==> u.threads[t].s != i
    ensures Sure(u, i) <==> Sure(s, i)
  {
    hide Inv;
    StmtFacts(s, i);
  }

  lemma SureInStmtClose(s: State, t: nat, row: bool)
    requires Inv(s) && Enabled(s, Go(t, row)) && InStmtClose(s.threads[t].at)
    ensures var i := s.threads[t].s;
      var u := Next(s, Go(t, row));
      i < |s.stmts| == |u.stmts| && (Sure(u, i) <==> Sure(s, i) || ReadsOpen(s, Go(t, row), i))
  {
    hide Inv;
    OwnFacts(s, t);
  }

  lemma SureInNext(s: State, t: nat, row: bool)
    requires Inv(s) && Enabled(s, Go(t, row)) && InNext(s.threads[t].at)
    ensures var i := s.threads[t].s;
      var u := Next(s, Go(t, row));
      i < |s.stmts| == |u.stmts| && (Sure(u, i) <==> Sure(s, i)) && !u.threads[t].at.StmtFinalize?
  {
    hide Inv, Closing, Touching;
    OwnFacts(s, t);
  }

  lemma SureInRows(s: State, t: nat, row: bool)
    requires Inv(s) && Enabled(s, Go(t, row)) && InRowsClose(s.threads[t].at)
    ensures var i := s.threads[t].s;
      var u := Next(s, Go(t, row));
      i < |s.stmts| == |u.stmts| && (Sure(u, i) <==> Sure(s, i)) && !u.threads[t].at.StmtFinalize?
  {
    hide Inv, Closing, Touching;
    OwnFacts(s, t);
  }

  /** A step finalizes a statement, or makes it due, only as told; and it never takes that back. */
  lemma SureStep(s: State, a: Action, i: nat)
    requires Inv(s) && Enabled(s, a) && i < |s.stmts|
    ensures var u := Next(s, a);
      |u.stmts| == |s.stmts| && |u.threads| == |s.threads| && (Sure(u, i) <==> Sure(s, i) || ReadsOpen(s, a, i))
  {
    hide Inv, Sure, GoStmt;
    if !a.Go? || !UsesStmt(s.threads[a.t].at) {
      SureElsewhere(s, Next(s, a), a.t, i);
    } else {
      hide Next;
      Changes(s, a.t, a.row);
      if s.threads[a.t].s != i {
        SureElsewhere(s, Next(s, a), a.t, i);
      } else if InStmtClose(s.threads[a.t].at) {
        SureInStmtClose(s, a.t, a.row);
      } else if InRowsClose(s.threads[a.t].at) {
        SureInRows(s, a.t, a.row);
      } else {
        SureInNext(s, a.t, a.row);
      }
    }
  }

  /** A thread stays with its statement while it works on it. */
  lemma Changes(s: State, t: nat, row: bool)
    requires Inv(s) && Enabled(s, Go(t, row)) && UsesStmt(s.threads[t].at)
    ensures var u := Next(s, Go(t, row));
      OwnChange(s, u, t, s.threads[t].s) && u.threads[t].s == s.threads[t].s
  {
    hide Inv, OwnChange;
    if InStmtClose(s.threads[t].at) {
      StmtCloseChanges(s, t, row);
    } else if InRowsClose(s.threads[t].at) {
      RowsCloseChanges(s, t, row);
    } else {
      NextChanges(s, t, row);
    }
  }

  /** Over every run, a statement is finalized or about to be exactly if its closing thread found the connection
      open. */
  lemma {:induction false} FinalizedIff(start: State, steps: seq<Action>, i: nat)
    requires Initial(start) && i < |start.stmts| && Run(start, steps).Some?
    ensures var s := Run(start, steps).value;
      && |s.stmts| == |start.stmts|
      && (Sure(s, i) <==> FoundOpen(start, steps, i))
  {
    if steps != [] {
      hide Inv, Next, Enabled, Run, FoundOpen, ReadsOpen, Sure, Initial;
      var n := |steps| - 1;
      RunPrefix(start, steps);
      FinalizedIff(start, steps[..n], i);
      RunKeepsInv(start, steps[..n]);
      SureStep(Run(start, steps[..n]).value, steps[n], i);
      FoundOpenStep(start, steps, i);
    }
  }

  /** A statement whose closing is over was finalized, exactly once, if and only if its closing thread read `db`
      before Conn.Close had set it to nil. While the connection is open, that is every such statement. */
  lemma ClosedIsFinalized(start: State, steps: seq<Action>, i: nat)
    requires Initial(start) && i < |start.stmts| && Run(start, steps).Some?
    ensures var s := Run(start, steps).value;
      && i < |s.stmts|
      && (s.stmts[i].closed && s.stmts[i].mu == None ==>
            && (s.stmts[i].finalized == 1 <==> FoundOpen(start, steps, i))
            && (s.stmts[i].finalized == 0 <==> !FoundOpen(start, steps, i))
            && (s.dbOpen ==> s.stmts[i].finalized == 1))
  {
    hide Inv, FoundOpen, Run;
    FinalizedIff(start, steps, i);
    RunKeepsInv(start, steps);
    StmtFacts(Run(start, steps).value, i);
  }

  lemma ClosedStays(s: State, a: Action)
    requires Enabled(s, a) && !s.dbOpen
    ensures !Next(s, a).dbOpen
  {
  }

  /** Once Conn.Close has set `db` to nil, a statement that is neither finalized nor about to be never will be,
      whoever closes it and whenever. */
  lemma {:induction false} LateCloseNeverFinalizes(start: State, steps: seq<Action>, more: seq<Action>, i: nat)
    requires Initial(start) && Run(start, steps).Some? && Run(start, steps + more).Some?
    requires var s := Run(start, steps).value;
      !s.dbOpen && i < |s.stmts| && !Sure(s, i)
    ensures var s := Run(start, steps + more).value;
      !s.dbOpen && i < |s.stmts| && s.stmts[i].finalized == 0 && !Sure(s, i)
    decreases |more|
  {
    if more == [] {
      assert steps + more == steps;
      RunKeepsInv(start, steps);
      StmtFacts(Run(start, steps).value, i);
    } else {
      hide Inv, Next, Enabled, Run, Initial;
      var n := |more| - 1;
      assert (steps + more)[..|steps + more| - 1] == steps + more[..n];
      RunPrefix(start, steps + more);
      LateCloseNeverFinalizes(start, steps, more[..n], i);
      RunKeepsInv(start, steps + more[..n]);
      var s := Run(start, steps + more[..n]).value;
      ClosedStays(s, more[n]);
      SureStep(s, more[n], i);
      RunKeepsInv(start, steps + more);
      StmtFacts(Run(start, steps + more).value, i);
    }
  }

  /** A Stmt.Close begun after that point is one of them. */
  lemma LateClose(start: State, steps: seq<Action>, t: nat, i: nat, more: seq<Action>)
    requires Initial(start) && Run(start, steps).Some? && !Run(start, steps).value.dbOpen
    requires i < |Run(start, steps).value.stmts| && !Run(start, steps).value.stmts[i].closed
    requires Run(start, steps + [CallStmtClose(t, i)] + more).Some?
    ensures var s := Run(start, steps + [CallStmtClose(t, i)] + more).value; i < |s.stmts| && s.stmts[i].finalized == 0
  {
    hide Run;
    RunKeepsInv(start, steps);
    var s := Run(start, steps).value;
    StmtFacts(s, i);
    NotClosedNotDue(s, i);
    assert steps + [CallStmtClose(t, i)] + more == steps + ([CallStmtClose(t, i)] + more);
    LateCloseNeverFinalizes(start, steps, [CallStmtClose(t, i)] + more, i);
  }

  lemma NotClosedNotDue(s: State, i: nat)
    requires Inv(s) && i < |s.stmts| && !s.stmts[i].closed
    ensures !Sure(s, i)
  {
    StmtFacts(s, i);
    if s.stmts[i].mu.Some? {
      OwnFacts(s, s.stmts[i].mu.value);
    }
  }

  lemma RunSnoc(start: State, steps: seq<Action>, a: Action)
    requires Run(start, steps).Some? && Enabled(Run(start, steps).value, a)
    ensures Run(start, steps + [a]) == Some(Next(Run(start, steps).value, a))
  {
    assert (steps + [a])[..|steps|] == steps;
  }

  /** One thread, one statement. */
  function Solo(p: Point, st: Stmt, connMu: Option<nat>, dbOpen: bool): State {
    State([st], [], [Thread(p, 0, 0)], connMu, dbOpen, false)
  }

  const HELD := Stmt(Some(0), true, 0, 0, 0)
  const LEFT := Stmt(None, true, 0, 0, 0)

  lemma SoloConnClose()
    ensures Next(Solo(Idle, OPEN, None, true), CallConnClose(0)) == Solo(ConnNative, OPEN, None, true)
    ensures Next(Solo(ConnNative, OPEN, None, true), Go(0, true)) == Solo(ConnLock, OPEN, None, true)
  {
  }

  lemma SoloSetNil()
    ensures Next(Solo(ConnLock, OPEN, None, true), Go(0, true)) == Solo(ConnSetNil, OPEN, Some(0), true)
    ensures Next(Solo(ConnSetNil, OPEN, Some(0), true), Go(0, true)) == Solo(ConnUnlock, OPEN, Some(0), false)
    ensures Next(Solo(ConnUnlock, OPEN, Some(0), false), Go(0, true)) == Solo(Idle, OPEN, None, false)
  {
  }

  lemma SoloStmtClose()
    ensures Next(Solo(Idle, OPEN, None, false), CallStmtClose(0, 0)) == Solo(StmtLock, OPEN, None, false)
    ensures Next(Solo(StmtLock, OPEN, None, false), Go(0, true))
         == Solo(StmtCheck, OPEN.(mu := Some(0)), None, false)
    ensures Next(Solo(StmtCheck, OPEN.(mu := Some(0)), None, false), Go(0, true))
         == Solo(StmtConnLock, HELD, None, false)
    ensures Next(Solo(StmtConnLock, HELD, None, false), Go(0, true)) == Solo(StmtConnRead, HELD, Some(0), false)
    ensures Next(Solo(StmtConnRead, HELD, Some(0), false), Go(0, true)) == Solo(StmtUnlock, HELD, None, false)
    ensures Next(Solo(StmtUnlock, HELD, None, false), Go(0, true)) == Solo(Idle, LEFT, None, false)
  {
  }

  /** A run in which that happens: one thread closes the connection and then the statement, which ends closed, with
      its mutex free, and never finalized. */
  lemma Unfinalized()
    ensures var go := Go(0, true);
      var steps := [CallConnClose(0), go, go, go, go, CallStmtClose(0, 0), go, go, go, go, go];
      && Initial(Solo(Idle, OPEN, None, true))
      && Run(Solo(Idle, OPEN, None, true), steps) == Some(Solo(Idle, LEFT, None, false))
  {
    hide Run, Next;
    var start, go := Solo(Idle, OPEN, None, true), Go(0, true);
    assert Run(start, []) == Some(start) by { RunNothing(start); }
    SoloConnClose();
    SoloSetNil();
    SoloStmtClose();
    var steps := [];
    RunSnoc(start, steps, CallConnClose(0));
    steps := steps + [CallConnClose(0)];
    RunSnoc(start, steps, go);
    RunSnoc(start, steps + [go], go);
    RunSnoc(start, steps + [go] + [go], go);
    RunSnoc(start, steps + [go] + [go] + [go], go);
    steps := steps + [go] + [go] + [go] + [go];
    RunSnoc(start, steps, CallStmtClose(0, 0));
    steps := steps + [CallStmtClose(0, 0)];
    RunSnoc(start, steps, go);
    RunSnoc(start, steps + [go], go);
    RunSnoc(start, steps + [go] + [go], go);
    RunSnoc(start, steps + [go] + [go] + [go], go);
    RunSnoc(start, steps + [go] + [go] + [go] + [go], go);
    assert steps + [go] + [go] + [go] + [go] + [go]
        == [CallConnClose(0), go, go, go, go, CallStmtClose(0, 0), go, go, go, go, go];
  }

  lemma RunNothing(start: State)
    ensures Run(start, []) == Some(start)
  {
  }

  /** The two kinds of mutex never block each other for good: while a thread is at work, some thread can take
      a step. */
  lemma NoDeadlock(start: State, steps: seq<Action>, t: nat)
    requires Initial(start) && Run(start, steps).Some?
    requires t < |Run(start, steps).value.threads| && !Run(start, steps).value.threads[t].at.Idle?
    ensures exists k :: Enabled(Run(start, steps).value, Go(k, true))
  {
    RunKeepsInv(start, steps);
    var s := Run(start, steps).value;
    assert ThreadOk(s, t);
    if s.connMu.Some? {
      var k := s.connMu.value;
      assert ThreadOk(s, k);
      assert Enabled(s, Go(k, true));
    } else if WaitsForStmt(s.threads[t].at) && s.stmts[s.threads[t].s].mu.Some? {
      assert StmtOk(s, s.threads[t].s);
      var k := s.stmts[s.threads[t].s].mu.value;
      assert ThreadOk(s, k);
      assert Enabled(s, Go(k, true));
    } else {
      assert Enabled(s, Go(t, true));
    }
  }

  // ---- Every call returns ----

  /** The steps a thread has left, at most. */
  function Rank(p: Point): nat {
    match p
    case Idle => 0
    case StmtUnlock => 1
    case StmtFinalize => 2
    case StmtConnRead => 3
    case StmtConnLock => 4
    case StmtCheck => 5
    case StmtLock => 6
    case RowsUnlock => 1
    case RowsReset => 2
    case RowsHandOver => 7
    case RowsCheck => 8
    case RowsLock => 9
    case NextUnlock => 1
    case NextReset => 2
    case NextStep => 3
    case NextCheck => 4
    case NextLock => 5
    case ConnUnlock => 1
    case ConnSetNil => 2
    case ConnLock => 3
    case ConnNative => 4
  }

  function Pending(threads: seq<Thread>): nat {
    if threads == [] then 0 else Pending(threads[..|threads| - 1]) + Rank(threads[|threads| - 1].at)
  }

  lemma {:induction false} PendingUpdate(threads: seq<Thread>, t: nat, th: Thread)
    requires t < |threads|
    ensures Pending(threads[t := th]) == Pending(threads) - Rank(threads[t].at) + Rank(th.at)
  {
    var n := |threads| - 1;
    if t == n {
      assert threads[t := th][..n] == threads[..n];
    } else {
      PendingUpdate(threads[..n], t, th);
      assert threads[t := th][..n] == threads[..n][t := th];
    }
  }

  /** The step changes thread t alone, and moves it forward. */
  predicate Forward(s: State, u: State, t: nat)
    requires t < |s.threads|
  {
    && |u.threads| == |s.threads| && u.threads == s.threads[t := u.threads[t]]
    && Rank(u.threads[t].at) < Rank(s.threads[t].at)
  }

  lemma StmtCloseForward(s: State, t: nat, row: bool)
    requires Enabled(s, Go(t, row)) && InStmtClose(s.threads[t].at)
    ensures Forward(s, Next(s, Go(t, row)), t)
  {
  }

  lemma RowsCloseForward(s: State, t: nat, row: bool)
    requires Enabled(s, Go(t, row)) && InRowsClose(s.threads[t].at)
    ensures Forward(s, Next(s, Go(t, row)), t)
  {
  }

  lemma NextForward(s: State, t: nat, row: bool)
    requires Enabled(s, Go(t, row)) && InNext(s.threads[t].at)
    ensures Forward(s, Next(s, Go(t, row)), t)
  {
  }

  lemma ConnForward(s: State, t: nat, row: bool)
    requires Enabled(s, Go(t, row)) && !UsesStmt(s.threads[t].at)
    ensures Forward(s, Next(s, Go(t, row)), t)
  {
  }

  lemma GoForward(s: State, t: nat, row: bool)
    requires Enabled(s, Go(t, row))
    ensures Forward(s, Next(s, Go(t, row)), t)
  {
    hide Next, Forward;
    if InStmtClose(s.threads[t].at) {
      StmtCloseForward(s, t, row);
    } else if InRowsClose(s.threads[t].at) {
      RowsCloseForward(s, t, row);
    } else if InNext(s.threads[t].at) {
      NextForward(s, t, row);
    } else {
      ConnForward(s, t, row);
    }
  }

  lemma StepPending(s: State, a: Action)
    requires Enabled(s, a)
    ensures Pending(Next(s, a).threads) <= if a.Go? then Pending(s.threads) - 1 else Pending(s.threads) + 9
  {
    hide Next, Rank;
    if a.Go? {
      GoForward(s, a.t, a.row);
    } else {
      CallForward(s, a);
    }
    PendingUpdate(s.threads, a.t, Next(s, a).threads[a.t]);
  }

  lemma CallForward(s: State, a: Action)
    requires Enabled(s, a) && !a.Go?
    ensures var u := Next(s, a);
      |u.threads| == |s.threads| && u.threads == s.threads[a.t := u.threads[a.t]] && Rank(u.threads[a.t].at) <= 9
  {
  }

  /** The calls begun in a run. */
  function Calls(steps: seq<Action>): nat {
    if steps == [] then 0 else Calls(steps[..|steps| - 1]) + if steps[|steps| - 1].Go? then 0 else 1
  }

  lemma {:induction false} IdlePending(threads: seq<Thread>)
    requires forall t :: 0 <= t < |threads| ==> threads[t].at.Idle?
    ensures Pending(threads) == 0
  {
    if threads != [] {
      IdlePending(threads[..|threads| - 1]);
    }
  }

  /** Every run is finite: n calls allow at most 10 n steps. */
  lemma {:induction false} RunBounded(start: State, steps: seq<Action>)
    requires Initial(start) && Run(start, steps).Some?
    ensures |steps| + Pending(Run(start, steps).value.threads) <= 10 * Calls(steps)
  {
    if steps == [] {
      IdlePending(start.threads);
    } else {
      hide Next, Enabled, Initial, Pending;
      var n := |steps| - 1;
      RunBounded(start, steps[..n]);
      StepPending(Run(start, steps[..n]).value, steps[n]);
    }
  }

  /** So a run comes to rest, unless calls are begun forever, and at rest every call that was begun has returned and
      every mutex is free. */
  lemma AllReturn(start: State, steps: seq<Action>)
    requires Initial(start) && Run(start, steps).Some?
    requires forall k :: !Enabled(Run(start, steps).value, Go(k, true))
    ensures var s := Run(start, steps).value;
      && (forall t :: 0 <= t < |s.threads| ==> s.threads[t].at.Idle?)
      && (forall i :: 0 <= i < |s.stmts| ==> s.stmts[i].mu == None)
      && s.connMu == None
  {
    var s := Run(start, steps).value;
    hide Run, Enabled, Inv;
    forall t | 0 <= t < |s.threads| ensures s.threads[t].at.Idle? {
      if !s.threads[t].at.Idle? {
        NoDeadlock(start, steps, t);
      }
    }
    RunKeepsInv(start, steps);
    forall i | 0 <= i < |s.stmts| ensures s.stmts[i].mu == None {
      StmtFacts(s, i);
    }
    if s.connMu.Some? {
      ConnHolder(s);
    }
  }

  lemma ConnHolder(s: State)
    requires Inv(s) && s.connMu.Some?
    ensures s.connMu.value < |s.threads| && !s.threads[s.connMu.value].at.Idle?
  {
    assert ThreadOk(s, s.connMu.value);
  }
}
