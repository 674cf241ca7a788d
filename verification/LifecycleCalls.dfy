/** What each call of the lifecycle does: alone, as a whole; and among others, why a statement gets closed. */
module LifecycleCalls {
  import opened Text
  import opened Lifecycle

  // ---- A call that is left alone ----

  /** Thread t goes on until its call has returned; None if it would have to wait. `row` is what steps answer. */
  function Finish(s: State, t: nat, row: bool): Option<State>
    requires t < |s.threads|
    decreases Rank(s.threads[t].at)
  {
    if s.threads[t].at.Idle? then Some(s)
    else if !Enabled(s, Go(t, row)) then None
    else
      GoForward(s, t, row);
      Finish(Next(s, Go(t, row)), t, row)
  }

  /** No call is under way. */
  predicate AtRest(s: State) {
    && (forall t :: 0 <= t < |s.threads| ==> s.threads[t].at.Idle?)
    && (forall i :: 0 <= i < |s.stmts| ==> s.stmts[i].mu == None)
    && s.connMu == None
  }

  /** `s` with thread t at a point, statement i as given and the connection's mutex as given. */
  function Busy(s: State, t: nat, p: Point, i: nat, r: nat, st: Stmt, connMu: Option<nat>): State
    requires t < |s.threads| && i < |s.stmts|
  {
    s.(threads := s.threads[t := Thread(p, i, r)], stmts := s.stmts[i := st], connMu := connMu)
  }

  lemma ToBusy(s: State, t: nat, p: Point, i: nat, r: nat, st: Stmt, connMu: Option<nat>, q: Point)
    requires t < |s.threads| && i < |s.stmts|
    ensures To(Busy(s, t, p, i, r, st, connMu), t, q) == Busy(s, t, q, i, r, st, connMu)
  {
    assert s.threads[t := Thread(p, i, r)][t := Thread(q, i, r)] == s.threads[t := Thread(q, i, r)];
  }

  /** One step of a busy thread at a point where it works on its statement. */
  lemma BusyStep(
    s: State, t: nat, p: Point, i: nat, r: nat, st: Stmt, connMu: Option<nat>, row: bool,
    q: Point, st': Stmt, connMu': Option<nat>)
    requires t < |s.threads| && i < |s.stmts| && UsesStmt(p) && (UsesRows(p) ==> r < |s.rows|)
    requires (WaitsForStmt(p) ==> st.mu == None) && (WaitsForConn(p) ==> connMu == None)
    requires !s.fault && GoStmt(Busy(s, t, p, i, r, st, connMu), t, p, i, r, row)
                         == To(Busy(s, t, p, i, r, st', connMu'), t, q)
    ensures Finish(Busy(s, t, p, i, r, st, connMu), t, row) == Finish(Busy(s, t, q, i, r, st', connMu'), t, row)
  {
    var b := Busy(s, t, p, i, r, st, connMu);
    hide GoStmt, Rank;
    ToBusy(s, t, p, i, r, st', connMu', q);
    assert Enabled(b, Go(t, row)) && Next(b, Go(t, row)) == Busy(s, t, q, i, r, st', connMu');
    assert !p.Idle?;
  }

  lemma BusyIdle(s: State, t: nat, i: nat, r: nat, st: Stmt, connMu: Option<nat>, row: bool)
    requires t < |s.threads| && i < |s.stmts|
    ensures Finish(Busy(s, t, Idle, i, r, st, connMu), t, row) == Some(Busy(s, t, Idle, i, r, st, connMu))
  {
  }

  lemma WithBusy(s: State, t: nat, p: Point, i: nat, r: nat, st: Stmt, connMu: Option<nat>, st': Stmt)
    requires t < |s.threads| && i < |s.stmts|
    ensures With(Busy(s, t, p, i, r, st, connMu), i, st') == Busy(s, t, p, i, r, st', connMu)
  {
    assert s.stmts[i := st][i := st'] == s.stmts[i := st'];
  }

  /** The rest of Stmt.Close once it holds the mutex. */
  lemma FinishStmtClose(s: State, t: nat, i: nat, r: nat, st: Stmt, row: bool)
    requires t < |s.threads| && i < |s.stmts| && !s.fault && st.mu == None && s.connMu == None
    requires !st.closed ==> st.finalized == 0
    ensures Finish(Busy(s, t, StmtLock, i, r, st, None), t, row)
         == Some(Busy(s, t, Idle, i, r, AfterStmtClose(st, s.dbOpen), None))
  {
    hide Finish, Busy, To, With;
    var held := st.(mu := Some(t));
    var closed := held.(closed := true);
    var done := if s.dbOpen then closed.(finalized := closed.finalized + 1) else closed;
    Locks(s, t, i, r, st, row);
    if st.closed {
      Checks(s, t, i, r, held, row);
      Unlocks(s, t, i, r, held, row);
      assert held.(mu := None) == st;
    } else {
      Checks(s, t, i, r, held, row);
      Reads(s, t, i, r, closed, row);
      if s.dbOpen {
        Finalizes(s, t, i, r, closed, row);
      }
      Unlocks(s, t, i, r, done, row);
    }
    BusyIdle(s, t, i, r, AfterStmtClose(st, s.dbOpen), None, row);
  }

  /** What a Stmt.Close that is left alone makes of a statement. */
  function AfterStmtClose(st: Stmt, dbOpen: bool): Stmt {
    if st.closed then st
    else if dbOpen then st.(closed := true, finalized := st.finalized + 1)
    else st.(closed := true)
  }

  lemma Locks(s: State, t: nat, i: nat, r: nat, st: Stmt, row: bool)
    requires t < |s.threads| && i < |s.stmts| && !s.fault && st.mu == None
    ensures Finish(Busy(s, t, StmtLock, i, r, st, None), t, row)
         == Finish(Busy(s, t, StmtCheck, i, r, st.(mu := Some(t)), None), t, row)
  {
    hide Finish;
    WithBusy(s, t, StmtLock, i, r, st, None, st.(mu := Some(t)));
    BusyStep(s, t, StmtLock, i, r, st, None, row, StmtCheck, st.(mu := Some(t)), None);
  }

  lemma Checks(s: State, t: nat, i: nat, r: nat, st: Stmt, row: bool)
    requires t < |s.threads| && i < |s.stmts| && !s.fault
    ensures Finish(Busy(s, t, StmtCheck, i, r, st, None), t, row)
         == if st.closed then Finish(Busy(s, t, StmtUnlock, i, r, st, None), t, row)
            else Finish(Busy(s, t, StmtConnLock, i, r, st.(closed := true), None), t, row)
  {
    hide Finish;
    if st.closed {
      BusyStep(s, t, StmtCheck, i, r, st, None, row, StmtUnlock, st, None);
    } else {
      WithBusy(s, t, StmtCheck, i, r, st, None, st.(closed := true));
      BusyStep(s, t, StmtCheck, i, r, st, None, row, StmtConnLock, st.(closed := true), None);
    }
  }

  lemma Reads(s: State, t: nat, i: nat, r: nat, st: Stmt, row: bool)
    requires t < |s.threads| && i < |s.stmts| && !s.fault
    ensures Finish(Busy(s, t, StmtConnLock, i, r, st, None), t, row)
         == Finish(Busy(s, t, if s.dbOpen then StmtFinalize else StmtUnlock, i, r, st, None), t, row)
  {
    hide Finish;
    BusyStep(s, t, StmtConnLock, i, r, st, None, row, StmtConnRead, st, Some(t));
    BusyStep(s, t, StmtConnRead, i, r, st, Some(t), row, if s.dbOpen then StmtFinalize else StmtUnlock, st, None);
  }

  lemma Finalizes(s: State, t: nat, i: nat, r: nat, st: Stmt, row: bool)
    requires t < |s.threads| && i < |s.stmts| && !s.fault && st.finalized == 0
    ensures Finish(Busy(s, t, StmtFinalize, i, r, st, None), t, row)
         == Finish(Busy(s, t, StmtUnlock, i, r, st.(finalized := st.finalized + 1), None), t, row)
  {
    hide Finish;
    WithBusy(s, t, StmtFinalize, i, r, st, None, st.(finalized := st.finalized + 1));
    BusyStep(s, t, StmtFinalize, i, r, st, None, row, StmtUnlock, st.(finalized := st.finalized + 1), None);
  }

  lemma Unlocks(s: State, t: nat, i: nat, r: nat, st: Stmt, row: bool)
    requires t < |s.threads| && i < |s.stmts| && !s.fault
    ensures Finish(Busy(s, t, StmtUnlock, i, r, st, None), t, row)
         == Finish(Busy(s, t, Idle, i, r, st.(mu := None), None), t, row)
  {
    hide Finish;
    WithBusy(s, t, StmtUnlock, i, r, st, None, st.(mu := None));
    BusyStep(s, t, StmtUnlock, i, r, st, None, row, Idle, st.(mu := None), None);
  }

  // ---- The four calls ----

  /** `s` as the call leaves it, but for what it did: the thread is idle again. */
  function Back(s: State, t: nat, i: nat, r: nat, st: Stmt): State
    requires t < |s.threads| && i < |s.stmts|
  {
    Busy(s, t, Idle, i, r, st, None)
  }

  /** Stmt.Close marks an open statement closed, and finalizes it if the connection is open. */
  lemma StmtCloseAlone(s: State, t: nat, i: nat, row: bool)
    requires Inv(s) && AtRest(s) && t < |s.threads| && i < |s.stmts|
    ensures Finish(Next(s, CallStmtClose(t, i)), t, row)
         == Some(Back(s, t, i, 0, AfterStmtClose(s.stmts[i], s.dbOpen)))
  {
    OpenUnfinalized(s, i);
    hide Inv, Finish;
    var st := s.stmts[i];
    assert Next(s, CallStmtClose(t, i)) == Busy(s, t, StmtLock, i, 0, st, None);
    FinishStmtClose(s, t, i, 0, st, row);
  }

  lemma OpenUnfinalized(s: State, i: nat)
    requires Inv(s) && i < |s.stmts|
    ensures !s.fault && (!s.stmts[i].closed ==> s.stmts[i].finalized == 0)
  {
    StmtFacts(s, i);
  }

  /** Rows.Close does nothing on a closed statement or closed rows. Otherwise it marks the rows closed; then it closes
      the statement if the rows own it, and only resets it if they do not. */
  lemma RowsCloseAlone(s: State, t: nat, r: nat, row: bool)
    requires Inv(s) && AtRest(s) && t < |s.threads| && r < |s.rows|
    ensures s.rows[r].stmt < |s.stmts|
    ensures var i := s.rows[r].stmt;
      var st, closing := s.stmts[i], s.(rows := s.rows[r := s.rows[r].(closed := true)]);
      Finish(Next(s, CallRowsClose(t, r)), t, row) == Some(
        if st.closed || s.rows[r].closed then Back(s, t, i, r, st)
        else if s.rows[r].cls then Back(closing, t, i, r, AfterStmtClose(st, s.dbOpen))
        else Back(closing, t, i, r, st.(resets := st.resets + 1)))
  {
    assert s.rows[r].stmt < |s.stmts|;
    var i := s.rows[r].stmt;
    OpenUnfinalized(s, i);
    hide Inv, Finish, GoStmt;
    assert Next(s, CallRowsClose(t, r)) == Busy(s, t, RowsLock, i, r, s.stmts[i], None);
    hide Next, Enabled, Busy;
    if s.stmts[i].closed || s.rows[r].closed {
      FinishKept(s, t, i, r, s.stmts[i], row);
    } else {
      FinishRowsClose(s, t, i, r, s.stmts[i], row);
    }
  }

  lemma FinishKept(s: State, t: nat, i: nat, r: nat, st: Stmt, row: bool)
    requires t < |s.threads| && i < |s.stmts| && r < |s.rows| && !s.fault && st.mu == None
    requires st.closed || s.rows[r].closed
    ensures Finish(Busy(s, t, RowsLock, i, r, st, None), t, row) == Some(Back(s, t, i, r, st))
  {
    hide Finish, Busy, To, With;
    var held := st.(mu := Some(t));
    RowsLocks(s, t, i, r, st, row);
    RowsKept(s, t, i, r, held, row);
    RowsUnlocks(s, t, i, r, held, row);
    BusyIdle(s, t, i, r, st, None, row);
  }

  lemma FinishRowsClose(s: State, t: nat, i: nat, r: nat, st: Stmt, row: bool)
    requires t < |s.threads| && i < |s.stmts| && r < |s.rows| && !s.fault && st.mu == None && s.connMu == None
    requires !st.closed && st.finalized == 0 && !s.rows[r].closed
    ensures var closing := s.(rows := s.rows[r := s.rows[r].(closed := true)]);
      Finish(Busy(s, t, RowsLock, i, r, st, None), t, row) == Some(
        if s.rows[r].cls then Back(closing, t, i, r, AfterStmtClose(st, s.dbOpen))
        else Back(closing, t, i, r, st.(resets := st.resets + 1)))
  {
    hide Finish, Busy, To, With;
    var held := st.(mu := Some(t));
    RowsLocks(s, t, i, r, st, row);
    var closing := s.(rows := s.rows[r := s.rows[r].(closed := true)]);
    RowsMarked(s, closing, t, i, r, held, row);
    if s.rows[r].cls {
      HandsOver(closing, t, i, r, held, row);
      FinishStmtClose(closing, t, i, r, st, row);
    } else {
      Resets(closing, t, i, r, held, row);
      RowsUnlocks(closing, t, i, r, held.(resets := held.resets + 1), row);
      BusyIdle(closing, t, i, r, st.(resets := st.resets + 1), None, row);
    }
  }

  lemma RowsLocks(s: State, t: nat, i: nat, r: nat, st: Stmt, row: bool)
    requires t < |s.threads| && i < |s.stmts| && r < |s.rows| && !s.fault && st.mu == None
    ensures Finish(Busy(s, t, RowsLock, i, r, st, None), t, row)
         == Finish(Busy(s, t, RowsCheck, i, r, st.(mu := Some(t)), None), t, row)
  {
    hide Finish;
    WithBusy(s, t, RowsLock, i, r, st, None, st.(mu := Some(t)));
    BusyStep(s, t, RowsLock, i, r, st, None, row, RowsCheck, st.(mu := Some(t)), None);
  }

  lemma RowsKept(s: State, t: nat, i: nat, r: nat, st: Stmt, row: bool)
    requires t < |s.threads| && i < |s.stmts| && r < |s.rows| && !s.fault && (st.closed || s.rows[r].closed)
    ensures Finish(Busy(s, t, RowsCheck, i, r, st, None), t, row)
         == Finish(Busy(s, t, RowsUnlock, i, r, st, None), t, row)
  {
    hide Finish;
    BusyStep(s, t, RowsCheck, i, r, st, None, row, RowsUnlock, st, None);
  }

  lemma RowsMarked(s: State, closing: State, t: nat, i: nat, r: nat, st: Stmt, row: bool)
    requires t < |s.threads| && i < |s.stmts| && r < |s.rows| && !st.closed && !s.rows[r].closed
    requires closing == s.(rows := s.rows[r := s.rows[r].(closed := true)])
    ensures Finish(Busy(s, t, RowsCheck, i, r, st, None), t, row)
         == Finish(Busy(closing, t, if s.rows[r].cls then RowsHandOver else RowsReset, i, r, st, None), t, row)
  {
    hide Rank;
    var q := if s.rows[r].cls then RowsHandOver else RowsReset;
    var b := Busy(s, t, RowsCheck, i, r, st, None);
    ToBusy(closing, t, RowsCheck, i, r, st, None, q);
    assert Next(b, Go(t, row)) == Busy(closing, t, q, i, r, st, None);
  }

  lemma HandsOver(s: State, t: nat, i: nat, r: nat, st: Stmt, row: bool)
    requires t < |s.threads| && i < |s.stmts| && r < |s.rows| && !s.fault
    ensures Finish(Busy(s, t, RowsHandOver, i, r, st, None), t, row)
         == Finish(Busy(s, t, StmtLock, i, r, st.(mu := None), None), t, row)
  {
    hide Finish;
    WithBusy(s, t, RowsHandOver, i, r, st, None, st.(mu := None));
    BusyStep(s, t, RowsHandOver, i, r, st, None, row, StmtLock, st.(mu := None), None);
  }

  lemma Resets(s: State, t: nat, i: nat, r: nat, st: Stmt, row: bool)
    requires t < |s.threads| && i < |s.stmts| && r < |s.rows| && !s.fault && st.finalized == 0
    ensures Finish(Busy(s, t, RowsReset, i, r, st, None), t, row)
         == Finish(Busy(s, t, RowsUnlock, i, r, st.(resets := st.resets + 1), None), t, row)
  {
    hide Finish;
    WithBusy(s, t, RowsReset, i, r, st, None, st.(resets := st.resets + 1));
    BusyStep(s, t, RowsReset, i, r, st, None, row, RowsUnlock, st.(resets := st.resets + 1), None);
  }

  lemma RowsUnlocks(s: State, t: nat, i: nat, r: nat, st: Stmt, row: bool)
    requires t < |s.threads| && i < |s.stmts| && r < |s.rows| && !s.fault
    ensures Finish(Busy(s, t, RowsUnlock, i, r, st, None), t, row)
         == Finish(Busy(s, t, Idle, i, r, st.(mu := None), None), t, row)
  {
    hide Finish;
    WithBusy(s, t, RowsUnlock, i, r, st, None, st.(mu := None));
    BusyStep(s, t, RowsUnlock, i, r, st, None, row, Idle, st.(mu := None), None);
  }

  /** Rows.Next does nothing on a closed statement. Otherwise it steps it once, and resets it if the step failed. */
  lemma NextAlone(s: State, t: nat, r: nat, row: bool)
    requires Inv(s) && AtRest(s) && t < |s.threads| && r < |s.rows|
    ensures s.rows[r].stmt < |s.stmts|
    ensures var i := s.rows[r].stmt;
      var st := s.stmts[i];
      Finish(Next(s, CallNext(t, r)), t, row) == Some(Back(s, t, i, r,
        if st.closed then st
        else st.(stepped := st.stepped + 1, resets := st.resets + if row then 0 else 1)))
  {
    assert s.rows[r].stmt < |s.stmts|;
    var i := s.rows[r].stmt;
    OpenUnfinalized(s, i);
    hide Inv, Finish, GoStmt;
    assert Next(s, CallNext(t, r)) == Busy(s, t, NextLock, i, r, s.stmts[i], None);
    hide Next, Enabled, Busy;
    FinishNext(s, t, i, r, s.stmts[i], row);
  }

  lemma FinishNext(s: State, t: nat, i: nat, r: nat, st: Stmt, row: bool)
    requires t < |s.threads| && i < |s.stmts| && r < |s.rows| && !s.fault && st.mu == None
    requires !st.closed ==> st.finalized == 0
    ensures Finish(Busy(s, t, NextLock, i, r, st, None), t, row) == Some(Back(s, t, i, r,
      if st.closed then st
      else st.(stepped := st.stepped + 1, resets := st.resets + if row then 0 else 1)))
  {
    hide Finish, Busy, To, With;
    var held := st.(mu := Some(t));
    NextLocks(s, t, i, r, st, row);
    if st.closed {
      NextUnlocks(s, t, i, r, held, row);
      BusyIdle(s, t, i, r, st, None, row);
    } else {
      Steps(s, t, i, r, held, row);
      var stepped := held.(stepped := held.stepped + 1);
      NextUnlocks(s, t, i, r, if row then stepped else stepped.(resets := stepped.resets + 1), row);
      BusyIdle(s, t, i, r, st.(stepped := st.stepped + 1, resets := st.resets + if row then 0 else 1), None, row);
    }
  }

  lemma NextLocks(s: State, t: nat, i: nat, r: nat, st: Stmt, row: bool)
    requires t < |s.threads| && i < |s.stmts| && r < |s.rows| && !s.fault && st.mu == None
    ensures Finish(Busy(s, t, NextLock, i, r, st, None), t, row)
         == Finish(Busy(s, t, if st.closed then NextUnlock else NextStep, i, r, st.(mu := Some(t)), None), t, row)
  {
    hide Finish;
    var held := st.(mu := Some(t));
    WithBusy(s, t, NextLock, i, r, st, None, held);
    BusyStep(s, t, NextLock, i, r, st, None, row, NextCheck, held, None);
    BusyStep(s, t, NextCheck, i, r, held, None, row, if st.closed then NextUnlock else NextStep, held, None);
  }

  lemma Steps(s: State, t: nat, i: nat, r: nat, st: Stmt, row: bool)
    requires t < |s.threads| && i < |s.stmts| && r < |s.rows| && !s.fault && st.finalized == 0
    ensures var stepped := st.(stepped := st.stepped + 1);
      Finish(Busy(s, t, NextStep, i, r, st, None), t, row)
      == Finish(Busy(s, t, NextUnlock, i, r,
                     if row then stepped else stepped.(resets := stepped.resets + 1), None), t, row)
  {
    hide Finish;
    var stepped := st.(stepped := st.stepped + 1);
    WithBusy(s, t, NextStep, i, r, st, None, stepped);
    BusyStep(s, t, NextStep, i, r, st, None, row, if row then NextUnlock else NextReset, stepped, None);
    if !row {
      var reset := stepped.(resets := stepped.resets + 1);
      WithBusy(s, t, NextReset, i, r, stepped, None, reset);
      BusyStep(s, t, NextReset, i, r, stepped, None, row, NextUnlock, reset, None);
    }
  }

  lemma NextUnlocks(s: State, t: nat, i: nat, r: nat, st: Stmt, row: bool)
    requires t < |s.threads| && i < |s.stmts| && r < |s.rows| && !s.fault
    ensures Finish(Busy(s, t, NextUnlock, i, r, st, None), t, row)
         == Finish(Busy(s, t, Idle, i, r, st.(mu := None), None), t, row)
  {
    hide Finish;
    WithBusy(s, t, NextUnlock, i, r, st, None, st.(mu := None));
    BusyStep(s, t, NextUnlock, i, r, st, None, row, Idle, st.(mu := None), None);
  }

  /** Conn.Close sets `db` to nil and touches no statement. */
  lemma ConnCloseAlone(s: State, t: nat, row: bool)
    requires AtRest(s) && t < |s.threads|
    ensures Finish(Next(s, CallConnClose(t)), t, row)
         == Some(s.(threads := s.threads[t := Thread(Idle, 0, 0)], dbOpen := false))
  {
    var u := Next(s, CallConnClose(t));
    hide Rank;
    Unnative(s, t, row);
    hide Finish;
    Relocks(s, t, row);
  }

  /** `s` with thread t at a point of Conn.Close. */
  function Shut(s: State, t: nat, p: Point, connMu: Option<nat>, dbOpen: bool): State
    requires t < |s.threads|
  {
    s.(threads := s.threads[t := Thread(p, 0, 0)], connMu := connMu, dbOpen := dbOpen)
  }

  lemma ShutStep(
    s: State, t: nat, p: Point, connMu: Option<nat>, dbOpen: bool, row: bool,
    q: Point, connMu': Option<nat>, dbOpen': bool)
    requires t < |s.threads| && !p.Idle? && !UsesStmt(p) && (WaitsForConn(p) ==> connMu == None)
    requires Next(Shut(s, t, p, connMu, dbOpen), Go(t, row)) == To(Shut(s, t, p, connMu', dbOpen'), t, q)
    ensures Finish(Shut(s, t, p, connMu, dbOpen), t, row) == Finish(Shut(s, t, q, connMu', dbOpen'), t, row)
  {
    var b := Shut(s, t, p, connMu, dbOpen);
    assert s.threads[t := Thread(p, 0, 0)][t := Thread(q, 0, 0)] == s.threads[t := Thread(q, 0, 0)];
    assert To(Shut(s, t, p, connMu', dbOpen'), t, q) == Shut(s, t, q, connMu', dbOpen');
    assert Enabled(b, Go(t, row)) && !b.threads[t].at.Idle?;
    hide Next, Rank, Enabled, To, Shut;
  }

  lemma Unnative(s: State, t: nat, row: bool)
    requires AtRest(s) && t < |s.threads|
    ensures Finish(Next(s, CallConnClose(t)), t, row) == Finish(Shut(s, t, ConnLock, None, s.dbOpen), t, row)
  {
    assert Next(s, CallConnClose(t)) == Shut(s, t, ConnNative, None, s.dbOpen);
    ShutStep(s, t, ConnNative, None, s.dbOpen, row, ConnLock, None, s.dbOpen);
  }

  lemma Relocks(s: State, t: nat, row: bool)
    requires t < |s.threads| && s.connMu == None
    ensures Finish(Shut(s, t, ConnLock, None, s.dbOpen), t, row) == Some(Shut(s, t, Idle, None, false))
  {
    ShutStep(s, t, ConnLock, None, s.dbOpen, row, ConnSetNil, Some(t), s.dbOpen);
    ShutStep(s, t, ConnSetNil, Some(t), s.dbOpen, row, ConnUnlock, Some(t), false);
    ShutStep(s, t, ConnUnlock, Some(t), false, row, Idle, None, false);
    assert Finish(Shut(s, t, Idle, None, false), t, row) == Some(Shut(s, t, Idle, None, false));
  }

  // ---- Why a statement is closed ----

  /** The calls that close statement `i`: its own Close, and the Close of rows that own it. */
  predicate Asks(start: State, a: Action, i: nat) {
    || (a.CallStmtClose? && a.s == i)
    || (a.CallRowsClose? && a.r < |start.rows| && start.rows[a.r].stmt == i && start.rows[a.r].cls)
  }

  predicate Asked(start: State, steps: seq<Action>, i: nat) {
    exists k :: 0 <= k < |steps| && Asks(start, steps[k], i)
  }

  /** Rows stay with their statement, and keep or give up owning it never. */
  predicate SameRows(start: State, s: State) {
    && |s.rows| == |start.rows|
    && forall r :: 0 <= r < |s.rows| ==> s.rows[r].stmt == start.rows[r].stmt && s.rows[r].cls == start.rows[r].cls
  }

  /** A thread inside Stmt.Close was asked to close; one inside Rows.Close was called for its rows. */
  predicate ThreadAsked(start: State, steps: seq<Action>, s: State, th: Thread) {
    && (InStmtClose(th.at) ==> Asked(start, steps, th.s))
    && (InRowsClose(th.at) ==>
          && th.r < |s.rows| && s.rows[th.r].stmt == th.s
          && (s.rows[th.r].cls ==> Asked(start, steps, th.s))
          && (th.at.RowsHandOver? ==> s.rows[th.r].cls))
  }

  ghost predicate Causes(start: State, steps: seq<Action>, s: State) {
    && SameRows(start, s)
    && (forall t :: 0 <= t < |s.threads| ==> ThreadAsked(start, steps, s, s.threads[t]))
    && (forall i :: 0 <= i < |s.stmts| && s.stmts[i].closed ==> Asked(start, steps, i))
  }

  lemma AskedMore(start: State, steps: seq<Action>, a: Action, i: nat)
    ensures Asked(start, steps, i) || Asks(start, a, i) ==> Asked(start, steps + [a], i)
  {
    if Asked(start, steps, i) {
      var k :| 0 <= k < |steps| && Asks(start, steps[k], i);
      assert (steps + [a])[k] == steps[k];
    }
    if Asks(start, a, i) {
      assert (steps + [a])[|steps|] == a;
    }
  }

  lemma ThreadAskedMore(start: State, steps: seq<Action>, a: Action, s: State, u: State, th: Thread)
    requires ThreadAsked(start, steps, s, th) && SameRows(start, s) && SameRows(start, u)
    ensures ThreadAsked(start, steps + [a], u, th)
  {
    hide Asked;
    AskedMore(start, steps, a, th.s);
  }

  /** What a step may change, as far as closing is concerned. */
  predicate ClosesOnly(s: State, u: State, t: nat, i: nat) {
    && |u.threads| == |s.threads| && |u.stmts| == |s.stmts|
    && (forall k :: 0 <= k < |s.threads| && k != t ==> u.threads[k] == s.threads[k])
    && (forall k :: 0 <= k < |s.stmts| && u.stmts[k].closed ==> s.stmts[k].closed || k == i)
  }

  lemma CauseStep(start: State, steps: seq<Action>, s: State, a: Action, u: State, t: nat, i: nat)
    requires Causes(start, steps, s) && t < |s.threads| && ClosesOnly(s, u, t, i) && SameRows(start, u)
    requires ThreadAsked(start, steps + [a], u, u.threads[t])
    requires i < |s.stmts| && u.stmts[i].closed ==> s.stmts[i].closed || Asked(start, steps, i)
    ensures Causes(start, steps + [a], u)
  {
    hide Asked, ThreadAsked, SameRows, Asks;
    forall k | 0 <= k < |u.threads| ensures ThreadAsked(start, steps + [a], u, u.threads[k]) {
      if k != t {
        ThreadAskedMore(start, steps, a, s, u, s.threads[k]);
      }
    }
    forall k | 0 <= k < |u.stmts| && u.stmts[k].closed ensures Asked(start, steps + [a], k) {
      AskedMore(start, steps, a, k);
    }
  }

  lemma CallCauses(start: State, steps: seq<Action>, s: State, a: Action)
    requires Causes(start, steps, s) && Enabled(s, a) && !a.Go?
    ensures Causes(start, steps + [a], Next(s, a))
  {
    hide Asked;
    var u := Next(s, a);
    AskedMore(start, steps, a, u.threads[a.t].s);
    CauseStep(start, steps, s, a, u, a.t, |s.stmts|);
  }

  lemma ConnCauses(start: State, steps: seq<Action>, s: State, a: Action)
    requires Causes(start, steps, s) && Enabled(s, a) && a.Go? && !UsesStmt(s.threads[a.t].at)
    ensures Causes(start, steps + [a], Next(s, a))
  {
    hide Asked;
    CauseStep(start, steps, s, a, Next(s, a), a.t, |s.stmts|);
  }

  lemma StmtCloseCauses(start: State, steps: seq<Action>, s: State, a: Action)
    requires Causes(start, steps, s) && Enabled(s, a) && a.Go? && InStmtClose(s.threads[a.t].at)
    ensures Causes(start, steps + [a], Next(s, a))
  {
    var th := s.threads[a.t];
    assert ThreadAsked(start, steps, s, th);
    hide Asked, Causes;
    var u := Next(s, a);
    AskedMore(start, steps, a, th.s);
    assert SameRows(start, s) by { CausesRows(start, steps, s); }
    CauseStep(start, steps, s, a, u, a.t, th.s);
  }

  lemma CausesRows(start: State, steps: seq<Action>, s: State)
    requires Causes(start, steps, s)
    ensures SameRows(start, s)
  {
  }

  lemma RowsCloseCauses(start: State, steps: seq<Action>, s: State, a: Action)
    requires Causes(start, steps, s) && Enabled(s, a) && a.Go? && InRowsClose(s.threads[a.t].at)
    ensures Causes(start, steps + [a], Next(s, a))
  {
    var th := s.threads[a.t];
    assert ThreadAsked(start, steps, s, th);
    hide Asked, Causes;
    var u := Next(s, a);
    AskedMore(start, steps, a, th.s);
    assert SameRows(start, s) by { CausesRows(start, steps, s); }
    CauseStep(start, steps, s, a, u, a.t, th.s);
  }

  lemma NextCauses(start: State, steps: seq<Action>, s: State, a: Action)
    requires Causes(start, steps, s) && Enabled(s, a) && a.Go? && InNext(s.threads[a.t].at)
    ensures Causes(start, steps + [a], Next(s, a))
  {
    var th := s.threads[a.t];
    hide Asked, Causes;
    assert SameRows(start, s) by { CausesRows(start, steps, s); }
    CauseStep(start, steps, s, a, Next(s, a), a.t, th.s);
  }

  lemma {:induction false} RunCauses(start: State, steps: seq<Action>)
    requires Initial(start) && Run(start, steps).Some?
    ensures Causes(start, steps, Run(start, steps).value)
  {
    if steps != [] {
      hide Causes, Next, Enabled, Initial;
      var n := |steps| - 1;
      RunCauses(start, steps[..n]);
      var s, a := Run(start, steps[..n]).value, steps[n];
      assert steps[..n] + [a] == steps;
      assert a.t < |s.threads| by { InRange(s, a); }
      if !a.Go? {
        CallCauses(start, steps[..n], s, a);
      } else if !UsesStmt(s.threads[a.t].at) {
        ConnCauses(start, steps[..n], s, a);
      } else if InStmtClose(s.threads[a.t].at) {
        StmtCloseCauses(start, steps[..n], s, a);
      } else if InRowsClose(s.threads[a.t].at) {
        RowsCloseCauses(start, steps[..n], s, a);
      } else {
        NextCauses(start, steps[..n], s, a);
      }
    }
  }

  lemma InRange(s: State, a: Action)
    requires Enabled(s, a)
    ensures a.t < |s.threads|
  {
  }

  /** Over every run: a statement is closed only because its Close was called, or the Close of rows that own it. Rows
      of a prepared statement do not close it. */
  lemma ClosedWasAsked(start: State, steps: seq<Action>, i: nat)
    requires Initial(start) && Run(start, steps).Some? && i < |Run(start, steps).value.stmts|
    requires Run(start, steps).value.stmts[i].closed
    ensures exists k :: 0 <= k < |steps| &&
              (|| (steps[k].CallStmtClose? && steps[k].s == i)
               || (steps[k].CallRowsClose? && steps[k].r < |start.rows|
                   && start.rows[steps[k].r].stmt == i && start.rows[steps[k].r].cls))
  {
    RunCauses(start, steps);
    assert Asked(start, steps, i);
    var k :| 0 <= k < |steps| && Asks(start, steps[k], i);
  }

  // ---- Rows that own their statement close it ----

  /** A thread that has still to close the statement, or to find it closed. */
  predicate WillClose(th: Thread, i: nat) {
    th.s == i && (th.at.RowsHandOver? || th.at.StmtLock? || th.at.StmtCheck?)
  }

  ghost predicate Passed(s: State, i: nat) {
    || (i < |s.stmts| && s.stmts[i].closed)
    || exists t :: 0 <= t < |s.threads| && WillClose(s.threads[t], i)
  }

  ghost predicate AllPassed(s: State) {
    forall r :: 0 <= r < |s.rows| && s.rows[r].closed && s.rows[r].cls ==> Passed(s, s.rows[r].stmt)
  }

  /** What is on its way to being closed stays so, whoever moves. */
  lemma PassedStays(s: State, u: State, t: nat, i: nat)
    requires Passed(s, i) && t < |s.threads| == |u.threads| && |u.stmts| == |s.stmts|
    requires forall k :: 0 <= k < |s.threads| && k != t ==> u.threads[k] == s.threads[k]
    requires forall k :: 0 <= k < |s.stmts| && s.stmts[k].closed ==> u.stmts[k].closed
    requires WillClose(s.threads[t], i) ==> WillClose(u.threads[t], i) || (i < |u.stmts| && u.stmts[i].closed)
    ensures Passed(u, i)
  {
    if !(i < |s.stmts| && s.stmts[i].closed) {
      var k :| 0 <= k < |s.threads| && WillClose(s.threads[k], i);
      assert k != t ==> WillClose(u.threads[k], i);
      assert k == t ==> WillClose(u.threads[t], i) || (i < |u.stmts| && u.stmts[i].closed);
    }
  }

  /** What a step may change, as far as rows and their statements are concerned. */
  ghost predicate PassOnly(s: State, u: State, t: nat)
    requires t < |s.threads|
  {
    && |u.threads| == |s.threads| && |u.stmts| == |s.stmts| && |u.rows| == |s.rows|
    && (forall k :: 0 <= k < |s.threads| && k != t ==> u.threads[k] == s.threads[k])
    && (forall k :: 0 <= k < |s.stmts| && s.stmts[k].closed ==> u.stmts[k].closed)
    && (forall i: nat :: WillClose(s.threads[t], i) ==>
          WillClose(u.threads[t], i) || (i < |u.stmts| && u.stmts[i].closed))
    && (forall r :: 0 <= r < |s.rows| ==>
          && u.rows[r].stmt == s.rows[r].stmt && u.rows[r].cls == s.rows[r].cls
          && (u.rows[r].closed && !s.rows[r].closed && s.rows[r].cls ==> WillClose(u.threads[t], s.rows[r].stmt)))
  }

  lemma PassStep(s: State, u: State, t: nat)
    requires AllPassed(s) && t < |s.threads| && PassOnly(s, u, t)
    ensures AllPassed(u)
  {
    hide WillClose, Passed;
    forall r | 0 <= r < |u.rows| && u.rows[r].closed && u.rows[r].cls ensures Passed(u, u.rows[r].stmt) {
      if s.rows[r].closed {
        PassedStays(s, u, t, s.rows[r].stmt);
      } else {
        OnItsWay(u, t, s.rows[r].stmt);
      }
    }
  }

  lemma OnItsWay(u: State, t: nat, i: nat)
    requires t < |u.threads| && WillClose(u.threads[t], i)
    ensures Passed(u, i)
  {
  }

  lemma StmtClosePass(s: State, a: Action)
    requires Enabled(s, a) && a.Go? && InStmtClose(s.threads[a.t].at)
    ensures PassOnly(s, Next(s, a), a.t)
  {
  }

  lemma RowsClosePass(s: State, a: Action)
    requires Enabled(s, a) && a.Go? && InRowsClose(s.threads[a.t].at)
    requires s.threads[a.t].r < |s.rows| && s.rows[s.threads[a.t].r].stmt == s.threads[a.t].s
    ensures PassOnly(s, Next(s, a), a.t)
  {
  }

  lemma OtherPass(s: State, a: Action)
    requires Enabled(s, a) && (a.Go? ==> !InStmtClose(s.threads[a.t].at) && !InRowsClose(s.threads[a.t].at))
    ensures PassOnly(s, Next(s, a), a.t)
  {
  }

  lemma OwnRows(start: State, steps: seq<Action>, s: State, t: nat)
    requires Causes(start, steps, s) && t < |s.threads| && InRowsClose(s.threads[t].at)
    ensures s.threads[t].r < |s.rows| && s.rows[s.threads[t].r].stmt == s.threads[t].s
  {
    assert ThreadAsked(start, steps, s, s.threads[t]);
  }

  lemma {:induction false} RunPasses(start: State, steps: seq<Action>)
    requires Initial(start) && Run(start, steps).Some?
    ensures AllPassed(Run(start, steps).value)
  {
    if steps != [] {
      hide AllPassed, Next, Enabled, Initial, PassOnly, Causes;
      var n := |steps| - 1;
      RunPasses(start, steps[..n]);
      RunCauses(start, steps[..n]);
      var s, a := Run(start, steps[..n]).value, steps[n];
      InRange(s, a);
      if a.Go? && InStmtClose(s.threads[a.t].at) {
        StmtClosePass(s, a);
      } else if a.Go? && InRowsClose(s.threads[a.t].at) {
        OwnRows(start, steps[..n], s, a.t);
        RowsClosePass(s, a);
      } else {
        OtherPass(s, a);
      }
      PassStep(s, Next(s, a), a.t);
    }
  }

  /** The converse: when no call is under way, rows that own their statement and are closed have closed it. */
  lemma OwnersClose(start: State, steps: seq<Action>, r: nat)
    requires Initial(start) && Run(start, steps).Some? && AtRest(Run(start, steps).value)
    requires var s := Run(start, steps).value; r < |s.rows| && s.rows[r].closed && s.rows[r].cls
    ensures var s := Run(start, steps).value; s.rows[r].stmt < |s.stmts| && s.stmts[s.rows[r].stmt].closed
  {
    RunPasses(start, steps);
    assert Passed(Run(start, steps).value, Run(start, steps).value.rows[r].stmt);
  }
}
