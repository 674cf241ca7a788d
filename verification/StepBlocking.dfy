/** The retry loops of `sqlite3_opt_unlock_notify.c`. SQLite's answers are a script, one entry for each
    turn of a loop; a loop that is still blocked when the script ends has not returned. */
module StepBlocking {
  import opened Text
  import opened Codes
  import opened UnlockTable

  /** Result of the call, extended error code after it, and what a wait would return. */
  datatype Round = Round(step: int, extended: int, wait: int) {
    predicate Blocked() {
      step == LOCKED && extended == LOCKED_SHAREDCACHE
    }

    predicate Retries() {
      Blocked() && wait == OK
    }

    /** The code returned by a turn that ends the loop. */
    function Code(): int {
      if Blocked() then wait else step
    }
  }

  datatype Event = Step(rc: int) | Waited(rc: int) | Reset

  /** What a turn that ends the loop leaves in the log. */
  function LastEvents(r: Round): seq<Event> {
    if r.Blocked() then [Step(LOCKED), Waited(r.wait)] else [Step(r.step)]
  }

  /** The log of `n` turns that each went on: step, one successful wait, one reset. */
  predicate RetryLog(log: seq<Event>, n: nat) {
    && |log| == 3 * n
    && forall k :: 0 <= k < n ==>
      log[3 * k] == Step(LOCKED) && log[3 * k + 1] == Waited(OK) && log[3 * k + 2] == Reset
  }

  /** The outcome of a loop: it went on through `turns` turns, or returned at the last of them. */
  predicate Returned(env: seq<Round>, rv: Option<int>, turns: nat, log: seq<Event>) {
    && turns <= |env|
    && (rv.None? ==> turns == |env| && RetryLog(log, turns) && forall k :: 0 <= k < turns ==> env[k].Retries())
    && (rv.Some? ==>
          && 0 < turns
          && (forall k :: 0 <= k < turns - 1 ==> env[k].Retries())
          && !env[turns - 1].Retries() && rv.value == env[turns - 1].Code()
          && |log| >= 3 * (turns - 1) && RetryLog(log[..3 * (turns - 1)], turns - 1)
          && log[3 * (turns - 1)..] == LastEvents(env[turns - 1]))
  }

  /** `_sqlite3_step_blocking`. If it returns, all turns before the last went on and the code is the last
      step's own result, not a shared-cache lock, or the code of the wait that failed. */
  method Blocking(t: Table, env: seq<Round>) returns (rv: Option<int>, turns: nat, log: seq<Event>)
    requires t.Valid()
    modifies t
    ensures t.Valid() && t.table == old(t.table)
    ensures Returned(env, rv, turns, log)
    ensures turns <= |env| && forall k :: 0 <= k < turns - 1 ==>
              env[k].step == LOCKED && env[k].extended == LOCKED_SHAREDCACHE && env[k].wait == OK
    ensures rv.Some? ==> turns > 0 && var last := env[turns - 1];
              if last.step == LOCKED && last.extended == LOCKED_SHAREDCACHE
              then last.wait != OK && rv.value == last.wait else rv.value == last.step
    ensures forall k :: 0 <= k < turns - 1 ==>
              && 3 * k + 2 < |log|
              && log[3 * k] == Step(LOCKED) && log[3 * k + 1] == Waited(OK) && log[3 * k + 2] == Reset
    ensures rv.Some? ==> 3 * (turns - 1) < |log| && log[3 * (turns - 1)] == Step(env[turns - 1].step)
    ensures t.seqnum == old(t.seqnum) + turns - if rv.Some? && turns > 0 && !env[turns - 1].Blocked() then 1 else 0
  {
    log, turns := [], 0;
    while turns < |env|
      invariant turns <= |env| && RetryLog(log, turns)
      invariant forall k :: 0 <= k < turns ==> env[k].Retries()
      invariant t.Valid() && t.table == old(t.table) && t.seqnum == old(t.seqnum) + turns
    {
      var r := env[turns];
      ghost var before := log;
      log := log + [Step(r.step)];
      if r.step != LOCKED || r.extended != LOCKED_SHAREDCACHE {
        assert log[..3 * turns] == before;
        return Some(r.step), turns + 1, log;
      }
      var rc := Wait(t, r.wait);
      log := log + [Waited(rc)];
      if rc != OK {
        assert log[..3 * turns] == before;
        return Some(rc), turns + 1, log;
      }
      log := log + [Reset];
      turns := turns + 1;
    }
    rv := None;
  }

  /** `_sqlite3_step_row_blocking`: the same loop, and both out-parameters written on every return. */
  method RowBlocking(t: Table, env: seq<Round>, lastRowid: int, changed: int)
    returns (rv: Option<int>, rowid: Option<int>, changes: Option<int>, turns: nat, log: seq<Event>)
    requires t.Valid()
    modifies t
    ensures t.Valid() && t.table == old(t.table)
    ensures Returned(env, rv, turns, log)
    ensures rv.Some? ==> 0 < turns <= |env| && var last := env[turns - 1];
              if last.step == LOCKED && last.extended == LOCKED_SHAREDCACHE
              then last.wait != OK && rv.value == last.wait else rv.value == last.step
    ensures rv.Some? ==> rowid == Some(lastRowid) && changes == Some(changed)
  {
    rowid, changes := None, None;
    rv, turns, log := Blocking(t, env);
    if rv.Some? {
      rowid, changes := Some(lastRowid), Some(changed);
    }
  }

  /** `_sqlite3_prepare_v2_blocking`: as above, but there is no statement to reset between two turns. */
  method PrepareBlocking(t: Table, env: seq<Round>) returns (rv: Option<int>, turns: nat)
    requires t.Valid()
    modifies t
    ensures t.Valid() && t.table == old(t.table)
    ensures turns <= |env| && forall k :: 0 <= k < turns - 1 ==> env[k].Retries()
    ensures t.seqnum == old(t.seqnum) + turns - if rv.Some? && turns > 0 && !env[turns - 1].Blocked() then 1 else 0
    ensures rv.None? ==> turns == |env| && forall k :: 0 <= k < turns ==> env[k].Retries()
    ensures rv.Some? ==> 0 < turns <= |env| && !env[turns - 1].Retries() && rv.value == env[turns - 1].Code()
    ensures forall k :: 0 <= k < turns - 1 ==>
              env[k].step == LOCKED && env[k].extended == LOCKED_SHAREDCACHE && env[k].wait == OK
    ensures rv.Some? ==> var last := env[turns - 1];
              if last.step == LOCKED && last.extended == LOCKED_SHAREDCACHE
              then last.wait != OK && rv.value == last.wait else rv.value == last.step
  {
    turns := 0;
    while turns < |env|
      invariant turns <= |env| && forall k :: 0 <= k < turns ==> env[k].Retries()
      invariant t.Valid() && t.table == old(t.table) && t.seqnum == old(t.seqnum) + turns
    {
      var r := env[turns];
      turns := turns + 1;
      if r.step != LOCKED || r.extended != LOCKED_SHAREDCACHE {
        return Some(r.step), turns;
      }
      var rc := Wait(t, r.wait);
      if rc != OK {
        return Some(rc), turns;
      }
    }
    rv := None;
  }
}
