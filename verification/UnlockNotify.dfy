/** The unlock-notify protocol: any number of calls of `unlock_notify_wait`, interleaved step by step with
    the callbacks SQLite makes. SQLite is the environment: it rejects or accepts a registration, and it
    fires each accepted one at most once, alone or in a batch, possibly before the registering call has
    returned. */
module UnlockNotify {
  import opened Text
  import opened Codes

  datatype Pc =
    | Added                 // channel made, handle in the table
    | Ready                 // argument block filled
    | Registering           // accepted, still inside sqlite3_unlock_notify
    | Receiving             // at the channel receive
    | Unwinding(rc: int)    // running the deferred calls: free,
    | Freed(rc: int)        // remove,
    | Removed(rc: int)      // close
    | Returned(rc: int)

  /** One call of `unlock_notify_wait`: its program counter, handle, channel and argument block. */
  datatype Call = Call(pc: Pc, handle: nat, buf: nat, closed: bool, block: bool) {
    predicate InTable() {
      !pc.Removed? && !pc.Returned?
    }

    predicate Accepted() {
      pc.Registering? || pc.Receiving?
    }
  }

  /** A running callback: the calls whose blocks it has still to serve, and whether it holds the channel
      of the first of them. */
  datatype Batch = Batch(todo: seq<nat>, fetched: bool)

  /** Calls are numbered in the order they began. `fired` remembers the registrations SQLite fired. */
  datatype State = State(
    seqnum: nat,
    table: map<nat, nat>,
    calls: seq<Call>,
    registered: set<nat>,
    batches: seq<Batch>,
    fired: set<nat>,
    panicked: bool)

  const INIT := State(0, map[], [], {}, [], {}, false)

  datatype Action =
    | Begin
    | Fill(w: nat)
    | Reject(w: nat, rc: int)
    | Accept(w: nat)
    | Return(w: nat)
    | Fire(ws: seq<nat>)
    | Fetch(b: nat)
    | Send(b: nat)
    | Receive(w: nat)
    | Free(w: nat)
    | Remove(w: nat)
    | Close(w: nat)

  predicate At(s: State, w: nat, pc: Pc) {
    w < |s.calls| && s.calls[w].pc == pc
  }

  predicate NoDup(ws: seq<nat>) {
    forall i, j :: 0 <= i < j < |ws| ==> ws[i] != ws[j]
  }

  /** When a step can be taken. A send on an open full channel blocks. */
  predicate Enabled(s: State, a: Action) {
    match a
    case Begin => true
    case Fill(w) => At(s, w, Added)
    case Reject(w, rc) => At(s, w, Ready) && rc != OK
    case Accept(w) => At(s, w, Ready)
    case Return(w) => At(s, w, Registering)
    case Fire(ws) => ws != [] && NoDup(ws) && forall i :: 0 <= i < |ws| ==> ws[i] in s.registered
    case Fetch(b) => b < |s.batches| && s.batches[b].todo != [] && !s.batches[b].fetched
    case Send(b) =>
      && b < |s.batches| && s.batches[b].todo != [] && s.batches[b].fetched
      && s.batches[b].todo[0] < |s.calls|
      && (s.calls[s.batches[b].todo[0]].closed || s.calls[s.batches[b].todo[0]].buf == 0)
    case Receive(w) => At(s, w, Receiving) && s.calls[w].buf > 0
    case Free(w) => w < |s.calls| && s.calls[w].pc.Unwinding?
    case Remove(w) => w < |s.calls| && s.calls[w].pc.Freed?
    case Close(w) => w < |s.calls| && s.calls[w].pc.Removed?
  }

  function SetCall(s: State, w: nat, c: Call): State
    requires w < |s.calls|
  {
    s.(calls := s.calls[w := c])
  }

  function SetOf(ws: seq<nat>): set<nat> {
    set i | 0 <= i < |ws| :: ws[i]
  }

  /** One step. A missing table entry, a freed argument block or a closed channel is a panic. */
  function Next(s: State, a: Action): State
    requires Enabled(s, a)
  {
    match a
    case Begin =>
      s.(seqnum := s.seqnum + 1,
         table := s.table[s.seqnum := |s.calls|],
         calls := s.calls + [Call(Added, s.seqnum, 0, false, false)])
    case Fill(w) => SetCall(s, w, s.calls[w].(pc := Ready, block := true))
    case Reject(w, rc) => SetCall(s, w, s.calls[w].(pc := Unwinding(rc)))
    case Accept(w) => SetCall(s, w, s.calls[w].(pc := Registering)).(registered := s.registered + {w})
    case Return(w) => SetCall(s, w, s.calls[w].(pc := Receiving))
    case Fire(ws) =>
      s.(registered := s.registered - SetOf(ws), fired := s.fired + SetOf(ws),
         batches := s.batches + [Batch(ws, false)])
    case Fetch(b) =>
      var w := s.batches[b].todo[0];
      var lost :=
        || w >= |s.calls| || !s.calls[w].block
        || s.calls[w].handle !in s.table || s.table[s.calls[w].handle] != w;
      s.(batches := s.batches[b := s.batches[b].(fetched := true)], panicked := s.panicked || lost)
    case Send(b) =>
      var w := s.batches[b].todo[0];
      var c := s.calls[w];
      SetCall(s, w, c.(buf := c.buf + 1))
        .(batches := s.batches[b := Batch(s.batches[b].todo[1..], false)], panicked := s.panicked || c.closed)
    case Receive(w) => SetCall(s, w, s.calls[w].(pc := Unwinding(OK), buf := s.calls[w].buf - 1))
    case Free(w) => SetCall(s, w, s.calls[w].(pc := Freed(s.calls[w].pc.rc), block := false))
    case Remove(w) =>
      SetCall(s, w, s.calls[w].(pc := Removed(s.calls[w].pc.rc))).(table := s.table - {s.calls[w].handle})
    case Close(w) => SetCall(s, w, s.calls[w].(pc := Returned(s.calls[w].pc.rc), closed := true))
  }

  // ---- The invariant ----

  /** The call's wake-up is still owed by a running callback. */
  ghost predicate InFlight(s: State, w: nat) {
    exists b :: 0 <= b < |s.batches| && w in s.batches[b].todo
  }

  /** The table holds exactly the calls between `add` and `remove`, each under its own handle. */
  ghost predicate TableInv(s: State) {
    && (forall w :: 0 <= w < |s.calls| ==> s.calls[w].handle < s.seqnum)
    && (forall w :: 0 <= w < |s.calls| && s.calls[w].InTable() ==>
          s.calls[w].handle in s.table && s.table[s.calls[w].handle] == w)
    && (forall h :: h in s.table ==>
          s.table[h] < |s.calls| && s.calls[s.table[h]].InTable() && s.calls[s.table[h]].handle == h)
  }

  /** The argument block lives from `fill` to `free`; the channel is open until the call returns. */
  predicate CallOk(c: Call) {
    && (c.block <==> c.pc.Ready? || c.Accepted() || c.pc.Unwinding?)
    && (c.closed <==> c.pc.Returned?)
    && c.buf <= 1
    && (c.buf == 1 ==> c.Accepted())
  }

  /** Where the single wake-up of each call is: not fired, owed by a callback, in the channel, or taken. */
  ghost predicate WakeInv(s: State, w: nat)
    requires w < |s.calls|
  {
    var c := s.calls[w];
    && (w in s.registered ==> c.Accepted() && w !in s.fired)
    && (InFlight(s, w) ==> c.Accepted() && w in s.fired && c.buf == 0)
    && (c.buf == 1 ==> w in s.fired)
    && (c.Accepted() ==> w in s.registered || InFlight(s, w) || c.buf == 1)
    && (c.pc.Added? || c.pc.Ready? ==> w !in s.fired)
    && (c.pc.Unwinding? || c.pc.Freed? || c.pc.Removed? || c.pc.Returned? ==> (c.pc.rc == OK <==> w in s.fired))
  }

  ghost predicate BatchInv(s: State) {
    && (forall b :: 0 <= b < |s.batches| ==>
          NoDup(s.batches[b].todo) && (s.batches[b].fetched ==> s.batches[b].todo != []))
    && (forall b, w :: 0 <= b < |s.batches| && w in s.batches[b].todo ==> w < |s.calls|)
    && (forall b, b', w :: 0 <= b < b' < |s.batches| && w in s.batches[b].todo ==> w !in s.batches[b'].todo)
  }

  ghost predicate Inv(s: State) {
    && !s.panicked
    && TableInv(s)
    && (forall w :: 0 <= w < |s.calls| ==> CallOk(s.calls[w]) && WakeInv(s, w))
    && BatchInv(s)
    && (forall w :: w in s.registered ==> w < |s.calls|)
    && (forall w :: w in s.fired ==> w < |s.calls|)
  }

  /** A step of one call that leaves batches, registrations and its place in the table alone. */
  lemma LocalStep(s: State, w: nat, c: Call)
    requires Inv(s) && w < |s.calls|
    requires c.handle == s.calls[w].handle && c.InTable() == s.calls[w].InTable() && CallOk(c)
    requires InFlight(s, w) == InFlight(SetCall(s, w, c), w) ==> WakeInv(SetCall(s, w, c), w)
    ensures Inv(SetCall(s, w, c))
  {
    var t := SetCall(s, w, c);
    forall v | 0 <= v < |t.calls| ensures CallOk(t.calls[v]) && WakeInv(t, v) {
      assert InFlight(s, v) == InFlight(t, v);
      assert WakeInv(s, v);
    }
  }

  lemma BeginStep(s: State)
    requires Inv(s)
    ensures s.seqnum !in s.table && Inv(Next(s, Begin))
  {
    var t := Next(s, Begin);
    forall v | 0 <= v < |t.calls| ensures CallOk(t.calls[v]) && WakeInv(t, v) {
      assert InFlight(s, v) == InFlight(t, v);
      assert v < |s.calls| ==> WakeInv(s, v);
    }
  }

  lemma AcceptStep(s: State, w: nat)
    requires Inv(s) && Enabled(s, Accept(w))
    ensures Inv(Next(s, Accept(w)))
  {
    var t := Next(s, Accept(w));
    forall v | 0 <= v < |t.calls| ensures CallOk(t.calls[v]) && WakeInv(t, v) {
      assert InFlight(s, v) == InFlight(t, v);
      assert WakeInv(s, v);
    }
  }

  lemma FireStep(s: State, ws: seq<nat>)
    requires Inv(s) && Enabled(s, Fire(ws))
    ensures Inv(Next(s, Fire(ws)))
  {
    var t := Next(s, Fire(ws));
    var n := |s.batches|;
    assert forall w :: w in ws <==> w in SetOf(ws);
    assert forall b :: 0 <= b < n ==> t.batches[b] == s.batches[b];
    forall w | w in ws ensures w in s.registered && w < |s.calls| && !InFlight(s, w) {
      assert WakeInv(s, w);
    }
    forall v | 0 <= v < |t.calls| ensures CallOk(t.calls[v]) && WakeInv(t, v) {
      assert WakeInv(s, v);
      assert InFlight(t, v) <==> InFlight(s, v) || v in ws by {
        if v in ws {
          assert v in t.batches[n].todo;
        }
        if InFlight(s, v) {
          var b :| 0 <= b < n && v in s.batches[b].todo;
          assert v in t.batches[b].todo;
        }
      }
    }
    assert forall b, w :: 0 <= b < n && w in s.batches[b].todo ==> InFlight(s, w);
  }

  lemma FetchStep(s: State, b: nat)
    requires Inv(s) && Enabled(s, Fetch(b))
    ensures Inv(Next(s, Fetch(b)))
  {
    var t := Next(s, Fetch(b));
    var w := s.batches[b].todo[0];
    assert w in s.batches[b].todo && InFlight(s, w) && WakeInv(s, w) && CallOk(s.calls[w]);
    assert forall i :: 0 <= i < |t.batches| ==> t.batches[i].todo == s.batches[i].todo;
    forall v | 0 <= v < |t.calls| ensures CallOk(t.calls[v]) && WakeInv(t, v) {
      assert WakeInv(s, v);
      assert InFlight(s, v) == InFlight(t, v);
    }
  }

  /** The callback about to send finds an open, empty channel. */
  lemma SendReady(s: State, b: nat)
    requires Inv(s) && b < |s.batches| && s.batches[b].fetched
    ensures var todo := s.batches[b].todo;
      && todo != [] && todo[0] < |s.calls|
      && s.calls[todo[0]].buf == 0 && !s.calls[todo[0]].closed && s.calls[todo[0]].Accepted()
  {
    var w := s.batches[b].todo[0];
    assert w in s.batches[b].todo && InFlight(s, w) && WakeInv(s, w) && CallOk(s.calls[w]);
  }

  lemma SendStep(s: State, b: nat)
    requires Inv(s) && Enabled(s, Send(b))
    ensures Inv(Next(s, Send(b)))
  {
    SendReady(s, b);
    var t := Next(s, Send(b));
    var todo := s.batches[b].todo;
    var w := todo[0];
    assert t.batches[b].todo == todo[1..];
    assert NoDup(todo[1..]) && w !in todo[1..];
    assert forall v :: v in todo <==> v == w || v in todo[1..];
    assert forall i :: 0 <= i < |s.batches| && i != b ==> t.batches[i] == s.batches[i];
    forall v | 0 <= v < |t.calls| ensures CallOk(t.calls[v]) && WakeInv(t, v) {
      assert WakeInv(s, v);
      if v == w {
        assert InFlight(s, w) by { assert w in s.batches[b].todo; }
        assert !InFlight(t, w);
      } else {
        assert InFlight(s, v) <==> InFlight(t, v) by {
          if InFlight(s, v) {
            var i :| 0 <= i < |s.batches| && v in s.batches[i].todo;
            assert v in t.batches[i].todo;
          }
          if InFlight(t, v) {
            var i :| 0 <= i < |t.batches| && v in t.batches[i].todo;
            assert v in s.batches[i].todo;
          }
        }
      }
    }
  }

  lemma RemoveStep(s: State, w: nat)
    requires Inv(s) && Enabled(s, Remove(w))
    ensures Inv(Next(s, Remove(w)))
  {
    var t := Next(s, Remove(w));
    forall v | 0 <= v < |t.calls| ensures CallOk(t.calls[v]) && WakeInv(t, v) {
      assert WakeInv(s, v);
      assert InFlight(s, v) == InFlight(t, v);
    }
  }

  /** Every step of every participant keeps the invariant. */
  lemma StepKeepsInv(s: State, a: Action)
    requires Inv(s) && Enabled(s, a)
    ensures Inv(Next(s, a))
  {
    hide Inv, InFlight;
    match a
    case Begin => BeginStep(s);
    case Accept(w) => AcceptStep(s, w);
    case Fire(ws) => FireStep(s, ws);
    case Fetch(b) => FetchStep(s, b);
    case Send(b) => SendStep(s, b);
    case Remove(w) => RemoveStep(s, w);
    case _ => PlainStep(s, a);
  }

  lemma PlainStep(s: State, a: Action)
    requires Inv(s) && Enabled(s, a)
    requires a.Fill? || a.Reject? || a.Return? || a.Receive? || a.Free? || a.Close?
    ensures Inv(Next(s, a))
  {
    var w := a.w;
    assert WakeInv(s, w) && CallOk(s.calls[w]);
    LocalStep(s, w, Next(s, a).calls[w]);
  }

  // ---- Whole runs ----

  /** The state after a sequence of steps, if each could be taken. */
  function Run(steps: seq<Action>): Option<State> {
    if steps == [] then Some(INIT)
    else
      var n := |steps| - 1;
      var before := Run(steps[..n]);
      if before.Some? && Enabled(before.value, steps[n]) then Some(Next(before.value, steps[n])) else None
  }

  lemma {:induction false} RunKeepsInv(steps: seq<Action>)
    requires Run(steps).Some?
    ensures Inv(Run(steps).value)
  {
    hide Inv, Next;
    if steps == [] {
      InitInv();
    } else {
      var n := |steps| - 1;
      RunKeepsInv(steps[..n]);
      StepKeepsInv(Run(steps[..n]).value, steps[n]);
    }
  }

  lemma InitInv()
    ensures Inv(INIT)
  {
  }

  /** In every interleaving: no panic; `add` meets no live entry under its number; the table holds exactly
      the calls between `add` and `remove`; a callback about to send finds an open and empty channel. */
  lemma Safety(steps: seq<Action>)
    requires Run(steps).Some?
    ensures var s := Run(steps).value;
      && !s.panicked
      && s.seqnum !in s.table
      && (forall h :: h in s.table ==>
            s.table[h] < |s.calls| && s.calls[s.table[h]].InTable() && s.calls[s.table[h]].handle == h)
      && (forall w :: 0 <= w < |s.calls| && s.calls[w].InTable() ==>
            s.calls[w].handle in s.table && s.table[s.calls[w].handle] == w)
      && (forall b :: 0 <= b < |s.batches| && s.batches[b].fetched ==>
            && s.batches[b].todo != [] && s.batches[b].todo[0] < |s.calls|
            && s.calls[s.batches[b].todo[0]].buf == 0 && !s.calls[s.batches[b].todo[0]].closed
            && Enabled(s, Send(b)))
  {
    RunKeepsInv(steps);
    var s := Run(steps).value;
    forall b | 0 <= b < |s.batches| && s.batches[b].fetched
      ensures s.batches[b].todo != [] && s.batches[b].todo[0] < |s.calls|
        && s.calls[s.batches[b].todo[0]].buf == 0 && !s.calls[s.batches[b].todo[0]].closed
    {
      SendReady(s, b);
    }
  }

  /** Nothing can move but a new call or a new callback. */
  ghost predicate Stalled(s: State) {
    forall a :: Enabled(s, a) ==> a.Begin? || a.Fire?
  }

  lemma StalledCallbacks(s: State, b: nat)
    requires Inv(s) && Stalled(s) && b < |s.batches|
    ensures s.batches[b].todo == []
  {
    hide WakeInv, TableInv, CallOk, Next;
    assert !Enabled(s, Fetch(b)) && !Enabled(s, Send(b));
    if s.batches[b].fetched {
      SendReady(s, b);
    }
  }

  lemma StalledCall(s: State, w: nat)
    requires Inv(s) && Stalled(s) && w < |s.calls|
    ensures s.calls[w].pc.Returned? || w in s.registered
  {
    hide TableInv, BatchInv;
    assert WakeInv(s, w) && CallOk(s.calls[w]);
    assert !Enabled(s, Fill(w)) && !Enabled(s, Accept(w)) && !Enabled(s, Return(w)) && !Enabled(s, Receive(w));
    assert !Enabled(s, Free(w)) && !Enabled(s, Remove(w)) && !Enabled(s, Close(w));
    if InFlight(s, w) {
      var b :| 0 <= b < |s.batches| && w in s.batches[b].todo;
      StalledCallbacks(s, b);
    }
  }

  /** No wake-up is lost: when nothing can move, every call that has not returned is one whose registration
      SQLite has not fired, and the table holds exactly those calls. A callback that fired before the waiter
      reached its receive has therefore released it. */
  lemma NoLostWakeUp(steps: seq<Action>)
    requires Run(steps).Some? && Stalled(Run(steps).value)
    ensures var s := Run(steps).value;
      && (forall w :: 0 <= w < |s.calls| ==> (s.calls[w].pc.Returned? <==> w !in s.registered))
      && (forall h :: h in s.table ==> s.table[h] in s.registered)
      && (forall w :: w in s.registered ==> w < |s.calls| && s.calls[w].handle in s.table)
  {
    RunKeepsInv(steps);
    var s := Run(steps).value;
    forall w | 0 <= w < |s.calls| ensures s.calls[w].pc.Returned? <==> w !in s.registered {
      StalledCall(s, w);
      assert WakeInv(s, w);
    }
  }

  /** When SQLite has fired everything it accepted and nothing can move, every call has returned, with OK
      exactly if its registration was fired; the table is empty and every channel closed and drained. */
  lemma AllReturn(steps: seq<Action>)
    requires Run(steps).Some? && Stalled(Run(steps).value) && Run(steps).value.registered == {}
    ensures var s := Run(steps).value;
      && s.table == map[]
      && forall w :: 0 <= w < |s.calls| ==>
           var c := s.calls[w];
           c.pc.Returned? && c.closed && c.buf == 0 && !c.block && (c.pc.rc == OK <==> w in s.fired)
  {
    RunKeepsInv(steps);
    NoLostWakeUp(steps);
    var s := Run(steps).value;
    forall w | 0 <= w < |s.calls|
      ensures var c := s.calls[w];
        c.pc.Returned? && c.closed && c.buf == 0 && !c.block && (c.pc.rc == OK <==> w in s.fired)
    {
      assert WakeInv(s, w) && CallOk(s.calls[w]);
    }
    assert s.table.Keys == {};
  }

  // ---- What a call returns ----

  /** The code a call returns, once it is known. */
  function CodeOf(pc: Pc): Option<int> {
    match pc
    case Unwinding(rc) => Some(rc)
    case Freed(rc) => Some(rc)
    case Removed(rc) => Some(rc)
    case Returned(rc) => Some(rc)
    case _ => None
  }

  /** A call returns the code SQLite rejected it with, or OK after its wake-up. */
  ghost predicate CodeOk(steps: seq<Action>, s: State, w: nat)
    requires w < |s.calls|
  {
    var c := CodeOf(s.calls[w].pc);
    && (c.Some? ==> (c.value != OK && Reject(w, c.value) in steps) || (c.value == OK && Receive(w) in steps))
    && (forall rc :: Reject(w, rc) in steps ==> c == Some(rc) && rc != OK)
    && (Receive(w) in steps ==> c == Some(OK))
  }

  ghost predicate CodesOk(steps: seq<Action>, s: State) {
    && (forall w :: 0 <= w < |s.calls| ==> CodeOk(steps, s, w))
    && (forall w: nat, rc: int :: Reject(w, rc) in steps ==> w < |s.calls|)
    && (forall w: nat :: Receive(w) in steps ==> w < |s.calls|)
  }

  lemma CodeStays(steps: seq<Action>, a: Action, s: State, u: State, w: nat)
    requires w < |s.calls| && w < |u.calls| && CodeOk(steps, s, w) && CodeOf(u.calls[w].pc) == CodeOf(s.calls[w].pc)
    requires a != Receive(w) && forall rc :: a != Reject(w, rc)
    ensures CodeOk(steps + [a], u, w)
  {
    assert forall x :: x in steps + [a] <==> x in steps || x == a;
  }

  lemma CodeStep(steps: seq<Action>, a: Action, s: State)
    requires CodesOk(steps, s) && Enabled(s, a)
    ensures CodesOk(steps + [a], Next(s, a))
  {
    var u := Next(s, a);
    assert forall x :: x in steps + [a] <==> x in steps || x == a;
    forall w | 0 <= w < |u.calls| ensures CodeOk(steps + [a], u, w) {
      if w < |s.calls| {
        assert CodeOk(steps, s, w);
        if a == Receive(w) || (a.Reject? && a.w == w) {
          CodeComes(steps, a, s, w);
        } else {
          CodeKept(a, s, w);
          CodeStays(steps, a, s, u, w);
        }
      }
    }
  }

  lemma CodeKept(a: Action, s: State, w: nat)
    requires Enabled(s, a) && w < |s.calls| && a != Receive(w) && !(a.Reject? && a.w == w)
    ensures w < |Next(s, a).calls| && CodeOf(Next(s, a).calls[w].pc) == CodeOf(s.calls[w].pc)
  {
  }

  lemma CodeComes(steps: seq<Action>, a: Action, s: State, w: nat)
    requires Enabled(s, a) && w < |s.calls| && CodeOk(steps, s, w)
    requires a == Receive(w) || (a.Reject? && a.w == w)
    ensures w < |Next(s, a).calls| && CodeOk(steps + [a], Next(s, a), w)
  {
    assert forall x :: x in steps + [a] <==> x in steps || x == a;
  }

  lemma {:induction false} RunCodes(steps: seq<Action>)
    requires Run(steps).Some?
    ensures CodesOk(steps, Run(steps).value)
  {
    if steps != [] {
      hide Next, Enabled, CodesOk;
      var n := |steps| - 1;
      RunCodes(steps[..n]);
      CodeStep(steps[..n], steps[n], Run(steps[..n]).value);
      assert steps[..n] + [steps[n]] == steps;
    } else {
      NoCodes();
    }
  }

  lemma NoCodes()
    ensures CodesOk([], INIT)
  {
  }

  /** Over every run, a call that returned did so with the code SQLite rejected its registration with, or, if it was not
      rejected, with OK and after it had received. */
  lemma ReturnsCode(steps: seq<Action>, w: nat)
    requires Run(steps).Some? && w < |Run(steps).value.calls| && Run(steps).value.calls[w].pc.Returned?
    ensures var rc := Run(steps).value.calls[w].pc.rc;
      && (forall x :: Reject(w, x) in steps ==> rc == x)
      && ((forall x :: Reject(w, x) !in steps) <==> rc == OK)
      && (rc == OK <==> Receive(w) in steps)
  {
    hide Run;
    RunCodes(steps);
    assert CodeOk(steps, Run(steps).value, w);
  }

  /** SQLite is free: it may reject or accept a call that asks, and fire any registrations in one batch. */
  lemma EnvironmentIsFree(s: State, w: nat, rc: int, ws: seq<nat>)
    ensures w < |s.calls| && s.calls[w].pc == Ready ==>
              Enabled(s, Accept(w)) && (rc != OK ==> Enabled(s, Reject(w, rc)))
    ensures (&& ws != []
             && (forall i :: 0 <= i < |ws| ==> ws[i] in s.registered)
             && (forall i, j :: 0 <= i < j < |ws| ==> ws[i] != ws[j]))
            ==> Enabled(s, Fire(ws))
    ensures Enabled(s, Begin)
  {
  }

  // ---- Bounded work ----

  function Rank(pc: Pc): nat {
    match pc
    case Added => 10
    case Ready => 9
    case Registering => 5
    case Receiving => 4
    case Unwinding(_) => 3
    case Freed(_) => 2
    case Removed(_) => 1
    case Returned(_) => 0
  }

  function CallWork(calls: seq<Call>): nat {
    if calls == [] then 0 else CallWork(calls[..|calls| - 1]) + Rank(calls[|calls| - 1].pc)
  }

  function BatchWork(batches: seq<Batch>): int {
    if batches == [] then 0 else BatchWork(batches[..|batches| - 1]) + Owed(batches[|batches| - 1])
  }

  function Owed(b: Batch): int {
    2 * |b.todo| - if b.fetched then 1 else 0
  }

  /** Steps that can still be taken without a new call. */
  function Work(s: State): int {
    CallWork(s.calls) + 3 * |s.registered| + BatchWork(s.batches)
  }

  lemma {:induction false} CallWorkUpdate(calls: seq<Call>, w: nat, c: Call)
    requires w < |calls|
    ensures CallWork(calls[w := c]) == CallWork(calls) - Rank(calls[w].pc) + Rank(c.pc)
  {
    var n := |calls| - 1;
    if w == n {
      assert calls[w := c][..n] == calls[..n];
    } else {
      CallWorkUpdate(calls[..n], w, c);
      assert calls[w := c][..n] == calls[..n][w := c];
    }
  }

  lemma {:induction false} BatchWorkUpdate(batches: seq<Batch>, b: nat, x: Batch)
    requires b < |batches|
    ensures BatchWork(batches[b := x]) == BatchWork(batches) - Owed(batches[b]) + Owed(x)
  {
    var n := |batches| - 1;
    if b == n {
      assert batches[b := x][..n] == batches[..n];
    } else {
      BatchWorkUpdate(batches[..n], b, x);
      assert batches[b := x][..n] == batches[..n][b := x];
    }
  }

  lemma {:induction false} SetOfSize(ws: seq<nat>)
    requires NoDup(ws)
    ensures |SetOf(ws)| == |ws|
  {
    if ws != [] {
      var n := |ws| - 1;
      SetOfSize(ws[..n]);
      assert SetOf(ws) == SetOf(ws[..n]) + {ws[n]};
    }
  }

  lemma BeginWork(s: State)
    ensures Work(Next(s, Begin)) == Work(s) + 10
  {
    assert Next(s, Begin).calls[..|s.calls|] == s.calls;
  }

  lemma FireWork(s: State, ws: seq<nat>)
    requires Enabled(s, Fire(ws))
    ensures Work(Next(s, Fire(ws))) == Work(s) - |ws|
  {
    assert Next(s, Fire(ws)).batches[..|s.batches|] == s.batches;
    SetOfSize(ws);
    assert SetOf(ws) <= s.registered;
  }

  lemma AcceptWork(s: State, w: nat)
    requires Inv(s) && Enabled(s, Accept(w))
    ensures Work(Next(s, Accept(w))) == Work(s) - 1
  {
    CallWorkUpdate(s.calls, w, Next(s, Accept(w)).calls[w]);
    assert WakeInv(s, w);
  }

  lemma SendWork(s: State, b: nat)
    requires Enabled(s, Send(b))
    ensures Work(Next(s, Send(b))) == Work(s) - 1
  {
    var t := Next(s, Send(b));
    var w := s.batches[b].todo[0];
    BatchWorkUpdate(s.batches, b, t.batches[b]);
    CallWorkUpdate(s.calls, w, t.calls[w]);
  }

  lemma CallStepWork(s: State, a: Action)
    requires Enabled(s, a)
    requires a.Fill? || a.Reject? || a.Return? || a.Receive? || a.Free? || a.Remove? || a.Close?
    ensures Work(Next(s, a)) < Work(s)
  {
    CallWorkUpdate(s.calls, a.w, Next(s, a).calls[a.w]);
  }

  lemma FetchWork(s: State, b: nat)
    requires Enabled(s, Fetch(b))
    ensures Work(Next(s, Fetch(b))) == Work(s) - 1
  {
    BatchWorkUpdate(s.batches, b, Next(s, Fetch(b)).batches[b]);
  }

  /** Every step but a new call uses up work; a new call brings ten units. */
  lemma StepUsesWork(s: State, a: Action)
    requires Inv(s) && Enabled(s, a)
    ensures Work(Next(s, a)) <= if a.Begin? then Work(s) + 10 else Work(s) - 1
  {
    hide Inv, Work, Next;
    match a
    case Begin => BeginWork(s);
    case Fire(ws) => FireWork(s, ws);
    case Fetch(b) => FetchWork(s, b);
    case Send(b) => SendWork(s, b);
    case Accept(w) => AcceptWork(s, w);
    case _ => CallStepWork(s, a);
  }

  lemma {:induction false} WorkNonNegative(batches: seq<Batch>)
    requires forall b :: 0 <= b < |batches| && batches[b].fetched ==> batches[b].todo != []
    ensures BatchWork(batches) >= 0
  {
    if batches != [] {
      WorkNonNegative(batches[..|batches| - 1]);
    }
  }

  /** Every run is finite: n calls allow at most 11 n steps, so every run reaches a stalled state. */
  lemma {:induction false} RunBounded(steps: seq<Action>)
    requires Run(steps).Some?
    ensures |steps| <= 11 * |Run(steps).value.calls|
  {
    RunWork(steps);
    RunKeepsInv(steps);
    WorkNonNegative(Run(steps).value.batches);
  }

  lemma {:induction false} RunWork(steps: seq<Action>)
    requires Run(steps).Some?
    ensures |steps| + Work(Run(steps).value) <= 11 * |Run(steps).value.calls|
  {
    hide Inv, Work;
    if steps == [] {
      EmptyWork();
    } else {
      var n := |steps| - 1;
      RunWork(steps[..n]);
      RunKeepsInv(steps[..n]);
      StepUsesWork(Run(steps[..n]).value, steps[n]);
    }
  }

  lemma EmptyWork()
    ensures Work(INIT) == 0
  {
  }
}
