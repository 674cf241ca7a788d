/** `aggInfo`: the states of all aggregations in flight, kept in one map and told apart by a counter that
    each SQLite aggregate context stores in its eight zeroed bytes. */
module Aggregates {
  import opened Text

  /** The Go aggregator behind the interface: how a fresh state looks, and what its Step and Done do. */
  datatype Aggregator<!S, !Row, R> = Aggregator(start: S, step: (S, Row) -> S, done: S -> R)

  /** `sqlite3_aggregate_context`: zero until the first call for this context. */
  class Context {
    const id: nat
    var idx: int

    constructor (id: nat)
      ensures this.id == id && idx == 0
    {
      this.id := id;
      idx := 0;
    }
  }

  class AggInfo<S, Row, R> {
    const a: Aggregator<S, Row, R>
    var active: map<int, S>
    var next: int
    /** The keys stored in contexts, whose each active key is, the answers given, and whether a call went wrong. */
    ghost var cells: map<nat, int>
    ghost var owner: map<int, nat>
    ghost var results: map<nat, R>
    ghost var bad: bool

    ghost predicate Valid()
      reads this
    {
      next >= 1 && forall c :: c in cells ==> cells[c] != 0
    }

    /** The bytes of the context hold the key it was given. */
    ghost predicate Knows(ctx: Context)
      reads this, ctx
    {
      ctx.idx == if ctx.id in cells then cells[ctx.id] else 0
    }

    /** The object as a state of the machine below. */
    ghost function Model(): State<S, R>
      reads this
    {
      State(active, next, cells, owner, results, bad)
    }

    constructor (a: Aggregator<S, Row, R>)
      ensures Valid() && this.a == a && Model() == Start()
    {
      this.a := a;
      active, next, cells, owner, results, bad := map[], 1, map[], map[], map[], false;
    }

    /** `agg`: the first call for a context stores the next key and constructs a state. `made` says whether the
        constructor succeeds; if not, the key stays stored and the counter where it is. */
    method Agg(ctx: Context, made: bool) returns (idx: int, err: bool)
      requires Valid() && Knows(ctx)
      modifies this, ctx
      ensures Valid() && Knows(ctx) && ctx.idx != 0
      ensures Model() == Touch(a, old(Model()), ctx.id, made)
      ensures err == (ctx.id !in old(cells) && !made) && (!err ==> idx == ctx.idx)
      ensures next == old(next) + if ctx.id !in old(cells) && made then 1 else 0
      ensures ctx.idx == if ctx.id in old(cells) then old(ctx.idx) else old(next)
    {
      if ctx.idx == 0 {
        ctx.idx := next;
        cells := cells[ctx.id := ctx.idx];
        if !made {
          return 0, true;
        }
        next := next + 1;
        active := active[ctx.idx := a.start];
        owner := owner[ctx.idx := ctx.id];
      }
      return ctx.idx, false;
    }

    /** The row is None if an argument does not convert; then the Go method is not called. A key that is not active
        gives the zero `reflect.Value`, and a call on that panics. */
    method Step(ctx: Context, row: Option<Row>, made: bool) returns (panics: bool)
      requires Valid() && Knows(ctx)
      modifies this, ctx
      ensures Valid() && Knows(ctx)
      ensures Model() == Apply(a, old(Model()), Op.Step(ctx.id, row, made))
      ensures panics <==> row.Some? && Absent(a, old(Model()), ctx.id, made)
    {
      var idx, err := Agg(ctx, made);
      if err || row.None? {
        return false;
      }
      if idx !in active {
        bad := true;
        return true;
      }
      bad := bad || idx !in owner || owner[idx] != ctx.id;
      active := active[idx := a.step(active[idx], row.value)];
      return false;
    }

    method Done(ctx: Context, made: bool) returns (panics: bool, r: Option<R>)
      requires Valid() && Knows(ctx)
      modifies this, ctx
      ensures Valid() && Knows(ctx)
      ensures Model() == Apply(a, old(Model()), Op<Row>.Done(ctx.id, made))
      ensures panics <==> Absent(a, old(Model()), ctx.id, made)
      ensures r.None? <==> panics || (ctx.id !in old(cells) && !made)
      ensures r.Some? ==> ctx.id in Model().results && r.value == Model().results[ctx.id]
    {
      var idx, err := Agg(ctx, made);
      if err {
        return false, None;
      }
      if idx !in active {
        bad := true;
        return true, None;
      }
      bad := bad || idx !in owner || owner[idx] != ctx.id;
      r := Some(a.done(active[idx]));
      active := active - {idx};
      results := results[ctx.id := r.value];
      panics := false;
    }
  }

  // ---- Interleaved aggregations, as a machine over values ----

  /** `made` says whether the constructor succeeds, should this call be the one to run it. A step whose arguments
      do not convert has no row. */
  datatype Op<Row> = Step(ctx: nat, row: Option<Row>, made: bool) | Done(ctx: nat, made: bool) {
    /** Whether the call gets as far as the Go aggregator. */
    predicate Works() {
      Done? || row.Some?
    }
  }

  /** `cells` holds the contexts whose eight bytes are no longer zero, `owner` the context each key was made for,
      `results` the answers given so far; `bad` tells of a call that panicked or worked on the state of another
      context. */
  datatype State<S, R> = State(
    active: map<int, S>, next: int, cells: map<nat, int>, owner: map<int, nat>, results: map<nat, R>, bad: bool)

  /** `agg` on values. */
  function Touch<S, Row, R>(a: Aggregator<S, Row, R>, s: State<S, R>, ctx: nat, made: bool): State<S, R> {
    if ctx in s.cells then s
    else if !made then s.(cells := s.cells[ctx := s.next])
    else
      s.(cells := s.cells[ctx := s.next], next := s.next + 1,
         active := s.active[s.next := a.start], owner := s.owner[s.next := ctx])
  }

  /** The key stored in the context is not active. */
  predicate Absent<S, Row, R>(a: Aggregator<S, Row, R>, s: State<S, R>, ctx: nat, made: bool) {
    var t := Touch(a, s, ctx, made);
    (ctx in s.cells || made) && t.cells[ctx] !in t.active
  }

  function Apply<S, Row, R>(a: Aggregator<S, Row, R>, s: State<S, R>, op: Op<Row>): State<S, R> {
    var t := Touch(a, s, op.ctx, op.made);
    var idx := t.cells[op.ctx];
    if (op.ctx !in s.cells && !op.made) || !op.Works() then t
    else if Absent(a, s, op.ctx, op.made) then t.(bad := true)
    else Work(a, t.(bad := t.bad || idx !in t.owner || t.owner[idx] != op.ctx), idx, op)
  }

  /** The Go aggregator's own Step or Done, on the state under `idx`. What errors they return goes to SQLite; the
      state is what they left, and after Done it is gone. */
  function Work<S, Row, R>(a: Aggregator<S, Row, R>, t: State<S, R>, idx: int, op: Op<Row>): State<S, R>
    requires idx in t.active
  {
    match op
    case Step(_, Some(row), _) => t.(active := t.active[idx := a.step(t.active[idx], row)])
    case Step(_, None, _) => t
    case Done(ctx, _) => t.(active := t.active - {idx}, results := t.results[ctx := a.done(t.active[idx])])
  }

  function Start<S, R>(): State<S, R> {
    State(map[], 1, map[], map[], map[], false)
  }

  function Run<S, Row, R>(a: Aggregator<S, Row, R>, ops: seq<Op<Row>>): State<S, R> {
    if ops == [] then Start() else Apply(a, Run(a, ops[..|ops| - 1]), ops[|ops| - 1])
  }

  // ---- What a sequence of calls says about a context ----

  datatype Fate = Unseen | Live | Failed

  /** Whether the constructor ran for this context, and succeeded. */
  function FateOf<Row>(ops: seq<Op<Row>>, ctx: nat): Fate {
    if ops == [] then Unseen
    else
      var last := ops[|ops| - 1];
      var before := FateOf(ops[..|ops| - 1], ctx);
      if before.Unseen? && last.ctx == ctx then (if last.made then Live else Failed) else before
  }

  /** The rows of one context, in order. */
  function RowsOf<Row>(ops: seq<Op<Row>>, ctx: nat): seq<Row> {
    if ops == [] then []
    else
      var last := ops[|ops| - 1];
      var before := RowsOf(ops[..|ops| - 1], ctx);
      if last.Step? && last.row.Some? && last.ctx == ctx then before + [last.row.value] else before
  }

  predicate Finished<Row>(ops: seq<Op<Row>>, ctx: nat) {
    exists i :: 0 <= i < |ops| && ops[i].Done? && ops[i].ctx == ctx
  }

  function Fold<S, Row, R>(a: Aggregator<S, Row, R>, rows: seq<Row>): S {
    if rows == [] then a.start else a.step(Fold(a, rows[..|rows| - 1]), rows[|rows| - 1])
  }

  /** SQLite finalizes a context once and does not use it afterwards. */
  predicate Contract<Row>(ops: seq<Op<Row>>) {
    forall i, j :: 0 <= i < j < |ops| && ops[i].Done? ==> ops[j].ctx != ops[i].ctx
  }

  /** After its constructor failed, no context is given a row or finalized. */
  ghost predicate Clean<Row>(ops: seq<Op<Row>>) {
    forall j :: 0 <= j < |ops| && ops[j].Works() ==> !FateOf(ops[..j], ops[j].ctx).Failed?
  }

  lemma Extended<Row>(ops: seq<Op<Row>>, op: Op<Row>, c: nat)
    ensures FateOf(ops + [op], c)
         == if FateOf(ops, c).Unseen? && op.ctx == c then (if op.made then Live else Failed) else FateOf(ops, c)
    ensures Finished(ops + [op], c) <==> Finished(ops, c) || (op.Done? && op.ctx == c)
    ensures RowsOf(ops + [op], c)
         == if op.Step? && op.row.Some? && op.ctx == c then RowsOf(ops, c) + [op.row.value] else RowsOf(ops, c)
  {
    var all := ops + [op];
    assert all[..|ops|] == ops && all[|ops|] == op;
    if Finished(ops, c) {
      var i :| 0 <= i < |ops| && ops[i].Done? && ops[i].ctx == c;
      assert all[i].Done? && all[i].ctx == c;
    }
  }

  lemma {:induction false} UnseenEmpty<Row>(ops: seq<Op<Row>>, c: nat)
    requires FateOf(ops, c).Unseen?
    ensures RowsOf(ops, c) == [] && !Finished(ops, c)
  {
    if ops != [] {
      var n := |ops| - 1;
      UnseenEmpty(ops[..n], c);
      assert ops == ops[..n] + [ops[n]];
      Extended(ops[..n], ops[n], c);
    }
  }

  lemma CleanExtended<Row>(ops: seq<Op<Row>>, op: Op<Row>)
    ensures Clean(ops + [op]) <==> Clean(ops) && (op.Works() ==> !FateOf(ops, op.ctx).Failed?)
  {
    var all := ops + [op];
    assert all[..|ops|] == ops && all[|ops|] == op;
    assert forall j :: 0 <= j < |ops| ==> all[..j] == ops[..j] && all[j] == ops[j];
    if Clean(all) {
      assert op.Works() ==> !FateOf(all[..|ops|], all[|ops|].ctx).Failed?;
      forall j | 0 <= j < |ops| && ops[j].Works() ensures !FateOf(ops[..j], ops[j].ctx).Failed? {
        assert !FateOf(all[..j], all[j].ctx).Failed?;
      }
    }
  }

  // ---- The invariant ----

  /** Keys of constructed contexts are positive, below `next` and distinct, and every active key was made for a
      constructed context. */
  ghost predicate KeysOk<S, Row, R>(ops: seq<Op<Row>>, s: State<S, R>) {
    && s.next >= 1
    && (forall c: nat :: c in s.cells <==> !FateOf(ops, c).Unseen?)
    && (forall c :: c in s.cells && FateOf(ops, c).Live? ==> 1 <= s.cells[c] < s.next)
    && (forall c, d :: c in s.cells && d in s.cells && c != d && FateOf(ops, c).Live? && FateOf(ops, d).Live? ==>
          s.cells[c] != s.cells[d])
    && (forall i :: i in s.active ==>
          i in s.owner && s.owner[i] in s.cells && FateOf(ops, s.owner[i]).Live? && s.cells[s.owner[i]] == i)
  }

  /** A context in flight holds the fold of its own rows; a finished one has left the map, with the answer of
      that fold. */
  ghost predicate ValueOk<S, Row, R>(a: Aggregator<S, Row, R>, ops: seq<Op<Row>>, s: State<S, R>, c: nat) {
    && (c in s.cells && FateOf(ops, c).Live? && !Finished(ops, c) ==>
          s.cells[c] in s.active && s.active[s.cells[c]] == Fold(a, RowsOf(ops, c)))
    && (c in s.cells && FateOf(ops, c).Live? && Finished(ops, c) ==> s.cells[c] !in s.active)
    && (c in s.results <==> FateOf(ops, c).Live? && Finished(ops, c))
    && (c in s.results ==> s.results[c] == a.done(Fold(a, RowsOf(ops, c))))
  }

  ghost predicate Inv<S, Row, R>(a: Aggregator<S, Row, R>, ops: seq<Op<Row>>, s: State<S, R>) {
    && !s.bad
    && KeysOk(ops, s)
    && (forall c: nat :: ValueOk(a, ops, s, c))
  }

  /** A first call whose constructor fails. */
  lemma FailKeeps<S, Row, R>(a: Aggregator<S, Row, R>, ops: seq<Op<Row>>, s: State<S, R>, op: Op<Row>)
    requires Inv(a, ops, s) && FateOf(ops, op.ctx).Unseen? && !op.made
    ensures Inv(a, ops + [op], Apply(a, s, op))
  {
    hide RowsOf, Fold, Finished, FateOf, ValueOk;
    FailKeys(a, ops, s, op);
    forall c: nat ensures ValueOk(a, ops + [op], Apply(a, s, op), c) {
      FailValue(a, ops, s, op, c);
    }
  }

  lemma FailKeys<S, Row, R>(a: Aggregator<S, Row, R>, ops: seq<Op<Row>>, s: State<S, R>, op: Op<Row>)
    requires KeysOk(ops, s) && FateOf(ops, op.ctx).Unseen? && !op.made
    ensures Apply(a, s, op) == s.(cells := s.cells[op.ctx := s.next])
    ensures KeysOk(ops + [op], s.(cells := s.cells[op.ctx := s.next]))
  {
    hide FateOf;
    forall c: nat ensures FateOf(ops + [op], c) == if c == op.ctx then Failed else FateOf(ops, c) {
      Extended(ops, op, c);
    }
  }

  lemma FailValue<S, Row, R>(
    a: Aggregator<S, Row, R>, ops: seq<Op<Row>>, s: State<S, R>, op: Op<Row>, c: nat)
    requires Inv(a, ops, s) && FateOf(ops, op.ctx).Unseen? && !op.made
    ensures ValueOk(a, ops + [op], s.(cells := s.cells[op.ctx := s.next]), c)
  {
    hide RowsOf, Fold, Finished, FateOf, KeysOk;
    UnseenEmpty(ops, op.ctx);
    Extended(ops, op, c);
    assert ValueOk(a, ops, s, c);
  }

  /** The state right before the aggregator's own method runs: the context is constructed. */
  ghost predicate Ready<S, Row, R>(a: Aggregator<S, Row, R>, ops: seq<Op<Row>>, t: State<S, R>, op: Op<Row>) {
    && !t.bad && KeysOk(ops + [op], t)
    && op.ctx in t.cells && t.cells[op.ctx] in t.active
    && t.cells[op.ctx] in t.owner && t.owner[t.cells[op.ctx]] == op.ctx
    && t.active[t.cells[op.ctx]] == Fold(a, RowsOf(ops, op.ctx))
    && FateOf(ops + [op], op.ctx).Live? && !Finished(ops, op.ctx)
    && (forall c: nat :: c != op.ctx ==> ValueOk(a, ops, t, c))
    && op.ctx !in t.results
  }

  /** Fates change for the context of the call alone. */
  lemma Fates<Row>(ops: seq<Op<Row>>, op: Op<Row>)
    requires FateOf(ops, op.ctx).Live? || (FateOf(ops, op.ctx).Unseen? && op.made)
    ensures forall c: nat :: FateOf(ops + [op], c) == if c == op.ctx then Live else FateOf(ops, c)
  {
    hide FateOf;
    forall c: nat ensures FateOf(ops + [op], c) == if c == op.ctx then Live else FateOf(ops, c) {
      Extended(ops, op, c);
    }
  }

  lemma TouchKeys<S, Row, R>(a: Aggregator<S, Row, R>, ops: seq<Op<Row>>, s: State<S, R>, op: Op<Row>)
    requires KeysOk(ops, s)
    requires FateOf(ops, op.ctx).Live? || (FateOf(ops, op.ctx).Unseen? && op.made)
    ensures KeysOk(ops + [op], Touch(a, s, op.ctx, op.made))
  {
    if op.ctx in s.cells {
      KeptKeys(ops, s, op);
    } else {
      NewKeys(a, ops, s, op);
    }
  }

  lemma KeptKeys<S, Row, R>(ops: seq<Op<Row>>, s: State<S, R>, op: Op<Row>)
    requires KeysOk(ops, s) && FateOf(ops, op.ctx).Live?
    ensures KeysOk(ops + [op], s)
  {
    Fates(ops, op);
    hide FateOf;
  }

  lemma NewKeys<S, Row, R>(a: Aggregator<S, Row, R>, ops: seq<Op<Row>>, s: State<S, R>, op: Op<Row>)
    requires KeysOk(ops, s) && FateOf(ops, op.ctx).Unseen? && op.made
    ensures KeysOk(ops + [op], Touch(a, s, op.ctx, op.made))
  {
    Fates(ops, op);
    hide FateOf;
  }

  lemma TouchValue<S, Row, R>(
    a: Aggregator<S, Row, R>, ops: seq<Op<Row>>, s: State<S, R>, op: Op<Row>, c: nat)
    requires KeysOk(ops, s) && ValueOk(a, ops, s, c) && c != op.ctx
    ensures ValueOk(a, ops, Touch(a, s, op.ctx, op.made), c)
  {
    hide FateOf, RowsOf, Finished, Fold;
  }

  /** What the call's own context has before the Go method runs. */
  lemma TouchOwn<S, Row, R>(a: Aggregator<S, Row, R>, ops: seq<Op<Row>>, s: State<S, R>, op: Op<Row>)
    requires !s.bad && KeysOk(ops, s) && ValueOk(a, ops, s, op.ctx) && !Finished(ops, op.ctx)
    requires FateOf(ops, op.ctx).Live? || (FateOf(ops, op.ctx).Unseen? && op.made)
    ensures var t := Touch(a, s, op.ctx, op.made);
      && !t.bad && op.ctx in t.cells && t.cells[op.ctx] in t.active
      && t.cells[op.ctx] in t.owner && t.owner[t.cells[op.ctx]] == op.ctx
      && t.active[t.cells[op.ctx]] == Fold(a, RowsOf(ops, op.ctx))
      && op.ctx !in t.results
  {
    if FateOf(ops, op.ctx).Unseen? {
      UnseenEmpty(ops, op.ctx);
      NoRows(a);
    } else {
      OwnKey(ops, s, op.ctx, s.cells[op.ctx]);
    }
  }

  lemma NoRows<S, Row, R>(a: Aggregator<S, Row, R>)
    ensures Fold(a, []) == a.start
  {
  }

  lemma OwnKey<S, Row, R>(ops: seq<Op<Row>>, s: State<S, R>, c: nat, i: int)
    requires KeysOk(ops, s) && c in s.cells && FateOf(ops, c).Live? && s.cells[c] == i && i in s.active
    ensures i in s.owner && s.owner[i] == c
  {
    hide FateOf;
  }

  lemma TouchReady<S, Row, R>(a: Aggregator<S, Row, R>, ops: seq<Op<Row>>, s: State<S, R>, op: Op<Row>)
    requires Inv(a, ops, s) && !Finished(ops, op.ctx)
    requires FateOf(ops, op.ctx).Live? || (FateOf(ops, op.ctx).Unseen? && op.made)
    ensures Ready(a, ops, Touch(a, s, op.ctx, op.made), op)
  {
    hide RowsOf, Finished, FateOf, KeysOk, ValueOk, Touch, Fold;
    TouchKeys(a, ops, s, op);
    Fates(ops, op);
    TouchOwn(a, ops, s, op);
    forall c: nat ensures c != op.ctx ==> ValueOk(a, ops, Touch(a, s, op.ctx, op.made), c) {
      if c != op.ctx {
        TouchValue(a, ops, s, op, c);
      }
    }
  }

  /** The Go method gives its own context one more row, or its answer. */
  lemma WorkOwn<S, Row, R>(a: Aggregator<S, Row, R>, ops: seq<Op<Row>>, t: State<S, R>, op: Op<Row>)
    requires op.ctx in t.cells && t.cells[op.ctx] in t.active && op.ctx !in t.results
    requires t.active[t.cells[op.ctx]] == Fold(a, RowsOf(ops, op.ctx))
    requires FateOf(ops + [op], op.ctx).Live? && !Finished(ops, op.ctx)
    ensures ValueOk(a, ops + [op], Work(a, t, t.cells[op.ctx], op), op.ctx)
  {
    hide FateOf, Finished, RowsOf, Fold;
    Extended(ops, op, op.ctx);
    if op.Step? && op.row.Some? {
      FoldMore(a, RowsOf(ops, op.ctx), op.row.value);
    }
  }

  lemma FoldMore<S, Row, R>(a: Aggregator<S, Row, R>, rows: seq<Row>, row: Row)
    ensures Fold(a, rows + [row]) == a.step(Fold(a, rows), row)
  {
    assert (rows + [row])[..|rows|] == rows;
  }

  /** It leaves every other context alone. */
  lemma WorkOther<S, Row, R>(
    a: Aggregator<S, Row, R>, ops: seq<Op<Row>>, t: State<S, R>, op: Op<Row>, c: nat)
    requires op.ctx in t.cells && t.cells[op.ctx] in t.active && KeysOk(ops + [op], t)
    requires FateOf(ops + [op], op.ctx).Live? && ValueOk(a, ops, t, c) && c != op.ctx
    ensures ValueOk(a, ops + [op], Work(a, t, t.cells[op.ctx], op), c)
  {
    hide FateOf, Finished, RowsOf, Fold;
    Extended(ops, op, c);
  }

  lemma WorkKeys<S, Row, R>(a: Aggregator<S, Row, R>, ops: seq<Op<Row>>, t: State<S, R>, op: Op<Row>)
    requires KeysOk(ops, t) && op.ctx in t.cells && t.cells[op.ctx] in t.active
    ensures KeysOk(ops, Work(a, t, t.cells[op.ctx], op)) && Work(a, t, t.cells[op.ctx], op).bad == t.bad
  {
    hide FateOf;
  }

  lemma ReadyKeeps<S, Row, R>(a: Aggregator<S, Row, R>, ops: seq<Op<Row>>, t: State<S, R>, op: Op<Row>)
    requires Ready(a, ops, t, op)
    ensures Inv(a, ops + [op], Work(a, t, t.cells[op.ctx], op))
  {
    hide FateOf, RowsOf, Fold, Finished, Work, KeysOk, ValueOk;
    WorkKeys(a, ops + [op], t, op);
    forall c: nat ensures ValueOk(a, ops + [op], Work(a, t, t.cells[op.ctx], op), c) {
      if c == op.ctx {
        WorkOwn(a, ops, t, op);
      } else {
        WorkOther(a, ops, t, op, c);
      }
    }
  }

  lemma ApplyKeeps<S, Row, R>(a: Aggregator<S, Row, R>, ops: seq<Op<Row>>, s: State<S, R>, op: Op<Row>)
    requires Inv(a, ops, s) && Contract(ops + [op]) && (op.Works() ==> !FateOf(ops, op.ctx).Failed?)
    ensures Inv(a, ops + [op], Apply(a, s, op))
  {
    hide Inv, Fold, RowsOf, FateOf, Ready, Work, Finished, Contract;
    if FateOf(ops, op.ctx).Unseen? && !op.made {
      FailKeeps(a, ops, s, op);
    } else if FateOf(ops, op.ctx).Failed? {
      IdleKeeps(a, ops, s, op);
    } else {
      NotFinished(ops, op);
      TouchReady(a, ops, s, op);
      var t := Touch(a, s, op.ctx, op.made);
      ReadyKeeps(a, ops, t, op);
      ReadyApplies(a, ops, s, op);
    }
  }

  /** A step without a row, on a context whose constructor failed. */
  lemma IdleKeeps<S, Row, R>(a: Aggregator<S, Row, R>, ops: seq<Op<Row>>, s: State<S, R>, op: Op<Row>)
    requires Inv(a, ops, s) && FateOf(ops, op.ctx).Failed? && !op.Works()
    ensures Inv(a, ops + [op], Apply(a, s, op))
  {
    hide RowsOf, Fold, Finished, FateOf, ValueOk;
    assert Apply(a, s, op) == s;
    forall c: nat
      ensures FateOf(ops + [op], c) == FateOf(ops, c)
      ensures ValueOk(a, ops + [op], s, c)
    {
      Extended(ops, op, c);
      IdleValue(a, ops, s, op, c);
    }
  }

  lemma IdleValue<S, Row, R>(
    a: Aggregator<S, Row, R>, ops: seq<Op<Row>>, s: State<S, R>, op: Op<Row>, c: nat)
    requires ValueOk(a, ops, s, c) && FateOf(ops, op.ctx).Failed? && !op.Works()
    ensures ValueOk(a, ops + [op], s, c)
  {
    hide RowsOf, Fold, Finished, FateOf;
    Extended(ops, op, c);
  }

  lemma ReadyApplies<S, Row, R>(a: Aggregator<S, Row, R>, ops: seq<Op<Row>>, s: State<S, R>, op: Op<Row>)
    requires Inv(a, ops, s) && Ready(a, ops, Touch(a, s, op.ctx, op.made), op)
    requires FateOf(ops, op.ctx).Live? || op.made
    ensures var t := Touch(a, s, op.ctx, op.made);
      t.cells[op.ctx] in t.active && Apply(a, s, op) == Work(a, t, t.cells[op.ctx], op)
  {
    hide ValueOk, FateOf, Fold, RowsOf, Finished;
  }

  lemma NotFinished<Row>(ops: seq<Op<Row>>, op: Op<Row>)
    requires Contract(ops + [op])
    ensures !Finished(ops, op.ctx)
  {
    var all := ops + [op];
    forall i | 0 <= i < |ops| && ops[i].Done? ensures ops[i].ctx != op.ctx {
      assert all[i] == ops[i] && all[|ops|] == op;
    }
  }

  lemma {:induction false} RunKeeps<S, Row, R>(a: Aggregator<S, Row, R>, ops: seq<Op<Row>>)
    requires Contract(ops) && Clean(ops)
    ensures Inv(a, ops, Run(a, ops))
  {
    if ops == [] {
    } else {
      hide Inv, Apply, Contract, Clean, FateOf;
      var n := |ops| - 1;
      ContractPrefix(ops);
      assert ops[..n] + [ops[n]] == ops;
      CleanExtended(ops[..n], ops[n]);
      RunKeeps(a, ops[..n]);
      ApplyKeeps(a, ops[..n], Run(a, ops[..n]), ops[n]);
    }
  }

  lemma ContractPrefix<Row>(ops: seq<Op<Row>>)
    requires ops != [] && Contract(ops)
    ensures Contract(ops[..|ops| - 1])
  {
  }

  // ---- The results ----

  /** Any interleaving of calls over any number of contexts: every finished context got the result of folding
      its own rows, in order, from a fresh state, and every unfinished one holds that fold. */
  lemma Isolated<S, Row, R>(a: Aggregator<S, Row, R>, ops: seq<Op<Row>>, ctx: nat)
    requires Contract(ops) && Clean(ops) && FateOf(ops, ctx).Live?
    ensures var s := Run(a, ops);
      if Finished(ops, ctx) then ctx in s.results && s.results[ctx] == a.done(Fold(a, RowsOf(ops, ctx)))
      else ctx in s.cells && s.cells[ctx] in s.active && s.active[s.cells[ctx]] == Fold(a, RowsOf(ops, ctx))
  {
    hide FateOf, Finished, RowsOf, Fold, Clean, Contract, Run;
    RunKeeps(a, ops);
    assert ValueOk(a, ops, Run(a, ops), ctx);
  }

  /** Whatever is still active belongs to a context that is not finished. */
  lemma ActiveIsUnfinished<S, Row, R>(a: Aggregator<S, Row, R>, ops: seq<Op<Row>>, i: int)
    requires Contract(ops) && Clean(ops)
    ensures i in Run(a, ops).active ==> exists c: nat :: FateOf(ops, c).Live? && !Finished(ops, c)
  {
    hide FateOf, Finished, RowsOf, Fold, Clean, Contract, Run;
    RunKeeps(a, ops);
    var s := Run(a, ops);
    if i in s.active {
      assert ValueOk(a, ops, s, s.owner[i]);
    }
  }

  /** Nothing stays behind once every context that was constructed is finished. */
  lemma ActiveEmpties<S, Row, R>(a: Aggregator<S, Row, R>, ops: seq<Op<Row>>)
    requires Contract(ops) && Clean(ops) && forall c: nat :: FateOf(ops, c).Live? ==> Finished(ops, c)
    ensures Run(a, ops).active == map[]
  {
    hide FateOf, Finished, Clean, Contract, Run;
    forall i: int ensures i !in Run(a, ops).active {
      ActiveIsUnfinished(a, ops, i);
    }
    assert Run(a, ops).active.Keys == {};
  }

  // ---- Constructors that fail ----

  /** Every key was made for a constructed context. */
  ghost predicate OwnersOk<S, Row, R>(ops: seq<Op<Row>>, s: State<S, R>) {
    && (forall c: nat :: !FateOf(ops, c).Unseen? ==> c in s.cells)
    && (forall i :: i in s.owner ==> !FateOf(ops, s.owner[i]).Failed?)
  }

  /** A row for a context whose constructor failed, or its finalization, panics, or works on the state of another
      context. */
  lemma ReuseIsBad<S, Row, R>(a: Aggregator<S, Row, R>, ops: seq<Op<Row>>, s: State<S, R>, op: Op<Row>)
    requires OwnersOk(ops, s) && FateOf(ops, op.ctx).Failed? && op.Works()
    ensures Apply(a, s, op).bad
  {
  }

  lemma BadStays<S, Row, R>(a: Aggregator<S, Row, R>, s: State<S, R>, op: Op<Row>)
    requires s.bad
    ensures Apply(a, s, op).bad
  {
  }

  lemma CleanOwners<S, Row, R>(a: Aggregator<S, Row, R>, ops: seq<Op<Row>>)
    requires Contract(ops) && Clean(ops)
    ensures OwnersOk(ops, Run(a, ops))
  {
    RunKeeps(a, ops);
    OwnersLive(a, ops);
  }

  lemma {:induction false} OwnersLive<S, Row, R>(a: Aggregator<S, Row, R>, ops: seq<Op<Row>>)
    requires Contract(ops) && Clean(ops)
    ensures var s := Run(a, ops); forall i :: i in s.owner ==> FateOf(ops, s.owner[i]).Live?
  {
    if ops != [] {
      hide Inv, Contract, Clean, FateOf, Apply;
      var n := |ops| - 1;
      ContractPrefix(ops);
      assert ops[..n] + [ops[n]] == ops;
      CleanExtended(ops[..n], ops[n]);
      OwnersLive(a, ops[..n]);
      RunKeeps(a, ops[..n]);
      KeysOf(a, ops[..n], Run(a, ops[..n]));
      OwnerStep(a, ops[..n], Run(a, ops[..n]), ops[n]);
    }
  }

  lemma OwnerStep<S, Row, R>(a: Aggregator<S, Row, R>, ops: seq<Op<Row>>, s: State<S, R>, op: Op<Row>)
    requires forall i :: i in s.owner ==> FateOf(ops, s.owner[i]).Live?
    requires op.ctx in s.cells <==> !FateOf(ops, op.ctx).Unseen?
    ensures var u := Apply(a, s, op); forall i :: i in u.owner ==> FateOf(ops + [op], u.owner[i]).Live?
  {
    hide FateOf;
    var u := Apply(a, s, op);
    Extended(ops, op, op.ctx);
    forall i | i in u.owner ensures FateOf(ops + [op], u.owner[i]).Live? {
      Extended(ops, op, u.owner[i]);
    }
  }

  lemma KeysOf<S, Row, R>(a: Aggregator<S, Row, R>, ops: seq<Op<Row>>, s: State<S, R>)
    requires Inv(a, ops, s)
    ensures !s.bad && forall c: nat :: c in s.cells <==> !FateOf(ops, c).Unseen?
  {
  }

  /** Over every interleaving: some call panics or works on the state of another context if and only if some
      context is given a row or finalized after its constructor failed. */
  lemma {:induction false} BadIff<S, Row, R>(a: Aggregator<S, Row, R>, ops: seq<Op<Row>>)
    requires Contract(ops)
    ensures Run(a, ops).bad <==> !Clean(ops)
  {
    hide Inv, Apply, Contract, Clean, FateOf, OwnersOk;
    if Clean(ops) {
      RunKeeps(a, ops);
      KeysOf(a, ops, Run(a, ops));
    } else {
      assert ops != [] by { NoCalls<Row>(); }
      var n := |ops| - 1;
      ContractPrefix(ops);
      assert ops[..n] + [ops[n]] == ops;
      CleanExtended(ops[..n], ops[n]);
      BadIff(a, ops[..n]);
      if Clean(ops[..n]) {
        CleanOwners(a, ops[..n]);
        ReuseIsBad(a, ops[..n], Run(a, ops[..n]), ops[n]);
      } else {
        BadStays(a, Run(a, ops[..n]), ops[n]);
      }
    }
  }

  lemma NoCalls<Row>()
    ensures Clean<Row>([])
  {
  }

  /** Such a run: the constructor fails for context 0, context 1 is then given the same key, and when SQLite
      finalizes context 0 it gets the answer of context 1, whose state is gone. */
  lemma SharedKey<S, Row, R>(a: Aggregator<S, Row, R>, row: Row)
    ensures var s := Run(a, [Op.Step(0, Some(row), false), Op.Step(1, Some(row), true), Op.Done(0, true)]);
      && s.bad && s.cells == map[0 := 1, 1 := 1] && s.active == map[]
      && s.results == map[0 := a.done(a.step(a.start, row))]
  {
    var ops := [Op.Step(0, Some(row), false), Op.Step(1, Some(row), true), Op.Done(0, true)];
    assert ops[..2][..1] == ops[..1] && ops[..1][..0] == [];
    var s0: State<S, R> := Start();
    var s1 := Apply(a, s0, ops[0]);
    var s2 := Apply(a, s1, ops[1]);
    assert s1 == State(map[], 1, map[0 := 1], map[], map[], false);
    assert s2 == State(map[1 := a.step(a.start, row)], 2, map[0 := 1, 1 := 1], map[1 := 1], map[], false);
    assert Run(a, ops[..1]) == s1;
    assert Run(a, ops[..2]) == s2;
  }
}
