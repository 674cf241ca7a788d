/** The global handle table of `callback.go`. A handle is the address of a byte allocated for it, so that no
    Go pointer is given to C; an address may come back once it was freed. */
module Handles {
  import opened Text

  datatype Entry<Value> = Entry(db: nat, val: Value)

  /** `handleVals` and, beside it, the addresses allocated for handles. Methods run under `handleLock`. */
  class Table<Value> {
    var vals: map<nat, Entry<Value>>
    ghost var inUse: set<nat>

    /** The keys are exactly the addresses allocated and not freed. */
    ghost predicate Valid()
      reads this
    {
      vals.Keys == inUse
    }

    constructor ()
      ensures Valid() && vals == map[]
    {
      vals, inUse := map[], {};
    }

    /** `newHandle`; `p` is what `malloc` answers, an address not in use. */
    method NewHandle(db: nat, v: Value, p: nat) returns (h: nat)
      requires Valid() && p !in inUse
      modifies this
      ensures Valid() && h == p && p !in old(vals)
      ensures vals == old(vals)[p := Entry(db, v)] && inUse == old(inUse) + {p}
    {
      vals := vals[p := Entry(db, v)];
      inUse := inUse + {p};
      return p;
    }

    /** `lookupHandleVal`; the zero value stands for a key that is not there. */
    method Lookup(h: nat) returns (e: Option<Entry<Value>>)
      ensures e == Find(vals, h)
    {
      if h in vals {
        return Some(vals[h]);
      }
      return None;
    }

    /** `deleteHandles`: visits the entries in any order while deleting from the map. `freed` counts the calls
        of `free`: one for each of the connection's handles. */
    method DeleteHandles(db: nat) returns (ghost freed: multiset<nat>)
      requires Valid()
      modifies this
      ensures Valid() && vals == Without(old(vals), db)
      ensures inUse == old(inUse) - OwnedBy(old(vals), db)
      ensures freed == multiset(OwnedBy(old(vals), db))
    {
      hide OwnedBy, Without;
      ghost var was := vals;
      ghost var gone: set<nat> := {};
      freed := multiset{};
      var left := vals.Keys;
      while left != {}
        invariant left <= vals.Keys
        invariant forall h :: h in gone <==> h in was && was[h].db == db && h !in left
        invariant vals == was - gone && inUse == old(inUse) - gone && vals.Keys == inUse
        invariant freed == multiset(gone)
        decreases left
      {
        var handle :| handle in left;
        if vals[handle].db == db {
          vals := vals - {handle};
          inUse := inUse - {handle};
          OneMore(gone, handle);
          gone := gone + {handle};
          freed := freed + multiset{handle};
        }
        left := left - {handle};
      }
      AllGone(was, db, gone);
    }
  }

  lemma OneMore(s: set<nat>, h: nat)
    requires h !in s
    ensures multiset(s + {h}) == multiset(s) + multiset{h}
  {
  }

  lemma AllGone<Value>(was: map<nat, Entry<Value>>, db: nat, gone: set<nat>)
    requires forall h :: h in gone <==> h in was && was[h].db == db
    ensures gone == OwnedBy(was, db) && was - gone == Without(was, db)
  {
  }

  function Find<Value>(vals: map<nat, Entry<Value>>, h: nat): Option<Entry<Value>> {
    if h in vals then Some(vals[h]) else None
  }

  function OwnedBy<Value>(vals: map<nat, Entry<Value>>, db: nat): set<nat> {
    set h | h in vals && vals[h].db == db
  }

  function Without<Value>(vals: map<nat, Entry<Value>>, db: nat): map<nat, Entry<Value>> {
    map h | h in vals && vals[h].db != db :: vals[h]
  }

  // ---- Whole histories ----

  datatype Op<Value> = New(p: nat, db: nat, val: Value) | Delete(db: nat)

  function Apply<Value>(vals: map<nat, Entry<Value>>, op: Op<Value>): map<nat, Entry<Value>> {
    match op
    case New(p, db, v) => vals[p := Entry(db, v)]
    case Delete(db) => Without(vals, db)
  }

  function Run<Value>(ops: seq<Op<Value>>): map<nat, Entry<Value>> {
    if ops == [] then map[] else Apply(Run(ops[..|ops| - 1]), ops[|ops| - 1])
  }

  /** `malloc` never answers with an address in use. */
  predicate MallocOk<Value>(ops: seq<Op<Value>>) {
    forall i :: 0 <= i < |ops| && ops[i].New? ==> ops[i].p !in Run(ops[..i])
  }

  /** The creation at step `i` of the handle `p` is still live after all of `ops`: its connection has not
      been closed since. */
  predicate LiveSince<Value>(ops: seq<Op<Value>>, i: nat, p: nat) {
    && i < |ops| && ops[i].New? && ops[i].p == p
    && forall j :: i < j < |ops| && ops[j].Delete? ==> ops[j].db != ops[i].db
  }

  /** A live handle is found with the value it was created with, whatever happened to other handles and other
      connections since. */
  lemma {:induction false} LiveIsFound<Value>(ops: seq<Op<Value>>, i: nat, p: nat)
    requires MallocOk(ops) && LiveSince(ops, i, p)
    ensures Find(Run(ops), p) == Some(Entry(ops[i].db, ops[i].val))
  {
    var n := |ops| - 1;
    if i < n {
      PrefixOk(ops);
      assert LiveSince(ops[..n], i, p);
      LiveIsFound(ops[..n], i, p);
    }
  }

  lemma PrefixOk<Value>(ops: seq<Op<Value>>)
    requires MallocOk(ops) && ops != []
    ensures MallocOk(ops[..|ops| - 1])
  {
    var n := |ops| - 1;
    forall i | 0 <= i < n && ops[..n][i].New? ensures ops[..n][i].p !in Run(ops[..n][..i]) {
      assert ops[..n][..i] == ops[..i];
    }
  }

  /** The other direction: whatever is found was created by a step that is still live. */
  lemma {:induction false} FoundIsLive<Value>(ops: seq<Op<Value>>, p: nat) returns (i: nat)
    requires MallocOk(ops) && p in Run(ops)
    ensures LiveSince(ops, i, p)
  {
    var n := |ops| - 1;
    if ops[n].New? && ops[n].p == p {
      i := n;
    } else {
      PrefixOk(ops);
      i := FoundIsLive(ops[..n], p);
      LiveIsFound(ops[..n], i, p);
    }
  }

  /** Closing one connection takes its own handles and leaves those of every other one. */
  lemma DeleteIsolates<Value>(ops: seq<Op<Value>>, db: nat, h: nat)
    ensures var after := Run(ops + [Delete(db)]);
      && (h in Run(ops) && Run(ops)[h].db == db ==> h !in after)
      && (h in Run(ops) && Run(ops)[h].db != db ==> h in after && after[h] == Run(ops)[h])
      && (h !in Run(ops) ==> h !in after)
  {
    assert (ops + [Delete(db)])[..|ops|] == ops;
  }
}
