/** The handle table, the callback and the wait of the unlock-notify code, as objects. */
module UnlockTable {
  import opened Text
  import opened Codes

  /** A Go channel of capacity one that carries empty values. */
  class Channel {
    var buf: nat
    var closed: bool

    constructor ()
      ensures buf == 0 && !closed
    {
      buf, closed := 0, false;
    }

    /** Sending must neither block nor panic. */
    method Send()
      requires !closed && buf == 0
      modifies this
      ensures buf == 1 && !closed
    {
      buf := buf + 1;
    }

    method Receive()
      requires buf == 1
      modifies this
      ensures buf == 0 && closed == old(closed)
    {
      buf := buf - 1;
    }

    method Close()
      requires !closed
      modifies this
      ensures closed && buf == old(buf)
    {
      closed := true;
    }
  }

  /** `unlock_notify_table`. Its methods run under the table's mutex, one at a time. */
  class Table {
    var seqnum: nat
    var table: map<nat, Channel>

    ghost predicate Valid()
      reads this
    {
      forall h :: h in table ==> h < seqnum
    }

    constructor ()
      ensures Valid() && table == map[] && seqnum == 0
    {
      seqnum, table := 0, map[];
    }

    /** No live entry is overwritten. */
    method Add(c: Channel) returns (h: nat)
      requires Valid()
      modifies this
      ensures Valid() && h !in old(table) && h == old(seqnum)
      ensures table == old(table)[h := c] && seqnum == old(seqnum) + 1
    {
      h := seqnum;
      table := table[h := c];
      seqnum := seqnum + 1;
    }

    method Remove(h: nat)
      requires Valid()
      modifies this
      ensures Valid() && table == old(table) - {h} && seqnum == old(seqnum)
    {
      table := table - {h};
    }

    /** `None` stands for the panic on a missing key. */
    method Get(h: nat) returns (c: Option<Channel>)
      ensures c == if h in table then Some(table[h]) else None
    {
      if h in table {
        return Some(table[h]);
      }
      return None;
    }
  }

  /** The channels of a batch of handles. */
  ghost function Woken(t: Table, argv: seq<nat>): set<Channel>
    requires forall i :: 0 <= i < |argv| ==> argv[i] in t.table
    reads t
  {
    set i | 0 <= i < |argv| :: t.table[argv[i]]
  }

  /** `unlock_notify_callback`: wakes exactly the waiters of the batch, each once. */
  method Callback(t: Table, argv: seq<nat>)
    requires forall i :: 0 <= i < |argv| ==> argv[i] in t.table
    requires forall i, j :: 0 <= i < j < |argv| ==> t.table[argv[i]] != t.table[argv[j]]
    requires forall c :: c in Woken(t, argv) ==> c.buf == 0 && !c.closed
    modifies Woken(t, argv)
    ensures forall c :: c in Woken(t, argv) ==> c.buf == 1 && !c.closed
  {
    for i := 0 to |argv|
      invariant forall j :: 0 <= j < i ==> t.table[argv[j]].buf == 1 && !t.table[argv[j]].closed
      invariant forall j :: i <= j < |argv| ==> t.table[argv[j]].buf == 0 && !t.table[argv[j]].closed
      invariant t.table == old(t.table)
    {
      var c := t.Get(argv[i]);
      c.value.Send();
    }
  }

  /** `unlock_notify_wait` where SQLite answers `rc` and, if it accepts, fires the registration once.
      Every path leaves the table as it was. */
  method Wait(t: Table, rc: int) returns (rv: int)
    requires t.Valid()
    modifies t
    ensures t.Valid() && t.table == old(t.table) && t.seqnum == old(t.seqnum) + 1
    ensures rv == rc
  {
    var c := new Channel();
    var h := t.Add(c);
    if rc != OK {
      t.Remove(h);
      c.Close();
      return rc;
    }
    Callback(t, [h]);
    assert c in Woken(t, [h]) by { assert t.table[[h][0]] == c; }
    c.Receive();
    t.Remove(h);
    c.Close();
    return OK;
  }
}
