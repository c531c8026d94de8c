/** The connection table (src/libconnth/conn.c, poll.c) and the server's sweep
    over it (src/serverm.c): two parallel arrays, compacted on delete. */
module ConnTable {
  import opened Common

  datatype Kind = None_ | ServerLocal | ServerNet | ClientLocal | ClientNet

  /** struct conn_element_st: what identifies the client and its thread's state. */
  datatype Ce = Ce(kind: Kind, ip: Option<string>, created: bool, finished: bool, status: int)

  datatype Entry = Entry(fd: int, ce: Ce)

  datatype Table = Table(entries: seq<Entry>, nclients: int, nclientsmax: int)

  predicate IsNetClient(e: Entry) { e.ce.kind == ClientNet }

  predicate Stopped(e: Entry) { IsNetClient(e) && e.ce.created && e.ce.finished }

  // ---------- the operations ----------

  function Add(t: Table, fd: int, ce: Ce): Table
  {
    t.(entries := t.entries + [Entry(fd, ce)],
       nclients := t.nclients + if ce.kind == ClientNet then 1 else 0)
  }

  function Without(s: seq<Entry>, i: nat): seq<Entry>
    requires i < |s|
  {
    s[..i] + s[i + 1..]
  }

  function Delete(t: Table, i: nat): Table
    requires i < |t.entries|
  {
    t.(entries := Without(t.entries, i),
       nclients := t.nclients - if IsNetClient(t.entries[i]) then 1 else 0)
  }

  /** The first entry with that address, or |s|. */
  function Find(s: seq<Entry>, ip: string): (i: nat)
    ensures i <= |s|
    ensures i < |s| ==> s[i].ce.ip == Some(ip)
    ensures forall j :: 0 <= j < i ==> s[j].ce.ip != Some(ip)
  {
    if s == [] then 0 else if s[0].ce.ip == Some(ip) then 0 else 1 + Find(s[1..], ip)
  }

  function NewClient(ip: string): Ce { Ce(ClientNet, Some(ip), false, false, 0) }

  /** How the attempt to restore a closed connection goes: its status cannot be
      read, the new descriptor cannot be handed over, or all is well. */
  datatype Restore = Unreadable | NotHandedOver | HandedOver

  /** ... and the deletion of an old connection, the access check and the memory. */
  datatype NetEnv = NetEnv(restore: Restore, delOk: bool, allowed: bool, memory: bool)

  /** The connection is known to be closed and waiting to be restored. */
  predicate Waits(e: Entry, env: NetEnv) { e.ce.status == 1 && env.restore != Unreadable }

  /** poll_add_connection_net after accept(): an address already in the table is
      reconnected when its connection was closed and replaced otherwise. 0 added
      or restored, -1 no memory, -3 refused. */
  function AddNet(t: Table, fd: int, ip: string, env: NetEnv): (Table, int)
  {
    var i := Find(t.entries, ip);
    if i < |t.entries| && Waits(t.entries[i], env) then
      if env.restore == NotHandedOver then (t, -3)
      else (t.(entries := t.entries[i := Entry(fd, t.entries[i].ce.(status := 0))]), 0)
    else
      var t1 := if i < |t.entries| then Delete(t, i) else t;
      if i < |t.entries| && !env.delOk then (t1, -3)
      else if !env.allowed then (t1, -3)
      else if t1.nclientsmax >= 0 && t1.nclients == t1.nclientsmax then (t1, -3)
      else if !env.memory then (t1, -1)
      else (Add(t1, fd, NewClient(ip)), 0)
  }

  // ---------- what every operation keeps ----------

  function NetClients(s: seq<Entry>): nat
  {
    if s == [] then 0 else (if IsNetClient(s[0]) then 1 else 0) + NetClients(s[1..])
  }

  lemma {:induction false} NetClientsAppend(a: seq<Entry>, b: seq<Entry>)
    ensures NetClients(a + b) == NetClients(a) + NetClients(b)
  {
    if a == [] {
      assert a + b == b;
    } else {
      assert (a + b)[1..] == a[1..] + b;
      NetClientsAppend(a[1..], b);
    }
  }

  predicate DistinctIps(s: seq<Entry>)
  {
    forall i, j :: 0 <= i < j < |s| && s[i].ce.ip.Some? ==> s[i].ce.ip != s[j].ce.ip
  }

  /** nclients counts the network clients and respects a nonnegative maximum, and
      no two entries share an address. */
  predicate Inv(t: Table)
  {
    && t.nclients == NetClients(t.entries)
    && (t.nclientsmax >= 0 ==> t.nclients <= t.nclientsmax)
    && DistinctIps(t.entries)
  }

  lemma {:induction false} NetClientsWithout(s: seq<Entry>, i: nat)
    requires i < |s|
    ensures NetClients(Without(s, i)) == NetClients(s) - if IsNetClient(s[i]) then 1 else 0
  {
    if i == 0 {
      assert Without(s, i) == s[1..];
    } else {
      NetClientsWithout(s[1..], i - 1);
      assert Without(s, i)[1..] == Without(s[1..], i - 1);
    }
  }

  lemma DeleteKeepsInv(t: Table, i: nat)
    requires Inv(t) && i < |t.entries|
    ensures Inv(Delete(t, i))
  {
    NetClientsWithout(t.entries, i);
  }

  lemma AddKeepsInv(t: Table, fd: int, ce: Ce)
    requires Inv(t)
    requires ce.kind == ClientNet && t.nclientsmax >= 0 ==> t.nclients < t.nclientsmax
    requires ce.ip.Some? ==> Find(t.entries, ce.ip.value) == |t.entries|
    ensures Inv(Add(t, fd, ce))
  {
    NetClientsAppend(t.entries, [Entry(fd, ce)]);
  }

  lemma ReplaceKeepsInv(t: Table, i: nat, e: Entry)
    requires Inv(t) && i < |t.entries|
    requires e.ce.kind == t.entries[i].ce.kind && e.ce.ip == t.entries[i].ce.ip
    ensures Inv(t.(entries := t.entries[i := e]))
  {
    var s, s' := t.entries, t.entries[i := e];
    assert s == s[..i] + [s[i]] + s[i + 1..] && s' == s[..i] + [e] + s[i + 1..];
    NetClientsAppend(s[..i] + [s[i]], s[i + 1..]);
    NetClientsAppend(s[..i], [s[i]]);
    NetClientsAppend(s[..i] + [e], s[i + 1..]);
    NetClientsAppend(s[..i], [e]);
  }

  /** A deleted address is gone, so that the new connection is its only entry. */
  lemma FindAfterDelete(s: seq<Entry>, ip: string)
    requires DistinctIps(s) && Find(s, ip) < |s|
    ensures Find(Without(s, Find(s, ip)), ip) == |s| - 1
  {
    var i := Find(s, ip);
    var w := Without(s, i);
    forall k | 0 <= k < |w| ensures w[k].ce.ip != Some(ip) {
      assert w[k] == s[if k < i then k else k + 1];
    }
  }

  lemma AddNetKeepsInv(t: Table, fd: int, ip: string, env: NetEnv)
    requires Inv(t)
    ensures Inv(AddNet(t, fd, ip, env).0)
  {
    var i := Find(t.entries, ip);
    if i < |t.entries| && Waits(t.entries[i], env) {
      ReplaceKeepsInv(t, i, Entry(fd, t.entries[i].ce.(status := 0)));
    } else {
      var t1 := if i < |t.entries| then Delete(t, i) else t;
      if i < |t.entries| {
        DeleteKeepsInv(t, i);
        FindAfterDelete(t.entries, ip);
      }
      if !(t1.nclientsmax >= 0 && t1.nclients == t1.nclientsmax) {
        AddKeepsInv(t1, fd, NewClient(ip));
      }
    }
  }

  // ---------- who is let in ----------

  function Lookup(s: seq<Entry>, ip: string): Option<Entry>
  {
    if Find(s, ip) < |s| then Some(s[Find(s, ip)]) else None
  }

  lemma LookupIs(s: seq<Entry>, ip: string, i: nat)
    requires DistinctIps(s) && i < |s| && s[i].ce.ip == Some(ip)
    ensures Lookup(s, ip) == Some(s[i])
  {
  }

  /** Deleting an entry leaves all addresses but its own alone. */
  lemma LookupWithout(s: seq<Entry>, k: nat, a: string)
    requires DistinctIps(s) && k < |s|
    ensures Lookup(Without(s, k), a) == if s[k].ce.ip == Some(a) then None else Lookup(s, a)
  {
    var w, i := Without(s, k), Find(s, a);
    assert DistinctIps(w);
    if s[k].ce.ip != Some(a) && i < |s| {
      LookupIs(w, a, if i < k then i else i - 1);
    }
  }

  lemma LookupAppend(s: seq<Entry>, e: Entry, a: string)
    requires DistinctIps(s + [e])
    ensures Lookup(s + [e], a) == if e.ce.ip == Some(a) then Some(e) else Lookup(s, a)
  {
    if e.ce.ip == Some(a) {
      LookupIs(s + [e], a, |s|);
    } else if Find(s, a) < |s| {
      LookupIs(s + [e], a, Find(s, a));
    }
  }

  /** The address is known and its connection waits to be restored. */
  predicate Returns(t: Table, ip: string, env: NetEnv)
  {
    var e := Lookup(t.entries, ip);
    e.Some? && e.value.ce.status == 1 && env.restore != Unreadable
  }

  /** There is a place for one more client once the old connection is gone. */
  predicate HasPlace(t: Table, ip: string)
  {
    var e := Lookup(t.entries, ip);
    t.nclientsmax < 0 || NetClients(t.entries) - (if e.Some? && IsNetClient(e.value) then 1 else 0) < t.nclientsmax
  }

  /** The outcome of accepting a connection: a client that returns is let in if and
      only if its thread can be given the descriptor; any other if and only if its
      old connection, if it has one, could be deleted, it is allowed, there is a
      place, and there is memory. */
  lemma AdmittedExactlyWhen(t: Table, fd: int, ip: string, env: NetEnv)
    requires Inv(t)
    ensures var status := AddNet(t, fd, ip, env).1;
            var known := Lookup(t.entries, ip).Some?;
            var may := (known ==> env.delOk) && env.allowed && HasPlace(t, ip);
            && (status == 0 <==> if Returns(t, ip, env) then env.restore == HandedOver else may && env.memory)
            && (status == -1 <==> !Returns(t, ip, env) && may && !env.memory)
            && status in {0, -1, -3}
  {
    var i := Find(t.entries, ip);
    if i < |t.entries| {
      DeleteKeepsInv(t, i);
    }
  }

  /** A client that is let in is in the table with just this descriptor and an open
      connection: as the client it was when it returns, and as a new one otherwise.
      One that is not is as it was when it waits to return, and gone otherwise. */
  lemma AdmittedIsServed(t: Table, fd: int, ip: string, env: NetEnv)
    requires Inv(t)
    ensures var (u, status) := AddNet(t, fd, ip, env);
            var before := Lookup(t.entries, ip);
            && Lookup(u.entries, ip) ==
               (if status == 0 then
                  Some(Entry(fd, if Returns(t, ip, env) then before.value.ce.(status := 0)
                                 else Ce(ClientNet, Some(ip), false, false, 0)))
                else if Returns(t, ip, env) then before else None)
            && |u.entries| == |t.entries| + (if Returns(t, ip, env) then 0
                                             else (if status == 0 then 1 else 0) - (if before.Some? then 1 else 0))
            && forall a :: a != ip ==> Lookup(u.entries, a) == Lookup(t.entries, a)
  {
    var (u, status) := AddNet(t, fd, ip, env);
    AddNetKeepsInv(t, fd, ip, env);
    var i := Find(t.entries, ip);
    if Returns(t, ip, env) {
      forall a ensures a != ip ==> Lookup(u.entries, a) == Lookup(t.entries, a) {
        if a != ip && Find(t.entries, a) < |t.entries| {
          LookupIs(u.entries, a, Find(t.entries, a));
        }
      }
      if status == 0 {
        LookupIs(u.entries, ip, i);
      }
    } else {
      NotReturning(t, fd, ip, env);
      hide AddNet;
      var t1 := if i < |t.entries| then Delete(t, i) else t;
      forall a ensures Lookup(t1.entries, a) == if a == ip then None else Lookup(t.entries, a) {
        if i < |t.entries| {
          LookupWithout(t.entries, i, a);
        }
      }
      if status == 0 {
        forall a { LookupAppend(t1.entries, Entry(fd, NewClient(ip)), a); }
      }
    }
  }

  lemma NotReturning(t: Table, fd: int, ip: string, env: NetEnv)
    requires !Returns(t, ip, env)
    ensures var (u, status) := AddNet(t, fd, ip, env);
            var i := Find(t.entries, ip);
            var t1 := if i < |t.entries| then Delete(t, i) else t;
            u.entries == t1.entries + if status == 0 then [Entry(fd, NewClient(ip))] else []
  {
  }

  // ---------- every run ----------

  /** What can happen to the table, the threads' own updates included. */
  datatype Op =
    | NetOp(fd: int, ip: string, env: NetEnv)
    | OtherOp(fd: int, kind: Kind)
    | DeleteOp(i: nat)
    | ThreadOp(i: nat, created: bool, finished: bool, status: int)

  function Apply(t: Table, op: Op): Table
  {
    match op
    case NetOp(fd, ip, env) => AddNet(t, fd, ip, env).0
    case OtherOp(fd, kind) => if kind == ClientNet then t else Add(t, fd, Ce(kind, None, false, false, 0))
    case DeleteOp(i) => if i < |t.entries| then Delete(t, i) else t
    case ThreadOp(i, created, finished, status) =>
      if i < |t.entries| then
        t.(entries := t.entries[i := Entry(t.entries[i].fd,
             t.entries[i].ce.(created := created, finished := finished, status := status))])
      else t
  }

  function RunOps(t: Table, ops: seq<Op>): Table
  {
    if ops == [] then t else Apply(RunOps(t, ops[..|ops| - 1]), ops[|ops| - 1])
  }

  lemma {:induction false} RunKeepsInv(t: Table, ops: seq<Op>)
    requires Inv(t)
    ensures Inv(RunOps(t, ops))
  {
    if ops != [] {
      RunKeepsInv(t, ops[..|ops| - 1]);
      var u := RunOps(t, ops[..|ops| - 1]);
      match ops[|ops| - 1]
      case NetOp(fd, ip, env) => AddNetKeepsInv(u, fd, ip, env);
      case OtherOp(fd, kind) =>
        if kind != ClientNet {
          AddKeepsInv(u, fd, Ce(kind, None, false, false, 0));
        }
      case DeleteOp(i) =>
        if i < |u.entries| {
          DeleteKeepsInv(u, i);
        }
      case ThreadOp(i, created, finished, status) =>
        if i < |u.entries| {
          ReplaceKeepsInv(u, i, Entry(u.entries[i].fd,
            u.entries[i].ce.(created := created, finished := finished, status := status)));
        }
    }
  }

  /** Client a stands before client b in the table. */
  ghost predicate Precedes(s: seq<Entry>, a: string, b: string)
  {
    exists i, j :: 0 <= i < j < |s| && s[i].ce.ip == Some(a) && s[j].ce.ip == Some(b)
  }

  predicate Has(s: seq<Entry>, ip: string) { Find(s, ip) < |s| }

  /** The operation drops a's old connection and enters a new one at the end. */
  predicate Reenters(t: Table, op: Op, a: string)
  {
    op.NetOp? && op.ip == a && Has(t.entries, a) && !Waits(t.entries[Find(t.entries, a)], op.env)
  }

  lemma WithoutKeepsOrder(s: seq<Entry>, k: nat, a: string, b: string)
    requires DistinctIps(s) && k < |s| && Precedes(s, a, b)
    requires Has(Without(s, k), a) && Has(Without(s, k), b)
    ensures Precedes(Without(s, k), a, b)
  {
    var w := Without(s, k);
    var i, j :| 0 <= i < j < |s| && s[i].ce.ip == Some(a) && s[j].ce.ip == Some(b);
    var x, y := Find(w, a), Find(w, b);
    hide Find;
    assert w[x] == s[if x < k then x else x + 1] && w[y] == s[if y < k then y else y + 1];
    assert x == (if i < k then i else i - 1) && y == (if j < k then j else j - 1);
  }

  lemma AppendKeepsOrder(s: seq<Entry>, e: Entry, a: string, b: string)
    requires Precedes(s, a, b) || (Has(s, a) && e.ce.ip == Some(b))
    ensures Precedes(s + [e], a, b)
  {
    var t := s + [e];
    if Precedes(s, a, b) {
      var i, j :| 0 <= i < j < |s| && s[i].ce.ip == Some(a) && s[j].ce.ip == Some(b);
      assert t[i] == s[i] && t[j] == s[j];
    } else {
      assert t[Find(s, a)] == s[Find(s, a)] && t[|s|] == e;
    }
  }

  /** Survivors keep their order: whatever the operation, a still comes before b,
      unless a was dropped and entered anew. */
  lemma OrderKept(t: Table, op: Op, a: string, b: string)
    requires Inv(t) && Precedes(t.entries, a, b) && !Reenters(t, op, a)
    requires var u := Apply(t, op); Has(u.entries, a) && Has(u.entries, b)
    ensures Precedes(Apply(t, op).entries, a, b)
  {
    var s, u := t.entries, Apply(t, op).entries;
    var i, j :| 0 <= i < j < |s| && s[i].ce.ip == Some(a) && s[j].ce.ip == Some(b);
    match op
    case NetOp(fd, ip, env) => NetKeepsOrder(t, fd, ip, env, a, b);
    case OtherOp(fd, kind) =>
      if kind != ClientNet {
        AppendKeepsOrder(s, Entry(fd, Ce(kind, None, false, false, 0)), a, b);
      }
    case DeleteOp(k) =>
      if k < |s| {
        WithoutKeepsOrder(s, k, a, b);
      }
    case ThreadOp(k, created, finished, status) =>
      assert u[i].ce.ip == s[i].ce.ip && u[j].ce.ip == s[j].ce.ip;
  }

  lemma NetKeepsOrder(t: Table, fd: int, ip: string, env: NetEnv, a: string, b: string)
    requires Inv(t) && Precedes(t.entries, a, b)
    requires !Reenters(t, NetOp(fd, ip, env), a)
    requires var u := AddNet(t, fd, ip, env).0; Has(u.entries, a) && Has(u.entries, b)
    ensures Precedes(AddNet(t, fd, ip, env).0.entries, a, b)
  {
    if Returns(t, ip, env) {
      ReturnKeepsOrder(t, fd, ip, env, a, b);
    } else {
      NotReturning(t, fd, ip, env);
      hide AddNet;
      hide Precedes;
      var s, k, e := t.entries, Find(t.entries, ip), Entry(fd, NewClient(ip));
      var s1 := if k < |s| then Without(s, k) else s;
      if k < |s| {
        DroppedKeepsOrder(s, k, ip, a, b);
      }
      AppendKeepsOrder(s1, e, a, b);
      assert AddNet(t, fd, ip, env).1 != 0 ==> AddNet(t, fd, ip, env).0.entries == s1;
    }
  }

  lemma ReturnKeepsOrder(t: Table, fd: int, ip: string, env: NetEnv, a: string, b: string)
    requires Precedes(t.entries, a, b) && Returns(t, ip, env)
    ensures Precedes(AddNet(t, fd, ip, env).0.entries, a, b)
  {
    var s, u := t.entries, AddNet(t, fd, ip, env).0.entries;
    var i, j :| 0 <= i < j < |s| && s[i].ce.ip == Some(a) && s[j].ce.ip == Some(b);
    assert u[i].ce.ip == s[i].ce.ip && u[j].ce.ip == s[j].ce.ip;
  }

  /** Without the old connection of some other client, a is still there, and still
      before b unless that is the one dropped. */
  lemma DroppedKeepsOrder(s: seq<Entry>, k: nat, ip: string, a: string, b: string)
    requires DistinctIps(s) && k < |s| && s[k].ce.ip == Some(ip) && ip != a && Precedes(s, a, b)
    ensures Has(Without(s, k), a) && (ip != b ==> Precedes(Without(s, k), a, b))
    ensures ip == b ==> !Has(Without(s, k), b)
  {
    var i, j :| 0 <= i < j < |s| && s[i].ce.ip == Some(a) && s[j].ce.ip == Some(b);
    HasAfter(s, k, i, a);
    if ip != b {
      HasAfter(s, k, j, b);
      WithoutKeepsOrder(s, k, a, b);
    } else {
      LookupWithout(s, k, b);
    }
  }

  /** Throughout the run both clients are in the table, and a is never dropped and
      entered anew. */
  predicate BothStay(t: Table, ops: seq<Op>, a: string, b: string)
  {
    && Has(RunOps(t, ops).entries, a) && Has(RunOps(t, ops).entries, b)
    && (ops != [] ==>
          var n := |ops| - 1;
          BothStay(t, ops[..n], a, b) && !Reenters(RunOps(t, ops[..n]), ops[n], a))
  }

  /** Survivors keep their order over every run. */
  lemma {:induction false} OrderKeptOverRuns(t: Table, ops: seq<Op>, a: string, b: string)
    requires Inv(t) && Precedes(t.entries, a, b) && BothStay(t, ops, a, b)
    ensures Precedes(RunOps(t, ops).entries, a, b)
  {
    hide Precedes;
    hide Apply;
    hide Has;
    hide Reenters;
    if ops != [] {
      var n := |ops| - 1;
      RunKeepsInv(t, ops[..n]);
      OrderKeptOverRuns(t, ops[..n], a, b);
      OrderKept(RunOps(t, ops[..n]), ops[n], a, b);
    }
  }

  lemma HasAfter(s: seq<Entry>, k: nat, i: nat, a: string)
    requires k < |s| && i < |s| && i != k && s[i].ce.ip == Some(a)
    ensures Has(Without(s, k), a)
  {
    assert Without(s, k)[if i < k then i else i - 1] == s[i];
  }

  // ---------- the finished-client sweep ----------

  /** What one sweep leaves: it deletes at index i and then moves on to i + 1,
      so the entry that took the deleted one's place is not looked at. */
  function Sweep(s: seq<Entry>): seq<Entry>
    decreases |s|
  {
    if s == [] then []
    else if !Stopped(s[0]) then [s[0]] + Sweep(s[1..])
    else if |s| == 1 then []
    else [s[1]] + Sweep(s[2..])
  }

  function Others(s: seq<Entry>): seq<Entry>
  {
    if s == [] then [] else (if Stopped(s[0]) then [] else [s[0]]) + Others(s[1..])
  }

  function StoppedCount(s: seq<Entry>): nat
  {
    if s == [] then 0 else (if Stopped(s[0]) then 1 else 0) + StoppedCount(s[1..])
  }

  /** s is t with some stopped entries left out. */
  predicate OnlyStoppedGone(s: seq<Entry>, t: seq<Entry>)
    decreases |t|
  {
    if t == [] then s == []
    else
      || (s != [] && s[0] == t[0] && OnlyStoppedGone(s[1..], t[1..]))
      || (Stopped(t[0]) && OnlyStoppedGone(s, t[1..]))
  }

  /** One sweep removes only stopped network clients, in place, and at least half
      of them (rounded up). */
  lemma {:induction false} SweepHalves(s: seq<Entry>)
    ensures OnlyStoppedGone(Sweep(s), s)
    ensures Others(Sweep(s)) == Others(s)
    ensures 2 * StoppedCount(Sweep(s)) <= StoppedCount(s)
    decreases |s|
  {
    if s != [] {
      if !Stopped(s[0]) {
        SweepHalves(s[1..]);
        assert Sweep(s)[1..] == Sweep(s[1..]);
      } else if |s| > 1 {
        SweepHalves(s[2..]);
        assert s[1..][0] == s[1] && s[1..][1..] == s[2..];
        assert Sweep(s)[1..] == Sweep(s[2..]);
        assert OnlyStoppedGone(Sweep(s), s[1..]);
      }
    }
  }

  /** A sweep keeps every entry but network clients whose threads were created and
      have finished. */
  lemma {:induction false} KeptBySweep(s: seq<Entry>, e: Entry)
    requires e in s && !(e.ce.kind == ClientNet && e.ce.created && e.ce.finished)
    ensures e in Sweep(s)
    decreases |s|
  {
    if e == s[0] {
      assert e == Sweep(s)[0];
    } else if !Stopped(s[0]) {
      KeptBySweep(s[1..], e);
    } else if e == s[1] {
      assert e == Sweep(s)[0];
    } else {
      assert e in s[2..];
      KeptBySweep(s[2..], e);
    }
  }

  /** ... and a table that is cleared has none of those left. */
  lemma {:induction false} ClearedOfFinished(s: seq<Entry>, i: nat)
    requires i < |Others(s)|
    ensures !(Others(s)[i].ce.kind == ClientNet && Others(s)[i].ce.created && Others(s)[i].ce.finished)
  {
    if !Stopped(s[0]) {
      if i > 0 {
        ClearedOfFinished(s[1..], i - 1);
      }
    } else {
      ClearedOfFinished(s[1..], i);
    }
  }

  function Sweeps(s: seq<Entry>, k: nat): seq<Entry>
  {
    if k == 0 then s else Sweep(Sweeps(s, k - 1))
  }

  lemma {:induction false} NoneStopped(s: seq<Entry>)
    ensures StoppedCount(s) == 0 ==> Others(s) == s
  {
    if s != [] {
      NoneStopped(s[1..]);
    }
  }

  function Pow2(k: nat): nat { if k == 0 then 1 else 2 * Pow2(k - 1) }

  /** c halved k times. */
  function Halved(c: nat, k: nat): nat { if k == 0 then c else Halved(c, k - 1) / 2 }

  lemma {:induction false} HalvedBelow(c: nat, k: nat, m: nat)
    requires c < Pow2(k + m)
    ensures Halved(c, k) < Pow2(m)
  {
    if k > 0 {
      HalvedBelow(c, k - 1, m + 1);
    }
  }

  lemma {:induction false} SweepsHalve(s: seq<Entry>, k: nat)
    ensures StoppedCount(Sweeps(s, k)) <= Halved(StoppedCount(s), k)
    ensures Others(Sweeps(s, k)) == Others(s)
  {
    if k > 0 {
      SweepsHalve(s, k - 1);
      SweepHalves(Sweeps(s, k - 1));
    }
  }

  /** With no new stops, k sweeps clear a table of fewer than 2^k stopped clients. */
  lemma SweepsClear(s: seq<Entry>, k: nat)
    requires StoppedCount(s) < Pow2(k)
    ensures Sweeps(s, k) == Others(s)
  {
    SweepsHalve(s, k);
    HalvedBelow(StoppedCount(s), k, 0);
    NoneStopped(Sweeps(s, k));
  }

  // ---------- the table in memory ----------

  function Zip(fds: seq<int>, ces: seq<Ce>): (s: seq<Entry>)
    requires |fds| == |ces|
    ensures |s| == |fds|
    ensures forall i :: 0 <= i < |s| ==> s[i] == Entry(fds[i], ces[i])
  {
    seq(|fds|, i requires 0 <= i < |fds| && |fds| == |ces| => Entry(fds[i], ces[i]))
  }

  lemma ZipWithout(fds: seq<int>, ces: seq<Ce>, i: nat)
    requires |fds| == |ces| && i < |fds|
    ensures Zip(fds[..i] + fds[i + 1..], ces[..i] + ces[i + 1..]) == Without(Zip(fds, ces), i)
  {
  }

  /** The memmove over the deleted place of an array with n elements in use. */
  method MoveDown<T>(a: array<T>, i: nat, n: nat)
    requires i < n <= a.Length
    modifies a
    ensures a[..n - 1] == old(a[..n])[..i] + old(a[..n])[i + 1..]
  {
    ghost var s := a[..n];
    forall k | i <= k < n - 1 {
      a[k] := a[k + 1];
    }
    assert forall k :: 0 <= k < n - 1 ==> a[k] == if k < i then s[k] else s[k + 1];
    assert a[..n - 1] == s[..i] + s[i + 1..];
  }

  lemma ZipAppend(fds: seq<int>, ces: seq<Ce>, fd: int, c: Ce)
    requires |fds| == |ces|
    ensures Zip(fds + [fd], ces + [c]) == Zip(fds, ces) + [Entry(fd, c)]
  {
  }

  class ConnTable {
    var pfd: array<int>          // nmax is pfd.Length
    var ce: array<Ce>
    var n: nat
    var nclients: int
    const nclientsmax: int

    ghost predicate Valid()
      reads this
    {
      0 < pfd.Length == ce.Length && n <= pfd.Length
    }

    /** Entry i is made of pfd[i] and ce[i]. */
    ghost function Value(): Table
      requires Valid()
      reads this, pfd, ce
    {
      Table(Zip(pfd[..n], ce[..n]), nclients, nclientsmax)
    }

    constructor (maxclients: int)
      ensures Valid() && fresh(pfd) && fresh(ce) && Value() == Table([], 0, maxclients) && pfd.Length == 1
    {
      pfd := new int[1];
      ce := new Ce[1](_ => Ce(None_, None, false, false, 0));
      n, nclients := 0, 0;
      nclientsmax := maxclients;
    }

    /** Doubles both arrays, or neither. */
    method Grow(memory: bool) returns (status: int)
      requires Valid()
      modifies this`pfd, this`ce
      ensures Valid() && Value() == old(Value())
      ensures status == if memory then 0 else -1
      ensures memory ==> fresh(pfd) && fresh(ce) && pfd.Length == 2 * old(pfd.Length)
      ensures !memory ==> pfd == old(pfd) && ce == old(ce)
    {
      if !memory {
        return -1;
      }
      var newPfd := new int[2 * pfd.Length];
      var newCe := new Ce[2 * pfd.Length](_ => Ce(None_, None, false, false, 0));
      forall i | 0 <= i < n {
        newPfd[i] := pfd[i];
      }
      forall i | 0 <= i < n {
        newCe[i] := ce[i];
      }
      pfd, ce := newPfd, newCe;
      status := 0;
    }

    method AddElement(fd: int, c: Ce, memory: bool) returns (status: int)
      requires Valid()
      modifies this, pfd, ce
      ensures Valid() && (pfd == old(pfd) || fresh(pfd)) && (ce == old(ce) || fresh(ce))
      ensures status == if old(n) < old(pfd.Length) || memory then 0 else -1
      ensures Value() == if status == 0 then Add(old(Value()), fd, c) else old(Value())
    {
      if n == pfd.Length {
        var st := Grow(memory);
        if st != 0 {
          return -1;
        }
      }
      ZipAppend(pfd[..n], ce[..n], fd, c);
      ghost var fds, ces := pfd[..n], ce[..n];
      pfd[n] := fd;
      ce[n] := c;
      n := n + 1;
      assert pfd[..n] == fds + [fd] && ce[..n] == ces + [c];
      if c.kind == ClientNet {
        nclients := nclients + 1;
      }
      status := 0;
    }

    /** Moves everything above i down by one, in both arrays. */
    method DelElement(i: nat)
      requires Valid() && i < n
      modifies this`n, this`nclients, pfd, ce
      ensures Valid() && n == old(n) - 1 && Value() == Delete(old(Value()), i)
    {
      var isNetClient := ce[i].kind == ClientNet;
      ghost var fds, ces := pfd[..n], ce[..n];
      MoveDown(pfd, i, n);
      MoveDown(ce, i, n);
      n := n - 1;
      if isNetClient {
        nclients := nclients - 1;
      }
      ZipWithout(fds, ces, i);
    }

    method FindByIp(ip: string) returns (i: nat)
      requires Valid()
      ensures i == Find(Value().entries, ip)
    {
      ghost var s := Value().entries;
      i := 0;
      while i < n
        invariant 0 <= i <= n
        invariant forall j :: 0 <= j < i ==> s[j].ce.ip != Some(ip)
      {
        if ce[i].ip == Some(ip) {
          FindIsFirst(s, ip, i);
          return;
        }
        i := i + 1;
      }
      FindIsFirst(s, ip, i);
    }

    /** poll_add_connection_net for an accepted descriptor; room is whether the
        arrays had, or could get, a place for the new entry. */
    method AddConnectionNet(fd: int, ip: string, env: NetEnv)
      returns (status: int, ghost room: bool)
      requires Valid()
      modifies this, pfd, ce
      ensures Valid() && (pfd == old(pfd) || fresh(pfd)) && (ce == old(ce) || fresh(ce))
      ensures env.memory ==> room
      ensures (Value(), status) == AddNet(old(Value()), fd, ip, env.(memory := room))
    {
      room := true;
      ghost var t := Value();
      var i := FindByIp(ip);
      if i < n {
        if ce[i].status == 1 && env.restore != Unreadable {
          if env.restore == NotHandedOver {
            return -3, room;
          }
          ce[i] := ce[i].(status := 0);
          pfd[i] := fd;
          assert Value().entries == t.entries[i := Entry(fd, t.entries[i].ce.(status := 0))];
          return 0, room;
        }
        DelElement(i);
        if !env.delOk {
          return -3, room;
        }
      }
      if !env.allowed {
        return -3, room;
      }
      if nclientsmax >= 0 && nclients == nclientsmax {
        return -3, room;
      }
      room := n < pfd.Length || env.memory;
      status := AddElement(fd, NewClient(ip), env.memory);
    }

    /** process_finished_connections */
    method RemoveFinished()
      requires Valid()
      modifies this`n, this`nclients, pfd, ce
      ensures Valid() && Value().entries == Sweep(old(Value()).entries)
      ensures old(Inv(Value())) ==> Inv(Value())
    {
      ghost var goal := Sweep(Value().entries);
      var i := 0;
      while i < n
        invariant Valid() && 0 <= i <= n + 1
        invariant i <= n ==> Value().entries[..i] + Sweep(Value().entries[i..]) == goal
        invariant i == n + 1 ==> Value().entries == goal
        invariant old(Inv(Value())) ==> Inv(Value())
        decreases n + 1 - i
      {
        ghost var t, s := Value(), Value().entries;
        if ce[i].kind == ClientNet && ce[i].created && ce[i].finished {
          DelElement(i);
          if Inv(t) {
            DeleteKeepsInv(t, i);
          }
          if i + 1 < |s| {
            SweepDeleted(s, i);
          } else {
            SweepDeletedLast(s, i);
          }
        } else {
          SweepKept(s, i);
        }
        i := i + 1;
      }
    }
  }

  lemma FindIsFirst(s: seq<Entry>, ip: string, i: nat)
    requires i <= |s| && forall j :: 0 <= j < i ==> s[j].ce.ip != Some(ip)
    requires i < |s| ==> s[i].ce.ip == Some(ip)
    ensures Find(s, ip) == i
  {
  }

  lemma SweepKept(s: seq<Entry>, i: nat)
    requires i < |s| && !Stopped(s[i])
    ensures s[..i + 1] + Sweep(s[i + 1..]) == s[..i] + Sweep(s[i..])
  {
    assert s[i..][1..] == s[i + 1..];
  }

  lemma SweepDeleted(s: seq<Entry>, i: nat)
    requires i + 1 < |s| && Stopped(s[i])
    ensures var w := Without(s, i);
            w[..i + 1] + Sweep(w[i + 1..]) == s[..i] + Sweep(s[i..])
  {
    var w, tail := Without(s, i), s[i..];
    assert tail[1] == s[i + 1] && tail[2..] == s[i + 2..];
    assert Sweep(tail) == [s[i + 1]] + Sweep(s[i + 2..]);
    assert w[i] == s[i + 1];
    assert w[..i] == s[..i];
    assert w[..i + 1] == s[..i] + [s[i + 1]];
    assert w[i + 1..] == s[i + 2..];
  }

  lemma SweepDeletedLast(s: seq<Entry>, i: nat)
    requires i + 1 == |s| && Stopped(s[i])
    ensures Without(s, i) == s[..i] + Sweep(s[i..])
  {
    assert s[i..] == [s[i]];
    assert s[i + 1..] == [];
  }
}
