/** The processor queue (src/pctldb.c and src/pctlmfdb.c): product records in a
    Berkeley DB queue, their memory files in a B-tree keyed by the time of
    insertion. R is the record type. */
module PctlDb {
  import opened Common
  import opened MFile

  datatype Timespec = Timespec(sec: int, nsec: int)

  /** The order of the B-tree. */
  function TimespecCmp(a: Timespec, b: Timespec): int
  {
    if a.sec != b.sec then (if a.sec < b.sec then -1 else 1)
    else if a.nsec != b.nsec then (if a.nsec < b.nsec then -1 else 1)
    else 0
  }

  predicate Before(a: Timespec, b: Timespec) { TimespecCmp(a, b) < 0 }

  datatype Limits = Limits(soft: nat, hard: nat, mfSoftMb: nat, mfHardMb: nat)

  const MB: nat := 1024 * 1024

  datatype Item<R> = Item(rec: R, ts: Timespec)

  datatype Db<R> = Db(
    queue: seq<Item<R>>, store: map<Timespec, Bytes>,
    n: nat, total: nat, last: Timespec, limits: Limits)

  const ZERO_TIME := Timespec(0, 0)

  function Empty<R>(limits: Limits): Db<R> { Db([], map[], 0, 0, ZERO_TIME, limits) }

  /** The insertion time: one nanosecond past the last one when the clock did
      not separate the two. */
  function Stamp(clock: Timespec, last: Timespec): Timespec
  {
    if clock.sec == last.sec && clock.nsec <= last.nsec then Timespec(clock.sec, last.nsec + 1) else clock
  }

  predicate HardLimit(l: Limits, n: nat, total: nat, size: nat)
  {
    || (l.mfHardMb > 0 && total + size > l.mfHardMb * MB)
    || (l.hard > 0 && n == l.hard)
  }

  predicate SoftLimit(l: Limits, n: nat, total: nat)
  {
    || (l.mfSoftMb > 0 && total > l.mfSoftMb * MB)
    || (l.soft > 0 && n >= l.soft)
  }

  /** pctldb_send_pce: the new state and 0, 1 (soft limit) or 2 (rejected). */
  function Send<R>(db: Db<R>, rec: R, bytes: Bytes, clock: Timespec): (Db<R>, int)
  {
    var ts := Stamp(clock, db.last);
    if HardLimit(db.limits, db.n, db.total, |bytes|) then (db.(last := ts), 2)
    else
      var d := db.(last := ts, queue := db.queue + [Item(rec, ts)], n := db.n + 1,
                   store := db.store[ts := bytes], total := db.total + |bytes|);
      (d, if SoftLimit(d.limits, d.n, d.total) then 1 else 0)
  }

  datatype Received<R> = Nothing | Lost | Got(rec: R, bytes: Bytes)

  /** pctldb_rcv_pce. The B-tree entry is deleted even when its bytes could not
      be fetched (`room` is false), and then the total does not go down. */
  function Receive<R>(db: Db<R>, room: bool): (Db<R>, Received<R>)
  {
    if db.n == 0 || db.queue == [] then (db, Nothing)
    else
      var item := db.queue[0];
      var d := db.(queue := db.queue[1..], n := db.n - 1);
      if item.ts !in db.store then (d, Lost)
      else
        var bytes := db.store[item.ts];
        var d' := d.(store := db.store - {item.ts});
        if !room then (d', Lost)
        else (d'.(total := if db.total > |bytes| then db.total - |bytes| else 0), Got(item.rec, bytes))
  }

  // ---------- the reference: one FIFO, no clock, no keys ----------

  function TotalSize<R>(q: seq<(R, Bytes)>): nat
  {
    if q == [] then 0 else |q[0].1| + TotalSize(q[1..])
  }

  lemma {:induction false} TotalSizeAppend<R>(a: seq<(R, Bytes)>, b: seq<(R, Bytes)>)
    ensures TotalSize(a + b) == TotalSize(a) + TotalSize(b)
  {
    if a == [] {
      assert a + b == b;
    } else {
      assert (a + b)[1..] == a[1..] + b;
      TotalSizeAppend(a[1..], b);
    }
  }

  /** More products, or more megabytes of them, than the hard limits allow; a limit
      of 0 is none. */
  predicate Overfull<R>(q: seq<(R, Bytes)>, l: Limits)
  {
    || (0 < l.hard < |q|)
    || (0 < l.mfHardMb && l.mfHardMb * 1048576 < TotalSize(q))
  }

  /** As many products as the soft limit, or more megabytes. */
  predicate Crowded<R>(q: seq<(R, Bytes)>, l: Limits)
  {
    || (0 < l.soft <= |q|)
    || (0 < l.mfSoftMb && l.mfSoftMb * 1048576 < TotalSize(q))
  }

  function FifoSend<R>(q: seq<(R, Bytes)>, l: Limits, rec: R, bytes: Bytes): seq<(R, Bytes)>
  {
    if Overfull(q + [(rec, bytes)], l) then q else q + [(rec, bytes)]
  }

  // ---------- refinement ----------

  /** Insertion times strictly increase in the B-tree's order. */
  predicate Ordered<R>(db: Db<R>)
  {
    && (forall i, j :: 0 <= i < j < |db.queue| ==> Before(db.queue[i].ts, db.queue[j].ts))
    && (forall i :: 0 <= i < |db.queue| ==> !Before(db.last, db.queue[i].ts))
  }

  /** No two records share a key. */
  predicate Distinct<R>(db: Db<R>)
  {
    forall i, j :: 0 <= i < j < |db.queue| ==> db.queue[i].ts != db.queue[j].ts
  }

  /** Every record has its bytes and nothing else is stored. */
  predicate Linked<R>(db: Db<R>)
  {
    db.store.Keys == set i | 0 <= i < |db.queue| :: db.queue[i].ts
  }

  /** The queue as the processor will see it. */
  function Fifo<R>(db: Db<R>): (q: seq<(R, Bytes)>)
    requires Linked(db)
    ensures |q| == |db.queue|
    ensures forall i :: 0 <= i < |q| ==> q[i] == (db.queue[i].rec, db.store[db.queue[i].ts])
  {
    seq(|db.queue|, i requires 0 <= i < |db.queue| => (db.queue[i].rec, db.store[db.queue[i].ts]))
  }

  /** Both counters are exact and within the hard limits. */
  predicate Counted<R>(db: Db<R>)
    requires Linked(db)
  {
    && db.n == |db.queue|
    && db.total == TotalSize(Fifo(db))
    && !Overfull(Fifo(db), db.limits)
  }

  predicate Inv<R>(db: Db<R>)
  {
    Ordered(db) && Linked(db) && Counted(db)
  }

  lemma EmptyInv<R>(l: Limits)
    ensures Inv(Empty<R>(l)) && Fifo(Empty<R>(l)) == []
  {
  }

  lemma SendOrdered<R>(db: Db<R>, rec: R, bytes: Bytes, clock: Timespec)
    requires Ordered(db) && db.last.sec <= clock.sec
    ensures Ordered(Send(db, rec, bytes, clock).0)
    ensures forall i :: 0 <= i < |db.queue| ==> Before(db.queue[i].ts, Stamp(clock, db.last))
    ensures Before(db.last, Stamp(clock, db.last))
  {
  }

  /** Under a fresh stamp the send is a FIFO send. */
  lemma FreshSend<R>(db: Db<R>, rec: R, bytes: Bytes, clock: Timespec)
    requires Linked(db) && Counted(db) && Stamp(clock, db.last) !in db.store
    ensures var d := Send(db, rec, bytes, clock).0;
            Linked(d) && Counted(d) && Fifo(d) == FifoSend(Fifo(db), db.limits, rec, bytes)
  {
    var (d, status) := Send(db, rec, bytes, clock);
    SendStatus(db, rec, bytes, clock);
    if status == 2 {
      assert Fifo(d) == Fifo(db);
    } else {
      SendLinked(db, rec, bytes, clock);
      TotalSizeAppend(Fifo(db), [(rec, bytes)]);
    }
  }

  /** A send is rejected if and only if the queue would be too large with it, and
      warns if and only if the queue is crowded then. */
  lemma SendStatus<R>(db: Db<R>, rec: R, bytes: Bytes, clock: Timespec)
    requires Linked(db) && Counted(db)
    ensures var status := Send(db, rec, bytes, clock).1;
            var q := Fifo(db) + [(rec, bytes)];
            && (status == 2 <==> Overfull(q, db.limits))
            && (status == 1 <==> !Overfull(q, db.limits) && Crowded(q, db.limits))
            && status in {0, 1, 2}
  {
    TotalSizeAppend(Fifo(db), [(rec, bytes)]);
  }

  lemma SendLinked<R>(db: Db<R>, rec: R, bytes: Bytes, clock: Timespec)
    requires Linked(db) && !HardLimit(db.limits, db.n, db.total, |bytes|)
    ensures var d := Send(db, rec, bytes, clock).0;
            && Linked(d)
            && (Stamp(clock, db.last) !in db.store ==> Fifo(d) == Fifo(db) + [(rec, bytes)])
  {
    var d := Send(db, rec, bytes, clock).0;
    var n := |db.queue|;
    forall t ensures t in d.store <==> t in set i | 0 <= i < |d.queue| :: d.queue[i].ts {
      if t in db.store {
        var i :| 0 <= i < n && db.queue[i].ts == t;
        assert d.queue[i].ts == t;
      } else if t == Stamp(clock, db.last) {
        assert d.queue[n].ts == t;
      }
    }
  }

  /** A send is a FIFO send whenever the clock's seconds have not gone back. */
  lemma SendRefines<R>(db: Db<R>, rec: R, bytes: Bytes, clock: Timespec)
    requires Inv(db) && db.last.sec <= clock.sec
    ensures var d := Send(db, rec, bytes, clock).0;
            && Inv(d)
            && Fifo(d) == FifoSend(Fifo(db), db.limits, rec, bytes)
            && d.last.sec == clock.sec && Before(db.last, d.last)
            && d.limits == db.limits
  {
    SendOrdered(db, rec, bytes, clock);
    assert Stamp(clock, db.last) !in db.store;
    FreshSend(db, rec, bytes, clock);
  }

  /** A receive hands out the oldest product with the bytes it was sent with. */
  lemma ReceiveRefines<R>(db: Db<R>)
    requires Inv(db)
    ensures var (d, r) := Receive(db, true);
            && Inv(d)
            && (if Fifo(db) == [] then r == Nothing && d == db
                else r == Got(Fifo(db)[0].0, Fifo(db)[0].1) && Fifo(d) == Fifo(db)[1..])
            && d.last == db.last && d.limits == db.limits
  {
    if db.queue != [] {
      OrderedDistinct(db);
      ReceiveOrdered(db, true);
      ReceiveLinked(db, true);
    }
  }

  lemma OrderedDistinct<R>(db: Db<R>)
    requires Ordered(db)
    ensures Distinct(db)
  {
    forall i, j | 0 <= i < j < |db.queue| ensures db.queue[i].ts != db.queue[j].ts {
      assert Before(db.queue[i].ts, db.queue[j].ts);
    }
  }

  lemma ReceiveOrdered<R>(db: Db<R>, room: bool)
    requires Ordered(db) && db.queue != [] && db.n > 0
    ensures Ordered(Receive(db, room).0)
  {
  }

  /** With keys of their own, receiving one record leaves the others their bytes. */
  lemma ReceiveLinked<R>(db: Db<R>, room: bool)
    requires Distinct(db) && Linked(db) && db.queue != [] && db.n > 0
    ensures var d := Receive(db, room).0;
            Distinct(d) && Linked(d) && Fifo(d) == Fifo(db)[1..]
  {
    TailLinked(db);
    hide Linked;
    hide Distinct;
    var t, d := Tail(db), Receive(db, room).0;
    assert db.queue[0].ts in db.store by { StoredAt(db, 0); }
    SameFifo(d, t);
  }

  /** The queue without its first record and that one's bytes. */
  function Tail<R>(db: Db<R>): Db<R>
    requires db.queue != []
  {
    db.(queue := db.queue[1..], store := db.store - {db.queue[0].ts})
  }

  /** The queue depends on the records and the bytes alone. */
  lemma SameFifo<R>(a: Db<R>, b: Db<R>)
    requires a.queue == b.queue && a.store == b.store
    ensures Distinct(a) == Distinct(b) && Linked(a) == Linked(b)
    ensures Linked(a) ==> Fifo(a) == Fifo(b)
  {
  }

  lemma TailKeys<R>(db: Db<R>)
    requires Distinct(db) && Linked(db) && db.queue != []
    ensures Distinct(Tail(db)) && Linked(Tail(db))
  {
    var d := Tail(db);
    KeysOfTail(db.queue);
    assert d.store.Keys == db.store.Keys - {db.queue[0].ts};
    assert forall i :: 0 <= i < |d.queue| ==> d.queue[i] == db.queue[i + 1];
  }

  lemma StoredAt<R>(db: Db<R>, i: nat)
    requires Linked(db) && i < |db.queue|
    ensures db.queue[i].ts in db.store
  {
  }

  lemma TailLinked<R>(db: Db<R>)
    requires Distinct(db) && Linked(db) && db.queue != []
    ensures Distinct(Tail(db)) && Linked(Tail(db)) && Fifo(Tail(db)) == Fifo(db)[1..]
  {
    hide Distinct;
    hide Linked;
    TailKeys(db);
    var d := Tail(db);
    forall i | 0 <= i < |d.queue| ensures Fifo(d)[i] == Fifo(db)[i + 1] {
      StoredAt(d, i);
      StoredAt(db, i + 1);
      assert d.queue[i] == db.queue[i + 1];
    }
  }

  lemma KeysOfTail<R>(q: seq<Item<R>>)
    requires q != [] && forall i, j :: 0 <= i < j < |q| ==> q[i].ts != q[j].ts
    ensures (set i | 0 <= i < |q[1..]| :: q[1..][i].ts) == (set i | 0 <= i < |q| :: q[i].ts) - {q[0].ts}
  {
    var rest := q[1..];
    var all, some := set i | 0 <= i < |q| :: q[i].ts, set i | 0 <= i < |rest| :: rest[i].ts;
    forall t | t in all - {q[0].ts} ensures t in some {
      var i :| 0 <= i < |q| && q[i].ts == t;
      assert rest[i - 1].ts == t;
    }
    forall t | t in some ensures t in all - {q[0].ts} {
      var i :| 0 <= i < |rest| && rest[i].ts == t;
      assert q[i + 1].ts == t;
    }
  }

  // ---------- exactly when ----------

  /** What k receives in a row return. */
  function Drain<R>(db: Db<R>, k: nat): (r: seq<Received<R>>)
    ensures |r| == k
    decreases k
  {
    if k == 0 then [] else [Receive(db, true).1] + Drain(Receive(db, true).0, k - 1)
  }

  function GotAll<R>(q: seq<(R, Bytes)>): (r: seq<Received<R>>)
    ensures |r| == |q|
  {
    if q == [] then [] else [Got(q[0].0, q[0].1)] + GotAll(q[1..])
  }

  lemma {:induction false} GotEach<R>(q: seq<(R, Bytes)>, i: nat)
    requires i < |q|
    ensures GotAll(q)[i] == Got(q[i].0, q[i].1)
  {
    if i > 0 {
      GotEach(q[1..], i - 1);
    }
  }

  lemma {:induction false} DrainIsFifo<R>(db: Db<R>)
    requires Linked(db) && Distinct(db) && db.n == |db.queue|
    ensures Drain(db, |db.queue|) == GotAll(Fifo(db))
    decreases |db.queue|
  {
    hide Linked;
    hide Distinct;
    hide Receive;
    hide Fifo;
    if db.queue != [] {
      ReceiveLinked(db, true);
      ReceiveFirst(db);
      DrainIsFifo(Receive(db, true).0);
    }
  }

  lemma ReceiveFirst<R>(db: Db<R>)
    requires Linked(db) && db.queue != [] && db.n == |db.queue|
    ensures var (d, r) := Receive(db, true);
            r == Got(Fifo(db)[0].0, Fifo(db)[0].1) && d.n == |d.queue| == |db.queue| - 1
  {
    assert db.queue[0].ts in db.store;
  }

  /** When the last record's key is gone, or goes with an earlier record, the last
      receive loses its product. */
  lemma {:induction false} LastIsLost<R>(db: Db<R>, i: nat)
    requires db.queue != [] && db.n == |db.queue|
    requires var key := db.queue[|db.queue| - 1].ts;
             key !in db.store || (i < |db.queue| - 1 && db.queue[i].ts == key)
    ensures Drain(db, |db.queue|)[|db.queue| - 1] == Lost
    decreases |db.queue|
  {
    var m, d := |db.queue| - 1, Receive(db, true).0;
    if m > 0 {
      assert d.queue == db.queue[1..] && d.n == m;
      LastIsLost(d, if i == 0 then 0 else i - 1);
      assert Drain(db, m + 1)[m] == Drain(d, m)[m - 1];
    }
  }

  /** A send that is let in acts as a FIFO send, in that draining the queue returns
      all the products with the bytes they were sent with, if and only if its stamp
      is not a key already. Otherwise an older record's bytes are overwritten. */
  lemma FifoIffFreshStamp<R>(db: Db<R>, rec: R, bytes: Bytes, clock: Timespec)
    requires Linked(db) && Distinct(db) && db.n == |db.queue| && !HardLimit(db.limits, db.n, db.total, |bytes|)
    ensures var d := Send(db, rec, bytes, clock).0;
            Drain(d, |d.queue|) == GotAll(Fifo(db) + [(rec, bytes)]) <==> Stamp(clock, db.last) !in db.store
  {
    var d := Send(db, rec, bytes, clock).0;
    var ts, n := Stamp(clock, db.last), |db.queue|;
    if ts in db.store {
      var i :| 0 <= i < n && db.queue[i].ts == ts;
      assert d.queue[i] == db.queue[i] && d.queue[n].ts == ts;
      LastIsLost(d, i);
      GotEach(Fifo(db) + [(rec, bytes)], n);
    } else {
      SendLinked(db, rec, bytes, clock);
      SendDistinct(db, rec, bytes, clock);
      DrainIsFifo(d);
    }
  }

  lemma SendDistinct<R>(db: Db<R>, rec: R, bytes: Bytes, clock: Timespec)
    requires Linked(db) && Distinct(db) && Stamp(clock, db.last) !in db.store
    ensures Distinct(Send(db, rec, bytes, clock).0)
  {
    assert forall i :: 0 <= i < |db.queue| ==> db.queue[i].ts in db.store;
  }

  /** A clock that steps back a second and then forward again makes the first
      product come out with the bytes of the third. */
  lemma ClockBackMixesProducts()
    ensures var l := Limits(0, 0, 0, 0);
            var d1 := Send(Empty<nat>(l), 1, [11], Timespec(5, 0)).0;
            var d2 := Send(d1, 2, [22], Timespec(4, 0)).0;
            var d3 := Send(d2, 3, [33], Timespec(5, 0)).0;
            Receive(d3, true).1 == Got(1, [33])
  {
  }

  // ---------- whole runs ----------

  /** A receive may find memory for the product or not. */
  datatype Op<R> = SendOp(rec: R, bytes: Bytes, clock: Timespec) | ReceiveOp(room: bool)

  /** The seconds of the clock readings never go back, starting from `sec`. */
  predicate SecondsAdvance<R>(ops: seq<Op<R>>, sec: int)
  {
    ops == [] ||
    match ops[0]
    case SendOp(_, _, clock) => sec <= clock.sec && SecondsAdvance(ops[1..], clock.sec)
    case ReceiveOp(_) => SecondsAdvance(ops[1..], sec)
  }

  predicate AlwaysRoom<R>(ops: seq<Op<R>>)
  {
    forall i :: 0 <= i < |ops| && ops[i].ReceiveOp? ==> ops[i].room
  }

  function Apply<R>(db: Db<R>, op: Op<R>): Db<R>
  {
    match op
    case SendOp(rec, bytes, clock) => Send(db, rec, bytes, clock).0
    case ReceiveOp(room) => Receive(db, room).0
  }

  /** What the receives of a run return. */
  function Outputs<R>(db: Db<R>, ops: seq<Op<R>>): seq<Received<R>>
    decreases |ops|
  {
    if ops == [] then []
    else (if ops[0].ReceiveOp? then [Receive(db, ops[0].room).1] else []) + Outputs(Apply(db, ops[0]), ops[1..])
  }

  function FifoOutputs<R>(q: seq<(R, Bytes)>, l: Limits, ops: seq<Op<R>>): seq<Received<R>>
    decreases |ops|
  {
    if ops == [] then []
    else match ops[0]
      case SendOp(rec, bytes, _) => FifoOutputs(FifoSend(q, l, rec, bytes), l, ops[1..])
      case ReceiveOp(_) =>
        if q == [] then [Nothing] + FifoOutputs(q, l, ops[1..])
        else [Got(q[0].0, q[0].1)] + FifoOutputs(q[1..], l, ops[1..])
  }

  function Final<R>(db: Db<R>, ops: seq<Op<R>>): Db<R>
    decreases |ops|
  {
    if ops == [] then db else Final(Apply(db, ops[0]), ops[1..])
  }

  /** Records and B-tree together behave as one FIFO of (product, bytes), and
      the counters stay exact and within the hard limits. */
  lemma {:induction false} QueueIsFifo<R>(db: Db<R>, ops: seq<Op<R>>)
    requires Inv(db) && SecondsAdvance(ops, db.last.sec) && AlwaysRoom(ops)
    ensures Outputs(db, ops) == FifoOutputs(Fifo(db), db.limits, ops)
    ensures Inv(Final(db, ops))
    decreases |ops|
  {
    if ops != [] {
      hide Ordered;
      hide Linked;
      hide Counted;
      match ops[0]
      case SendOp(rec, bytes, clock) =>
        SendRefines(db, rec, bytes, clock);
        QueueIsFifo(Send(db, rec, bytes, clock).0, ops[1..]);
      case ReceiveOp(_) =>
        ReceiveRefines(db);
        QueueIsFifo(Receive(db, true).0, ops[1..]);
    }
  }

  /** The total is too high by `extra`. */
  predicate Drifted<R>(db: Db<R>, extra: nat)
  {
    Ordered(db) && Linked(db) && db.n == |db.queue| && db.total == TotalSize(Fifo(db)) + extra
  }

  /** The bytes of the product that an operation loses. */
  function LostBy<R>(db: Db<R>, op: Op<R>): nat
  {
    if op.ReceiveOp? && !op.room && db.queue != [] && db.queue[0].ts in db.store
    then |db.store[db.queue[0].ts]| else 0
  }

  /** ... and those that a run loses. */
  function LostBytes<R>(db: Db<R>, ops: seq<Op<R>>): nat
    decreases |ops|
  {
    if ops == [] then 0 else LostBy(db, ops[0]) + LostBytes(Apply(db, ops[0]), ops[1..])
  }

  lemma SendDrifts<R>(db: Db<R>, rec: R, bytes: Bytes, clock: Timespec, extra: nat)
    requires Drifted(db, extra) && db.last.sec <= clock.sec
    ensures Drifted(Send(db, rec, bytes, clock).0, extra) && Send(db, rec, bytes, clock).0.last.sec == clock.sec
  {
    SendOrdered(db, rec, bytes, clock);
    if !HardLimit(db.limits, db.n, db.total, |bytes|) {
      SendLinked(db, rec, bytes, clock);
      assert Stamp(clock, db.last) !in db.store;
      TotalSizeAppend(Fifo(db), [(rec, bytes)]);
    } else {
      assert Fifo(Send(db, rec, bytes, clock).0) == Fifo(db);
    }
  }

  lemma ReceiveDrifts<R>(db: Db<R>, room: bool, extra: nat)
    requires Drifted(db, extra)
    ensures Drifted(Receive(db, room).0, extra + if room || db.queue == [] then 0 else |Fifo(db)[0].1|)
    ensures Receive(db, room).0.last == db.last
    ensures !room && db.queue != [] ==> Receive(db, room).1 == Lost
  {
    if db.queue != [] {
      OrderedDistinct(db);
      ReceiveOrdered(db, room);
      ReceiveLinked(db, room);
    }
  }

  /** Over every run, with any receives that run out of memory: the total is what
      is stored and what was lost since, for good. */
  lemma {:induction false} LostReceivesDrift<R>(db: Db<R>, ops: seq<Op<R>>, extra: nat)
    requires Drifted(db, extra) && SecondsAdvance(ops, db.last.sec)
    ensures Drifted(Final(db, ops), extra + LostBytes(db, ops))
    decreases |ops|
  {
    hide Drifted;
    hide Apply;
    hide LostBy;
    if ops != [] {
      StepDrifts(db, ops[0], extra);
      LostReceivesDrift(Apply(db, ops[0]), ops[1..], extra + LostBy(db, ops[0]));
    }
  }

  /** The lost bytes take up room: a product is rejected as if they were stored. */
  lemma LostBytesTakeRoom<R>(db: Db<R>, rec: R, bytes: Bytes, clock: Timespec, extra: nat)
    requires Drifted(db, extra) && (0 < db.limits.hard ==> |db.queue| <= db.limits.hard)
    ensures var q, l := Fifo(db) + [(rec, bytes)], db.limits;
            Send(db, rec, bytes, clock).1 == 2 <==>
            (0 < l.hard < |q|) || (0 < l.mfHardMb && l.mfHardMb * 1048576 < TotalSize(q) + extra)
  {
    TotalSizeAppend(Fifo(db), [(rec, bytes)]);
  }

  lemma StepDrifts<R>(db: Db<R>, op: Op<R>, extra: nat)
    requires Drifted(db, extra) && (op.SendOp? ==> db.last.sec <= op.clock.sec)
    ensures Drifted(Apply(db, op), extra + LostBy(db, op))
    ensures Apply(db, op).last.sec == if op.SendOp? then op.clock.sec else db.last.sec
  {
    hide Send;
    hide Receive;
    match op
    case SendOp(rec, bytes, clock) => SendDrifts(db, rec, bytes, clock, extra);
    case ReceiveOp(room) =>
      ReceiveDrifts(db, room, extra);
      if db.queue != [] {
        StoredAt(db, 0);
        assert Fifo(db)[0].1 == db.store[db.queue[0].ts];
      }
  }

  // ---------- the queue object ----------

  class Pctldb<R> {
    var queue: seq<Item<R>>               // the record database
    var store: map<Timespec, Bytes>       // the B-tree
    var n: nat
    var mfTotalSize: nat
    var lastTsqueue: Timespec
    const limits: Limits

    ghost function Value(): Db<R>
      reads this
    {
      Db(queue, store, n, mfTotalSize, lastTsqueue, limits)
    }

    constructor (l: Limits)
      ensures Value() == Empty(l)
    {
      queue, store, n, mfTotalSize := [], map[], 0, 0;
      lastTsqueue := ZERO_TIME;
      limits := l;
    }

    method HardLimitReached(size: nat) returns (reached: bool)
      ensures reached == HardLimit(limits, n, mfTotalSize, size)
    {
      var newsize := mfTotalSize + size;
      if limits.mfHardMb > 0 {
        if newsize > limits.mfHardMb * MB {
          return true;
        }
      }
      if limits.hard > 0 {
        if n == limits.hard {
          return true;
        }
      }
      return false;
    }

    method SoftLimitReached() returns (reached: bool)
      ensures reached == SoftLimit(limits, n, mfTotalSize)
    {
      if limits.mfSoftMb > 0 {
        if mfTotalSize > limits.mfSoftMb * MB {
          return true;
        }
      }
      if limits.soft > 0 {
        if n >= limits.soft {
          return true;
        }
      }
      return false;
    }

    method SendPce(rec: R, mf: MemFile, clock: Timespec) returns (status: int)
      requires mf.Valid()
      modifies this
      ensures (Value(), status) == Send(old(Value()), rec, mf.Contents(), clock)
    {
      var tsqueue := clock;
      if tsqueue.sec == lastTsqueue.sec {
        if tsqueue.nsec <= lastTsqueue.nsec {
          tsqueue := tsqueue.(nsec := lastTsqueue.nsec + 1);
        }
      }
      lastTsqueue := tsqueue;
      status := 0;
      var full := HardLimitReached(mf.size);
      if full {
        status := 2;
      }
      if status == 0 {
        queue := queue + [Item(rec, tsqueue)];
        n := n + 1;
        store := store[tsqueue := mf.p[..mf.size]];
        mfTotalSize := mfTotalSize + mf.size;
        var soft := SoftLimitReached();
        if soft {
          status := 1;
        }
      }
    }

    /** The bytes go into the output memory file, which is reallocated to their
        size when they do not fit. */
    method RcvPce(mf: MemFile, limit: nat) returns (status: int, rec: Option<R>)
      requires Inv(Value()) && mf.Valid() && mf.Contents() == []
      modifies this, mf, mf.p
      ensures mf.Valid() && (mf.p == old(mf.p) || fresh(mf.p)) && mf.nread == 0
      ensures var room := old(n) == 0 || |old(store)[old(queue)[0].ts]| <= Max(old(mf.p.Length), limit);
              var (d, r) := Receive(old(Value()), room);
              && Value() == d
              && match r
                 case Nothing => status == 1 && rec == None
                 case Lost => status == -1
                 case Got(product, bytes) =>
                   status == 0 && rec == Some(product) && mf.Contents() == bytes
    {
      if n == 0 {
        return 1, None;
      }
      var item := queue[0];
      queue := queue[1..];
      n := n - 1;
      rec := Some(item.rec);
      var data := store[item.ts];
      var ok := |data| <= mf.p.Length;
      if !ok {
        var st := mf.Realloc(|data|, limit);
        ok := st == 0;
      }
      if ok {
        forall k | 0 <= k < |data| {
          mf.p[k] := data[k];
        }
        mf.size := |data|;
        status := 0;
        assert mf.Contents() == data;
      } else {
        mf.size := 0;
        status := -1;
      }
      store := store - {item.ts};
      if mfTotalSize > mf.size {
        mfTotalSize := mfTotalSize - mf.size;
      } else {
        mfTotalSize := 0;
      }
    }
  }
}
