/** The retransmission database (src/rtxdb.c): two generations of
    (sequence number, status) records, the older one dropped periodically. */
module RtxDb {
  import opened Common

  const OK: int := 0
  const FAIL: int := 1

  datatype Rtx = Rtx(current: map<nat, int>, previous: map<nat, int>)

  const EMPTY := Rtx(map[], map[])

  function Put(db: Rtx, seqnum: nat, fstatus: int): Rtx
  {
    db.(current := db.current[seqnum := fstatus])
  }

  function Get(db: Rtx, seqnum: nat): Option<int>
  {
    if seqnum in db.current then Some(db.current[seqnum])
    else if seqnum in db.previous then Some(db.previous[seqnum])
    else None
  }

  function Truncate(db: Rtx): Rtx { Rtx(map[], db.current) }

  // ---------- the history it stands for ----------

  datatype Op = PutOp(seqnum: nat, fstatus: int) | TruncateOp

  function Apply(db: Rtx, op: Op): Rtx
  {
    match op
    case PutOp(seqnum, fstatus) => Put(db, seqnum, fstatus)
    case TruncateOp => Truncate(db)
  }

  function RunOps(ops: seq<Op>): Rtx
  {
    if ops == [] then EMPTY else Apply(RunOps(ops[..|ops| - 1]), ops[|ops| - 1])
  }

  /** The latest put of the key, looking back over at most `left` truncates. */
  function Latest(ops: seq<Op>, seqnum: nat, left: nat): Option<int>
  {
    if ops == [] then None
    else
      var n := |ops| - 1;
      match ops[n]
      case PutOp(k, fstatus) => if k == seqnum then Some(fstatus) else Latest(ops[..n], seqnum, left)
      case TruncateOp => if left == 0 then None else Latest(ops[..n], seqnum, left - 1)
  }

  /** The two generations, one by one, are the history since the last truncate
      and the history between the last two. */
  lemma {:induction false} GenerationsAreHistory(ops: seq<Op>, seqnum: nat)
    ensures var db := RunOps(ops);
            && (if seqnum in db.current then Some(db.current[seqnum]) else None) == Latest(ops, seqnum, 0)
            && Get(db, seqnum) == Latest(ops, seqnum, 1)
  {
    if ops != [] {
      GenerationsAreHistory(ops[..|ops| - 1], seqnum);
    }
  }

  /** Looking a number up finds its latest put with fewer than two truncates since. */
  lemma LookupIsHistory(ops: seq<Op>, seqnum: nat)
    ensures Get(RunOps(ops), seqnum) == Latest(ops, seqnum, 1)
  {
    GenerationsAreHistory(ops, seqnum);
  }

  function Truncates(ops: seq<Op>): nat
  {
    if ops == [] then 0
    else Truncates(ops[..|ops| - 1]) + if ops[|ops| - 1].TruncateOp? then 1 else 0
  }

  predicate PutsKey(op: Op, seqnum: nat) { op.PutOp? && op.seqnum == seqnum }

  lemma {:induction false} LatestAfterPut(ops: seq<Op>, tail: seq<Op>, seqnum: nat, fstatus: int, left: nat)
    requires forall op :: op in tail ==> !PutsKey(op, seqnum)
    ensures Latest(ops + [PutOp(seqnum, fstatus)] + tail, seqnum, left) ==
            if Truncates(tail) <= left then Some(fstatus) else None
  {
    var all := ops + [PutOp(seqnum, fstatus)] + tail;
    if tail == [] {
      assert all[|all| - 1] == PutOp(seqnum, fstatus);
    } else {
      var n := |tail| - 1;
      assert all[..|all| - 1] == ops + [PutOp(seqnum, fstatus)] + tail[..n];
      assert all[|all| - 1] == tail[n] && !PutsKey(tail[n], seqnum);
      if tail[n].TruncateOp? {
        if left > 0 {
          LatestAfterPut(ops, tail[..n], seqnum, fstatus, left - 1);
        }
      } else {
        LatestAfterPut(ops, tail[..n], seqnum, fstatus, left);
      }
    }
  }

  /** A record that is not put again is visible through one truncate and gone
      after two. */
  lemma VisibleForOneTruncate(ops: seq<Op>, tail: seq<Op>, seqnum: nat, fstatus: int)
    requires forall op :: op in tail ==> !PutsKey(op, seqnum)
    ensures Get(RunOps(ops + [PutOp(seqnum, fstatus)] + tail), seqnum) ==
            if Truncates(tail) < 2 then Some(fstatus) else None
  {
    LookupIsHistory(ops + [PutOp(seqnum, fstatus)] + tail, seqnum);
    LatestAfterPut(ops, tail, seqnum, fstatus, 1);
  }

  // ---------- the database object ----------

  class Table {
    var records: map<nat, int>

    constructor ()
      ensures records == map[]
    {
      records := map[];
    }
  }

  class RtxDb {
    var dbpC: Table       // current
    var dbpO: Table       // previous

    ghost predicate Valid()
      reads this
    {
      dbpC != dbpO
    }

    ghost function Value(): Rtx
      reads this, dbpC, dbpO
    {
      Rtx(dbpC.records, dbpO.records)
    }

    constructor ()
      ensures Valid() && fresh(dbpC) && fresh(dbpO) && Value() == EMPTY
    {
      dbpC := new Table();
      dbpO := new Table();
    }

    method PutRecord(seqnum: nat, fstatus: int)
      requires Valid()
      modifies dbpC
      ensures Valid() && Value() == Put(old(Value()), seqnum, fstatus)
    {
      dbpC.records := dbpC.records[seqnum := fstatus];
    }

    method GetRecord(seqnum: nat) returns (fstatus: Option<int>)
      requires Valid()
      ensures fstatus == Get(Value(), seqnum)
    {
      if seqnum in dbpC.records {
        return Some(dbpC.records[seqnum]);
      }
      if seqnum in dbpO.records {
        return Some(dbpO.records[seqnum]);
      }
      return None;
    }

    /** The old table becomes the current one, emptied. */
    method TruncateDb()
      requires Valid()
      modifies this, dbpO
      ensures Valid() && {dbpC, dbpO} == {old(dbpC), old(dbpO)}
      ensures Value() == Truncate(old(Value()))
    {
      var dbp := dbpO;
      dbpO := dbpC;
      dbpC := dbp;
      dbp.records := map[];
    }
  }
}
