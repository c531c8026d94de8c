/** From frames to files: readers, processor queue and processor together, in
    any interleaving. */
module Pipeline {
  import opened Common
  import opened MFile
  import opened Assembly
  import opened Provenance
  import opened PctlDb
  import opened Processor
  import SD = SpoolDb

  datatype Pipe = Pipe(s: State, db: Db<Pce>, proc: Proc)

  /** A frame arrives (with the clock readings for the products it may send),
      the processor takes a product, or the retransmission database is truncated. */
  datatype PipeEvent =
    | FrameArrives(ev: Event, clocks: seq<Timespec>)
    | ProductTaken(rtxMatches: bool, save: Save, delOk: bool)
    | RtxTruncate

  /** The queue record; the memory file travels in the B-tree. */
  function Erase(p: Pce): Pce { p.(mf := []) }

  function Rejoin(x: (Pce, Bytes)): Pce { x.0.(mf := x.1) }

  function SendAll(db: Db<Pce>, products: seq<Pce>, clocks: seq<Timespec>): Db<Pce>
    requires |products| <= |clocks|
    decreases |products|
  {
    if products == [] then db
    else
      SendAll(PctlDb.Send(db, Erase(products[0]), products[0].mf, clocks[0]).0, products[1..], clocks[1..])
  }

  predicate ValidPipeEvent(e: PipeEvent, channels: nat)
  {
    e.FrameArrives? ==>
      && ValidEvent(e.ev, channels) && |e.clocks| >= 2
      && (e.ev.e.heading.Named? ==> e.ev.e.heading.fpath != "")
  }

  function PipeStep(p: Pipe, e: PipeEvent, unz: Unz): (q: Pipe)
    requires ValidPipeEvent(e, |p.s.pces|)
    ensures |q.s.pces| == |p.s.pces|
  {
    match e
    case FrameArrives(ev, clocks) =>
      var t := Step(p.s, ev);
      AtMostTwoSends(View(p.s, ev.f.channel), ev.f, ev.e);
      p.(s := t, db := SendAll(p.db, t.sent[|p.s.sent|..], clocks))
    case ProductTaken(matches, save, delOk) =>
      var (d, r) := Receive(p.db, true);
      if r.Got? then
        p.(db := d, proc := Process(p.proc, Rejoin((r.rec, r.bytes)), ProcEnv(matches, unz, save, delOk)))
      else p.(db := d)
    case RtxTruncate => p.(proc := ProcStep(p.proc, TruncateTick))
  }

  predicate ValidPipeRun(es: seq<PipeEvent>, channels: nat)
  {
    forall i :: 0 <= i < |es| ==> ValidPipeEvent(es[i], channels)
  }

  function PipeRun(p: Pipe, es: seq<PipeEvent>, unz: Unz): (q: Pipe)
    requires ValidPipeRun(es, |p.s.pces|)
    decreases |es|
  {
    if es == [] then p else PipeRun(PipeStep(p, es[0], unz), es[1..], unz)
  }

  /** The frames among the events, in order. */
  function FramesOf(es: seq<PipeEvent>): seq<Event>
  {
    if es == [] then []
    else (if es[0].FrameArrives? then [es[0].ev] else []) + FramesOf(es[1..])
  }

  predicate Ascending(clocks: seq<Timespec>, sec: int)
  {
    clocks == [] || (sec <= clocks[0].sec && Ascending(clocks[1..], clocks[0].sec))
  }

  function LastSec(clocks: seq<Timespec>, sec: int): int
  {
    if clocks == [] then sec else LastSec(clocks[1..], clocks[0].sec)
  }

  /** The seconds of the clock never go back. */
  predicate ClockAdvances(es: seq<PipeEvent>, sec: int)
  {
    es == [] ||
    if es[0].FrameArrives? then
      Ascending(es[0].clocks, sec) && ClockAdvances(es[1..], LastSec(es[0].clocks, sec))
    else ClockAdvances(es[1..], sec)
  }

  /** Everything queued was sent by the readers, and so was every product that was
      spooled or tried. */
  ghost predicate PipeInv(p: Pipe, unz: Unz)
  {
    && Inv(p.db)
    && (forall i :: 0 <= i < |Fifo(p.db)| ==> Rejoin(Fifo(p.db)[i]) in p.s.sent)
    && (forall i :: 0 <= i < |p.proc.files| ==> Spools(p.proc.files[i], p.s.sent, unz))
    && (forall i :: 0 <= i < |p.proc.ops| ==> TriedOf(p.proc.ops[i], p.s.sent, unz))
  }

  /** The file is what pce_spool_product makes of a complete product that was sent. */
  ghost predicate Spools(file: (Pce, Bytes), sent: seq<Pce>, unz: Unz)
  {
    file.0 in sent && file.0.complete && ProductData(file.0, unz) == Some(file.1)
  }

  /** What a failed attempt leaves of the data: less than all of it. */
  predicate Residue(data: Option<Bytes>, left: Bytes)
  {
    left == [] || (data.Some? && left < data.value)
  }

  ghost predicate TriedWith(op: SD.Op, x: Pce, unz: Unz)
  {
    && x.complete && !op.ReloadOp? && op.path == x.fpath
    && (if op.SaveOp? then ProductData(x, unz) == Some(op.data) else Residue(ProductData(x, unz), op.left))
  }

  /** The attempt was one to spool a complete product that was sent. */
  ghost predicate TriedOf(op: SD.Op, sent: seq<Pce>, unz: Unz)
  {
    exists i :: 0 <= i < |sent| && TriedWith(op, sent[i], unz)
  }

  lemma {:induction false} AscendingLast(clocks: seq<Timespec>, sec: int)
    requires Ascending(clocks, sec)
    ensures sec <= LastSec(clocks, sec)
  {
    if clocks != [] {
      AscendingLast(clocks[1..], clocks[0].sec);
    }
  }

  lemma {:induction false} SendAllInv(db: Db<Pce>, products: seq<Pce>, clocks: seq<Timespec>, sec: int, sent: seq<Pce>)
    requires Inv(db) && db.last.sec <= sec && Ascending(clocks, sec) && |products| <= |clocks|
    requires forall i :: 0 <= i < |Fifo(db)| ==> Rejoin(Fifo(db)[i]) in sent
    requires forall i :: 0 <= i < |products| ==> products[i] in sent
    ensures var d := SendAll(db, products, clocks);
            && Inv(d) && d.last.sec <= LastSec(clocks, sec)
            && forall i :: 0 <= i < |Fifo(d)| ==> Rejoin(Fifo(d)[i]) in sent
    decreases |products|
  {
    if products == [] {
      AscendingLast(clocks, sec);
    } else {
      var p := products[0];
      SendRefines(db, Erase(p), p.mf, clocks[0]);
      assert Rejoin((Erase(p), p.mf)) == p;
      SendAllInv(PctlDb.Send(db, Erase(p), p.mf, clocks[0]).0, products[1..], clocks[1..], clocks[0].sec, sent);
    }
  }

  lemma FrameStepInv(p: Pipe, e: PipeEvent, unz: Unz, sec: int)
    requires e.FrameArrives? && ValidPipeEvent(e, |p.s.pces|)
    requires PipeInv(p, unz) && p.db.last.sec <= sec && Ascending(e.clocks, sec)
    ensures var q := PipeStep(p, e, unz);
            PipeInv(q, unz) && q.db.last.sec <= LastSec(e.clocks, sec)
  {
    AtMostTwoSends(View(p.s, e.ev.f.channel), e.ev.f, e.ev.e);
    hide ProductData;
    hide TriedWith;
    var t := Step(p.s, e.ev);
    hide Step;
    assert forall i :: 0 <= i < |p.s.sent| ==> t.sent[i] == p.s.sent[i];
    assert forall x :: x in p.s.sent ==> x in t.sent;
    forall i | 0 <= i < |p.proc.ops| ensures TriedOf(p.proc.ops[i], t.sent, unz) {
      assert TriedOf(p.proc.ops[i], p.s.sent, unz);
      var k :| 0 <= k < |p.s.sent| && TriedWith(p.proc.ops[i], p.s.sent[k], unz);
      assert TriedWith(p.proc.ops[i], t.sent[k], unz);
    }
    SendAllInv(p.db, t.sent[|p.s.sent|..], e.clocks, sec, t.sent);
  }

  lemma TakeStepInv(p: Pipe, e: PipeEvent, unz: Unz)
    requires e.ProductTaken? && PipeInv(p, unz)
    ensures var q := PipeStep(p, e, unz);
            PipeInv(q, unz) && q.db.last == p.db.last
  {
    hide Receive;
    hide Process;
    hide ProductData;
    hide TriedWith;
    hide Linked;
    hide Ordered;
    hide Counted;
    ReceiveRefines(p.db);
    var q, queue := PipeStep(p, e, unz), Fifo(p.db);
    if queue != [] {
      assert Rejoin(queue[0]) in p.s.sent;
      ProcessWrites(p.proc, Rejoin(queue[0]), ProcEnv(e.rtxMatches, unz, e.save, e.delOk));
      forall i | 0 <= i < |Fifo(q.db)| ensures Rejoin(Fifo(q.db)[i]) in q.s.sent {
        assert Fifo(q.db)[i] == queue[i + 1];
      }
    }
  }

  lemma ProcessWrites(s: Proc, p: Pce, env: ProcEnv)
    ensures var t := Process(s, p, env);
            && (|| t.files == s.files
                || (&& p.complete && ProductData(p, env.unz).Some?
                    && t.files == s.files + [(p, ProductData(p, env.unz).value)]))
            && (|| t.ops == s.ops
                || (|t.ops| == |s.ops| + 1 && t.ops[..|s.ops|] == s.ops && TriedWith(t.ops[|s.ops|], p, env.unz)))
  {
    hide Process;
    ProcessTouches(s, p, env);
    SpooledExactlyWhen(p, env.unz, env.save);
    hide SpoolProduct;
    hide ProductData;
  }

  /** The invariant holds along every run. */
  lemma {:induction false} RunInv(p: Pipe, es: seq<PipeEvent>, unz: Unz, sec: int)
    requires ValidPipeRun(es, |p.s.pces|) && ClockAdvances(es, sec)
    requires PipeInv(p, unz) && p.db.last.sec <= sec
    ensures PipeInv(PipeRun(p, es, unz), unz)
    decreases |es|
  {
    if es != [] {
      var q := PipeStep(p, es[0], unz);
      match es[0]
      case FrameArrives(ev, clocks) =>
        FrameStepInv(p, es[0], unz, sec);
        RunInv(q, es[1..], unz, LastSec(clocks, sec));
      case ProductTaken(_, _, _) =>
        TakeStepInv(p, es[0], unz);
        RunInv(q, es[1..], unz, sec);
      case RtxTruncate =>
        RunInv(q, es[1..], unz, sec);
    }
  }

  lemma RunSnoc(s0: State, past: seq<Event>, ev: Event)
    requires ValidRun(past, |s0.pces|) && ValidEvent(ev, |s0.pces|)
    ensures Run(s0, past + [ev]) == Step(Run(s0, past), ev)
  {
    assert (past + [ev])[..|past|] == past;
  }

  lemma ReadersStep(p: Pipe, e: PipeEvent, unz: Unz)
    requires ValidPipeEvent(e, |p.s.pces|)
    ensures PipeStep(p, e, unz).s == if e.FrameArrives? then Step(p.s, e.ev) else p.s
  {
  }

  lemma FramesOfAfter(past: seq<Event>, es: seq<PipeEvent>)
    requires es != []
    ensures past + FramesOf(es) ==
            (if es[0].FrameArrives? then past + [es[0].ev] else past) + FramesOf(es[1..])
  {
  }

  /** The readers' part of a run is the run of its frames. */
  lemma {:induction false} ReadersRun(s0: State, past: seq<Event>, p: Pipe, es: seq<PipeEvent>, unz: Unz)
    requires ValidRun(past, |s0.pces|) && p.s == Run(s0, past)
    requires ValidPipeRun(es, |p.s.pces|)
    ensures ValidRun(past + FramesOf(es), |s0.pces|)
    ensures PipeRun(p, es, unz).s == Run(s0, past + FramesOf(es))
    decreases |es|
  {
    hide PipeStep;
    hide Step;
    hide Run;
    hide ValidEvent;
    if es == [] {
      assert past + FramesOf(es) == past;
    } else {
      hide FramesOf;
      FramesOfAfter(past, es);
      ReadersStep(p, es[0], unz);
      if es[0].FrameArrives? {
        RunSnoc(s0, past, es[0].ev);
        ReadersRun(s0, past + [es[0].ev], PipeStep(p, es[0], unz), es[1..], unz);
      } else {
        ReadersRun(s0, past, PipeStep(p, es[0], unz), es[1..], unz);
      }
    }
  }

  // ---------- what the files hold ----------

  function Truncations(es: seq<PipeEvent>): nat
  {
    if es == [] then 0 else (if es[0].RtxTruncate? then 1 else 0) + Truncations(es[1..])
  }

  lemma {:induction false} ProcRunAppend(s: Proc, a: seq<ProcEvent>, b: seq<ProcEvent>)
    ensures ProcRun(s, a + b) == ProcRun(ProcRun(s, a), b) && Ticks(a + b) == Ticks(a) + Ticks(b)
  {
    if b == [] {
      assert a + b == a;
    } else {
      var n := |b| - 1;
      assert (a + b)[..|a + b| - 1] == a + b[..n];
      ProcRunAppend(s, a, b[..n]);
    }
  }

  lemma OneProcEvent(s: Proc, ev: ProcEvent)
    ensures ProcRun(s, [ev]) == ProcStep(s, ev) && Ticks([ev]) == if ev.TruncateTick? then 1 else 0
  {
    assert [ev][..0] == [];
  }

  /** The processor's part of a run is a run of the processor, with a truncate for each
      of the run's; so what holds of its runs holds here. */
  lemma {:induction false} ProcessorRun(p: Pipe, es: seq<PipeEvent>, unz: Unz) returns (evs: seq<ProcEvent>)
    requires ValidPipeRun(es, |p.s.pces|)
    ensures PipeRun(p, es, unz).proc == ProcRun(p.proc, evs) && Ticks(evs) == Truncations(es)
    decreases |es|
  {
    evs := [];
    if es != [] {
      var q := PipeStep(p, es[0], unz);
      var more := ProcessorRun(q, es[1..], unz);
      evs := ProcEventsOf(p, es[0], unz) + more;
      ProcRunAppend(p.proc, ProcEventsOf(p, es[0], unz), more);
      ProcEventsAre(p, es[0], unz);
    }
  }

  /** What the processor sees of one event. */
  function ProcEventsOf(p: Pipe, e: PipeEvent, unz: Unz): seq<ProcEvent>
  {
    match e
    case FrameArrives(_, _) => []
    case ProductTaken(matches, save, delOk) =>
      var r := Receive(p.db, true).1;
      if r.Got? then [Element(Rejoin((r.rec, r.bytes)), ProcEnv(matches, unz, save, delOk))] else []
    case RtxTruncate => [TruncateTick]
  }

  lemma ProcEventsAre(p: Pipe, e: PipeEvent, unz: Unz)
    requires ValidPipeEvent(e, |p.s.pces|)
    ensures var evs := ProcEventsOf(p, e, unz);
            && PipeStep(p, e, unz).proc == ProcRun(p.proc, evs)
            && Ticks(evs) == if e.RtxTruncate? then 1 else 0
  {
    hide Process;
    hide Step;
    hide SendAll;
    var evs := ProcEventsOf(p, e, unz);
    if evs != [] {
      OneProcEvent(p.proc, evs[0]);
      assert evs == [evs[0]];
    }
  }

  /** The contents of the file a transmission should become: its blocks as they
      arrived, after the first one's control header; or decoded one by one, as many
      as were announced; in either case less the CCB when the format says so. */
  function TransmissionData(evs: seq<Event>, start: nat, idx: seq<nat>, unz: Unz): Option<Bytes>
    requires start < |evs| && Within(idx, |evs|)
  {
    var p := Begin(IdlePce, evs[start].f, evs[start].e);
    if !p.saveUnz then FileData(p, Plain(evs, idx))
    else if p.numFragments <= |idx| && AllDecode(Frames(evs, idx)[..p.numFragments], unz)
    then FileData(p, Decoded(Frames(evs, idx)[..p.numFragments], unz))
    else None
  }

  lemma {:induction false} FramesOfPrefix(evs: seq<Event>, n: nat, idx: seq<nat>)
    requires n <= |evs| && Within(idx, n)
    ensures Within(idx, |evs|)
    ensures Frames(evs[..n], idx) == Frames(evs, idx) && Payloads(evs[..n], idx) == Payloads(evs, idx)
    ensures Plain(evs[..n], idx) == Plain(evs, idx)
  {
    if idx != [] {
      FramesOfPrefix(evs, n, idx[..|idx| - 1]);
    }
  }

  /** What is spooled of a complete product is what its transmission holds. */
  lemma SpoolOfProduct(evs: seq<Event>, start: nat, idx: seq<nat>, end: nat, p: Pce, unz: Unz)
    requires CompletedAt(evs, start, idx, end, p)
    ensures Within(idx, |evs|) && ProductData(p, unz) == TransmissionData(evs, start, idx, unz)
  {
    FramesOfPrefix(evs, end + 1, idx);
    BuiltHolds(evs[..end + 1], start, idx, p);
    hide BuiltFrom;
    hide Blocks;
    hide Frames;
    hide Plain;
    if p.saveUnz {
      McatOfFrames(p.mf, Frames(evs, idx), p.numFragments, unz);
    }
  }

  lemma BuiltHolds(evs: seq<Event>, start: nat, idx: seq<nat>, p: Pce)
    requires BuiltFrom(evs, start, idx, p)
    ensures Within(idx, |evs|) && |idx| == p.recvFragments
    ensures if p.saveUnz then Encodes(p.mf, Frames(evs, idx)) else p.mf == Plain(evs, idx)
    ensures var q := Begin(IdlePce, evs[start].f, evs[start].e);
            && p.saveUnz == q.saveUnz && p.numFragments == q.numFragments
            && p.saveFormat == q.saveFormat && p.hasCcb == q.hasCcb
  {
  }

  /** The bytes are the contents of the transmission at `start`, ended at `end`. */
  ghost predicate FileAt(evs: seq<Event>, start: nat, idx: seq<nat>, end: nat, p: Pce, data: Bytes, unz: Unz)
  {
    && CompletedAt(evs, start, idx, end, p)
    && Within(idx, |evs|)
    && TransmissionData(evs, start, idx, unz) == Some(data)
  }

  ghost predicate FileOf(evs: seq<Event>, p: Pce, data: Bytes, unz: Unz)
  {
    exists start: nat, idx: seq<nat>, end: nat :: FileAt(evs, start, idx, end, p, data, unz)
  }

  /** Less than the contents of a transmission. */
  ghost predicate PartAt(evs: seq<Event>, start: nat, idx: seq<nat>, end: nat, p: Pce, left: Bytes, unz: Unz)
  {
    && CompletedAt(evs, start, idx, end, p)
    && Within(idx, |evs|)
    && Residue(TransmissionData(evs, start, idx, unz), left)
  }

  ghost predicate PartOf(evs: seq<Event>, p: Pce, left: Bytes, unz: Unz)
  {
    exists start: nat, idx: seq<nat>, end: nat :: PartAt(evs, start, idx, end, p, left, unz)
  }

  lemma SentIsFile(s: State, evs: seq<Event>, i: nat, unz: Unz)
    requires Initial(s) && ValidRun(evs, |s.pces|) && i < |Run(s, evs).sent| && Run(s, evs).sent[i].complete
    ensures var x := Run(s, evs).sent[i];
            && (forall data :: ProductData(x, unz) == Some(data) ==> FileOf(evs, x, data, unz))
            && (forall left :: Residue(ProductData(x, unz), left) ==> PartOf(evs, x, left, unz))
  {
    hide Run;
    CompleteProducts(s, evs, i);
    var x := Run(s, evs).sent[i];
    var start: nat, idx: seq<nat>, end: nat :| CompletedAt(evs, start, idx, end, x);
    SpoolOfProduct(evs, start, idx, end, x, unz);
    hide CompletedAt;
    hide ProductData;
    hide TransmissionData;
    hide Residue;
    forall data | ProductData(x, unz) == Some(data) ensures FileOf(evs, x, data, unz) {
      assert FileAt(evs, start, idx, end, x, data, unz);
    }
    forall left | Residue(ProductData(x, unz), left) ensures PartOf(evs, x, left, unz) {
      assert PartAt(evs, start, idx, end, x, left, unz);
    }
  }

  /** A pipeline that has done nothing yet, with any ring. */
  predicate NewPipe(p: Pipe)
  {
    && Initial(p.s) && p.db == Empty(p.db.limits)
    && p.proc.files == [] && p.proc.ops == [] && p.proc.spool.disk == map[]
  }

  lemma NewPipeInv(p: Pipe, unz: Unz)
    requires NewPipe(p)
    ensures PipeInv(p, unz) && Tracks(p.proc.spool, p.proc)
  {
    EmptyInv<Pce>(p.db.limits);
  }

  lemma ReadersOnly(p: Pipe, es: seq<PipeEvent>, unz: Unz)
    requires ValidPipeRun(es, |p.s.pces|)
    ensures ValidRun(FramesOf(es), |p.s.pces|) && PipeRun(p, es, unz).s == Run(p.s, FramesOf(es))
  {
    ReadersRun(p.s, [], p, es, unz);
    assert [] + FramesOf(es) == FramesOf(es);
  }

  /** The directory is what the attempts of the run have made of it. */
  lemma {:induction false} RunTracks(first: SD.Spool, p: Pipe, es: seq<PipeEvent>, unz: Unz)
    requires ValidPipeRun(es, |p.s.pces|) && Tracks(first, p.proc)
    ensures Tracks(first, PipeRun(p, es, unz).proc)
    decreases |es|
  {
    hide Process;
    hide Tracks;
    hide Step;
    if es != [] {
      if es[0].ProductTaken? {
        var r := Receive(p.db, true).1;
        if r.Got? {
          ProcessTracks(first, p.proc, Rejoin((r.rec, r.bytes)), ProcEnv(es[0].rtxMatches, unz, es[0].save, es[0].delOk));
        }
      } else if es[0].RtxTruncate? {
        TruncateTracks(first, p.proc);
      }
      RunTracks(first, PipeStep(p, es[0], unz), es[1..], unz);
    }
  }

  lemma TruncateTracks(first: SD.Spool, s: Proc)
    requires Tracks(first, s)
    ensures Tracks(first, ProcStep(s, TruncateTick))
  {
  }

  /** In every run, in every interleaving of readers and processor, every file in
      the spool directory is at the path of a complete product. If the latest
      attempt on that path succeeded, the file is made of the frames of the product
      and of nothing else; if it failed, the file is a part of that, or empty. */
  lemma EveryFileIsAProduct(p: Pipe, es: seq<PipeEvent>, unz: Unz, path: string)
    requires NewPipe(p) && ValidPipeRun(es, |p.s.pces|) && ClockAdvances(es, 0)
    requires path in PipeRun(p, es, unz).proc.spool.disk
    ensures var q := PipeRun(p, es, unz).proc;
            var last := SD.LastAttempt(q.ops, path);
            && last.Some?
            && exists x: Pce ::
                 && x.fpath == path && x.complete
                 && if last.value.SaveOp? then FileOf(FramesOf(es), x, q.spool.disk[path], unz)
                    else PartOf(FramesOf(es), x, q.spool.disk[path], unz)
  {
    hide PipeRun;
    hide FramesOf;
    hide FileOf;
    hide PartOf;
    hide Initial;
    var evs, q := FramesOf(es), PipeRun(p, es, unz);
    NewPipeInv(p, unz);
    RunInv(p, es, unz, 0);
    RunTracks(p.proc.spool, p, es, unz);
    ReadersOnly(p, es, unz);
    SD.FilesAreLastAttempts(p.proc.spool, q.proc.ops, path);
    var op := SD.LastAttempt(q.proc.ops, path).value;
    var i :| 0 <= i < |q.proc.ops| && q.proc.ops[i] == op;
    assert TriedOf(q.proc.ops[i], q.s.sent, unz);
    var k :| 0 <= k < |q.s.sent| && TriedWith(op, q.s.sent[k], unz);
    SentIsFile(p.s, evs, k, unz);
  }

  // ---------- nothing is lost ----------

  function RejoinAll(q: seq<(Pce, Bytes)>): (r: seq<Pce>)
    ensures |r| == |q| && forall i :: 0 <= i < |q| ==> r[i] == Rejoin(q[i])
  {
    seq(|q|, i requires 0 <= i < |q| => Rejoin(q[i]))
  }

  /** The file a product should become, if it is complete and can be spooled. */
  function SpoolOne(p: Pce, unz: Unz): seq<(Pce, Bytes)>
  {
    if p.complete && ProductData(p, unz).Some? then [(p, ProductData(p, unz).value)] else []
  }

  function SpoolAll(ps: seq<Pce>, unz: Unz): seq<(Pce, Bytes)>
  {
    if ps == [] then [] else SpoolOne(ps[0], unz) + SpoolAll(ps[1..], unz)
  }

  lemma {:induction false} SpoolAllAppend(a: seq<Pce>, b: seq<Pce>, unz: Unz)
    ensures SpoolAll(a + b, unz) == SpoolAll(a, unz) + SpoolAll(b, unz)
  {
    hide SpoolOne;
    if a == [] {
      assert a + b == b;
    } else {
      assert (a + b)[1..] == a[1..] + b;
      SpoolAllAppend(a[1..], b, unz);
    }
  }

  predicate NoHardLimits(l: Limits) { l.hard == 0 && l.mfHardMb == 0 }

  /** Everything a frame sends is queued, in order. */
  lemma {:induction false} SendAllQueues(db: Db<Pce>, products: seq<Pce>, clocks: seq<Timespec>, sec: int)
    requires Inv(db) && db.last.sec <= sec && Ascending(clocks, sec) && |products| <= |clocks|
    requires NoHardLimits(db.limits)
    ensures var d := SendAll(db, products, clocks);
            Inv(d) && d.limits == db.limits && RejoinAll(Fifo(d)) == RejoinAll(Fifo(db)) + products
    decreases |products|
  {
    hide Inv;
    hide PctlDb.Send;
    if products != [] {
      var p := products[0];
      SendRefines(db, Erase(p), p.mf, clocks[0]);
      assert Rejoin((Erase(p), p.mf)) == p;
      SendAllQueues(PctlDb.Send(db, Erase(p), p.mf, clocks[0]).0, products[1..], clocks[1..], clocks[0].sec);
    }
  }

  /** The files written, and those still to come from the queue, are the files of
      all products sent. */
  ghost predicate Accounted(p: Pipe, unz: Unz)
    requires Linked(p.db)
  {
    p.proc.files + SpoolAll(RejoinAll(Fifo(p.db)), unz) == SpoolAll(p.s.sent, unz)
  }

  /** The processor does not ignore the product for being a retransmission. */
  predicate NeverIgnored(s: Proc, p: Pce) { p.origSeq == 0 || (!s.enabled && s.defaultProcess) }

  lemma FrameStepAccounts(p: Pipe, e: PipeEvent, unz: Unz, sec: int)
    requires e.FrameArrives? && ValidPipeEvent(e, |p.s.pces|)
    requires Inv(p.db) && NoHardLimits(p.db.limits) && p.db.last.sec <= sec && Ascending(e.clocks, sec)
    requires Accounted(p, unz)
    ensures var q := PipeStep(p, e, unz);
            Inv(q.db) && q.db.limits == p.db.limits && p.s.sent <= q.s.sent && q.proc == p.proc && Accounted(q, unz)
  {
    hide Ordered;
    hide Linked;
    hide Counted;
    hide Step;
    hide SendAll;
    hide SpoolAll;
    SentByStep(p.s, e.ev);
    var t := Step(p.s, e.ev);
    var more := t.sent[|p.s.sent|..];
    SendAllQueues(p.db, more, e.clocks, sec);
    assert t.sent == p.s.sent + more;
    SpoolAllAppend(p.s.sent, more, unz);
    SpoolAllAppend(RejoinAll(Fifo(p.db)), more, unz);
    Regrouped(p.proc.files, SpoolAll(RejoinAll(Fifo(p.db)), unz), SpoolAll(more, unz));
  }

  lemma TakeStepAccounts(p: Pipe, e: PipeEvent, unz: Unz)
    requires e.ProductTaken? && e.save == Complete && Inv(p.db) && Accounted(p, unz)
    requires forall i :: 0 <= i < |Fifo(p.db)| && Fifo(p.db)[i].0.complete ==>
               NeverIgnored(p.proc, Rejoin(Fifo(p.db)[i]))
    ensures var q := PipeStep(p, e, unz);
            && Inv(q.db) && q.db.limits == p.db.limits && q.s == p.s && Accounted(q, unz)
            && q.proc.enabled == p.proc.enabled && q.proc.defaultProcess == p.proc.defaultProcess
  {
    hide Ordered;
    hide Linked;
    hide Counted;
    hide Receive;
    hide Process;
    hide SpoolProduct;
    ReceiveRefines(p.db);
    var queue := Fifo(p.db);
    if queue != [] {
      var x, env := Rejoin(queue[0]), ProcEnv(e.rtxMatches, unz, Complete, e.delOk);
      KeepsConfig(p.proc, x, env);
      TriedIsSpooled(p.proc, x, env);
      var rest := RejoinAll(queue[1..]);
      assert RejoinAll(queue)[1..] == rest;
      Regrouped(p.proc.files, SpoolOne(x, unz), SpoolAll(rest, unz));
    }
  }

  lemma TriedIsSpooled(s: Proc, x: Pce, env: ProcEnv)
    requires env.save == Complete && (x.complete ==> NeverIgnored(s, x))
    ensures Process(s, x, env).files == s.files + SpoolOne(x, env.unz)
  {
    hide Process;
    TriedExactlyWhen(s, x, env);
    SpooledExactlyWhen(x, env.unz, env.save);
    hide SpoolProduct;
    hide ProductData;
  }

  lemma {:induction false} SentGrows(p: Pipe, es: seq<PipeEvent>, unz: Unz)
    requires ValidPipeRun(es, |p.s.pces|)
    ensures p.s.sent <= PipeRun(p, es, unz).s.sent
    decreases |es|
  {
    hide PipeStep;
    hide Step;
    if es != [] {
      ReadersStep(p, es[0], unz);
      if es[0].FrameArrives? {
        SentByStep(p.s, es[0].ev);
      }
      SentGrows(PipeStep(p, es[0], unz), es[1..], unz);
    }
  }

  predicate WritesSucceed(es: seq<PipeEvent>)
  {
    forall i :: 0 <= i < |es| && es[i].ProductTaken? ==> es[i].save == Complete
  }

  lemma {:induction false} RunAccounts(p: Pipe, es: seq<PipeEvent>, unz: Unz, sec: int)
    requires ValidPipeRun(es, |p.s.pces|) && ClockAdvances(es, sec) && WritesSucceed(es)
    requires PipeInv(p, unz) && p.db.last.sec <= sec && NoHardLimits(p.db.limits) && Accounted(p, unz)
    requires forall x :: x in PipeRun(p, es, unz).s.sent && x.complete ==> NeverIgnored(p.proc, x)
    ensures var q := PipeRun(p, es, unz);
            Inv(q.db) && Accounted(q, unz)
    decreases |es|
  {
    hide PipeStep;
    hide Ordered;
    hide Linked;
    hide Counted;
    hide Accounted;
    hide LastSec;
    hide SpoolProduct;
    if es != [] {
      var q := PipeStep(p, es[0], unz);
      SentGrows(p, es, unz);
      match es[0]
      case FrameArrives(ev, clocks) =>
        FrameStepInv(p, es[0], unz, sec);
        FrameStepAccounts(p, es[0], unz, sec);
        RunAccounts(q, es[1..], unz, LastSec(clocks, sec));
      case ProductTaken(_, _, _) =>
        TakeStepInv(p, es[0], unz);
        TakeStepAccounts(p, es[0], unz);
        RunAccounts(q, es[1..], unz, sec);
      case RtxTruncate =>
        TruncateStepAccounts(p, unz);
        RunAccounts(q, es[1..], unz, sec);
    }
  }

  lemma TruncateStepAccounts(p: Pipe, unz: Unz)
    requires PipeInv(p, unz) && Accounted(p, unz)
    ensures var q := PipeStep(p, RtxTruncate, unz);
            && PipeInv(q, unz) && Accounted(q, unz) && q.db == p.db && q.s == p.s
            && q.proc.enabled == p.proc.enabled && q.proc.defaultProcess == p.proc.defaultProcess
  {
    hide Inv;
    hide Fifo;
    hide Spools;
    hide TriedOf;
    hide SpoolAll;
  }

  lemma OriginalsOnly(p: Pipe, evs: seq<Event>, k: nat)
    requires Initial(p.s) && ValidRun(evs, |p.s.pces|) && k < |Run(p.s, evs).sent| && Run(p.s, evs).sent[k].complete
    requires forall i :: 0 <= i < |evs| ==> !evs[i].f.retransmit
    ensures Run(p.s, evs).sent[k].origSeq == 0
  {
    hide Run;
    CompleteProducts(p.s, evs, k);
    var x := Run(p.s, evs).sent[k];
    var start: nat, idx: seq<nat>, end: nat :| CompletedAt(evs, start, idx, end, x);
    assert Announced(x, evs[start]);
  }

  /** A run of a new pipeline without hard limits, with a clock that does not go
      back, writes that succeed and no retransmissions to ignore. */
  predicate Undisturbed(p: Pipe, es: seq<PipeEvent>)
  {
    && NewPipe(p) && NoHardLimits(p.db.limits)
    && ValidPipeRun(es, |p.s.pces|) && ClockAdvances(es, 0) && WritesSucceed(es)
    && (|| (!p.proc.enabled && p.proc.defaultProcess)
        || (forall i :: 0 <= i < |FramesOf(es)| ==> !FramesOf(es)[i].f.retransmit))
  }

  /** In an undisturbed run the files written and those still to come from the
      queue are, in order, those of all the complete products the readers sent:
      none is lost and none is written twice. */
  lemma NothingIsLost(p: Pipe, es: seq<PipeEvent>, unz: Unz)
    requires Undisturbed(p, es)
    ensures var q := PipeRun(p, es, unz);
            Linked(q.db) && q.proc.files + SpoolAll(RejoinAll(Fifo(q.db)), unz) == SpoolAll(q.s.sent, unz)
  {
    hide PipeRun;
    hide Run;
    var evs, q := FramesOf(es), PipeRun(p, es, unz);
    NewPipeInv(p, unz);
    ReadersOnly(p, es, unz);
    forall x | x in q.s.sent && x.complete ensures NeverIgnored(p.proc, x) {
      var k :| 0 <= k < |q.s.sent| && q.s.sent[k] == x;
      if p.proc.enabled || !p.proc.defaultProcess {
        OriginalsOnly(p, evs, k);
      }
    }
    assert RejoinAll(Fifo(p.db)) == [];
    RunAccounts(p, es, unz, 0);
  }

  // ---------- from a transmission to its file ----------

  lemma {:induction false} SentPrefix(s: State, evs: seq<Event>, n: nat)
    requires ValidRun(evs, |s.pces|) && n <= |evs|
    ensures Run(s, evs[..n]).sent <= Run(s, evs).sent
  {
    hide Step;
    if n == |evs| {
      assert evs[..n] == evs;
    } else {
      var m := |evs| - 1;
      SentPrefix(s, evs[..m], n);
      assert evs[..m][..n] == evs[..n];
      SentByStep(Run(s, evs[..m]), evs[m]);
    }
  }

  lemma SpooledAmong(ps: seq<Pce>, i: nat, unz: Unz) returns (k: nat)
    requires i < |ps| && ps[i].complete && ProductData(ps[i], unz).Some?
    ensures k < |SpoolAll(ps, unz)| && SpoolAll(ps, unz)[k] == (ps[i], ProductData(ps[i], unz).value)
  {
    hide ProductData;
    assert ps == ps[..i] + ps[i..];
    SpoolAllAppend(ps[..i], ps[i..], unz);
    k := |SpoolAll(ps[..i], unz)|;
    assert SpoolAll(ps[i..], unz)[0] == (ps[i], ProductData(ps[i], unz).value);
  }

  lemma DrainedFiles(p: Pipe, es: seq<PipeEvent>, unz: Unz)
    requires Undisturbed(p, es) && PipeRun(p, es, unz).db.queue == []
    ensures PipeRun(p, es, unz).proc.files == SpoolAll(PipeRun(p, es, unz).s.sent, unz)
  {
    hide PipeRun;
    NothingIsLost(p, es, unz);
    assert RejoinAll(Fifo(PipeRun(p, es, unz).db)) == [];
  }

  /** In an undisturbed run, a transmission that arrives whole and has data to save
      is, once the queue is empty, among the files written: this very one, with
      exactly its own blocks. */
  lemma WholeTransmissionBecomesFile(p: Pipe, es: seq<PipeEvent>, unz: Unz, n: nat, start: nat, idx: seq<nat>)
    returns (k: nat)
    requires Undisturbed(p, es) && PipeRun(p, es, unz).db.queue == []
    requires n <= |FramesOf(es)| && Whole(FramesOf(es)[..n], start, idx)
    requires Within(idx, |FramesOf(es)|) && TransmissionData(FramesOf(es), start, idx, unz).Some?
    ensures var files := PipeRun(p, es, unz).proc.files;
            && k < |files|
            && FileAt(FramesOf(es), start, idx, n - 1, files[k].0, files[k].1, unz)
  {
    hide PipeRun;
    hide Run;
    hide FramesOf;
    hide ProductData;
    hide TransmissionData;
    hide CompletedAt;
    hide SpoolAll;
    var evs, q := FramesOf(es), PipeRun(p, es, unz);
    assert 0 < n && |evs[..n]| == n;
    hide Whole;
    ReadersOnly(p, es, unz);
    WholeTransmissionIsSent(p.s, evs[..n], start, idx);
    SentPrefix(p.s, evs, n);
    var i := |Run(p.s, evs[..n]).sent| - 1;
    assert q.s.sent[i] == Run(p.s, evs[..n]).sent[i];
    CompletedAtLasts(evs, n, start, idx, q.s.sent[i]);
    SpoolOfProduct(evs, start, idx, n - 1, q.s.sent[i], unz);
    DrainedFiles(p, es, unz);
    k := SpooledAmong(q.s.sent, i, unz);
  }

  lemma CompletedAtLasts(evs: seq<Event>, n: nat, start: nat, idx: seq<nat>, x: Pce)
    requires 0 < n <= |evs| && CompletedAt(evs[..n], start, idx, n - 1, x)
    ensures CompletedAt(evs, start, idx, n - 1, x)
  {
    assert evs[..n][..n] == evs[..n];
    assert Quiet(evs, start, n - 1, x.channel);
  }

  // ---------- the files on disk ----------

  /** Every attempt has a path. */
  lemma {:induction false} PathsNamed(p: Pipe, es: seq<PipeEvent>, unz: Unz)
    requires NewPipe(p) && ValidPipeRun(es, |p.s.pces|) && ClockAdvances(es, 0)
    ensures SD.ValidOps(PipeRun(p, es, unz).proc.ops)
    ensures forall i :: 0 <= i < |PipeRun(p, es, unz).proc.ops| ==> !PipeRun(p, es, unz).proc.ops[i].ReloadOp?
  {
    hide PipeRun;
    hide Run;
    hide Initial;
    var evs, q := FramesOf(es), PipeRun(p, es, unz);
    NewPipeInv(p, unz);
    RunInv(p, es, unz, 0);
    ReadersOnly(p, es, unz);
    forall i | 0 <= i < |q.proc.ops| ensures !q.proc.ops[i].ReloadOp? && q.proc.ops[i].path != "" {
      assert TriedOf(q.proc.ops[i], q.s.sent, unz);
      var k :| 0 <= k < |q.s.sent| && TriedWith(q.proc.ops[i], q.s.sent[k], unz);
      CompleteIsNamed(p.s, es, k);
    }
  }

  lemma {:induction false} HeadingsNamed(es: seq<PipeEvent>, channels: nat, i: nat)
    requires ValidPipeRun(es, channels) && i < |FramesOf(es)|
    ensures FramesOf(es)[i].e.heading.Named? ==> FramesOf(es)[i].e.heading.fpath != ""
  {
    if es[0].FrameArrives? {
      if i > 0 {
        HeadingsNamed(es[1..], channels, i - 1);
      }
    } else {
      HeadingsNamed(es[1..], channels, i);
    }
  }

  lemma CompleteIsNamed(s: State, es: seq<PipeEvent>, k: nat)
    requires Initial(s) && ValidPipeRun(es, |s.pces|) && ValidRun(FramesOf(es), |s.pces|)
    requires k < |Run(s, FramesOf(es)).sent| && Run(s, FramesOf(es)).sent[k].complete
    ensures Run(s, FramesOf(es)).sent[k].fpath != ""
  {
    hide Run;
    hide FramesOf;
    var evs := FramesOf(es);
    CompleteProducts(s, evs, k);
    var x := Run(s, evs).sent[k];
    var start: nat, idx: seq<nat>, end: nat :| CompletedAt(evs, start, idx, end, x);
    HeadingsNamed(es, |s.pces|, start);
    assert Announced(x, evs[start]);
  }

  /** In every run the directory has at most a file for each slot of the ring, one
      for each path of a failed save, and one for each name that could not be
      deleted. */
  lemma DirectoryStaysSmall(p: Pipe, es: seq<PipeEvent>, unz: Unz)
    requires NewPipe(p) && SD.Filled(p.proc.spool.ring, 0)
    requires ValidPipeRun(es, |p.s.pces|) && ClockAdvances(es, 0)
    ensures var q := PipeRun(p, es, unz).proc;
            |q.spool.disk| <= |p.proc.spool.ring.slots|
                              + |SD.Failed(q.ops) + SD.Undeleted(p.proc.spool, q.ops)|
  {
    hide PipeRun;
    NewPipeInv(p, unz);
    RunTracks(p.proc.spool, p, es, unz);
    PathsNamed(p, es, unz);
    var q := PipeRun(p, es, unz).proc;
    SD.FilledIsFresh(p.proc.spool);
    SD.RingFills(p.proc.spool, q.ops);
    SD.DirectoryBound(p.proc.spool, q.ops);
  }

  /** In every run in which no path is spooled twice, the latest files spooled, as
      many as the ring has slots, are in the directory with their data, unless a
      later attempt on their path failed. */
  lemma LatestFilesOnDisk(p: Pipe, es: seq<PipeEvent>, unz: Unz, k: nat)
    requires NewPipe(p) && SD.Filled(p.proc.spool.ring, 0)
    requires ValidPipeRun(es, |p.s.pces|) && ClockAdvances(es, 0)
    requires var q := PipeRun(p, es, unz).proc;
             && k < |q.files| <= k + |p.proc.spool.ring.slots|
             && SD.AllDistinct(Paths(q.files)) && q.files[k].0.fpath !in SD.Failed(q.ops)
    ensures var q := PipeRun(p, es, unz).proc;
            q.files[k].0.fpath in q.spool.disk && q.spool.disk[q.files[k].0.fpath] == q.files[k].1
  {
    hide PipeRun;
    hide Initial;
    var q, first := PipeRun(p, es, unz).proc, p.proc.spool;
    var path := q.files[k].0.fpath;
    NewPipeInv(p, unz);
    RunTracks(first, p, es, unz);
    PathsNamed(p, es, unz);
    SD.FilledIsFresh(first);
    SD.LatestAreThere(first, q.ops, k);
    SD.FilesAreLastAttempts(first, q.ops, path);
    var op := SD.LastAttempt(q.ops, path).value;
    if op.FailOp? {
      SD.FailedAre(q.ops, op);
      assert false;
    }
    assert Logged(op.path, op.data, q.files);
    var j :| 0 <= j < |q.files| && q.files[j].0.fpath == path && q.files[j].1 == op.data;
    assert Paths(q.files)[j] == Paths(q.files)[k];
  }
}
