/** Product assembly (src/framep.c and src/pctl.c) as functions: what one SBN
    frame does to the active product of its channel, to the counters and to the
    list of products handed to the processor queue. */
module Assembly {
  import opened Common
  import opened MFile

  // pdh.transfer_type
  const START: nat := 1
  const PROGRESS: nat := 2
  const END: nat := 4
  const ERROR: nat := 8
  const ABORT: nat := 32

  const SBN_COMMAND_DATA_TRANSFER: int := 3
  const MAX_CTRLHDR_SIZE: nat := 58

  /** An unpacked frame. `ctrlhdr` is empty when there is no control header. */
  datatype Frame = Frame(
    unpackStatus: int, command: int, channel: nat, transferType: nat,
    seqNumber: nat, block: nat, retransmit: bool, origSeq: nat, numFragments: nat,
    ctrlhdr: Bytes, payload: Bytes, compressed: bool, hasCcb: bool)

  /** The names made from the heading, or why there are none. */
  datatype Heading = BadHeading | NameTooLong | PathTooLong | Named(fname: string, fpath: string)

  /** Whether the memory file took the frame, and what it holds when it did not. */
  datatype WriteOutcome = Written | Failed(left: Bytes)

  /** Verdicts and conditions that come from outside the frame. */
  datatype Env = Env(
    heading: Heading, regexRejects: bool, highLoad: bool, savezRejects: bool,
    saveFormat: int, write: WriteOutcome, pad: Bytes)

  datatype Event = Event(f: Frame, e: Env)

  /** struct pctl_element_st, with the contents of its memory file. */
  datatype Pce = Pce(
    seqNumber: nat, origSeq: nat, channel: nat, complete: bool,
    numFragments: nat, recvFragments: nat, saveUnz: bool, saveFormat: int, hasCcb: bool,
    fname: string, fpath: string, mf: Bytes)

  datatype Stats = Stats(
    transmitted: nat, retransmitted: nat, completed: nat, missed: nat,
    rejected: nat, aborted: nat)

  /** What one reader sees: its channel, the counters and what it has sent. */
  datatype Reader = Reader(pce: Pce, stats: Stats, sent: seq<Pce>)

  predicate HasBit(t: nat, mask: nat)
    requires mask > 0
  {
    (t / mask) % 2 == 1
  }

  predicate Aborting(f: Frame) { HasBit(f.transferType, ERROR) || HasBit(f.transferType, ABORT) }

  predicate Starting(f: Frame) { HasBit(f.transferType, START) }

  predicate Progressing(f: Frame) { HasBit(f.transferType, PROGRESS) }

  predicate Ending(f: Frame) { HasBit(f.transferType, END) }

  /** The bits of transfer_type, lowest first: START, PROGRESS, END, ERROR, one
      that is not looked at, ABORT. */
  lemma TransferFlags(f: Frame, bits: seq<bool>)
    requires |bits| == 6
    requires f.transferType == One(bits[0]) + 2 * One(bits[1]) + 4 * One(bits[2]) + 8 * One(bits[3])
                               + 16 * One(bits[4]) + 32 * One(bits[5])
    ensures Starting(f) == bits[0] && Progressing(f) == bits[1] && Ending(f) == bits[2]
    ensures Aborting(f) == (bits[3] || bits[5])
  {
  }

  function One(b: bool): int { if b then 1 else 0 }

  // ---------- pctl.c ----------

  predicate CanOpen(p: Pce) { p.seqNumber == 0 && p.mf == [] }

  function Close(p: Pce): Pce { p.(seqNumber := 0, mf := []) }

  /** update_activepce_framecounter */
  function CountFrame(p: Pce, seqNumber: nat, block: int): (Pce, int)
  {
    if p.seqNumber != seqNumber then (p, 1)
    else if block == p.recvFragments then (p.(recvFragments := p.recvFragments + 1), 0)
    else (p, 2)
  }

  /** complete_activepce */
  function Complete(p: Pce, seqNumber: nat): (Pce, int)
  {
    if p.seqNumber != seqNumber then (p, 1)
    else if p.numFragments > p.recvFragments then (p, 2)
    else (p.(complete := true), 0)
  }

  function Send(r: Reader): Reader { r.(sent := r.sent + [r.pce]) }

  function CloseActive(r: Reader): Reader { r.(pce := Close(r.pce)) }

  function Miss(r: Reader): Reader { r.(stats := r.stats.(missed := r.stats.missed + 1)) }

  // ---------- framep.c ----------

  function CtrlHdrSize(f: Frame): nat
  {
    if |f.ctrlhdr| <= MAX_CTRLHDR_SIZE then |f.ctrlhdr| else 0
  }

  function OrigSeq(f: Frame): nat { if f.retransmit then f.origSeq else 0 }

  function StartStatus(f: Frame, e: Env): int
  {
    match e.heading
    case BadHeading => 1
    case NameTooLong => 2
    case PathTooLong => 3
    case Named(_, _) =>
      if e.regexRejects then 4
      else if OrigSeq(f) != 0 && e.highLoad then 4
      else 0
  }

  /** The START is not turned down: there is a heading to make the names from, the
      filters let them pass, and it is not a retransmission under high load. */
  predicate Accepted(f: Frame, e: Env)
  {
    e.heading.Named? && !e.regexRejects && !(f.retransmit && f.origSeq != 0 && e.highLoad)
  }

  /** The fields start_activepce fills in, whether or not the start succeeds. */
  function Begin(p: Pce, f: Frame, e: Env): Pce
  {
    Pce(f.seqNumber, OrigSeq(f), f.channel, false,
        if f.numFragments == 0 then 1 else f.numFragments, 0,
        StartStatus(f, e) == 0 && f.compressed && e.savezRejects && CtrlHdrSize(f) != 0,
        e.saveFormat, f.hasCcb,
        if e.heading.Named? then e.heading.fname else p.fname,
        if e.heading.Named? then e.heading.fpath else p.fpath, p.mf)
  }

  /** open_pctl_activepce; an unfinished product is counted, sent and closed first. */
  function Reopen(r: Reader): Reader
  {
    if CanOpen(r.pce) then r else CloseActive(Send(Miss(r)))
  }

  /** start_activepce */
  function StartPce(r: Reader, f: Frame, e: Env): (Reader, int)
  {
    var r1 := Reopen(r);
    var r2 := r1.(pce := Begin(r1.pce, f, e));
    var status := StartStatus(f, e);
    (if status == 0 then r2 else CloseActive(r2), status)
  }

  /** e_start_activepce */
  function Start(r: Reader, f: Frame, e: Env): (Reader, int)
  {
    if f.block != 0 then (r, 1)
    else
      var (t, status) := StartPce(r.(stats := r.stats.(transmitted := r.stats.transmitted + 1)), f, e);
      if status == 0 then (t, 0)
      else if status == 4 then (t.(stats := t.stats.(rejected := t.stats.rejected + 1)), 4)
      else (Miss(t), status)
  }

  const IdlePce := Pce(0, 0, 0, false, 1, 0, false, 0, false, "", "", [])

  /** A successful start leaves nothing of the channel's past. */
  lemma StartIsFresh(r: Reader, f: Frame, e: Env)
    ensures f.block == 0 && StartStatus(f, e) == 0 ==>
              Start(r, f, e).1 == 0 && Start(r, f, e).0.pce == Begin(IdlePce, f, e)
  {
  }

  lemma StartIgnoresWrite(r: Reader, f: Frame, e: Env, w: WriteOutcome)
    ensures Start(r, f, e.(write := w)) == Start(r, f, e)
  {
  }

  /** What msave_frame appends for a frame. */
  function Stored(f: Frame, saveUnz: bool, pad: Bytes): Bytes
    requires |pad| == 7
  {
    if saveUnz then Info(|f.payload|, if f.compressed then 1 else 0, pad) + f.payload
    else if f.block == 0 then f.ctrlhdr + f.payload
    else f.payload
  }

  function SaveFrame(p: Pce, f: Frame, e: Env): (Pce, int)
    requires |e.pad| == 7
  {
    match e.write
    case Written => (p.(mf := p.mf + Stored(f, p.saveUnz, e.pad)), 0)
    case Failed(left) => (p.(mf := left), -1)
  }

  /** e_update_activepce together with update_activepce */
  function Update(r: Reader, f: Frame, e: Env): (Reader, int)
    requires |e.pad| == 7
  {
    var (p, counted) := CountFrame(r.pce, f.seqNumber, f.block);
    if counted == 1 then (r, 0)
    else
      var (q, status) := if counted == 0 then SaveFrame(p, f, e) else (p, counted);
      if status == 0 then (r.(pce := q), 0)
      else (CloseActive(Send(Miss(r.(pce := q)))), status)
  }

  /** e_end_activepce; a product of another sequence number is closed unsent. */
  function Finish(r: Reader, f: Frame): Reader
  {
    var (p, status) := Complete(r.pce, f.seqNumber);
    if status == 1 then CloseActive(r)
    else if status == 0 then
      CloseActive(Send(Reader(p, r.stats.(completed := r.stats.completed + 1), r.sent)))
    else CloseActive(Send(Miss(r)))
  }

  function Retransmission(r: Reader, f: Frame): Reader
  {
    if f.retransmit then r.(stats := r.stats.(retransmitted := r.stats.retransmitted + 1)) else r
  }

  /** sbnframeproc up to the END stage: the reader and the status so far. */
  function StartUpdate(r: Reader, f: Frame, e: Env): (Reader, int)
    requires |e.pad| == 7
  {
    var (r1, st1) := if Starting(f) then Start(Retransmission(r, f), f, e) else (r, 0);
    if st1 == 0 && Progressing(f) then Update(r1, f, e) else (r1, st1)
  }

  predicate Live(f: Frame) { f.unpackStatus == 0 && f.command == SBN_COMMAND_DATA_TRANSFER }

  /** sbnframeproc */
  function FrameProc(r: Reader, f: Frame, e: Env): Reader
    requires |e.pad| == 7
  {
    if !Live(f) then r
    else if Aborting(f) then
      CloseActive(r.(stats := r.stats.(aborted := r.stats.aborted + 1)))
    else
      var (r1, st1) := StartUpdate(r, f, e);
      if st1 == 0 && Ending(f) then Finish(r1, f) else r1
  }

  /** Frames that cannot be unpacked, and those of other commands than 3 (data), change
      nothing; an ABORT or ERROR closes the channel, sends nothing and is counted. */
  lemma OtherFrames(r: Reader, f: Frame, e: Env)
    requires |e.pad| == 7
    ensures f.unpackStatus != 0 || f.command != 3 ==> FrameProc(r, f, e) == r
    ensures f.unpackStatus == 0 && f.command == 3 && Aborting(f) ==>
              var t := FrameProc(r, f, e);
              && CanOpen(t.pce) && t.sent == r.sent
              && t.stats == r.stats.(aborted := r.stats.aborted + 1)
  {
  }

  // ---------- all channels, whole runs ----------

  datatype State = State(pces: seq<Pce>, stats: Stats, sent: seq<Pce>)

  /** Sequence number 0 means "closed", so a frame must not carry it: unless the
      frame does nothing to the channel, or starts and ends a product at once. */
  predicate Sound(f: Frame)
  {
    || f.seqNumber != 0
    || !Live(f)
    || Aborting(f)
    || (if Starting(f) then f.block != 0 || Ending(f) else !Progressing(f) && !Ending(f))
  }

  /** Block sizes are 16-bit fields. */
  predicate ValidEvent(ev: Event, channels: nat)
  {
    && ev.f.channel < channels
    && Sound(ev.f)
    && |ev.f.payload| < 65536
    && |ev.e.pad| == 7
  }

  predicate ValidRun(evs: seq<Event>, channels: nat)
  {
    forall i :: 0 <= i < |evs| ==> ValidEvent(evs[i], channels)
  }

  function View(s: State, channel: nat): Reader
    requires channel < |s.pces|
  {
    Reader(s.pces[channel], s.stats, s.sent)
  }

  function Step(s: State, ev: Event): (t: State)
    requires ev.f.channel < |s.pces| && |ev.e.pad| == 7
    ensures |t.pces| == |s.pces|
  {
    var r := FrameProc(View(s, ev.f.channel), ev.f, ev.e);
    State(s.pces[ev.f.channel := r.pce], r.stats, r.sent)
  }

  function Run(s: State, evs: seq<Event>): (t: State)
    requires ValidRun(evs, |s.pces|)
    ensures |t.pces| == |s.pces|
  {
    if evs == [] then s
    else
      var n := |evs| - 1;
      Step(Run(s, evs[..n]), evs[n])
  }

  /** What create_pce leaves: every channel closed, every memory file empty. */
  predicate Initial(s: State)
  {
    && (forall c :: 0 <= c < |s.pces| ==> CanOpen(s.pces[c]))
    && s.stats == Stats(0, 0, 0, 0, 0, 0)
    && s.sent == []
  }

  // ---------- what a frame sends ----------

  /** One frame adds at most two products to the queue. */
  lemma AtMostTwoSends(r: Reader, f: Frame, e: Env)
    requires |e.pad| == 7
    ensures var t := FrameProc(r, f, e);
            r.sent <= t.sent && |t.sent| <= |r.sent| + 2
  {
    hide Start;
    hide Update;
    hide Finish;
    var r0 := Retransmission(r, f);
    StageSendsOne(r0, f, e);
    StageSendsOne(if Starting(f) then Start(r0, f, e).0 else r, f, e);
    StageSendsOne(StartUpdate(r, f, e).0, f, e);
  }

  /** A stage sends at most one product, and the stage after a send is END at most. */
  lemma StageSendsOne(r: Reader, f: Frame, e: Env)
    requires |e.pad| == 7
    ensures r.sent <= Start(r, f, e).0.sent && |Start(r, f, e).0.sent| <= |r.sent| + 1
    ensures r.sent <= Update(r, f, e).0.sent && |Update(r, f, e).0.sent| <= |r.sent| + 1
    ensures Update(r, f, e).1 == 0 ==> Update(r, f, e).0.sent == r.sent
    ensures r.sent <= Finish(r, f).sent && |Finish(r, f).sent| <= |r.sent| + 1
  {
  }

  lemma SentByStep(s: State, ev: Event)
    requires ev.f.channel < |s.pces| && |ev.e.pad| == 7
    ensures var t := Step(s, ev);
            s.sent <= t.sent && |t.sent[|s.sent|..]| <= 2
  {
    AtMostTwoSends(View(s, ev.f.channel), ev.f, ev.e);
  }

  /** The complete ones among the products sent. */
  function CompleteIn(sent: seq<Pce>): nat
  {
    if sent == [] then 0 else CompleteIn(sent[..|sent| - 1]) + if sent[|sent| - 1].complete then 1 else 0
  }

  lemma CompleteInMore(sent: seq<Pce>, p: Pce)
    ensures CompleteIn(sent + [p]) == CompleteIn(sent) + if p.complete then 1 else 0
  {
    assert (sent + [p])[..|sent|] == sent;
  }

  // ---------- the between-steps invariant ----------

  /** Closed means an empty memory file; open means not yet complete. */
  predicate Settled(p: Pce)
  {
    if p.seqNumber == 0 then p.mf == [] else !p.complete
  }

  lemma StartSettles(r: Reader, f: Frame, e: Env)
    requires Settled(r.pce)
    ensures f.seqNumber != 0 || Start(r, f, e).1 != 0 ==> Settled(Start(r, f, e).0.pce)
    ensures Start(r, f, e).1 == 0 ==> f.block == 0
  {
  }

  lemma UpdateSettles(r: Reader, f: Frame, e: Env)
    requires |e.pad| == 7
    ensures Update(r, f, e).1 != 0 || (f.seqNumber != 0 && Settled(r.pce)) ==> Settled(Update(r, f, e).0.pce)
  {
  }

  lemma FinishSettles(r: Reader, f: Frame)
    ensures Settled(Finish(r, f).pce)
  {
  }

  lemma FrameProcSettles(r: Reader, f: Frame, e: Env)
    requires Settled(r.pce) && Sound(f) && |e.pad| == 7
    ensures Settled(FrameProc(r, f, e).pce)
  {
    hide Start;
    hide Update;
    hide Finish;
    var r0 := Retransmission(r, f);
    StartSettles(r0, f, e);
    UpdateSettles(if Starting(f) then Start(r0, f, e).0 else r, f, e);
    FinishSettles(StartUpdate(r, f, e).0, f);
  }

  /** Every channel stays settled, so that every reopening after a close succeeds. */
  lemma {:induction false} RunSettles(s: State, evs: seq<Event>, channel: nat)
    requires Initial(s) && ValidRun(evs, |s.pces|) && channel < |s.pces|
    ensures Settled(Run(s, evs).pces[channel])
    ensures CanOpen(Close(Run(s, evs).pces[channel]))
  {
    if evs != [] {
      var n := |evs| - 1;
      RunSettles(s, evs[..n], channel);
      var t := Run(s, evs[..n]);
      RunSettles(s, evs[..n], evs[n].f.channel);
      FrameProcSettles(View(t, evs[n].f.channel), evs[n].f, evs[n].e);
    }
  }

  // ---------- conservation ----------

  function OpenCount(pces: seq<Pce>): nat
  {
    if pces == [] then 0
    else OpenCount(pces[..|pces| - 1]) + (if pces[|pces| - 1].seqNumber != 0 then 1 else 0)
  }

  lemma {:induction false} OpenCountUpdate(pces: seq<Pce>, c: nat, p: Pce)
    requires c < |pces|
    ensures OpenCount(pces[c := p]) ==
            OpenCount(pces) - (if pces[c].seqNumber != 0 then 1 else 0) + (if p.seqNumber != 0 then 1 else 0)
  {
    var n := |pces| - 1;
    if c < n {
      OpenCountUpdate(pces[..n], c, p);
      assert pces[c := p][..n] == pces[..n][c := p];
    } else {
      assert pces[c := p][..n] == pces[..n];
    }
  }

  lemma {:induction false} NoneOpen(pces: seq<Pce>)
    requires forall c :: 0 <= c < |pces| ==> CanOpen(pces[c])
    ensures OpenCount(pces) == 0
  {
    if pces != [] {
      NoneOpen(pces[..|pces| - 1]);
    }
  }

  /** An open product that a frame closes unsent: an ABORT or ERROR frame, or an
      END for another sequence number (which a START would have replaced). */
  predicate Discards(p: Pce, f: Frame)
  {
    && Live(f)
    && p.seqNumber != 0
    && (|| Aborting(f)
        || (!Starting(f) && Ending(f) && p.seqNumber != f.seqNumber))
  }

  function Discarded(s: State, evs: seq<Event>): nat
    requires ValidRun(evs, |s.pces|)
  {
    if evs == [] then 0
    else
      var n := |evs| - 1;
      Discarded(s, evs[..n])
      + if Discards(Run(s, evs[..n]).pces[evs[n].f.channel], evs[n].f) then 1 else 0
  }

  function Accounted(st: Stats): nat { st.completed + st.missed + st.rejected }

  /** Announced products that are neither accounted for nor open. */
  function Balance(r: Reader): int
  {
    r.stats.transmitted - Accounted(r.stats) - (if r.pce.seqNumber != 0 then 1 else 0)
  }

  // What each stage does to the balance; number 0 passes for "closed".

  lemma StartBalance(r: Reader, f: Frame, e: Env)
    requires Settled(r.pce)
    ensures var (t, status) := Start(r, f, e);
            && Balance(t) == Balance(r) + One(status == 0 && f.seqNumber == 0)
            && (status == 0 ==> t.pce.seqNumber == f.seqNumber)
  {
  }

  lemma UpdateBalance(r: Reader, f: Frame, e: Env)
    requires |e.pad| == 7
    ensures var (t, status) := Update(r, f, e);
            && Balance(t) == Balance(r) - One(status != 0 && r.pce.seqNumber == 0)
            && (status == 0 ==> t.pce.seqNumber == r.pce.seqNumber)
  {
  }

  lemma StartUpdateBalance(r: Reader, f: Frame, e: Env)
    requires Settled(r.pce) && |e.pad| == 7
    ensures var (t, status) := StartUpdate(r, f, e);
            if Starting(f) then
              && Balance(t) == Balance(r) + One(status == 0 && f.seqNumber == 0)
              && (status == 0 ==> t.pce.seqNumber == f.seqNumber)
            else
              && Balance(t) == Balance(r) - One(status != 0 && r.pce.seqNumber == 0)
              && (status == 0 ==> t.pce.seqNumber == r.pce.seqNumber)
  {
    if Starting(f) {
      var r0 := Retransmission(r, f);
      StartBalance(r0, f, e);
      UpdateBalance(Start(r0, f, e).0, f, e);
    } else {
      UpdateBalance(r, f, e);
    }
  }

  lemma FinishBalance(r: Reader, f: Frame)
    ensures Balance(Finish(r, f)) ==
            Balance(r) + if r.pce.seqNumber == f.seqNumber then -One(f.seqNumber == 0)
                         else One(r.pce.seqNumber != 0)
  {
  }

  /** The counters balance over one frame. */
  predicate Balanced(r: Reader, f: Frame, e: Env)
    requires |e.pad| == 7
  {
    Balance(FrameProc(r, f, e)) == Balance(r) + One(Discards(r.pce, f))
  }

  lemma FrameProcBalance(r: Reader, f: Frame, e: Env)
    requires Settled(r.pce) && Sound(f) && |e.pad| == 7
    ensures Balanced(r, f, e)
  {
    if Live(f) && !Aborting(f) {
      StartUpdateBalance(r, f, e);
      FinishBalance(StartUpdate(r, f, e).0, f);
      assert f.seqNumber == 0 && Starting(f) && f.block != 0 ==> StartUpdate(r, f, e).1 == 1;
    }
  }

  const IdleReader := Reader(IdlePce, Stats(0, 0, 0, 0, 0, 0), [])
  const PlainEnv := Env(Named("", ""), false, false, false, 0, Written, [0, 0, 0, 0, 0, 0, 0])

  /** An idle channel that such a frame makes its mark on. */
  function Victim(f: Frame): Reader
  {
    if Starting(f) || Ending(f) then IdleReader
    else IdleReader.(pce := IdlePce.(recvFragments := f.block + 1))
  }

  lemma StartGoesThrough(f: Frame)
    requires !Sound(f) && Starting(f)
    ensures StartUpdate(Victim(f), f, PlainEnv).1 == 0
  {
    StartIsFresh(Retransmission(Victim(f), f), f, PlainEnv);
  }

  lemma ProgressIsMissed(f: Frame)
    requires !Sound(f) && !Starting(f) && !Ending(f)
    ensures StartUpdate(Victim(f), f, PlainEnv).1 == 2
  {
  }

  /** A frame that is not sound unbalances the counters of some idle channel. */
  lemma UnsoundUnbalances(f: Frame) returns (r: Reader)
    requires !Sound(f)
    ensures Settled(r.pce) && !Balanced(r, f, PlainEnv)
  {
    hide Balanced;
    r := Victim(f);
    if Starting(f) {
      StartUnbalances(f);
    } else if Ending(f) {
      EndUnbalances(f);
    } else {
      ProgressUnbalances(f);
    }
  }

  /** A frame that is looked at: its END stage is reached when the others succeed. */
  lemma Stages(r: Reader, f: Frame, e: Env)
    requires Live(f) && !Aborting(f) && |e.pad| == 7
    ensures var (t, status) := StartUpdate(r, f, e);
            FrameProc(r, f, e) == if status == 0 && Ending(f) then Finish(t, f) else t
  {
    hide StartUpdate;
    hide Finish;
  }

  lemma StartUnbalances(f: Frame)
    requires !Sound(f) && Starting(f)
    ensures !Balanced(Victim(f), f, PlainEnv)
  {
    hide StartUpdate;
    hide FrameProc;
    var r := Victim(f);
    Stages(r, f, PlainEnv);
    StartGoesThrough(f);
    StartUpdateBalance(r, f, PlainEnv);
  }

  lemma EndUnbalances(f: Frame)
    requires !Sound(f) && !Starting(f) && Ending(f)
    ensures !Balanced(Victim(f), f, PlainEnv)
  {
    hide StartUpdate;
    hide FrameProc;
    hide Finish;
    var r := Victim(f);
    Stages(r, f, PlainEnv);
    StartUpdateBalance(r, f, PlainEnv);
    FinishBalance(StartUpdate(r, f, PlainEnv).0, f);
  }

  lemma ProgressUnbalances(f: Frame)
    requires !Sound(f) && !Starting(f) && !Ending(f)
    ensures !Balanced(Victim(f), f, PlainEnv)
  {
    hide StartUpdate;
    hide FrameProc;
    var r := Victim(f);
    Stages(r, f, PlainEnv);
    ProgressIsMissed(f);
    StartUpdateBalance(r, f, PlainEnv);
  }

  /** Soundness of the frame is exactly what the counters need. */
  lemma BalancedExactlyWhenSound(f: Frame)
    ensures Sound(f) <==>
            forall r: Reader, e: Env :: Settled(r.pce) && |e.pad| == 7 ==> Balanced(r, f, e)
  {
    if Sound(f) {
      forall r: Reader, e: Env | Settled(r.pce) && |e.pad| == 7 ensures Balanced(r, f, e) {
        FrameProcBalance(r, f, e);
      }
    } else {
      var r := UnsoundUnbalances(f);
    }
  }

  /** Every product announced by a START is completed, missed, rejected, still
      open, or was discarded; over every run, on any number of channels. */
  lemma {:induction false} Conservation(s: State, evs: seq<Event>)
    requires Initial(s) && ValidRun(evs, |s.pces|)
    ensures var t := Run(s, evs);
            t.stats.transmitted == t.stats.completed + t.stats.missed + t.stats.rejected
                                   + OpenCount(t.pces) + Discarded(s, evs)
  {
    if evs == [] {
      NoneOpen(s.pces);
    } else {
      var n := |evs| - 1;
      var t, c := Run(s, evs[..n]), evs[n].f.channel;
      Conservation(s, evs[..n]);
      RunSettles(s, evs[..n], c);
      var r := FrameProc(View(t, c), evs[n].f, evs[n].e);
      FrameProcBalance(View(t, c), evs[n].f, evs[n].e);
      OpenCountUpdate(t.pces, c, r.pce);
    }
  }
}
