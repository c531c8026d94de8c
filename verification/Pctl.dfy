/** The product control list and the frame processor as objects (src/pctl.c,
    src/framep.c), proved against the functions of module Assembly. */
module Pctl {
  import opened Common
  import opened MFile
  import opened Assembly

  /** struct pctl_element_st */
  class ActivePce {
    var seqNumber: nat
    var origSeq: nat
    var channel: nat
    var complete: bool
    var numFragments: nat
    var recvFragments: nat
    var saveUnz: bool
    var saveFormat: int
    var hasCcb: bool
    var fname: string
    var fpath: string
    const mf: MemFile

    ghost predicate Valid()
      reads this, mf, mf.p
    {
      mf.Valid() && mf.nread == 0
    }

    ghost function Value(): Pce
      requires Valid()
      reads this, mf, mf.p
    {
      Pce(seqNumber, origSeq, channel, complete, numFragments, recvFragments,
          saveUnz, saveFormat, hasCcb, fname, fpath, mf.Contents())
    }

    constructor (memfileSize: nat)
      ensures Valid() && fresh(mf) && fresh(mf.p) && CanOpen(Value())
      ensures !saveUnz && !hasCcb && recvFragments == 0
    {
      seqNumber, origSeq, channel, complete, numFragments, recvFragments := 0, 0, 0, false, 0, 0;
      saveUnz, saveFormat, hasCcb, fname, fpath := false, 0, false, "", "";
      mf := new MemFile(memfileSize);
    }

    method OpenPce() returns (status: int)
      requires Valid()
      ensures status == 0 <==> CanOpen(Value())
    {
      status := 1;
      if seqNumber == 0 {
        status := mf.Open();
      }
    }

    method ClosePce()
      requires Valid()
      modifies this`seqNumber, mf`size, mf`nread
      ensures Valid() && Value() == Close(old(Value()))
    {
      mf.Close();
      seqNumber := 0;
    }

    method UpdateFrameCounter(seqnumber: nat, block: int) returns (status: int)
      requires Valid()
      modifies this`recvFragments
      ensures Valid() && (Value(), status) == CountFrame(old(Value()), seqnumber, block)
    {
      status := 0;
      if seqNumber != seqnumber {
        status := 1;
      } else if block == recvFragments {
        recvFragments := recvFragments + 1;
      } else {
        status := 2;
      }
    }

    method CompletePce(seqnumber: nat) returns (status: int)
      requires Valid()
      modifies this`complete
      ensures Valid() && (Value(), status) == Complete(old(Value()), seqnumber)
    {
      status := 0;
      if seqNumber != seqnumber {
        status := 1;
      } else if numFragments > recvFragments {
        status := 2;
      } else {
        complete := true;
      }
    }

    /** The fields that do not depend on the heading. */
    method SetFields(f: Frame, e: Env)
      modifies this
      ensures !complete && recvFragments == 0 && seqNumber == f.seqNumber && channel == f.channel
      ensures numFragments == if f.numFragments == 0 then 1 else f.numFragments
      ensures origSeq == OrigSeq(f) && !saveUnz
      ensures saveFormat == e.saveFormat && hasCcb == f.hasCcb
      ensures fname == old(fname) && fpath == old(fpath)
    {
      complete := false;
      numFragments := f.numFragments;
      if f.numFragments == 0 {
        numFragments := 1;
      }
      recvFragments := 0;
      seqNumber := f.seqNumber;
      origSeq := if f.retransmit then f.origSeq else 0;
      channel := f.channel;
      saveFormat := e.saveFormat;
      saveUnz := false;
      hasCcb := f.hasCcb;
    }

    /** The names, the filters and the decision to decompress. */
    method SetNames(f: Frame, e: Env) returns (status: int)
      requires !saveUnz
      modifies this`fname, this`fpath, this`saveUnz
      ensures status == StartStatus(f, e)
      ensures fname == if e.heading.Named? then e.heading.fname else old(fname)
      ensures fpath == if e.heading.Named? then e.heading.fpath else old(fpath)
      ensures saveUnz == (status == 0 && f.compressed && e.savezRejects && CtrlHdrSize(f) != 0)
    {
      var ctrlhdrSize := |f.ctrlhdr|;
      if ctrlhdrSize > MAX_CTRLHDR_SIZE {
        ctrlhdrSize := 0;
      }
      match e.heading
      case BadHeading => return 1;
      case NameTooLong => return 2;
      case PathTooLong => return 3;
      case Named(name, path) =>
        fname := name;
        fpath := path;
        if e.regexRejects {
          return 4;
        }
        if f.retransmit && f.origSeq != 0 {
          if e.highLoad {
            return 4;
          }
        }
        if f.compressed {
          if e.savezRejects && ctrlhdrSize != 0 {
            saveUnz := true;
          }
        }
        return 0;
    }

    method BeginPce(f: Frame, e: Env) returns (status: int)
      requires Valid()
      modifies this
      ensures Valid() && Value() == Begin(old(Value()), f, e) && status == StartStatus(f, e)
    {
      ghost var bytes := mf.Contents();
      SetFields(f, e);
      status := SetNames(f, e);
      assert mf.Contents() == bytes;
    }

    /** msave_frame for a frame of this product. */
    method SaveFrame(f: Frame, pad: Bytes, limit: nat) returns (status: int, ghost w: WriteOutcome)
      requires Valid() && |pad| == 7
      modifies mf, mf.p
      ensures Valid() && (mf.p == old(mf.p) || fresh(mf.p))
      ensures status == if w.Written? then 0 else -1
      ensures Value() == old(Value()).(mf :=
                match w
                case Written => old(Value()).mf + Stored(f, saveUnz, pad)
                case Failed(left) => left)
      ensures Room(|old(Value()).mf|, f) <= limit ==> w.Written?
    {
      hide Info;
      status := 0;
      ghost var was := mf.Contents();
      if !saveUnz {
        if f.block == 0 && |f.ctrlhdr| != 0 {
          status := mf.Write(f.ctrlhdr, limit);
        }
        if status == 0 {
          status := mf.Write(f.payload, limit);
        }
        assert status == 0 ==> mf.Contents() == was + Stored(f, false, pad);
      } else {
        var frame := MemFrame(f.payload, if f.compressed then 1 else 0);
        status := mf.WriteMemframe(frame, pad, limit);
        assert status == 0 ==> mf.Contents() == was + Stored(f, true, pad);
      }
      w := if status == 0 then Written else Failed(mf.Contents());
    }
  }

  lemma StartsEmpty(r: Reader, f: Frame, e: Env)
    ensures Start(r, f, e).1 == 0 ==> Start(r, f, e).0.pce.mf == []
  {
  }

  /** Memory enough to store the frame after so many bytes. */
  function Room(size: nat, f: Frame): nat
  {
    2 * (size + INFO_SIZE + |f.ctrlhdr| + |f.payload|)
  }

  /** The readers' shared state: one active product per channel, the counters,
      and the products handed to the processor queue. */
  class FrameProcessor {
    const active: array<ActivePce>
    var stats: Stats
    var sent: seq<Pce>
    const memfileBlocksize: nat
    const memfileMinsize: nat

    ghost predicate Valid()
      reads this, active, set c | 0 <= c < active.Length :: active[c],
            set c | 0 <= c < active.Length :: active[c].mf,
            set c | 0 <= c < active.Length :: active[c].mf.p
    {
      && (forall c :: 0 <= c < active.Length ==> active[c].Valid())
      && (forall c, d :: 0 <= c < d < active.Length ==>
            active[c] != active[d] && active[c].mf != active[d].mf && active[c].mf.p != active[d].mf.p)
    }

    /** The abstract state these objects stand for. */
    ghost predicate Shows(s: State)
      requires Valid()
      reads this, active, set c | 0 <= c < active.Length :: active[c],
            set c | 0 <= c < active.Length :: active[c].mf,
            set c | 0 <= c < active.Length :: active[c].mf.p
    {
      && |s.pces| == active.Length && s.stats == stats && s.sent == sent
      && forall c :: 0 <= c < active.Length ==> s.pces[c] == active[c].Value()
    }

    ghost function View(pce: ActivePce): Reader
      requires pce.Valid()
      reads this, pce, pce.mf, pce.mf.p
    {
      Reader(pce.Value(), stats, sent)
    }

    method SendActive(pce: ActivePce)
      requires pce.Valid()
      modifies this`sent
      ensures View(pce) == Send(old(View(pce)))
    {
      sent := sent + [Pce(pce.seqNumber, pce.origSeq, pce.channel, pce.complete,
                          pce.numFragments, pce.recvFragments, pce.saveUnz, pce.saveFormat,
                          pce.hasCcb, pce.fname, pce.fpath, pce.mf.p[..pce.mf.size])];
    }

    /** Opens the channel, sending off an unfinished product first. */
    method ReopenActive(pce: ActivePce)
      requires pce.Valid()
      modifies this`stats, this`sent, pce`seqNumber, pce.mf`size, pce.mf`nread
      ensures pce.Valid() && View(pce) == Reopen(old(View(pce)))
    {
      var status := pce.OpenPce();
      if status != 0 {
        stats := stats.(missed := stats.missed + 1);
        SendActive(pce);
        pce.ClosePce();
      }
    }

    /** start_activepce */
    method StartPce(pce: ActivePce, f: Frame, e: Env, limit: nat) returns (status: int)
      requires pce.Valid()
      modifies this`stats, this`sent, pce, pce.mf
      ensures pce.Valid() && (pce.mf.p == old(pce.mf.p) || fresh(pce.mf.p))
      ensures (View(pce), status) == Assembly.StartPce(old(View(pce)), f, e)
    {
      ReopenActive(pce);
      status := pce.BeginPce(f, e);
      assert pce.mf.Contents() == [];
      pce.mf.AdjustSize(Max(memfileBlocksize * pce.numFragments, memfileMinsize), limit);
      if status != 0 {
        pce.ClosePce();
      }
    }

    /** e_start_activepce */
    method StartActive(pce: ActivePce, f: Frame, e: Env, limit: nat) returns (status: int)
      requires pce.Valid()
      modifies this`stats, this`sent, pce, pce.mf
      ensures pce.Valid() && (pce.mf.p == old(pce.mf.p) || fresh(pce.mf.p))
      ensures (View(pce), status) == Start(old(View(pce)), f, e)
    {
      hide StartStatus;
      hide Begin;
      if f.block != 0 {
        return 1;
      }
      stats := stats.(transmitted := stats.transmitted + 1);
      status := StartPce(pce, f, e, limit);
      if status == 4 {
        stats := stats.(rejected := stats.rejected + 1);
      } else if status != 0 {
        stats := stats.(missed := stats.missed + 1);
      }
    }

    /** Counts the product as missed, sends what there is of it, closes the channel. */
    method GiveUp(pce: ActivePce)
      requires pce.Valid()
      modifies this`stats, this`sent, pce`seqNumber, pce.mf`size, pce.mf`nread
      ensures pce.Valid() && View(pce) == CloseActive(Send(Miss(old(View(pce)))))
    {
      stats := stats.(missed := stats.missed + 1);
      SendActive(pce);
      pce.ClosePce();
    }

    /** update_activepce */
    method UpdatePce(pce: ActivePce, f: Frame, e: Env, limit: nat) returns (status: int, ghost w: WriteOutcome)
      requires pce.Valid() && |e.pad| == 7
      modifies pce`recvFragments, pce.mf, pce.mf.p
      ensures pce.Valid() && (pce.mf.p == old(pce.mf.p) || fresh(pce.mf.p))
      ensures var (p, counted) := CountFrame(old(pce.Value()), f.seqNumber, f.block);
              (pce.Value(), status) ==
              if counted == 0 then Assembly.SaveFrame(p, f, e.(write := w)) else (p, counted)
      ensures Room(|old(pce.Value()).mf|, f) <= limit ==> w.Written?
    {
      w := Written;
      status := pce.UpdateFrameCounter(f.seqNumber, f.block);
      if status == 0 {
        status, w := pce.SaveFrame(f, e.pad, limit);
      }
    }

    /** e_update_activepce */
    method UpdateActive(pce: ActivePce, f: Frame, e: Env, limit: nat) returns (status: int, ghost w: WriteOutcome)
      requires pce.Valid() && |e.pad| == 7
      modifies this`stats, this`sent, pce, pce.mf, pce.mf.p
      ensures pce.Valid() && (pce.mf.p == old(pce.mf.p) || fresh(pce.mf.p))
      ensures (View(pce), status) == Update(old(View(pce)), f, e.(write := w))
      ensures Room(|old(pce.Value()).mf|, f) <= limit ==> w.Written?
    {
      status, w := UpdatePce(pce, f, e, limit);
      if status == 1 {
        status := 0;
      }
      if status != 0 {
        GiveUp(pce);
      }
    }

    /** e_end_activepce */
    method EndActive(pce: ActivePce, f: Frame)
      requires pce.Valid()
      modifies this`stats, this`sent, pce, pce.mf
      ensures pce.Valid() && pce.mf.p == old(pce.mf.p)
      ensures View(pce) == Finish(old(View(pce)), f)
    {
      var status := pce.CompletePce(f.seqNumber);
      if status != 1 {
        if status == 0 {
          stats := stats.(completed := stats.completed + 1);
        } else if status == 2 {
          stats := stats.(missed := stats.missed + 1);
        }
        SendActive(pce);
      }
      pce.ClosePce();
    }

    /** The START and PROGRESS stages of sbnframeproc. */
    method StartUpdateOnChannel(pce: ActivePce, f: Frame, e: Env, limit: nat)
      returns (status: int, ghost w: WriteOutcome)
      requires pce.Valid() && |e.pad| == 7
      modifies this`stats, this`sent, pce, pce.mf, pce.mf.p
      ensures pce.Valid() && (pce.mf.p == old(pce.mf.p) || fresh(pce.mf.p))
      ensures (View(pce), status) == StartUpdate(old(View(pce)), f, e.(write := w))
      ensures Room(|old(pce.Value()).mf|, f) <= limit ==> w.Written?
    {
      hide Start;
      hide Update;
      status, w := 0, Written;
      ghost var r0 := View(pce);
      StartsEmpty(Retransmission(r0, f), f, e);
      if HasBit(f.transferType, START) {
        if f.retransmit {
          stats := stats.(retransmitted := stats.retransmitted + 1);
        }
        status := StartActive(pce, f, e, limit);
      }
      ghost var r1 := View(pce);
      if status == 0 {
        if HasBit(f.transferType, PROGRESS) {
          status, w := UpdateActive(pce, f, e, limit);
        }
      }
      StartIgnoresWrite(Retransmission(r0, f), f, e, w);
    }

    /** sbnframeproc on the frame's channel. */
    method FrameOnChannel(pce: ActivePce, f: Frame, e: Env, limit: nat) returns (ghost w: WriteOutcome)
      requires pce.Valid() && |e.pad| == 7
      modifies this`stats, this`sent, pce, pce.mf, pce.mf.p
      ensures pce.Valid() && (pce.mf.p == old(pce.mf.p) || fresh(pce.mf.p))
      ensures View(pce) == FrameProc(old(View(pce)), f, e.(write := w))
      ensures Room(|old(pce.Value()).mf|, f) <= limit ==> w.Written?
    {
      w := Written;
      if f.unpackStatus != 0 {
        return;
      }
      if f.command != SBN_COMMAND_DATA_TRANSFER {
        return;
      }
      if HasBit(f.transferType, ERROR) || HasBit(f.transferType, ABORT) {
        stats := stats.(aborted := stats.aborted + 1);
        pce.ClosePce();
        return;
      }
      var status;
      status, w := StartUpdateOnChannel(pce, f, e, limit);
      if status == 0 {
        if HasBit(f.transferType, END) {
          EndActive(pce, f);
        }
      }
    }

    /** sbnframeproc: one step of the machine, on the frame's channel only. */
    method SbnFrameProc(f: Frame, e: Env, limit: nat, ghost s: State) returns (ghost w: WriteOutcome)
      requires Valid() && f.channel < active.Length && |e.pad| == 7
      requires Shows(s)
      modifies this`stats, this`sent, active[f.channel], active[f.channel].mf, active[f.channel].mf.p
      ensures Valid()
      ensures Shows(Step(s, Event(f, e.(write := w))))
      ensures Room(|s.pces[f.channel].mf|, f) <= limit ==> w.Written?
    {
      w := FrameOnChannel(active[f.channel], f, e, limit);
    }
  }
}
