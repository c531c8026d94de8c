/** Where the bytes of a complete product come from: over every run of frames on
    all channels, from the blocks 0, 1, 2, ... of one transmission, and from
    nothing else. */
module Provenance {
  import opened Common
  import opened MFile
  import opened Assembly

  /** The frame announces a product. */
  predicate Begins(f: Frame)
  {
    Live(f) && !Aborting(f) && Starting(f) && f.block == 0
  }

  /** The frame brings a block of that product. */
  predicate Carries(f: Frame, channel: nat, seqNumber: nat)
  {
    && Live(f) && !Aborting(f) && Progressing(f) && (Starting(f) ==> f.block == 0)
    && f.channel == channel && f.seqNumber == seqNumber
  }

  /** The frame ends whatever product its channel has, of its own number or not. */
  predicate Ends(f: Frame)
  {
    Live(f) && !Aborting(f) && Ending(f) && (Starting(f) ==> f.block == 0)
  }

  /** No product was ended on the channel from `start` up to n. */
  predicate Quiet(evs: seq<Event>, start: nat, n: nat, channel: nat)
  {
    n <= |evs| && forall i :: start <= i < n && evs[i].f.channel == channel ==> !Ends(evs[i].f)
  }

  predicate Increasing(idx: seq<nat>)
  {
    forall j, k :: 0 <= j < k < |idx| ==> idx[j] < idx[k]
  }

  predicate Within(idx: seq<nat>, n: nat)
  {
    forall j :: 0 <= j < |idx| ==> idx[j] < n
  }

  function FrameOf(ev: Event): MemFrame
  {
    MemFrame(ev.f.payload, if ev.f.compressed then 1 else 0)
  }

  function Frames(evs: seq<Event>, idx: seq<nat>): (r: seq<MemFrame>)
    requires Within(idx, |evs|)
    ensures |r| == |idx|
    ensures forall j :: 0 <= j < |idx| ==>
              r[j] == FrameOf(evs[idx[j]])
  {
    if idx == [] then [] else Frames(evs, idx[..|idx| - 1]) + [FrameOf(evs[idx[|idx| - 1]])]
  }

  function Payloads(evs: seq<Event>, idx: seq<nat>): (r: seq<Bytes>)
    requires Within(idx, |evs|)
    ensures |r| == |idx|
    ensures forall j :: 0 <= j < |idx| ==> r[j] == evs[idx[j]].f.payload
  {
    if idx == [] then [] else Payloads(evs, idx[..|idx| - 1]) + [evs[idx[|idx| - 1]].f.payload]
  }

  /** The control header of the first block, then the payloads in order. */
  function Plain(evs: seq<Event>, idx: seq<nat>): Bytes
    requires Within(idx, |evs|)
  {
    (if idx == [] then [] else evs[idx[0]].f.ctrlhdr) + Concat(Payloads(evs, idx))
  }

  predicate Holds(evs: seq<Event>, idx: seq<nat>, p: Pce)
    requires Within(idx, |evs|)
  {
    if p.saveUnz then Encodes(p.mf, Frames(evs, idx)) else p.mf == Plain(evs, idx)
  }

  /** The header fields of the product are those its START frame announced. */
  predicate Announced(p: Pce, ev: Event)
  {
    && Begins(ev.f)
    && Accepted(ev.f, ev.e)
    && p.channel == ev.f.channel
    && p.seqNumber == ev.f.seqNumber
    && p.origSeq == (if ev.f.retransmit then ev.f.origSeq else 0)
    && p.numFragments == (if ev.f.numFragments == 0 then 1 else ev.f.numFragments)
    && p.saveUnz == (ev.f.compressed && ev.e.savezRejects && 0 < |ev.f.ctrlhdr| <= 58)
    && p.hasCcb == ev.f.hasCcb
    && p.saveFormat == ev.e.saveFormat
    && p.fname == ev.e.heading.fname
    && p.fpath == ev.e.heading.fpath
  }

  /** idx lists exactly the frames of the product among evs[start..], in order:
      they carry the blocks 0, 1, 2, ..., all of them and each once, all were
      stored, and no frame after the START restarted or aborted the channel. */
  predicate Blocks(evs: seq<Event>, start: nat, idx: seq<nat>, channel: nat, seqNumber: nat)
  {
    && Increasing(idx) && Within(idx, |evs|)
    && Numbered(evs, start, idx)
    && AllOf(evs, start, idx, channel, seqNumber)
    && Uninterrupted(evs, start, channel)
  }

  predicate Numbered(evs: seq<Event>, start: nat, idx: seq<nat>)
    requires Within(idx, |evs|)
  {
    forall j :: 0 <= j < |idx| ==>
      start <= idx[j] && evs[idx[j]].f.block == j && evs[idx[j]].e.write.Written?
  }

  predicate AllOf(evs: seq<Event>, start: nat, idx: seq<nat>, channel: nat, seqNumber: nat)
  {
    forall i :: start <= i < |evs| ==> (i in idx <==> Carries(evs[i].f, channel, seqNumber))
  }

  predicate Uninterrupted(evs: seq<Event>, start: nat, channel: nat)
  {
    forall i :: start < i < |evs| && evs[i].f.channel == channel && Live(evs[i].f) ==>
      !Aborting(evs[i].f) && !Begins(evs[i].f)
  }

  /** The product was announced at `start`, and its memory file holds the data
      of its blocks and nothing else. */
  predicate BuiltFrom(evs: seq<Event>, start: nat, idx: seq<nat>, p: Pce)
  {
    && start < |evs|
    && Announced(p, evs[start])
    && Blocks(evs, start, idx, p.channel, p.seqNumber)
    && |idx| == p.recvFragments
    && Holds(evs, idx, p)
  }

  /** The product was sent by an END frame of its own, the first END since its
      START, when all the fragments its START frame announced had been stored. */
  predicate CompletedAt(evs: seq<Event>, start: nat, idx: seq<nat>, end: nat, p: Pce)
  {
    && end < |evs|
    && BuiltFrom(evs[..end + 1], start, idx, p)
    && Quiet(evs, start, end, p.channel)
    && Ends(evs[end].f) && evs[end].f.channel == p.channel && evs[end].f.seqNumber == p.seqNumber
    && p.numFragments <= p.recvFragments
  }

  ghost predicate CompleteProduct(evs: seq<Event>, p: Pce)
  {
    exists start: nat, idx: seq<nat>, end: nat :: CompletedAt(evs, start, idx, end, p)
  }

  /** ... completed by the last event. */
  predicate CompletedLast(evs: seq<Event>, start: nat, idx: seq<nat>, p: Pce)
  {
    evs != [] && CompletedAt(evs, start, idx, |evs| - 1, p)
  }

  ghost predicate CompletedNow(evs: seq<Event>, p: Pce)
  {
    exists start: nat, idx: seq<nat> :: CompletedLast(evs, start, idx, p)
  }

  ghost predicate OpenProduct(evs: seq<Event>, p: Pce)
  {
    exists start: nat, idx: seq<nat> :: BuiltFrom(evs, start, idx, p) && Quiet(evs, start, |evs|, p.channel)
  }

  /** As it is before the END stage of the last event. */
  ghost predicate StagedProduct(evs: seq<Event>, p: Pce)
  {
    evs != [] &&
    exists start: nat, idx: seq<nat> :: BuiltFrom(evs, start, idx, p) && Quiet(evs, start, |evs| - 1, p.channel)
  }

  // ---------- growing the run ----------

  lemma {:induction false} FramesPrefix(evs: seq<Event>, ev: Event, idx: seq<nat>)
    requires Within(idx, |evs|)
    ensures Frames(evs + [ev], idx) == Frames(evs, idx)
    ensures Payloads(evs + [ev], idx) == Payloads(evs, idx)
    ensures Plain(evs + [ev], idx) == Plain(evs, idx)
  {
    if idx != [] {
      FramesPrefix(evs, ev, idx[..|idx| - 1]);
    }
  }

  /** A frame that neither carries a block of the product nor resets the channel
      leaves the account of it as it is. */
  lemma Unaffected(evs: seq<Event>, ev: Event, start: nat, idx: seq<nat>, p: Pce)
    requires BuiltFrom(evs, start, idx, p)
    requires !Carries(ev.f, p.channel, p.seqNumber)
    requires ev.f.channel == p.channel && Live(ev.f) ==> !Aborting(ev.f) && !Begins(ev.f)
    ensures BuiltFrom(evs + [ev], start, idx, p)
  {
    FramesPrefix(evs, ev, idx);
    assert (evs + [ev])[start] == evs[start];
  }

  /** The next block extends it. */
  lemma Extended(evs: seq<Event>, ev: Event, start: nat, idx: seq<nat>, p: Pce)
    requires BuiltFrom(evs, start, idx, p)
    requires Carries(ev.f, p.channel, p.seqNumber) && !Begins(ev.f)
    requires ev.f.block == p.recvFragments
    requires |ev.f.payload| < 65536 && |ev.e.pad| == 7 && ev.e.write.Written?
    ensures var q := SaveFrame(p.(recvFragments := p.recvFragments + 1), ev.f, ev.e).0;
            BuiltFrom(evs + [ev], start, idx + [|evs|], q)
  {
    FramesPrefix(evs, ev, idx);
    HoldsOneMore(evs + [ev], idx, |evs|, p, ev);
    BlocksOneMore(evs, ev, start, idx, p.channel, p.seqNumber);
    assert (evs + [ev])[start] == evs[start];
  }

  lemma BlocksOneMore(evs: seq<Event>, ev: Event, start: nat, idx: seq<nat>, channel: nat, seqNumber: nat)
    requires Blocks(evs, start, idx, channel, seqNumber) && start < |evs|
    requires Carries(ev.f, channel, seqNumber) && !Begins(ev.f) && ev.f.block == |idx| && ev.e.write.Written?
    ensures Blocks(evs + [ev], start, idx + [|evs|], channel, seqNumber)
  {
    var idx', evs' := idx + [|evs|], evs + [ev];
    forall i | start <= i < |evs'|
      ensures i in idx' <==> Carries(evs'[i].f, channel, seqNumber)
    {
      if i < |evs| {
        assert evs'[i] == evs[i];
        assert i in idx' <==> i in idx;
      } else {
        assert idx'[|idx|] == i;
      }
    }
  }

  lemma HoldsOneMore(evs: seq<Event>, idx: seq<nat>, k: nat, p: Pce, ev: Event)
    requires Within(idx, |evs|) && k < |evs| && evs[k] == ev
    requires Holds(evs, idx, p) && ev.f.block == |idx|
    requires |ev.f.payload| < 65536 && |ev.e.pad| == 7
    ensures Holds(evs, idx + [k], p.(mf := p.mf + Stored(ev.f, p.saveUnz, ev.e.pad)))
  {
    var idx' := idx + [k];
    assert idx'[..|idx|] == idx;
    if p.saveUnz {
      EncodesOneMore(p.mf, Frames(evs, idx), ev);
      assert Frames(evs, idx') == Frames(evs, idx) + [FrameOf(ev)];
    } else {
      PlainOneMore(evs, idx, k, ev);
    }
  }

  lemma EncodesOneMore(mf: Bytes, frames: seq<MemFrame>, ev: Event)
    requires Encodes(mf, frames) && |ev.f.payload| < 65536 && |ev.e.pad| == 7
    ensures Encodes(mf + Stored(ev.f, true, ev.e.pad), frames + [FrameOf(ev)])
  {
    var f := FrameOf(ev);
    EncodesAppend(mf, frames, f, ev.e.pad);
    assert mf + Info(|f.data|, f.compressed, ev.e.pad) + f.data == mf + Stored(ev.f, true, ev.e.pad);
  }

  lemma PlainOneMore(evs: seq<Event>, idx: seq<nat>, k: nat, ev: Event)
    requires Within(idx, |evs|) && k < |evs| && evs[k] == ev
    requires ev.f.block == |idx| && |ev.e.pad| == 7
    ensures Plain(evs, idx + [k]) == Plain(evs, idx) + Stored(ev.f, false, ev.e.pad)
  {
    var idx' := idx + [k];
    assert idx'[..|idx|] == idx;
    ConcatSnoc(Payloads(evs, idx), ev.f.payload);
    if idx == [] {
      assert Payloads(evs, idx) == [];
    }
  }

  /** A fresh START opens the account with no blocks. */
  lemma Opened(evs: seq<Event>, ev: Event)
    requires Begins(ev.f) && !Progressing(ev.f) && Accepted(ev.f, ev.e)
    ensures BuiltFrom(evs + [ev], |evs|, [], Begin(IdlePce, ev.f, ev.e))
  {
  }

  /** A START that also carries block 0. */
  lemma OpenedWithBlock(evs: seq<Event>, ev: Event)
    requires Begins(ev.f) && Progressing(ev.f) && Accepted(ev.f, ev.e)
    requires |ev.f.payload| < 65536 && |ev.e.pad| == 7 && ev.e.write.Written?
    ensures var q := Begin(IdlePce, ev.f, ev.e);
            BuiltFrom(evs + [ev], |evs|, [|evs|],
                      SaveFrame(q.(recvFragments := 1), ev.f, ev.e).0)
  {
    FirstBlock(evs, ev);
    hide Blocks;
    var evs' := evs + [ev];
    HoldsOneMore(evs', [], |evs|, Begin(IdlePce, ev.f, ev.e), ev);
    assert [] + [|evs|] == [|evs|];
  }

  lemma FirstBlock(evs: seq<Event>, ev: Event)
    requires Begins(ev.f) && Progressing(ev.f) && ev.e.write.Written?
    ensures Blocks(evs + [ev], |evs|, [|evs|], ev.f.channel, ev.f.seqNumber)
  {
    assert [|evs|][0] == |evs|;
  }

  // ---------- one frame ----------

  /** The account after the PROGRESS stage of a frame without START. */
  lemma ProgressAccount(evs: seq<Event>, ev: Event, r: Reader)
    requires |ev.e.pad| == 7 && |ev.f.payload| < 65536
    requires Live(ev.f) && !Aborting(ev.f) && !Starting(ev.f)
    requires r.pce.seqNumber != 0 && r.pce.channel == ev.f.channel && OpenProduct(evs, r.pce)
    ensures var p := (if Progressing(ev.f) then Update(r, ev.f, ev.e).0 else r).pce;
            p.seqNumber != 0 ==> p.channel == ev.f.channel && StagedProduct(evs + [ev], p)
  {
    hide BuiltFrom;
    var f, e, p := ev.f, ev.e, r.pce;
    var start: nat, idx: seq<nat> :| BuiltFrom(evs, start, idx, p) && Quiet(evs, start, |evs|, p.channel);
    assert Quiet(evs + [ev], start, |evs|, p.channel);
    if !Carries(f, p.channel, p.seqNumber) {
      assert Progressing(f) ==> Update(r, f, e).0.pce == p;
      Unaffected(evs, ev, start, idx, p);
    } else if f.block == p.recvFragments && e.write.Written? {
      var q := SaveFrame(p.(recvFragments := p.recvFragments + 1), f, e).0;
      assert Update(r, f, e).0.pce == q;
      Extended(evs, ev, start, idx, p);
      assert BuiltFrom(evs + [ev], start, idx + [|evs|], q);
    } else {
      assert Update(r, f, e).0.pce.seqNumber == 0;
    }
  }

  /** The account after the START and PROGRESS stages of a frame on its own channel. */
  lemma StageAccount(evs: seq<Event>, ev: Event, r: Reader)
    requires |ev.e.pad| == 7 && |ev.f.payload| < 65536
    requires Settled(r.pce) && Live(ev.f) && !Aborting(ev.f)
    requires r.pce.seqNumber != 0 ==> r.pce.channel == ev.f.channel && OpenProduct(evs, r.pce)
    requires ev.f.seqNumber == 0 && !Starting(ev.f) ==> !Progressing(ev.f)
    ensures var (t, status) := StartUpdate(r, ev.f, ev.e);
            && (t.pce.seqNumber != 0 ==> t.pce.channel == ev.f.channel && StagedProduct(evs + [ev], t.pce))
            && (Starting(ev.f) && status == 0 ==> t.pce.channel == ev.f.channel && StagedProduct(evs + [ev], t.pce))
  {
    if Starting(ev.f) {
      StartAccount(evs, ev, r);
    } else if r.pce.seqNumber != 0 {
      ProgressAccount(evs, ev, r);
    }
  }

  lemma StartAccount(evs: seq<Event>, ev: Event, r: Reader)
    requires |ev.e.pad| == 7 && |ev.f.payload| < 65536
    requires Settled(r.pce) && Live(ev.f) && !Aborting(ev.f) && Starting(ev.f)
    requires r.pce.seqNumber != 0 ==> r.pce.channel == ev.f.channel && OpenProduct(evs, r.pce)
    ensures var (t, status) := StartUpdate(r, ev.f, ev.e);
            && (t.pce.seqNumber != 0 ==> t.pce.channel == ev.f.channel && StagedProduct(evs + [ev], t.pce))
            && (status == 0 ==> t.pce.channel == ev.f.channel && StagedProduct(evs + [ev], t.pce))
  {
    hide BuiltFrom;
    var f, e := ev.f, ev.e;
    if f.block != 0 {
      if r.pce.seqNumber != 0 {
        var start: nat, idx: seq<nat> :| BuiltFrom(evs, start, idx, r.pce) && Quiet(evs, start, |evs|, r.pce.channel);
        Unaffected(evs, ev, start, idx, r.pce);
        assert Quiet(evs + [ev], start, |evs|, r.pce.channel);
      }
    } else if Accepted(f, e) {
      StartIsFresh(Retransmission(r, f), f, e);
      assert Quiet(evs + [ev], |evs|, |evs|, f.channel);
      if !Progressing(f) {
        Opened(evs, ev);
      } else if e.write.Written? {
        OpenedWithBlock(evs, ev);
      }
    }
  }

  // ---------- what one frame sends ----------

  predicate NotComplete(p: Pce) { !p.complete }

  /** The reader's queue grew by products that are not complete. */
  predicate SentIncomplete(r: Reader, t: Reader)
  {
    && r.sent <= t.sent
    && forall k :: |r.sent| <= k < |t.sent| ==> NotComplete(t.sent[k])
  }

  lemma StartSends(r: Reader, f: Frame, e: Env)
    requires Settled(r.pce)
    ensures SentIncomplete(r, Start(r, f, e).0)
    ensures Start(r, f, e).1 == 0 ==> NotComplete(Start(r, f, e).0.pce)
  {
  }

  lemma UpdateSends(r: Reader, f: Frame, e: Env)
    requires |e.pad| == 7
    requires r.pce.seqNumber == f.seqNumber ==> NotComplete(r.pce)
    ensures SentIncomplete(r, Update(r, f, e).0)
    ensures Update(r, f, e).1 == 0 ==> Update(r, f, e).0.pce.complete == r.pce.complete
    ensures Update(r, f, e).1 == 0 ==> Update(r, f, e).0.pce.seqNumber == r.pce.seqNumber
  {
  }

  lemma StageSends(r: Reader, f: Frame, e: Env)
    requires |e.pad| == 7 && Settled(r.pce)
    requires f.seqNumber == 0 && !Starting(f) ==> !Progressing(f)
    ensures var (t, status) := StartUpdate(r, f, e);
            && SentIncomplete(r, t)
            && (status == 0 && t.pce.seqNumber == f.seqNumber && (f.seqNumber != 0 || Starting(f)) ==>
                  NotComplete(t.pce))
  {
    if Starting(f) {
      var r0 := Retransmission(r, f);
      StartSends(r0, f, e);
      if Start(r0, f, e).1 == 0 {
        UpdateSends(Start(r0, f, e).0, f, e);
      }
    } else if Progressing(f) {
      UpdateSends(r, f, e);
    }
  }

  lemma FinishSends(r: Reader, f: Frame)
    ensures var t := Finish(r, f);
            && r.sent <= t.sent
            && (|t.sent| == |r.sent|
                || (&& t.sent == r.sent + [Complete(r.pce, f.seqNumber).0]
                    && r.pce.seqNumber == f.seqNumber))
            && t.pce.seqNumber == 0
  {
  }

  /** The END of a product turns its account into that of a complete one. */
  lemma Ended(evs: seq<Event>, ev: Event, p: Pce)
    requires StagedProduct(evs + [ev], p)
    requires Ends(ev.f) && ev.f.channel == p.channel && ev.f.seqNumber == p.seqNumber
    requires p.numFragments <= p.recvFragments
    ensures CompletedNow(evs + [ev], p.(complete := true))
  {
    var evs' := evs + [ev];
    var start: nat, idx: seq<nat> :| BuiltFrom(evs', start, idx, p) && Quiet(evs', start, |evs|, p.channel);
    assert evs'[..|evs| + 1] == evs';
    assert CompletedLast(evs', start, idx, p.(complete := true));
  }

  /** A frame that ends nothing leaves the account open. */
  lemma StaysOpen(evs: seq<Event>, ev: Event, p: Pce)
    requires StagedProduct(evs + [ev], p) && (ev.f.channel == p.channel ==> !Ends(ev.f))
    ensures OpenProduct(evs + [ev], p)
  {
    var evs' := evs + [ev];
    var start: nat, idx: seq<nat> :| BuiltFrom(evs', start, idx, p) && Quiet(evs', start, |evs|, p.channel);
    assert Quiet(evs', start, |evs'|, p.channel);
  }

  /** An END stage that is not reached belongs to a frame that ends nothing, or
      the channel is closed already. */
  lemma NotReached(r: Reader, f: Frame, e: Env)
    requires |e.pad| == 7
    ensures var (t, status) := StartUpdate(r, f, e);
            status != 0 && t.pce.seqNumber != 0 ==> Starting(f) && f.block != 0
  {
  }

  /** What one frame adds to the queue, and the account of it. */
  lemma FrameSends(evs: seq<Event>, ev: Event, r: Reader)
    requires |ev.e.pad| == 7 && |ev.f.payload| < 65536 && Sound(ev.f)
    requires Settled(r.pce)
    requires r.pce.seqNumber != 0 ==> r.pce.channel == ev.f.channel && OpenProduct(evs, r.pce)
    ensures var t := FrameProc(r, ev.f, ev.e);
            && r.sent <= t.sent
            && (forall k :: |r.sent| <= k < |t.sent| ==>
                  NotComplete(t.sent[k]) || CompletedNow(evs + [ev], t.sent[k]))
            && (t.pce.seqNumber != 0 ==> t.pce.channel == ev.f.channel && OpenProduct(evs + [ev], t.pce))
  {
    hide StartUpdate;
    hide BuiltFrom;
    hide CompletedAt;
    if Live(ev.f) && !Aborting(ev.f) {
      StageAccount(evs, ev, r);
      StageSends(r, ev.f, ev.e);
      NotReached(r, ev.f, ev.e);
      var (t, status) := StartUpdate(r, ev.f, ev.e);
      if status == 0 && Ending(ev.f) {
        FinishSends(t, ev.f);
        NotReachedStart(r, ev.f, ev.e);
        if t.pce.seqNumber == ev.f.seqNumber && t.pce.numFragments <= t.pce.recvFragments {
          Ended(evs, ev, t.pce);
        }
      } else if t.pce.seqNumber != 0 {
        StaysOpen(evs, ev, t.pce);
      }
    } else if r.pce.seqNumber != 0 && !Live(ev.f) {
      Ignored(evs, ev, r.pce);
    }
  }

  lemma NotReachedStart(r: Reader, f: Frame, e: Env)
    requires |e.pad| == 7
    ensures StartUpdate(r, f, e).1 == 0 && Starting(f) ==> f.block == 0
  {
  }

  lemma Ignored(evs: seq<Event>, ev: Event, p: Pce)
    requires OpenProduct(evs, p) && (Live(ev.f) ==> ev.f.channel != p.channel)
    ensures OpenProduct(evs + [ev], p)
  {
    var start: nat, idx: seq<nat> :| BuiltFrom(evs, start, idx, p) && Quiet(evs, start, |evs|, p.channel);
    Unaffected(evs, ev, start, idx, p);
    assert Quiet(evs + [ev], start, |evs| + 1, p.channel);
  }

  // ---------- whole runs ----------

  lemma CompleteProductLasts(evs: seq<Event>, ev: Event, p: Pce)
    requires CompleteProduct(evs, p)
    ensures CompleteProduct(evs + [ev], p)
  {
    var start: nat, idx: seq<nat>, end: nat :| CompletedAt(evs, start, idx, end, p);
    assert (evs + [ev])[..end + 1] == evs[..end + 1];
    assert Quiet(evs + [ev], start, end, p.channel);
    assert CompletedAt(evs + [ev], start, idx, end, p);
  }

  /** Every open channel has an account, over every run. */
  lemma {:induction false} OpenChannels(s: State, evs: seq<Event>, c: nat)
    requires Initial(s) && ValidRun(evs, |s.pces|) && c < |s.pces|
    ensures var p := Run(s, evs).pces[c];
            p.seqNumber != 0 ==> p.channel == c && OpenProduct(evs, p)
  {
    if evs != [] {
      var n := |evs| - 1;
      var t, ev := Run(s, evs[..n]), evs[n];
      OpenChannels(s, evs[..n], c);
      assert evs == evs[..n] + [ev];
      if ev.f.channel == c {
        RunSettles(s, evs[..n], c);
        FrameSends(evs[..n], ev, View(t, c));
      } else if t.pces[c].seqNumber != 0 {
        Ignored(evs[..n], ev, t.pces[c]);
      }
    }
  }

  /** What the last frame of a run sends as complete is complete by that frame. */
  lemma LastFrameSends(s: State, evs: seq<Event>, k: nat)
    requires Initial(s) && ValidRun(evs, |s.pces|) && evs != []
    requires |Run(s, evs[..|evs| - 1]).sent| <= k < |Run(s, evs).sent|
    ensures Run(s, evs[..|evs| - 1]).sent <= Run(s, evs).sent
    ensures Run(s, evs).sent[k].complete ==> CompletedNow(evs, Run(s, evs).sent[k])
  {
    hide CompletedNow;
    hide FrameProc;
    var n := |evs| - 1;
    var c := evs[n].f.channel;
    assert evs == evs[..n] + [evs[n]];
    OpenChannels(s, evs[..n], c);
    RunSettles(s, evs[..n], c);
    FrameSends(evs[..n], evs[n], View(Run(s, evs[..n]), c));
  }

  /** In every run of frames over all channels, every product sent as complete
      was built from the blocks 0, 1, 2, ... of one sequence number on one
      channel, with no gap, repeat or mixing, and from at least as many of them
      as its START frame announced. */
  lemma {:induction false} CompleteProducts(s: State, evs: seq<Event>, k: nat)
    requires Initial(s) && ValidRun(evs, |s.pces|) && k < |Run(s, evs).sent|
    ensures Run(s, evs).sent[k].complete ==> CompleteProduct(evs, Run(s, evs).sent[k])
  {
    hide CompletedAt;
    if evs != [] {
      var n := |evs| - 1;
      var t := Run(s, evs[..n]);
      assert evs == evs[..n] + [evs[n]];
      if k < |t.sent| {
        SentByStep(t, evs[n]);
        CompleteProducts(s, evs[..n], k);
        if t.sent[k].complete {
          CompleteProductLasts(evs[..n], evs[n], t.sent[k]);
        }
      } else {
        LastFrameSends(s, evs, k);
        if Run(s, evs).sent[k].complete {
          var start: nat, idx: seq<nat> :| CompletedLast(evs, start, idx, Run(s, evs).sent[k]);
        }
      }
    }
  }

  // ---------- whole transmissions ----------

  function AnnouncedFragments(ev: Event): nat { if ev.f.numFragments == 0 then 1 else ev.f.numFragments }

  /** A product was announced at `start` and not turned down, idx lists its
      blocks, and nothing on its channel ended, restarted or aborted it. */
  predicate Underway(evs: seq<Event>, start: nat, idx: seq<nat>)
  {
    && start < |evs| && Begins(evs[start].f) && Accepted(evs[start].f, evs[start].e)
    && Blocks(evs, start, idx, evs[start].f.channel, evs[start].f.seqNumber)
    && Quiet(evs, start, |evs|, evs[start].f.channel)
  }

  /** ... and the last frame ends it, with as many blocks as announced. */
  predicate Whole(evs: seq<Event>, start: nat, idx: seq<nat>)
  {
    && start < |evs| && Begins(evs[start].f) && Accepted(evs[start].f, evs[start].e)
    && Blocks(evs, start, idx, evs[start].f.channel, evs[start].f.seqNumber)
    && var n := |evs| - 1;
       && Quiet(evs, start, n, evs[start].f.channel)
       && Ends(evs[n].f) && evs[n].f.channel == evs[start].f.channel && evs[n].f.seqNumber == evs[start].f.seqNumber
       && AnnouncedFragments(evs[start]) <= |idx|
  }

  /** The blocks among all but the last event. */
  function Earlier(idx: seq<nat>, n: nat): seq<nat>
  {
    if idx != [] && idx[|idx| - 1] == n then idx[..|idx| - 1] else idx
  }

  lemma LastOf(idx: seq<nat>, n: nat)
    requires Increasing(idx) && Within(idx, n + 1)
    ensures n in idx <==> idx != [] && idx[|idx| - 1] == n
    ensures idx == Earlier(idx, n) + (if n in idx then [n] else []) && Within(Earlier(idx, n), n)
  {
    if n in idx {
      var j :| 0 <= j < |idx| && idx[j] == n;
      assert idx[j] <= idx[|idx| - 1] < n + 1;
    }
  }

  lemma EarlierAllOf(evs: seq<Event>, start: nat, idx: seq<nat>, channel: nat, seqNumber: nat)
    requires evs != [] && Increasing(idx) && Within(idx, |evs|) && AllOf(evs, start, idx, channel, seqNumber)
    ensures AllOf(evs[..|evs| - 1], start, Earlier(idx, |evs| - 1), channel, seqNumber)
  {
    hide Carries;
    var n := |evs| - 1;
    LastOf(idx, n);
    hide Earlier;
    var idx' := Earlier(idx, n);
    forall i: nat | start <= i < n ensures i in idx' <==> Carries(evs[i].f, channel, seqNumber) {
      assert i in idx <==> i in idx';
    }
  }

  lemma EarlierNumbered(evs: seq<Event>, start: nat, idx: seq<nat>)
    requires evs != [] && Increasing(idx) && Within(idx, |evs|) && Numbered(evs, start, idx)
    ensures var idx' := Earlier(idx, |evs| - 1);
            Increasing(idx') && Within(idx', |evs| - 1) && Numbered(evs[..|evs| - 1], start, idx')
  {
    var n := |evs| - 1;
    LastOf(idx, n);
    var idx' := Earlier(idx, n);
    forall j | 0 <= j < |idx'| ensures start <= idx'[j] && evs[..n][idx'[j]] == evs[idx[j]] {
      assert idx'[j] == idx[j];
    }
  }

  lemma EarlierBlocks(evs: seq<Event>, start: nat, idx: seq<nat>, channel: nat, seqNumber: nat)
    requires Blocks(evs, start, idx, channel, seqNumber) && start < |evs| - 1
    ensures Blocks(evs[..|evs| - 1], start, Earlier(idx, |evs| - 1), channel, seqNumber)
    ensures idx == Earlier(idx, |evs| - 1)
                   + (if Carries(evs[|evs| - 1].f, channel, seqNumber) then [|evs| - 1] else [])
  {
    var n := |evs| - 1;
    LastOf(idx, n);
    EarlierNumbered(evs, start, idx);
    EarlierAllOf(evs, start, idx, channel, seqNumber);
    assert n in idx <==> Carries(evs[n].f, channel, seqNumber);
    assert Uninterrupted(evs[..n], start, channel);
  }

  /** A frame that carries none of the product's blocks and neither ends, restarts
      nor aborts it leaves its channel alone. */
  lemma ChannelLeftAlone(r: Reader, f: Frame, e: Env)
    requires |e.pad| == 7 && r.pce.channel == f.channel && r.pce.seqNumber != 0
    requires !Carries(f, r.pce.channel, r.pce.seqNumber) && !Ends(f)
    requires Live(f) ==> !Aborting(f) && !Begins(f)
    ensures FrameProc(r, f, e).pce == r.pce
  {
  }

  lemma NextBlockStored(r: Reader, f: Frame, e: Env)
    requires |e.pad| == 7 && e.write.Written? && f.block == r.pce.recvFragments && !Begins(f)
    requires Carries(f, r.pce.channel, r.pce.seqNumber)
    ensures StartUpdate(r, f, e) ==
            (r.(pce := SaveFrame(r.pce.(recvFragments := r.pce.recvFragments + 1), f, e).0), 0)
  {
  }

  lemma FirstStage(r: Reader, ev: Event)
    requires |ev.e.pad| == 7 && Begins(ev.f) && Accepted(ev.f, ev.e)
    requires Progressing(ev.f) ==> ev.e.write.Written?
    ensures var (t, status) := StartUpdate(r, ev.f, ev.e);
            var q := Begin(IdlePce, ev.f, ev.e);
            && status == 0
            && t.pce == if Progressing(ev.f) then SaveFrame(q.(recvFragments := 1), ev.f, ev.e).0 else q
  {
    StartIsFresh(Retransmission(r, ev.f), ev.f, ev.e);
  }

  /** The blocks of a product that was announced by the last event. */
  lemma FirstBlocks(evs: seq<Event>, idx: seq<nat>)
    requires evs != [] && Begins(evs[|evs| - 1].f)
    requires Blocks(evs, |evs| - 1, idx, evs[|evs| - 1].f.channel, evs[|evs| - 1].f.seqNumber)
    ensures idx == if Progressing(evs[|evs| - 1].f) then [|evs| - 1] else []
    ensures Progressing(evs[|evs| - 1].f) ==> evs[|evs| - 1].e.write.Written?
  {
    var n := |evs| - 1;
    LastOf(idx, n);
    assert n in idx <==> Carries(evs[n].f, evs[n].f.channel, evs[n].f.seqNumber);
    assert Earlier(idx, n) == [];
  }

  /** The product as the START and PROGRESS stages of its first frame leave it. */
  lemma FirstBuilt(evs: seq<Event>, idx: seq<nat>, r: Reader)
    requires evs != [] && Begins(evs[|evs| - 1].f) && Accepted(evs[|evs| - 1].f, evs[|evs| - 1].e)
    requires Blocks(evs, |evs| - 1, idx, evs[|evs| - 1].f.channel, evs[|evs| - 1].f.seqNumber)
    requires |evs[|evs| - 1].f.payload| < 65536 && |evs[|evs| - 1].e.pad| == 7
    ensures var n := |evs| - 1;
            var (t, status) := StartUpdate(r, evs[n].f, evs[n].e);
            status == 0 && !t.pce.complete && BuiltFrom(evs, n, idx, t.pce)
  {
    hide BuiltFrom;
    hide StartUpdate;
    var n := |evs| - 1;
    assert evs == evs[..n] + [evs[n]];
    FirstBlocks(evs, idx);
    FirstStage(r, evs[n]);
    if Progressing(evs[n].f) {
      OpenedWithBlock(evs[..n], evs[n]);
    } else {
      Opened(evs[..n], evs[n]);
    }
  }

  /** ... and of a later one that does not end it. */
  lemma LaterBuilt(evs: seq<Event>, ev: Event, start: nat, idx: seq<nat>, idx': seq<nat>, r: Reader)
    requires BuiltFrom(evs, start, idx, r.pce) && r.pce.channel == ev.f.channel && r.pce.seqNumber != 0
    requires |ev.f.payload| < 65536 && |ev.e.pad| == 7
    requires Blocks(evs + [ev], start, idx', r.pce.channel, r.pce.seqNumber)
    requires if Carries(ev.f, r.pce.channel, r.pce.seqNumber) then idx' == idx + [|evs|] else idx' == idx
    requires Ends(ev.f) ==> ev.f.seqNumber == r.pce.seqNumber
    ensures !Ends(ev.f) ==>
              var p := FrameProc(r, ev.f, ev.e).pce;
              BuiltFrom(evs + [ev], start, idx', p) && p.complete == r.pce.complete
    ensures Ends(ev.f) ==>
              var (t, status) := StartUpdate(r, ev.f, ev.e);
              status == 0 && BuiltFrom(evs + [ev], start, idx', t.pce) && t.pce.complete == r.pce.complete
  {
    var f, e := ev.f, ev.e;
    BlockAt(evs, ev, start, idx, idx', r.pce.channel, r.pce.seqNumber);
    BuiltFields(evs, start, idx, r.pce);
    hide Blocks;
    if Carries(f, r.pce.channel, r.pce.seqNumber) {
      hide BuiltFrom;
      Extended(evs, ev, start, idx, r.pce);
      NextBlockStored(r, f, e);
    } else {
      hide BuiltFrom;
      Unaffected(evs, ev, start, idx, r.pce);
      if !Ends(f) {
        ChannelLeftAlone(r, f, e);
      }
    }
  }

  lemma BlockAt(evs: seq<Event>, ev: Event, start: nat, idx: seq<nat>, idx': seq<nat>, channel: nat, seqNumber: nat)
    requires Blocks(evs + [ev], start, idx', channel, seqNumber) && ev.f.channel == channel && start < |evs|
    requires if Carries(ev.f, channel, seqNumber) then idx' == idx + [|evs|] else idx' == idx
    ensures Live(ev.f) ==> !Aborting(ev.f) && !Begins(ev.f)
    ensures Carries(ev.f, channel, seqNumber) ==> ev.f.block == |idx| && ev.e.write.Written?
  {
    assert (evs + [ev])[|evs|] == ev;
    assert Carries(ev.f, channel, seqNumber) ==> idx'[|idx|] == |evs|;
  }

  /** The channel holds the product that is under way, with just its blocks. */
  lemma {:induction false} UnderwayBuilt(s: State, evs: seq<Event>, start: nat, idx: seq<nat>)
    requires ValidRun(evs, |s.pces|) && Underway(evs, start, idx)
    ensures var p := Run(s, evs).pces[evs[start].f.channel];
            BuiltFrom(evs, start, idx, p) && !p.complete && p.seqNumber != 0
  {
    hide BuiltFrom;
    hide Blocks;
    hide Step;
    hide Earlier;
    var n, c := |evs| - 1, evs[start].f.channel;
    var t := Run(s, evs[..n]);
    if n == start {
      FirstUnderway(t, evs, idx);
    } else {
      var idx' := Earlier(idx, n);
      EarlierBlocks(evs, start, idx, c, evs[start].f.seqNumber);
      assert Quiet(evs[..n], start, n, c);
      UnderwayBuilt(s, evs[..n], start, idx');
      LaterUnderway(t, evs, start, idx', idx);
    }
  }

  lemma FirstUnderway(t: State, evs: seq<Event>, idx: seq<nat>)
    requires ValidRun(evs, |t.pces|) && evs != [] && Underway(evs, |evs| - 1, idx)
    ensures var n := |evs| - 1;
            var p := Step(t, evs[n]).pces[evs[n].f.channel];
            BuiltFrom(evs, n, idx, p) && !p.complete && p.seqNumber != 0
  {
    hide BuiltFrom;
    hide Blocks;
    hide FrameProc;
    hide StartUpdate;
    var n := |evs| - 1;
    var r, ev := View(t, evs[n].f.channel), evs[n];
    FirstBuilt(evs, idx, r);
    NotEnded(r, ev.f, ev.e);
    BuiltFields(evs, n, idx, FrameProc(r, ev.f, ev.e).pce);
  }

  lemma LaterUnderway(t: State, evs: seq<Event>, start: nat, idx: seq<nat>, idx': seq<nat>)
    requires ValidRun(evs, |t.pces|) && start < |evs| - 1 && Underway(evs, start, idx')
    requires var n, c := |evs| - 1, evs[start].f.channel;
             && BuiltFrom(evs[..n], start, idx, t.pces[c]) && !t.pces[c].complete && t.pces[c].seqNumber != 0
             && idx' == if Carries(evs[n].f, c, evs[start].f.seqNumber) then idx + [n] else idx
    ensures var p := Step(t, evs[|evs| - 1]).pces[evs[start].f.channel];
            BuiltFrom(evs, start, idx', p) && !p.complete && p.seqNumber != 0
  {
    hide BuiltFrom;
    hide Blocks;
    hide FrameProc;
    var n, c := |evs| - 1, evs[start].f.channel;
    var ev, p := evs[n], Step(t, evs[n]).pces[c];
    assert evs == evs[..n] + [ev];
    BuiltFields(evs[..n], start, idx, t.pces[c]);
    if ev.f.channel == c {
      LaterBuilt(evs[..n], ev, start, idx, idx', View(t, c));
    } else {
      Unaffected(evs[..n], ev, start, idx, t.pces[c]);
    }
    BuiltFields(evs, start, idx', p);
  }

  lemma NotEnded(r: Reader, f: Frame, e: Env)
    requires |e.pad| == 7 && Live(f) && !Aborting(f) && !Ends(f) && (Starting(f) ==> f.block == 0)
    ensures FrameProc(r, f, e) == StartUpdate(r, f, e).0
  {
  }

  lemma EndCompletes(r: Reader, f: Frame)
    requires r.pce.seqNumber == f.seqNumber && r.pce.numFragments <= r.pce.recvFragments
    ensures var t := Finish(r, f);
            t.sent == r.sent + [r.pce.(complete := true)] && t.stats.completed == r.stats.completed + 1
  {
  }

  lemma WholeBuilt(s: State, evs: seq<Event>, start: nat, idx: seq<nat>)
    requires ValidRun(evs, |s.pces|) && Whole(evs, start, idx)
    ensures var n := |evs| - 1;
            var (t, status) := StartUpdate(View(Run(s, evs[..n]), evs[n].f.channel), evs[n].f, evs[n].e);
            status == 0 && BuiltFrom(evs, start, idx, t.pce)
  {
    hide StartUpdate;
    hide Blocks;
    hide Earlier;
    hide Run;
    hide Begins;
    hide Ends;
    hide Carries;
    var n, c := |evs| - 1, evs[start].f.channel;
    var t, ev := Run(s, evs[..n]), evs[n];
    assert evs == evs[..n] + [ev];
    if n == start {
      hide BuiltFrom;
      FirstBuilt(evs, idx, View(t, c));
    } else {
      var idx' := Earlier(idx, n);
      EarlierBlocks(evs, start, idx, c, evs[start].f.seqNumber);
      assert Quiet(evs[..n], start, n, c);
      UnderwayBuilt(s, evs[..n], start, idx');
      BuiltFields(evs[..n], start, idx', t.pces[c]);
      hide BuiltFrom;
      LaterBuilt(evs[..n], ev, start, idx', idx, View(t, c));
    }
  }

  /** A transmission that arrives whole is sent as complete by its last frame,
      built from its own blocks, whatever the other channels do and whatever else
      its own channel carries meanwhile. */
  lemma WholeTransmissionIsSent(s: State, evs: seq<Event>, start: nat, idx: seq<nat>)
    requires ValidRun(evs, |s.pces|) && Whole(evs, start, idx)
    ensures var sent := Run(s, evs).sent;
            && |sent| > |Run(s, evs[..|evs| - 1]).sent|
            && sent[|sent| - 1].complete
            && CompletedAt(evs, start, idx, |evs| - 1, sent[|sent| - 1])
  {
    hide StartUpdate;
    hide Finish;
    hide BuiltFrom;
    var n := |evs| - 1;
    var r := View(Run(s, evs[..n]), evs[n].f.channel);
    WholeBuilt(s, evs, start, idx);
    assert evs[..n + 1] == evs;
    var t := StartUpdate(r, evs[n].f, evs[n].e).0;
    BuiltFields(evs, start, idx, t.pce);
    EndCompletes(t, evs[n].f);
    StagesOnlySend(r, evs[n].f, evs[n].e);
  }

  lemma BuiltFields(evs: seq<Event>, start: nat, idx: seq<nat>, p: Pce)
    requires BuiltFrom(evs, start, idx, p)
    ensures p.channel == evs[start].f.channel && p.seqNumber == evs[start].f.seqNumber
    ensures p.numFragments == AnnouncedFragments(evs[start]) && p.recvFragments == |idx|
    ensures BuiltFrom(evs, start, idx, p.(complete := true))
  {
  }

  lemma StagesOnlySend(r: Reader, f: Frame, e: Env)
    requires |e.pad| == 7
    ensures |r.sent| <= |StartUpdate(r, f, e).0.sent|
  {
  }

  /** A frame sends a complete product if and only if it is the last one of a
      transmission that arrived whole. */
  lemma SentExactlyWhenWhole(s: State, evs: seq<Event>)
    requires Initial(s) && ValidRun(evs, |s.pces|) && evs != []
    ensures (exists k :: |Run(s, evs[..|evs| - 1]).sent| <= k < |Run(s, evs).sent| && Run(s, evs).sent[k].complete)
            <==> exists start: nat, idx: seq<nat> :: Whole(evs, start, idx)
  {
    hide Run;
    hide CompletedAt;
    hide Whole;
    var n := |evs| - 1;
    var sent := Run(s, evs).sent;
    if k :| |Run(s, evs[..n]).sent| <= k < |sent| && sent[k].complete {
      LastFrameSends(s, evs, k);
      var start: nat, idx: seq<nat> :| CompletedLast(evs, start, idx, sent[k]);
      CompletedIsWhole(evs, start, idx, sent[k]);
    }
    if start: nat, idx: seq<nat> :| Whole(evs, start, idx) {
      WholeTransmissionIsSent(s, evs, start, idx);
      assert sent[|sent| - 1].complete;
    }
  }

  lemma CompletedIsWhole(evs: seq<Event>, start: nat, idx: seq<nat>, p: Pce)
    requires CompletedLast(evs, start, idx, p)
    ensures Whole(evs, start, idx)
  {
    assert evs[..|evs|] == evs;
  }
}
