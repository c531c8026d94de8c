/** What becomes of the products that are announced: over every run of frames on
    all channels each of them is sent once, is discarded, or is still open; and
    the counters count just what their names say. */
module Fates {
  import opened Common
  import opened MFile
  import opened Assembly
  import opened Provenance

  // ---------- one frame ----------

  /** The same product; blocks may have been added, and it may be complete now. */
  predicate SameProduct(p: Pce, q: Pce)
  {
    p == q.(complete := p.complete, recvFragments := p.recvFragments, mf := p.mf)
  }

  predicate Open(p: Pce) { p.seqNumber != 0 }

  /** The frame opens a product. */
  predicate Opens(ev: Event) { Begins(ev.f) && Accepted(ev.f, ev.e) }

  /** The frame without START sends at most its channel's product, and closes it then. */
  predicate SendsItsOwn(r: Reader, t: Reader)
  {
    || (&& t.sent == r.sent
        && (Open(t.pce) ==> Open(r.pce) && SameProduct(t.pce, r.pce)))
    || (&& |t.sent| == |r.sent| + 1 && t.sent[..|r.sent|] == r.sent
        && Open(r.pce) && SameProduct(t.sent[|r.sent|], r.pce) && !Open(t.pce))
  }

  /** The product that this START frame announces is open, or was sent. */
  predicate SendsAnnounced(r: Reader, t: Reader, ev: Event)
  {
    || (t.sent == r.sent && Announced(t.pce, ev))
    || (&& |t.sent| == |r.sent| + 1 && t.sent[..|r.sent|] == r.sent
        && Announced(t.sent[|r.sent|], ev) && !Open(t.pce))
  }

  /** ... after the product that was open before, as it was. */
  function Evicted(r: Reader): Reader
  {
    if Open(r.pce) then r.(sent := r.sent + [r.pce]) else r
  }

  lemma UpdateQueues(r: Reader, f: Frame, e: Env)
    requires |e.pad| == 7
    ensures var (t, status) := Update(r, f, e);
            if status == 0 then t.sent == r.sent && SameProduct(t.pce, r.pce)
            else
              && r.pce.seqNumber == f.seqNumber && !Open(t.pce)
              && |t.sent| == |r.sent| + 1 && t.sent[..|r.sent|] == r.sent && SameProduct(t.sent[|r.sent|], r.pce)
  {
  }

  lemma FinishQueues(r: Reader, f: Frame)
    ensures var t := Finish(r, f);
            && !Open(t.pce)
            && if r.pce.seqNumber != f.seqNumber then t.sent == r.sent
               else |t.sent| == |r.sent| + 1 && t.sent[..|r.sent|] == r.sent && SameProduct(t.sent[|r.sent|], r.pce)
  {
  }

  lemma StartQueues(r: Reader, ev: Event)
    requires Settled(r.pce)
    ensures var (t, status) := Start(r, ev.f, ev.e);
            if ev.f.block != 0 then t == r && status != 0
            else
              && (status == 0 <==> Accepted(ev.f, ev.e))
              && t.sent == Evicted(r).sent
              && (status != 0 ==> !Open(t.pce))
              && (status == 0 && Begins(ev.f) ==>
                    Announced(t.pce, ev) && t.pce.recvFragments == 0 && !t.pce.complete)
  {
  }

  /** What a frame without a START that is heeded does to the queue. */
  lemma OwnFrameQueues(r: Reader, f: Frame, e: Env)
    requires |e.pad| == 7 && Sound(f) && !Begins(f)
    ensures SendsItsOwn(r, FrameProc(r, f, e))
  {
    hide Update;
    hide Finish;
    UpdateQueues(r, f, e);
    FinishQueues(StartUpdate(r, f, e).0, f);
  }

  /** What a START does to it. */
  lemma StartFrameQueues(r: Reader, ev: Event)
    requires |ev.e.pad| == 7 && Settled(r.pce) && Begins(ev.f)
    ensures var t := FrameProc(r, ev.f, ev.e);
            if Accepted(ev.f, ev.e) then SendsAnnounced(Evicted(r), t, ev)
            else t.sent == Evicted(r).sent && !Open(t.pce)
  {
    hide Start;
    hide Update;
    hide Finish;
    var r0 := Retransmission(r, ev.f);
    StartQueues(r0, ev);
    UpdateQueues(Start(r0, ev.f, ev.e).0, ev.f, ev.e);
    FinishQueues(StartUpdate(r, ev.f, ev.e).0, ev.f);
  }

  // ---------- every product has one fate ----------

  function Opened(evs: seq<Event>): nat
  {
    if evs == [] then 0 else Opened(evs[..|evs| - 1]) + if Opens(evs[|evs| - 1]) then 1 else 0
  }

  predicate Balances(r: Reader, ev: Event)
    requires |ev.e.pad| == 7
  {
    var t := FrameProc(r, ev.f, ev.e);
    |t.sent| + One(Open(t.pce)) + One(Discards(r.pce, ev.f)) == |r.sent| + One(Open(r.pce)) + One(Opens(ev))
  }

  lemma StartFate(r: Reader, ev: Event)
    requires |ev.e.pad| == 7 && Settled(r.pce) && Sound(ev.f) && Heeded(ev.f) && Starting(ev.f)
    ensures Balances(r, ev)
  {
    hide Start;
    hide Update;
    hide Finish;
    hide Announced;
    var r0 := Retransmission(r, ev.f);
    StartQueues(r0, ev);
    StartCounts(r0, ev);
    UpdateQueues(Start(r0, ev.f, ev.e).0, ev.f, ev.e);
    FinishQueues(StartUpdate(r, ev.f, ev.e).0, ev.f);
  }

  lemma OtherFate(r: Reader, ev: Event)
    requires |ev.e.pad| == 7 && Sound(ev.f) && Heeded(ev.f) && !Starting(ev.f)
    ensures Balances(r, ev)
  {
    hide Update;
    hide Finish;
    UpdateQueues(r, ev.f, ev.e);
    FinishQueues(StartUpdate(r, ev.f, ev.e).0, ev.f);
  }

  lemma OneFate(r: Reader, ev: Event)
    requires |ev.e.pad| == 7 && Settled(r.pce) && Sound(ev.f)
    ensures Balances(r, ev)
  {
    hide StartUpdate;
    hide Finish;
    if Heeded(ev.f) {
      hide Balances;
      if Starting(ev.f) {
        StartFate(r, ev);
      } else {
        OtherFate(r, ev);
      }
    }
  }

  /** Every product that was opened has been sent, is still open, or was discarded. */
  lemma {:induction false} EveryProductHasOneFate(s: State, evs: seq<Event>)
    requires Initial(s) && ValidRun(evs, |s.pces|)
    ensures var t := Run(s, evs);
            Opened(evs) == |t.sent| + OpenCount(t.pces) + Discarded(s, evs)
  {
    if evs == [] {
      NoneOpen(s.pces);
    } else {
      var n := |evs| - 1;
      var t, c := Run(s, evs[..n]), evs[n].f.channel;
      EveryProductHasOneFate(s, evs[..n]);
      RunSettles(s, evs[..n], c);
      OneFate(View(t, c), evs[n]);
      OpenCountUpdate(t.pces, c, FrameProc(View(t, c), evs[n].f, evs[n].e).pce);
    }
  }

  // ---------- and was announced by a START of its own ----------

  predicate AllApart(starts: seq<nat>)
  {
    forall j, k :: 0 <= j < k < |starts| ==> starts[j] != starts[k]
  }

  /** Product k of those sent was announced by event starts[k]. */
  predicate Traces(evs: seq<Event>, sent: seq<Pce>, starts: seq<nat>)
  {
    && |starts| == |sent| && AllApart(starts)
    && forall k :: 0 <= k < |sent| ==> starts[k] < |evs| && Announced(sent[k], evs[starts[k]])
  }

  /** The open product p of the channel was announced by event cur, and not sent yet. */
  predicate TracesOpen(evs: seq<Event>, p: Pce, starts: seq<nat>, c: nat, cur: nat)
  {
    Open(p) ==> cur < |evs| && cur !in starts && Announced(p, evs[cur]) && p.channel == c
  }

  lemma TracesMore(evs: seq<Event>, ev: Event, sent: seq<Pce>, starts: seq<nat>)
    requires Traces(evs, sent, starts)
    ensures Traces(evs + [ev], sent, starts) && |evs| !in starts
  {
  }

  lemma TracesOneMore(evs: seq<Event>, sent: seq<Pce>, starts: seq<nat>, p: Pce, cur: nat)
    requires Traces(evs, sent, starts) && cur < |evs| && cur !in starts && Announced(p, evs[cur])
    ensures Traces(evs, sent + [p], starts + [cur])
  {
  }

  /** One frame: the products it sends are the one that was open, if it is, and
      the one it announces, if it does. */
  lemma FrameTraces(evs: seq<Event>, ev: Event, r: Reader, starts: seq<nat>, cur: nat)
    returns (starts': seq<nat>, cur': nat)
    requires |ev.e.pad| == 7 && Settled(r.pce) && Sound(ev.f)
    requires Traces(evs, r.sent, starts) && TracesOpen(evs, r.pce, starts, ev.f.channel, cur)
    ensures var t := FrameProc(r, ev.f, ev.e);
            && Traces(evs + [ev], t.sent, starts')
            && TracesOpen(evs + [ev], t.pce, starts', ev.f.channel, cur')
    ensures forall i :: i in starts' && i !in starts ==> i == |evs| || (Open(r.pce) && i == cur)
  {
    hide FrameProc;
    hide Traces;
    var t, all := FrameProc(r, ev.f, ev.e), evs + [ev];
    TracesMore(evs, ev, r.sent, starts);
    starts', cur' := starts, cur;
    if !Begins(ev.f) {
      OwnFrameQueues(r, ev.f, ev.e);
      if t.sent != r.sent {
        TracesOneMore(all, r.sent, starts, t.sent[|r.sent|], cur);
        assert t.sent == r.sent + [t.sent[|r.sent|]];
        starts' := starts + [cur];
      }
    } else {
      StartFrameQueues(r, ev);
      var r1 := Evicted(r);
      if Open(r.pce) {
        TracesOneMore(all, r.sent, starts, r.pce, cur);
        starts' := starts + [cur];
      }
      if Accepted(ev.f, ev.e) {
        if t.sent == r1.sent {
          cur' := |evs|;
        } else {
          TracesOneMore(all, r1.sent, starts', t.sent[|r1.sent|], |evs|);
          assert t.sent == r1.sent + [t.sent[|r1.sent|]];
          starts' := starts' + [|evs|];
        }
      }
    }
  }

  /** Over every run, every product sent, complete or not, was announced by a START
      frame with all its header fields, and no two by the same one. */
  lemma {:induction false} EachStartSentOnce(s: State, evs: seq<Event>) returns (starts: seq<nat>, cur: seq<nat>)
    requires Initial(s) && ValidRun(evs, |s.pces|)
    ensures Traces(evs, Run(s, evs).sent, starts) && |cur| == |s.pces|
    ensures forall c :: 0 <= c < |s.pces| ==> TracesOpen(evs, Run(s, evs).pces[c], starts, c, cur[c])
  {
    hide FrameProc;
    hide Traces;
    hide TracesOpen;
    if evs == [] {
      starts, cur := [], seq(|s.pces|, i => 0);
      NothingTraced(s);
    } else {
      var n := |evs| - 1;
      var t, ev := Run(s, evs[..n]), evs[n];
      var c := ev.f.channel;
      var starts0, cur0 := EachStartSentOnce(s, evs[..n]);
      RunSettles(s, evs[..n], c);
      var next: nat;
      starts, next := FrameTraces(evs[..n], ev, View(t, c), starts0, cur0[c]);
      cur := cur0[c := next];
      assert evs == evs[..n] + [ev];
      var u := Run(s, evs);
      forall d | 0 <= d < |s.pces| ensures TracesOpen(evs, u.pces[d], starts, d, cur[d]) {
        if d != c {
          StaysTraced(evs[..n], ev, t.pces[d], t.pces[c], starts0, starts, d, cur0[d], cur0[c]);
        }
      }
    }
  }

  lemma NothingTraced(s: State)
    requires Initial(s)
    ensures Traces([], s.sent, [])
    ensures forall c :: 0 <= c < |s.pces| ==> TracesOpen([], s.pces[c], [], c, 0)
  {
  }

  lemma StaysTraced(evs: seq<Event>, ev: Event, p: Pce, q: Pce, starts: seq<nat>, starts': seq<nat>,
                    d: nat, cur: nat, other: nat)
    requires TracesOpen(evs, p, starts, d, cur) && TracesOpen(evs, q, starts, ev.f.channel, other) && d != ev.f.channel
    requires forall i :: i in starts' && i !in starts ==> i == |evs| || (Open(q) && i == other)
    ensures TracesOpen(evs + [ev], p, starts', d, cur)
  {
  }

  // ---------- what is given up, and sent for that ----------

  /** The frame brings the wrong block of the product, or one that cannot be stored;
      or it ends the product before all the blocks have arrived. */
  predicate GivesUp(ev: Event, channel: nat, seqNumber: nat, stored: nat, announced: nat)
  {
    var own := Carries(ev.f, channel, seqNumber);
    || (own && (ev.f.block != stored || !ev.e.write.Written?))
    || (&& Ends(ev.f) && ev.f.channel == channel && ev.f.seqNumber == seqNumber
        && stored + (if own then 1 else 0) < announced)
  }

  lemma OwnGivenUp(r: Reader, ev: Event)
    requires |ev.e.pad| == 7 && Settled(r.pce) && Open(r.pce) && !Begins(ev.f) && r.pce.channel == ev.f.channel
    ensures var t := FrameProc(r, ev.f, ev.e);
            (|t.sent| == |r.sent| + 1 && t.sent[..|r.sent|] == r.sent && !t.sent[|r.sent|].complete
             && SameProduct(t.sent[|r.sent|], r.pce))
            <==> GivesUp(ev, r.pce.channel, r.pce.seqNumber, r.pce.recvFragments, r.pce.numFragments)
  {
    if Live(ev.f) && !Aborting(ev.f) && !Starting(ev.f) {
      hide Update;
      hide Finish;
      hide GivesUp;
      StagesGiveUp(r, ev);
    }
  }

  /** The PROGRESS and END stages. */
  function Later(r: Reader, ev: Event): Reader
    requires |ev.e.pad| == 7
  {
    var (t, status) := if Progressing(ev.f) then Update(r, ev.f, ev.e) else (r, 0);
    if status == 0 && Ending(ev.f) then Finish(t, ev.f) else t
  }

  lemma StagesGiveUp(r: Reader, ev: Event)
    requires |ev.e.pad| == 7 && !r.pce.complete && r.pce.channel == ev.f.channel
    requires Live(ev.f) && !Aborting(ev.f) && (Starting(ev.f) ==> ev.f.block == 0)
    ensures var t := Later(r, ev);
            (|t.sent| == |r.sent| + 1 && t.sent[..|r.sent|] == r.sent && !t.sent[|r.sent|].complete
             && SameProduct(t.sent[|r.sent|], r.pce))
            <==> GivesUp(ev, r.pce.channel, r.pce.seqNumber, r.pce.recvFragments, r.pce.numFragments)
  {
  }

  lemma NewGivenUp(r: Reader, ev: Event)
    requires |ev.e.pad| == 7 && Settled(r.pce) && Begins(ev.f) && Accepted(ev.f, ev.e)
    ensures var t, n := FrameProc(r, ev.f, ev.e), |Evicted(r).sent|;
            (|t.sent| == n + 1 && !t.sent[n].complete)
            <==> GivesUp(ev, ev.f.channel, ev.f.seqNumber, 0, AnnouncedFragments(ev))
  {
    hide Start;
    hide Update;
    hide Finish;
    hide GivesUp;
    var r0 := Retransmission(r, ev.f);
    StartQueues(r0, ev);
    var u := Start(r0, ev.f, ev.e).0;
    StagesGiveUp(u, ev);
    StartFrameQueues(r, ev);
    LaterQueues(u, ev);
  }

  lemma LaterQueues(r: Reader, ev: Event)
    requires |ev.e.pad| == 7 && r.pce.seqNumber == ev.f.seqNumber
    ensures var t := Later(r, ev);
            || t.sent == r.sent
            || (|t.sent| == |r.sent| + 1 && t.sent[..|r.sent|] == r.sent && SameProduct(t.sent[|r.sent|], r.pce))
  {
    hide Update;
    hide Finish;
    UpdateQueues(r, ev.f, ev.e);
    FinishQueues(if Progressing(ev.f) then Update(r, ev.f, ev.e).0 else r, ev.f);
  }

  /** The product announced at `start`, with the blocks idx, is given up by the last
      frame: for another START, or as above. */
  predicate Abandoned(evs: seq<Event>, start: nat, idx: seq<nat>)
  {
    && start < |evs| && Opens(evs[start])
    && var n, f := |evs| - 1, evs[start].f;
       && (if start < n then Underway(evs[..n], start, idx) else idx == [])
       && if start < n && Begins(evs[n].f) then evs[n].f.channel == f.channel
          else GivesUp(evs[n], f.channel, f.seqNumber, |idx|, AnnouncedFragments(evs[start]))
  }

  ghost predicate SentIncompleteNow(s: State, evs: seq<Event>, ev: Event)
    requires ValidRun(evs, |s.pces|) && evs != []
  {
    exists k :: && |Run(s, evs[..|evs| - 1]).sent| <= k < |Run(s, evs).sent|
                && !Run(s, evs).sent[k].complete && Announced(Run(s, evs).sent[k], ev)
  }

  /** The processor is told of every product that is given up: the frame that gives
      it up sends it, as incomplete and with its own header. */
  lemma AbandonedIsSent(s: State, evs: seq<Event>, start: nat, idx: seq<nat>)
    requires Initial(s) && ValidRun(evs, |s.pces|) && Abandoned(evs, start, idx)
    ensures SentIncompleteNow(s, evs, evs[start])
  {
    hide FrameProc;
    hide BuiltFrom;
    hide Blocks;
    hide Announced;
    var n := |evs| - 1;
    var c := evs[n].f.channel;
    var r := View(Run(s, evs[..n]), c);
    var t, k := FrameProc(r, evs[n].f, evs[n].e), |r.sent|;
    RunSettles(s, evs[..n], c);
    if start < n {
      UnderwayBuilt(s, evs[..n], start, idx);
      BuiltFields(evs[..n], start, idx, r.pce);
      BuiltAnnounced(evs[..n], start, idx, r.pce);
      if Begins(evs[n].f) {
        StartFrameQueues(r, evs[n]);
        assert t.sent[k] == r.pce;
      } else {
        OwnGivenUp(r, evs[n]);
        SameAnnounced(t.sent[k], r.pce, evs[start]);
      }
    } else {
      NewGivenUp(r, evs[n]);
      StartFrameQueues(r, evs[n]);
      k := |Evicted(r).sent|;
    }
    assert t.sent == Run(s, evs).sent && !t.sent[k].complete && Announced(t.sent[k], evs[start]);
  }

  lemma BuiltAnnounced(evs: seq<Event>, start: nat, idx: seq<nat>, p: Pce)
    requires BuiltFrom(evs, start, idx, p)
    ensures Announced(p, evs[start]) && Blocks(evs, start, idx, p.channel, p.seqNumber)
  {
  }

  lemma SameAnnounced(p: Pce, q: Pce, ev: Event)
    requires SameProduct(p, q) && Announced(q, ev)
    ensures Announced(p, ev)
  {
  }

  /** Conversely, nothing else is sent as incomplete. */
  lemma IncompleteIsAbandoned(s: State, evs: seq<Event>, k: nat) returns (start: nat, idx: seq<nat>)
    requires Initial(s) && ValidRun(evs, |s.pces|) && evs != []
    requires |Run(s, evs[..|evs| - 1]).sent| <= k < |Run(s, evs).sent| && !Run(s, evs).sent[k].complete
    ensures Abandoned(evs, start, idx) && Announced(Run(s, evs).sent[k], evs[start])
  {
    hide FrameProc;
    hide BuiltFrom;
    hide Blocks;
    hide Announced;
    var n := |evs| - 1;
    var c := evs[n].f.channel;
    var r := View(Run(s, evs[..n]), c);
    var t := FrameProc(r, evs[n].f, evs[n].e);
    RunSettles(s, evs[..n], c);
    start, idx := n, [];
    if Open(r.pce) {
      start, idx := OpenUnderway(s, evs[..n], c);
    }
    if !Begins(evs[n].f) {
      OwnFrameQueues(r, evs[n].f, evs[n].e);
      OwnGivenUp(r, evs[n]);
      SameAnnounced(t.sent[k], r.pce, evs[start]);
    } else {
      StartFrameQueues(r, evs[n]);
      if Open(r.pce) && k == |r.sent| {
        assert t.sent[k] == r.pce;
      } else {
        NewGivenUp(r, evs[n]);
        start, idx := n, [];
      }
    }
  }

  lemma OpenUnderway(s: State, evs: seq<Event>, c: nat) returns (start: nat, idx: seq<nat>)
    requires Initial(s) && ValidRun(evs, |s.pces|) && c < |s.pces| && Open(Run(s, evs).pces[c])
    ensures var p := Run(s, evs).pces[c];
            && Underway(evs, start, idx) && Announced(p, evs[start]) && evs[start].f.channel == p.channel == c
            && p.seqNumber == evs[start].f.seqNumber && p.recvFragments == |idx|
            && p.numFragments == AnnouncedFragments(evs[start])
  {
    hide Run;
    OpenChannels(s, evs, c);
    var p := Run(s, evs).pces[c];
    start, idx :| BuiltFrom(evs, start, idx, p) && Quiet(evs, start, |evs|, p.channel);
  }

  // ---------- what the counters count ----------

  function HowMany(evs: seq<Event>, p: Event -> bool): nat
  {
    if evs == [] then 0 else HowMany(evs[..|evs| - 1], p) + if p(evs[|evs| - 1]) then 1 else 0
  }

  predicate Heeded(f: Frame) { Live(f) && !Aborting(f) }

  predicate Begun(ev: Event) { Begins(ev.f) }

  predicate Repeats(ev: Event) { Heeded(ev.f) && Starting(ev.f) && ev.f.retransmit }

  predicate Aborted(ev: Event) { Live(ev.f) && Aborting(ev.f) }

  /** A product with names that the filters or the load turn down. */
  predicate TurnedDown(ev: Event) { Begins(ev.f) && ev.e.heading.Named? && !Accepted(ev.f, ev.e) }

  predicate Nameless(ev: Event) { Begins(ev.f) && !ev.e.heading.Named? }

  predicate CountersAre(st: Stats, evs: seq<Event>, sent: seq<Pce>)
  {
    && st.transmitted == HowMany(evs, Begun)
    && st.retransmitted == HowMany(evs, Repeats)
    && st.aborted == HowMany(evs, Aborted)
    && st.rejected == HowMany(evs, TurnedDown)
    && st.completed == CompleteIn(sent)
    && st.missed == |sent| - CompleteIn(sent) + HowMany(evs, Nameless)
  }

  /** By how much a frame moves a counter of frames. */
  lemma FrameCounts(r: Reader, ev: Event)
    requires |ev.e.pad| == 7 && Settled(r.pce)
    ensures var st := FrameProc(r, ev.f, ev.e).stats;
            && st.transmitted == r.stats.transmitted + One(Begun(ev))
            && st.retransmitted == r.stats.retransmitted + One(Repeats(ev))
            && st.aborted == r.stats.aborted + One(Aborted(ev))
            && st.rejected == r.stats.rejected + One(TurnedDown(ev))
  {
    hide Start;
    hide Update;
    hide Finish;
    var r0 := Retransmission(r, ev.f);
    StageCounts(r0, ev);
    StageCounts(if Starting(ev.f) then Start(r0, ev.f, ev.e).0 else r, ev);
    StageCounts(StartUpdate(r, ev.f, ev.e).0, ev);
  }

  predicate FramesCounted(a: Stats, b: Stats)
  {
    && a.transmitted == b.transmitted && a.retransmitted == b.retransmitted
    && a.aborted == b.aborted && a.rejected == b.rejected
  }

  lemma StageCounts(r: Reader, ev: Event)
    requires |ev.e.pad| == 7
    ensures FramesCounted(Update(r, ev.f, ev.e).0.stats, r.stats) && FramesCounted(Finish(r, ev.f).stats, r.stats)
    ensures var st := Start(r, ev.f, ev.e).0.stats;
            FramesCounted(st.(transmitted := r.stats.transmitted, rejected := r.stats.rejected), r.stats)
    ensures Heeded(ev.f) && Starting(ev.f) ==>
              var st := Start(r, ev.f, ev.e).0.stats;
              && st.transmitted == r.stats.transmitted + One(Begun(ev))
              && st.rejected == r.stats.rejected + One(TurnedDown(ev))
  {
  }

  predicate SentCounted(r: Reader, t: Reader, nameless: bool)
  {
    && t.stats.completed - CompleteIn(t.sent) == r.stats.completed - CompleteIn(r.sent)
    && t.stats.missed - (|t.sent| - CompleteIn(t.sent)) ==
       r.stats.missed - (|r.sent| - CompleteIn(r.sent)) + One(nameless)
  }

  lemma StartCounts(r: Reader, ev: Event)
    requires Settled(r.pce)
    ensures var (t, status) := Start(r, ev.f, ev.e);
            && SentCounted(r, t, ev.f.block == 0 && !ev.e.heading.Named?)
            && (status == 0 ==> !t.pce.complete && t.pce.seqNumber == ev.f.seqNumber)
  {
    hide CompleteIn;
    CompleteInMore(r.sent, r.pce);
  }

  lemma UpdateCounts(r: Reader, f: Frame, e: Env)
    requires |e.pad| == 7 && (r.pce.seqNumber == f.seqNumber ==> !r.pce.complete)
    ensures var (t, status) := Update(r, f, e);
            && SentCounted(r, t, false)
            && (status == 0 ==> t.pce.complete == r.pce.complete && t.pce.seqNumber == r.pce.seqNumber)
  {
    hide CompleteIn;
    UpdateQueues(r, f, e);
    var (t, status) := Update(r, f, e);
    if status != 0 {
      CompleteInMore(r.sent, t.sent[|r.sent|]);
      assert t.sent == r.sent + [t.sent[|r.sent|]];
    }
  }

  lemma FinishCounts(r: Reader, f: Frame)
    requires r.pce.seqNumber == f.seqNumber ==> !r.pce.complete
    ensures SentCounted(r, Finish(r, f), false)
  {
    hide CompleteIn;
    CompleteInMore(r.sent, Complete(r.pce, f.seqNumber).0);
  }

  lemma FrameCountsSent(r: Reader, ev: Event)
    requires |ev.e.pad| == 7 && Settled(r.pce) && Sound(ev.f)
    ensures SentCounted(r, FrameProc(r, ev.f, ev.e), Nameless(ev))
  {
    hide Start;
    hide Update;
    hide Finish;
    hide CompleteIn;
    var r0 := Retransmission(r, ev.f);
    StartCounts(r0, ev);
    if Live(ev.f) && !Aborting(ev.f) {
      if Starting(ev.f) {
        StartQueues(r0, ev);
        if Start(r0, ev.f, ev.e).1 == 0 {
          UpdateCounts(Start(r0, ev.f, ev.e).0, ev.f, ev.e);
          FinishAfter(r, ev);
        }
      } else if ev.f.seqNumber != 0 {
        UpdateCounts(r, ev.f, ev.e);
        FinishAfter(r, ev);
      }
    }
  }

  lemma FinishAfter(r: Reader, ev: Event)
    requires |ev.e.pad| == 7
    requires var (t, status) := StartUpdate(r, ev.f, ev.e);
             status == 0 && t.pce.seqNumber == ev.f.seqNumber ==> !t.pce.complete
    ensures StartUpdate(r, ev.f, ev.e).1 == 0 ==>
              SentCounted(StartUpdate(r, ev.f, ev.e).0, Finish(StartUpdate(r, ev.f, ev.e).0, ev.f), false)
  {
    if StartUpdate(r, ev.f, ev.e).1 == 0 {
      FinishCounts(StartUpdate(r, ev.f, ev.e).0, ev.f);
    }
  }

  /** Over every run the counters count the STARTs, the retransmissions, the aborts,
      the products turned down, those sent complete, and those sent incomplete or
      without a heading. */
  lemma {:induction false} CountersCount(s: State, evs: seq<Event>)
    requires Initial(s) && ValidRun(evs, |s.pces|)
    ensures CountersAre(Run(s, evs).stats, evs, Run(s, evs).sent)
  {
    hide FrameProc;
    if evs != [] {
      var n := |evs| - 1;
      var r := View(Run(s, evs[..n]), evs[n].f.channel);
      CountersCount(s, evs[..n]);
      RunSettles(s, evs[..n], evs[n].f.channel);
      FrameCounts(r, evs[n]);
      FrameCountsSent(r, evs[n]);
    }
  }
}
