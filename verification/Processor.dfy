/** The product processor (src/nbsp.c): what happens to a product taken from the
    queue. Retransmissions are checked against the retransmission database, the
    frames are assembled, the file is written and the product is exported. */
module Processor {
  import opened Common
  import opened MFile
  import opened Assembly
  import opened RtxDb
  import SD = SpoolDb

  const SAVEFORMAT_NO_CCB: int := 1

  /** Decompression of one frame: any partial function will do. */
  type Unz = Bytes -> Option<Bytes>

  // ---------- assembling the frames ----------

  /** The data of a frame, decompressed when it is flagged. */
  function Decode(f: MemFrame, unz: Unz): Option<Bytes>
  {
    if f.compressed == 1 then unz(f.data) else Some(f.data)
  }

  datatype Assembled = Assembled(status: int, output: Bytes)

  /** pce_mcat_frames over what is left of the memory file; `out` was written
      already. Statuses: 1 cannot decompress, 2 no frame or an empty one. */
  function Mcat(rest: Bytes, k: nat, unz: Unz, out: Bytes): Assembled
    decreases k
  {
    if k == 0 then Assembled(0, out)
    else if rest == [] || !HasInfo(rest) then Assembled(2, out)
    else match NextFrame(rest)
      case NoFrame => Assembled(2, out)
      case Broken => Assembled(2, out)
      case Found(f) =>
        if f.data == [] then Assembled(2, out)
        else match Decode(f, unz)
          case None => Assembled(1, out)
          case Some(data) => Mcat(rest[INFO_SIZE + |f.data|..], k - 1, unz, out + data)
  }

  predicate Decodes(f: MemFrame, unz: Unz) { f.data != [] && Decode(f, unz).Some? }

  /** Each frame has data and decodes. */
  predicate AllDecode(frames: seq<MemFrame>, unz: Unz)
  {
    frames == [] || (Decodes(frames[0], unz) && AllDecode(frames[1..], unz))
  }

  function Decoded(frames: seq<MemFrame>, unz: Unz): Bytes
    requires AllDecode(frames, unz)
  {
    if frames == [] then [] else Decode(frames[0], unz).value + Decoded(frames[1..], unz)
  }

  /** The data of the frames in order, decompressed where the flag is 1 and as it is
      where it is not. */
  lemma {:induction false} DecodedIs(frames: seq<MemFrame>, unz: Unz)
    requires AllDecode(frames, unz)
    ensures forall i :: 0 <= i < |frames| && frames[i].compressed == 1 ==> unz(frames[i].data).Some?
    ensures Decoded(frames, unz) ==
            Concat(seq(|frames|, i requires 0 <= i < |frames| =>
              if frames[i].compressed == 1 && unz(frames[i].data).Some? then unz(frames[i].data).value
              else frames[i].data))
  {
    if frames != [] {
      DecodedIs(frames[1..], unz);
      var parts := seq(|frames|, i requires 0 <= i < |frames| =>
        if frames[i].compressed == 1 && unz(frames[i].data).Some? then unz(frames[i].data).value
        else frames[i].data);
      var rest := frames[1..];
      assert parts[1..] == seq(|rest|, i requires 0 <= i < |rest| =>
        if rest[i].compressed == 1 && unz(rest[i].data).Some? then unz(rest[i].data).value
        else rest[i].data);
      assert forall i :: 1 <= i < |frames| ==> frames[i] == rest[i - 1];
    }
  }

  /** The same assembly, told on the frames themselves. */
  function McatOf(frames: seq<MemFrame>, k: nat, unz: Unz, out: Bytes): Assembled
    decreases k
  {
    if k == 0 then Assembled(0, out)
    else if frames == [] || frames[0].data == [] then Assembled(2, out)
    else match Decode(frames[0], unz)
      case None => Assembled(1, out)
      case Some(data) => McatOf(frames[1..], k - 1, unz, out + data)
  }

  lemma {:induction false} McatReadsFrames(rest: Bytes, frames: seq<MemFrame>, k: nat, unz: Unz, out: Bytes)
    requires Encodes(rest, frames)
    ensures Mcat(rest, k, unz, out) == McatOf(frames, k, unz, out)
    decreases k
  {
    if k > 0 && frames != [] {
      var f := frames[0];
      if Decodes(f, unz) {
        McatReadsFrames(rest[INFO_SIZE + |f.data|..], frames[1..], k - 1, unz, out + Decode(f, unz).value);
      }
    }
  }

  lemma {:induction false} McatOfDecodes(frames: seq<MemFrame>, k: nat, unz: Unz, out: Bytes)
    requires k <= |frames|
    ensures McatOf(frames, k, unz, out).status == 0 <==> AllDecode(frames[..k], unz)
    ensures AllDecode(frames[..k], unz) ==> McatOf(frames, k, unz, out).output == out + Decoded(frames[..k], unz)
    decreases k
  {
    if k > 0 {
      var f := frames[0];
      assert frames[..k][0] == f && frames[..k][1..] == frames[1..][..k - 1];
      if Decodes(f, unz) {
        McatOfDecodes(frames[1..], k - 1, unz, out + Decode(f, unz).value);
      }
    }
  }

  /** Assembly succeeds exactly when the first k frames have data and decode,
      and then its output is their decoded data in order. */
  lemma McatOfFrames(bytes: Bytes, frames: seq<MemFrame>, k: nat, unz: Unz)
    requires Encodes(bytes, frames) && k <= |frames|
    ensures Mcat(bytes, k, unz, []).status == 0 <==> AllDecode(frames[..k], unz)
    ensures AllDecode(frames[..k], unz) ==> Mcat(bytes, k, unz, []).output == Decoded(frames[..k], unz)
  {
    McatReadsFrames(bytes, frames, k, unz, []);
    McatOfDecodes(frames, k, unz, []);
  }

  // ---------- spooling ----------

  /** How far pce_savefs_memfile gets: the file is not opened; it is opened (and
      so created or emptied) and written whole; or write() takes fewer bytes, or
      fails, which is a short count of zero. */
  datatype Save = Unopened | Complete | Partial(n: nat)

  /** What the product's file should hold; nothing when it is no longer than the
      CCB that is to be stripped. */
  function FileData(p: Pce, bytes: Bytes): Option<Bytes>
  {
    if !(p.saveFormat == SAVEFORMAT_NO_CCB && p.hasCcb) then Some(bytes)
    else if |bytes| <= CCB_SIZE then None
    else Some(bytes[CCB_SIZE..])
  }

  /** The file holds all the bytes; but all after the first 24, and at least one, when
      the CCB is to be stripped and there is one. */
  lemma StripsCcb(p: Pce, bytes: Bytes)
    ensures p.saveFormat != SAVEFORMAT_NO_CCB || !p.hasCcb ==> FileData(p, bytes) == Some(bytes)
    ensures p.saveFormat == SAVEFORMAT_NO_CCB && p.hasCcb ==>
              && (FileData(p, bytes).Some? <==> |bytes| > 24)
              && (FileData(p, bytes).Some? ==>
                    |FileData(p, bytes).value| == |bytes| - 24 && bytes[..24] + FileData(p, bytes).value == bytes)
  {
  }

  /** The status, and what is at the product's path afterwards if it was touched. */
  datatype Spooled = Spooled(status: int, left: Option<Bytes>)

  /** What a short write leaves of the data. */
  function Short(data: Bytes, n: nat): (r: Bytes)
    ensures r <= data && (data != [] ==> r < data) && (n < |data| ==> |r| == n)
  {
    if data == [] then [] else data[..Min(n, |data| - 1)]
  }

  /** pce_savefs_memfile: the file is opened first. */
  function SaveFs(p: Pce, bytes: Bytes, save: Save): Spooled
  {
    match save
    case Unopened => Spooled(-1, None)
    case Complete =>
      (match FileData(p, bytes)
       case None => Spooled(1, Some([]))
       case Some(data) => Spooled(0, Some(data)))
    case Partial(n) =>
      (match FileData(p, bytes)
       case None => Spooled(1, Some([]))
       case Some(data) => Spooled(-1, Some(Short(data, n))))
  }

  /** The bytes that pce_spool_product saves, if it gets that far. */
  function SpoolBytes(p: Pce, unz: Unz): Option<Bytes>
  {
    if !p.saveUnz then Some(p.mf)
    else
      var a := Mcat(p.mf, p.numFragments, unz, []);
      if a.status == 0 then Some(a.output) else None
  }

  /** pce_spool_product for the file-system spool. */
  function SpoolProduct(p: Pce, unz: Unz, save: Save): Spooled
  {
    match SpoolBytes(p, unz)
    case None => Spooled(Mcat(p.mf, p.numFragments, unz, []).status, None)
    case Some(bytes) => SaveFs(p, bytes, save)
  }

  /** The data of the product's file: its bytes, decoded if need be, less the CCB. */
  function ProductData(p: Pce, unz: Unz): Option<Bytes>
  {
    match SpoolBytes(p, unz)
    case None => None
    case Some(bytes) => FileData(p, bytes)
  }

  /** An attempt succeeds if and only if the product has data to save and the file
      was opened and written whole. It leaves the data at the path exactly then,
      or when there was nothing to write. Otherwise, if it got to open the file,
      it leaves less than the data. */
  lemma SpooledExactlyWhen(p: Pce, unz: Unz, save: Save)
    ensures var w := SpoolProduct(p, unz, save);
            var data := ProductData(p, unz);
            && (w.status == 0 <==> data.Some? && save == Complete)
            && (w.left.Some? && w.left == data <==>
                data.Some? && save != Unopened && (save == Complete || data.value == []))
            && (w.left.Some? ==> SpoolBytes(p, unz).Some? && save != Unopened)
            && (w.left.Some? && w.status != 0 && data.Some? && data.value != [] ==> w.left.value < data.value)
            && (w.left.Some? && data.None? ==> w.left.value == [])
  {
    hide Mcat;
    McatStatus(p.mf, p.numFragments, unz, []);
  }

  lemma {:induction false} McatStatus(rest: Bytes, k: nat, unz: Unz, out: Bytes)
    ensures Mcat(rest, k, unz, out).status in {0, 1, 2}
    decreases k
  {
    if k > 0 && rest != [] && HasInfo(rest) && NextFrame(rest).Found? {
      var f := NextFrame(rest).frame;
      if f.data != [] && Decode(f, unz).Some? {
        McatStatus(rest[INFO_SIZE + |f.data|..], k - 1, unz, out + Decode(f, unz).value);
      }
    }
  }

  /** A product to be stripped that is no longer than the CCB: the attempt fails
      and leaves an empty file, whatever was at the path before. */
  lemma TooShortLeavesEmptyFile(p: Pce, unz: Unz, save: Save)
    requires !p.saveUnz && p.saveFormat == SAVEFORMAT_NO_CCB && p.hasCcb && |p.mf| <= CCB_SIZE && save != Unopened
    ensures SpoolProduct(p, unz, save) == Spooled(1, Some([]))
  {
  }

  // ---------- one product ----------

  /** The processor's configuration and state: the retransmission database, the
      counters, the spool directory with its ring and what was done to it, the
      products spooled with their data, and those exported. */
  datatype Proc = Proc(
    rtx: Rtx, enabled: bool, defaultProcess: bool,
    rtxC: nat, rtxP: nat, rtxI: nat, rtxR: nat,
    spool: SD.Spool, ops: seq<SD.Op>,
    files: seq<(Pce, Bytes)>, exported: seq<Pce>)

  /** rtxMatches: the name passes the rtx db regex; delOk: the file that the ring
      pushes out can be deleted. */
  datatype ProcEnv = ProcEnv(rtxMatches: bool, unz: Unz, save: Save, delOk: bool)

  function Record(s: Proc, matches: bool, seqnum: nat, fstatus: int): Proc
  {
    if matches && s.enabled then s.(rtx := Put(s.rtx, seqnum, fstatus)) else s
  }

  /** 0 received, 1 missed, -1 not in the database, -2 no database. */
  function OrigStatus(s: Proc, matches: bool, orig: nat): int
  {
    if !matches then -1
    else if !s.enabled then -2
    else match Get(s.rtx, orig)
      case None => -1
      case Some(v) => v
  }

  function CountRtx(s: Proc, orig: int): Proc
  {
    s.(rtxC := s.rtxC + 1,
       rtxI := if orig == 0 then s.rtxI + 1 else s.rtxI,
       rtxP := if orig == 0 then s.rtxP else s.rtxP + 1,
       rtxR := if orig == 1 then s.rtxR + 1 else s.rtxR)
  }

  function Touch(s: Proc, op: SD.Op): Proc
  {
    s.(spool := SD.Apply(s.spool, op), ops := s.ops + [op])
  }

  /** Spool, enter the name in the ring, record and export; or whatever of the
      file a failed attempt leaves. */
  function Spool(s: Proc, p: Pce, env: ProcEnv): Proc
  {
    var w := SpoolProduct(p, env.unz, env.save);
    if w.left.None? then s
    else if w.status != 0 then Touch(s, SD.FailOp(p.fpath, w.left.value))
    else
      Record(Touch(s, SD.SaveOp(p.fpath, w.left.value, env.delOk)), env.rtxMatches, p.seqNumber, OK)
      .(files := s.files + [(p, w.left.value)], exported := s.exported + [p])
  }

  /** process_pctl_element */
  function Process(s: Proc, p: Pce, env: ProcEnv): Proc
  {
    if !p.complete then Record(s, env.rtxMatches, p.seqNumber, FAIL)
    else if p.origSeq == 0 then Spool(s, p, env)
    else
      var orig := OrigStatus(s, env.rtxMatches, p.origSeq);
      var s1 := CountRtx(s, orig);
      if orig == 0 then Record(s1, env.rtxMatches, p.seqNumber, OK)
      else if orig == -2 && !s.defaultProcess then s1
      else Spool(s1, p, env)
  }

  /** The products process_pctl_element tries to spool: it reports 1 when that
      fails, and 0 otherwise. */
  predicate Attempts(s: Proc, p: Pce, matches: bool)
  {
    && p.complete
    && (p.origSeq == 0 ||
        var orig := OrigStatus(s, matches, p.origSeq);
        orig != 0 && (orig != -2 || s.defaultProcess))
  }

  /** The number's latest visible record has that status. */
  predicate OnRecord(s: Proc, seqnum: nat, fstatus: int) { Get(s.rtx, seqnum) == Some(fstatus) }

  /** A complete product is tried unless it retransmits one on record as received;
      or, without a database, one that the database would cover and the
      configuration says to ignore. */
  lemma AttemptsExactlyWhen(s: Proc, p: Pce, matches: bool)
    requires Consistent(s)
    ensures Attempts(s, p, matches) <==>
            p.complete && (p.origSeq != 0 && matches ==>
                             if s.enabled then !OnRecord(s, p.origSeq, OK) else s.defaultProcess)
  {
  }

  datatype ProcEvent = Element(p: Pce, env: ProcEnv) | TruncateTick

  function ProcStep(s: Proc, ev: ProcEvent): Proc
  {
    match ev
    case Element(p, env) => Process(s, p, env)
    case TruncateTick => if s.enabled then s.(rtx := Truncate(s.rtx)) else s
  }

  function ProcRun(s: Proc, evs: seq<ProcEvent>): Proc
  {
    if evs == [] then s else ProcStep(ProcRun(s, evs[..|evs| - 1]), evs[|evs| - 1])
  }

  /** A processor that has done nothing yet. */
  function NewProc(enabled: bool, defaultProcess: bool, slots: nat): Proc
  {
    Proc(EMPTY, enabled, defaultProcess, 0, 0, 0, 0, SD.Spool(SD.Ring(SD.Unused(slots), 0), map[]), [], [], [])
  }

  // ---------- the spool directory over runs ----------

  function Paths(files: seq<(Pce, Bytes)>): (r: seq<string>)
    ensures |r| == |files| && forall i :: 0 <= i < |r| ==> r[i] == files[i].0.fpath
  {
    seq(|files|, i requires 0 <= i < |files| => files[i].0.fpath)
  }

  /** The directory is what the attempts made of the one there was at first, and
      the names entered in the ring are those of the files spooled. */
  predicate Tracks(first: SD.Spool, s: Proc)
  {
    && s.spool == SD.RunOps(first, s.ops) && SD.Entered(s.ops) == Paths(s.files)
    && forall i :: 0 <= i < |s.ops| && s.ops[i].SaveOp? ==> Logged(s.ops[i].path, s.ops[i].data, s.files)
  }

  predicate Logged(path: string, data: Bytes, files: seq<(Pce, Bytes)>)
  {
    exists j :: 0 <= j < |files| && files[j].0.fpath == path && files[j].1 == data
  }

  lemma LoggedLasts(path: string, data: Bytes, files: seq<(Pce, Bytes)>, more: seq<(Pce, Bytes)>)
    requires Logged(path, data, files)
    ensures Logged(path, data, files + more)
  {
    var j :| 0 <= j < |files| && files[j].0.fpath == path && files[j].1 == data;
    assert (files + more)[j] == files[j];
  }

  lemma TouchTracks(first: SD.Spool, spool: SD.Spool, ops: seq<SD.Op>, op: SD.Op)
    requires spool == SD.RunOps(first, ops)
    ensures SD.RunOps(first, ops + [op]) == SD.Apply(spool, op)
    ensures SD.Entered(ops + [op]) == SD.Entered(ops) + if op.SaveOp? then [op.path] else []
  {
    assert (ops + [op])[..|ops|] == ops;
  }

  /** What one product does to the directory, if it touches it. */
  function Touching(s: Proc, p: Pce, env: ProcEnv): Option<SD.Op>
  {
    var w := SpoolProduct(p, env.unz, env.save);
    if !Attempts(s, p, env.rtxMatches) || w.left.None? then None
    else if w.status == 0 then Some(SD.SaveOp(p.fpath, w.left.value, env.delOk))
    else Some(SD.FailOp(p.fpath, w.left.value))
  }

  lemma ProcessTouches(s: Proc, p: Pce, env: ProcEnv)
    ensures var t := Process(s, p, env);
            match Touching(s, p, env)
            case None => t.spool == s.spool && t.ops == s.ops && t.files == s.files
            case Some(op) =>
              && t.spool == SD.Apply(s.spool, op) && t.ops == s.ops + [op]
              && !op.ReloadOp? && op.path == p.fpath
              && t.files == s.files + if op.SaveOp? then [(p, op.data)] else []
  {
    hide SpoolProduct;
    hide SD.Apply;
  }

  lemma ProcessTracks(first: SD.Spool, s: Proc, p: Pce, env: ProcEnv)
    requires Tracks(first, s)
    ensures Tracks(first, Process(s, p, env))
  {
    hide Process;
    hide SD.Apply;
    hide SD.RunOps;
    hide SD.Entered;
    ProcessTouches(s, p, env);
    hide Touching;
    var op := Touching(s, p, env);
    if op.Some? {
      TouchTracks(first, s.spool, s.ops, op.value);
      var t := Process(s, p, env);
      var more := if op.value.SaveOp? then [(p, op.value.data)] else [];
      assert Paths(s.files + more) == Paths(s.files) + if op.value.SaveOp? then [p.fpath] else [];
      forall i | 0 <= i < |t.ops| && t.ops[i].SaveOp? ensures Logged(t.ops[i].path, t.ops[i].data, t.files) {
        if i < |s.ops| {
          LoggedLasts(t.ops[i].path, t.ops[i].data, s.files, more);
        } else {
          assert t.files[|s.files|] == (p, op.value.data);
        }
      }
    }
  }

  // ---------- counters ----------

  predicate CountersAgree(s: Proc) { s.rtxC == s.rtxP + s.rtxI && s.rtxR <= s.rtxP }

  /** Complete retransmissions are processed or ignored, and only processed ones
      recover anything; the database only ever holds the two statuses. */
  predicate Consistent(s: Proc)
  {
    && CountersAgree(s)
    && (forall k :: k in s.rtx.current ==> s.rtx.current[k] in {OK, FAIL})
    && (forall k :: k in s.rtx.previous ==> s.rtx.previous[k] in {OK, FAIL})
  }

  lemma StepConsistent(s: Proc, ev: ProcEvent)
    requires Consistent(s)
    ensures Consistent(ProcStep(s, ev))
  {
    hide SpoolProduct;
    hide SD.Apply;
    if ev.Element? && ev.p.complete && ev.p.origSeq != 0 {
      var orig := OrigStatus(s, ev.env.rtxMatches, ev.p.origSeq);
      assert Consistent(CountRtx(s, orig));
    }
  }

  lemma {:induction false} CountersOverRuns(s: Proc, evs: seq<ProcEvent>)
    requires Consistent(s)
    ensures Consistent(ProcRun(s, evs))
  {
    if evs != [] {
      CountersOverRuns(s, evs[..|evs| - 1]);
      StepConsistent(ProcRun(s, evs[..|evs| - 1]), evs[|evs| - 1]);
    }
  }

  // ---------- retransmissions of retransmissions ----------

  /** The number's latest visible record is OK. */
  predicate SeenOk(s: Proc, seqnum: nat) { Get(s.rtx, seqnum) == Some(OK) }

  /** ... and it is in the current generation, so that it outlives one truncate. */
  predicate FreshOk(s: Proc, seqnum: nat)
  {
    seqnum in s.rtx.current && s.rtx.current[seqnum] == OK
  }

  /** A complete product that retransmits `orig`, with a name the database covers. */
  predicate Retransmits(ev: ProcEvent, orig: nat)
  {
    ev.Element? && ev.p.complete && ev.p.origSeq == orig && orig != 0 && ev.env.rtxMatches
  }

  predicate Ignored(s: Proc, t: Proc)
  {
    t.files == s.files && t.exported == s.exported && t.rtxI == s.rtxI + 1
  }

  /** A retransmission of a product seen OK is neither spooled nor exported, and
      is recorded OK itself. */
  lemma RetransmissionIgnored(s: Proc, ev: ProcEvent, orig: nat)
    requires s.enabled && Retransmits(ev, orig) && SeenOk(s, orig)
    ensures var t := ProcStep(s, ev);
            Ignored(s, t) && FreshOk(t, ev.p.seqNumber) && t.enabled
  {
  }

  /** An incomplete product of that number, which would record a failure. */
  predicate Spoils(ev: ProcEvent, seqnum: nat)
  {
    ev.Element? && !ev.p.complete && ev.env.rtxMatches && ev.p.seqNumber == seqnum
  }

  function Ticks(evs: seq<ProcEvent>): nat
  {
    if evs == [] then 0
    else Ticks(evs[..|evs| - 1]) + if evs[|evs| - 1].TruncateTick? then 1 else 0
  }

  /** Other products leave a record alone, and its own only confirm it. */
  lemma OkUnspoilt(s: Proc, ev: ProcEvent, seqnum: nat)
    requires ev.Element? ==> !Spoils(ev, seqnum)
    ensures var t := ProcStep(s, ev);
            && t.enabled == s.enabled
            && (ev.Element? ==>
                  && t.rtx.previous == s.rtx.previous
                  && (seqnum in s.rtx.current && s.rtx.current[seqnum] == OK ==>
                        seqnum in t.rtx.current && t.rtx.current[seqnum] == OK)
                  && (seqnum !in s.rtx.current && seqnum in t.rtx.current ==> t.rtx.current[seqnum] == OK))
  {
    hide Spool;
    if ev.Element? {
      SpoolMarks(s, ev.p, ev.env);
      SpoolMarks(CountRtx(s, OrigStatus(s, ev.env.rtxMatches, ev.p.origSeq)), ev.p, ev.env);
    }
  }

  /** The database changes only for names it covers: a product that is not complete
      is recorded as missed; a complete one as received, if and only if it was
      spooled or is ignored because the one it retransmits was received. */
  lemma RecordedExactlyWhen(s: Proc, p: Pce, env: ProcEnv)
    requires Consistent(s)
    ensures var t := Process(s, p, env);
            var received := || (p.origSeq != 0 && OnRecord(s, p.origSeq, OK))
                            || (ProductData(p, env.unz).Some? && env.save == Complete);
            && t.rtx.previous == s.rtx.previous
            && t.rtx.current == if !(s.enabled && env.rtxMatches) then s.rtx.current
                                else if !p.complete then s.rtx.current[p.seqNumber := FAIL]
                                else if received then s.rtx.current[p.seqNumber := OK]
                                else s.rtx.current
  {
    hide SpoolProduct;
    hide ProductData;
    hide SD.Apply;
    SpooledExactlyWhen(p, env.unz, env.save);
  }

  /** The counters of retransmissions: complete ones, those that are ignored because
      the product was received, the others, and those of products missed. */
  lemma CountedExactlyWhen(s: Proc, p: Pce, env: ProcEnv)
    requires Consistent(s)
    ensures var t := Process(s, p, env);
            var rtx := p.complete && p.origSeq != 0;
            var known := rtx && env.rtxMatches && s.enabled;
            var seen := known && OnRecord(s, p.origSeq, OK);
            && t.rtxC == s.rtxC + One(rtx)
            && t.rtxI == s.rtxI + One(seen)
            && t.rtxP == s.rtxP + One(rtx && !seen)
            && t.rtxR == s.rtxR + One(known && OnRecord(s, p.origSeq, FAIL))
  {
    hide Spool;
    SpoolKeepsCounters(s, p, env);
    SpoolKeepsCounters(CountRtx(s, OrigStatus(s, env.rtxMatches, p.origSeq)), p, env);
  }

  /** Spooling records the product as received or leaves the database alone. */
  lemma SpoolMarks(s: Proc, p: Pce, env: ProcEnv)
    ensures var t := Spool(s, p, env);
            && t.enabled == s.enabled
            && (t.rtx == s.rtx || (env.rtxMatches && t.rtx == Put(s.rtx, p.seqNumber, OK)))
  {
    hide SpoolProduct;
    hide SD.Apply;
  }

  lemma {:induction false} OkLasts(s: Proc, evs: seq<ProcEvent>, seqnum: nat)
    requires s.enabled && FreshOk(s, seqnum) && Ticks(evs) <= 1
    requires forall i :: 0 <= i < |evs| ==> !Spoils(evs[i], seqnum)
    ensures var t := ProcRun(s, evs);
            t.enabled && SeenOk(t, seqnum) && (Ticks(evs) == 0 ==> FreshOk(t, seqnum))
  {
    hide Process;
    if evs != [] {
      var n := |evs| - 1;
      OkUnspoilt(ProcRun(s, evs[..n]), evs[n], seqnum);
      OkLasts(s, evs[..n], seqnum);
    }
  }

  // ---------- recovery ----------

  /** A product of that number that the database covers. */
  predicate Touches(ev: ProcEvent, seqnum: nat)
  {
    ev.Element? && ev.env.rtxMatches && ev.p.seqNumber == seqnum
  }

  lemma RecordUntouched(s: Proc, ev: ProcEvent, seqnum: nat)
    requires !Touches(ev, seqnum)
    ensures var t := ProcStep(s, ev);
            && t.enabled == s.enabled
            && (ev.Element? ==>
                  && t.rtx.previous == s.rtx.previous
                  && (seqnum in t.rtx.current <==> seqnum in s.rtx.current)
                  && (seqnum in s.rtx.current ==> t.rtx.current[seqnum] == s.rtx.current[seqnum]))
  {
    hide SpoolProduct;
    hide SD.Apply;
  }

  lemma {:induction false} FailLasts(s: Proc, evs: seq<ProcEvent>, seqnum: nat)
    requires s.enabled && seqnum in s.rtx.current && s.rtx.current[seqnum] == FAIL && Ticks(evs) <= 1
    requires forall i :: 0 <= i < |evs| ==> !Touches(evs[i], seqnum)
    ensures var t := ProcRun(s, evs);
            && t.enabled && Get(t.rtx, seqnum) == Some(FAIL)
            && (Ticks(evs) == 0 ==> seqnum in t.rtx.current)
            && (seqnum in t.rtx.current ==> t.rtx.current[seqnum] == FAIL)
  {
    hide Process;
    if evs != [] {
      var n := |evs| - 1;
      RecordUntouched(ProcRun(s, evs[..n]), evs[n], seqnum);
      FailLasts(s, evs[..n], seqnum);
    }
  }

  /** A record that is not renewed is forgotten at the second truncate. */
  lemma {:induction false} ForgottenAfterTwo(s: Proc, evs: seq<ProcEvent>, seqnum: nat)
    requires s.enabled && forall i :: 0 <= i < |evs| ==> !Touches(evs[i], seqnum)
    ensures var t := ProcRun(s, evs);
            && t.enabled
            && (Ticks(evs) >= 1 ==> seqnum !in t.rtx.current)
            && (Ticks(evs) >= 2 ==> Get(t.rtx, seqnum) == None)
  {
    hide Process;
    if evs != [] {
      var n := |evs| - 1;
      RecordUntouched(ProcRun(s, evs[..n]), evs[n], seqnum);
      ForgottenAfterTwo(s, evs[..n], seqnum);
    }
  }

  /** So a retransmission that late is tried, as if the product were new. */
  lemma LateRetransmissionIsTried(s: Proc, evs: seq<ProcEvent>, ev: ProcEvent)
    requires s.enabled && Consistent(s) && ev.Element? && ev.p.complete && Ticks(evs) >= 2
    requires forall i :: 0 <= i < |evs| ==> !Touches(evs[i], ev.p.origSeq)
    ensures var t := ProcRun(s, evs);
            Tried(t, ProcStep(t, ev), ev.p, ev.env)
  {
    hide ProcRun;
    hide Process;
    hide Tried;
    ForgottenAfterTwo(s, evs, ev.p.origSeq);
    CountersOverRuns(s, evs);
    var t := ProcRun(s, evs);
    AttemptsExactlyWhen(t, ev.p, ev.env.rtxMatches);
    TriedExactlyWhen(t, ev.p, ev.env);
  }

  /** The product is spooled and exported; or that fails, and the directory has
      what the attempt left. */
  predicate Tried(s: Proc, t: Proc, p: Pce, env: ProcEnv)
  {
    var w := SpoolProduct(p, env.unz, env.save);
    if w.status == 0 && w.left.Some? then
      && t.files == s.files + [(p, w.left.value)] && t.exported == s.exported + [p]
      && t.spool == SD.Apply(s.spool, SD.SaveOp(p.fpath, w.left.value, env.delOk))
    else
      && t.files == s.files && t.exported == s.exported
      && t.spool == if w.left.Some? then SD.Apply(s.spool, SD.FailOp(p.fpath, w.left.value)) else s.spool
  }

  /** Retransmitting a product that was missed recovers it, while the failure is
      on record. */
  lemma MissedIsRecovered(s: Proc, missed: ProcEvent, gap: seq<ProcEvent>, ev: ProcEvent)
    requires s.enabled && missed.Element? && !missed.p.complete && missed.env.rtxMatches
    requires Ticks(gap) <= 1 && forall i :: 0 <= i < |gap| ==> !Touches(gap[i], missed.p.seqNumber)
    requires Retransmits(ev, missed.p.seqNumber)
    ensures var s1 := ProcRun(ProcStep(s, missed), gap);
            var t := ProcStep(s1, ev);
            && t.rtxR == s1.rtxR + 1 && t.rtxP == s1.rtxP + 1 && t.rtxI == s1.rtxI
            && Tried(s1, t, ev.p, ev.env)
  {
    hide Spool;
    hide ProcRun;
    FailLasts(ProcStep(s, missed), gap, missed.p.seqNumber);
    var s1 := ProcRun(ProcStep(s, missed), gap);
    TriedExactlyWhen(s1, ev.p, ev.env);
    SpoolKeepsCounters(CountRtx(s1, FAIL), ev.p, ev.env);
  }

  /** Files and exports grow together, by exactly the products that are tried. */
  lemma TriedExactlyWhen(s: Proc, p: Pce, env: ProcEnv)
    ensures var t := Process(s, p, env);
            if Attempts(s, p, env.rtxMatches) then Tried(s, t, p, env)
            else t.files == s.files && t.exported == s.exported && t.spool == s.spool
  {
    hide SpoolProduct;
  }

  lemma SpoolKeepsCounters(s: Proc, p: Pce, env: ProcEnv)
    ensures var t := Spool(s, p, env);
            t.rtxC == s.rtxC && t.rtxP == s.rtxP && t.rtxI == s.rtxI && t.rtxR == s.rtxR
  {
  }

  // ---------- chains ----------

  /** A link of a chain: other events, then a retransmission. */
  datatype Link = Link(gap: seq<ProcEvent>, rtx: ProcEvent)

  /** Each link retransmits the product of the link before it, at most one
      truncate apart and with no failure recorded for it in between. */
  predicate Chain(links: seq<Link>, seqnum: nat)
  {
    links == [] ||
    (&& Ticks(links[0].gap) <= 1
     && (forall i :: 0 <= i < |links[0].gap| ==> !Spoils(links[0].gap[i], seqnum))
     && Retransmits(links[0].rtx, seqnum)
     && Chain(links[1..], links[0].rtx.p.seqNumber))
  }

  predicate AllIgnored(s: Proc, links: seq<Link>)
    decreases |links|
  {
    links == [] ||
    (var s1 := ProcRun(s, links[0].gap);
     var s2 := ProcStep(s1, links[0].rtx);
     Ignored(s1, s2) && AllIgnored(s2, links[1..]))
  }

  /** Chains of retransmissions of retransmissions are ignored, whatever their
      length and whatever else the processor handles in between. */
  lemma {:induction false} ChainIgnored(s: Proc, links: seq<Link>, seqnum: nat)
    requires s.enabled && FreshOk(s, seqnum) && Chain(links, seqnum)
    ensures AllIgnored(s, links)
    decreases |links|
  {
    if links != [] {
      OkLasts(s, links[0].gap, seqnum);
      var s1 := ProcRun(s, links[0].gap);
      RetransmissionIgnored(s1, links[0].rtx, seqnum);
      ChainIgnored(ProcStep(s1, links[0].rtx), links[1..], links[0].rtx.p.seqNumber);
    }
  }

  /** A product that was spooled is remembered: all the retransmissions of it, and of
      those, are ignored, while the records are visible. */
  lemma SpooledIsRemembered(s: Proc, p: Pce, env: ProcEnv, links: seq<Link>)
    requires s.enabled && Consistent(s) && Attempts(s, p, true) && env.rtxMatches
    requires ProductData(p, env.unz).Some? && env.save == Complete && Chain(links, p.seqNumber)
    ensures AllIgnored(Process(s, p, env), links)
  {
    hide Process;
    hide Chain;
    hide AllIgnored;
    RecordedExactlyWhen(s, p, env);
    KeepsConfig(s, p, env);
    ChainIgnored(Process(s, p, env), links, p.seqNumber);
  }

  lemma KeepsConfig(s: Proc, p: Pce, env: ProcEnv)
    ensures var t := Process(s, p, env);
            t.enabled == s.enabled && t.defaultProcess == s.defaultProcess
  {
    hide SpoolProduct;
    hide SD.Apply;
  }

  // ---------- the assembly loop ----------

  lemma {:induction false} McatOfGrows(frames: seq<MemFrame>, k: nat, unz: Unz, out: Bytes)
    ensures |out| <= |McatOf(frames, k, unz, out).output|
    decreases k
  {
    if k > 0 && frames != [] && Decodes(frames[0], unz) {
      McatOfGrows(frames[1..], k - 1, unz, out + Decode(frames[0], unz).value);
    }
  }

  lemma TurnGrows(frames: seq<MemFrame>, k: nat, unz: Unz, out: Bytes)
    requires k > 0
    ensures frames != [] && Decodes(frames[0], unz) ==>
              |out| + |Decode(frames[0], unz).value| <= |McatOf(frames, k, unz, out).output|
  {
    if frames != [] && Decodes(frames[0], unz) {
      McatOfGrows(frames[1..], k - 1, unz, out + Decode(frames[0], unz).value);
    }
  }

  lemma NothingRead(mf: MemFile)
    requires mf.Valid() && mf.nread == 0
    ensures mf.Rest() == mf.Contents()
  {
  }

  lemma McatTurn(frames: seq<MemFrame>, k: nat, unz: Unz, out: Bytes)
    ensures k == 0 ==> McatOf(frames, k, unz, out) == Assembled(0, out)
    ensures 0 < k && (frames == [] || frames[0].data == []) ==> McatOf(frames, k, unz, out) == Assembled(2, out)
    ensures 0 < k && frames != [] && frames[0].data != [] && Decode(frames[0], unz).None? ==>
              McatOf(frames, k, unz, out) == Assembled(1, out)
    ensures 0 < k && frames != [] && Decodes(frames[0], unz) ==>
              McatOf(frames, k, unz, out) == McatOf(frames[1..], k - 1, unz, out + Decode(frames[0], unz).value)
  {
  }

  /** One turn of the loop: the next frame, decoded, appended to the output. */
  method McatOne(src: MemFile, unz: Unz, dst: MemFile, limit: nat, ghost frames: seq<MemFrame>) returns (status: int)
    requires src.Valid() && dst.Valid() && src != dst && src.p != dst.p
    requires Encodes(src.Rest(), frames)
    modifies src`nread, dst, dst.p
    ensures src.Valid() && dst.Valid() && (dst.p == old(dst.p) || fresh(dst.p))
    ensures src.Contents() == old(src.Contents())
    ensures status in {0, 1, 2, -1}
    ensures status == 0 ==>
              && frames != [] && Decodes(frames[0], unz)
              && Encodes(src.Rest(), frames[1..])
              && dst.Contents() == old(dst.Contents()) + Decode(frames[0], unz).value
    ensures status == 1 ==> frames != [] && frames[0].data != [] && Decode(frames[0], unz).None?
    ensures status == 2 ==> frames == [] || frames[0].data == []
    ensures status in {1, 2} ==> dst.Contents() == old(dst.Contents())
    ensures status == -1 ==>
              && frames != [] && Decodes(frames[0], unz)
              && 2 * (|old(dst.Contents())| + |Decode(frames[0], unz).value|) > limit
  {
    var n, frame := src.GetMemframe();
    if n <= 0 {
      return 2;
    }
    var data := frame.data;
    if frame.compressed == 1 {
      var r := unz(data);
      if r.None? {
        return 1;
      }
      data := r.value;
    }
    status := dst.Write(data, limit);
  }

  /** pce_mcat_frames: frames out of one memory file, decoded into another. */
  method McatFrames(src: MemFile, numFragments: nat, unz: Unz, dst: MemFile, limit: nat, ghost frames: seq<MemFrame>)
    returns (status: int)
    requires src.Valid() && dst.Valid() && src != dst && src.p != dst.p
    requires src.nread == 0 && Encodes(src.Contents(), frames)
    requires dst.Contents() == []
    modifies src`nread, dst, dst.p
    ensures src.Valid() && dst.Valid() && (dst.p == old(dst.p) || fresh(dst.p))
    ensures src.Contents() == old(src.Contents())
    ensures status != -1 ==>
              Assembled(status, dst.Contents()) == Mcat(src.Contents(), numFragments, unz, [])
    ensures 2 * |Mcat(src.Contents(), numFragments, unz, []).output| <= limit ==> status != -1
  {
    hide Mcat;
    hide McatOf;
    hide Encodes;
    hide Decode;
    hide Decodes;
    hide MemFile.Contents;
    hide MemFile.Rest;
    status := 0;
    ghost var left, whole := frames, McatOf(frames, numFragments, unz, []);
    McatReadsFrames(src.Contents(), frames, numFragments, unz, []);
    var i := 0;
    NothingRead(src);
    while i < numFragments
      invariant 0 <= i <= numFragments && status == 0
      invariant src.Valid() && dst.Valid() && src.p != dst.p
      invariant dst.p == old(dst.p) || fresh(dst.p)
      invariant src.Contents() == old(src.Contents())
      invariant Encodes(src.Rest(), left)
      invariant McatOf(left, numFragments - i, unz, dst.Contents()) == whole
    {
      McatTurn(left, numFragments - i, unz, dst.Contents());
      TurnGrows(left, numFragments - i, unz, dst.Contents());
      status := McatOne(src, unz, dst, limit, left);
      if status != 0 {
        return;
      }
      left := left[1..];
      i := i + 1;
    }
    McatTurn(left, 0, unz, dst.Contents());
  }

  // ---------- the processor ----------

  /** Memory enough to assemble the product. */
  predicate Roomy(p: Pce, unz: Unz, limit: nat)
  {
    p.saveUnz ==> 2 * |Mcat(p.mf, p.numFragments, unz, []).output| <= limit
  }

  class ProductProcessor {
    const rtxdb: RtxDb
    const enabled: bool
    const defaultProcess: bool
    const outputmf: MemFile              // reused for assembling frames
    const dir: SD.SpoolDirectory
    var rtxC: nat
    var rtxP: nat
    var rtxI: nat
    var rtxR: nat
    var files: seq<(Pce, Bytes)>
    var exported: seq<Pce>

    ghost predicate Valid()
      reads this, rtxdb, outputmf, outputmf.p, dir, dir.spooldb, dir.spooldb.keys
    {
      rtxdb.Valid() && outputmf.Valid() && dir.Valid()
    }

    ghost function Value(): Proc
      reads this, rtxdb, rtxdb.dbpC, rtxdb.dbpO, dir
    {
      Proc(rtxdb.Value(), enabled, defaultProcess, rtxC, rtxP, rtxI, rtxR,
           dir.Value(), dir.ops, files, exported)
    }

    constructor (enable: bool, process: bool, slots: nat, keysize: nat)
      requires 0 < slots && 0 < keysize
      ensures Valid() && dir.spooldb.keysize == keysize
      ensures fresh(rtxdb) && fresh(rtxdb.dbpC) && fresh(rtxdb.dbpO) && fresh(outputmf) && fresh(outputmf.p)
      ensures fresh(dir) && fresh(dir.spooldb) && fresh(dir.spooldb.keys)
      ensures Value() == NewProc(enable, process, slots)
    {
      rtxdb := new RtxDb();
      outputmf := new MemFile(0);
      dir := new SD.SpoolDirectory(slots, keysize);
      enabled, defaultProcess := enable, process;
      rtxC, rtxP, rtxI, rtxR := 0, 0, 0, 0;
      files, exported := [], [];
    }

    method PutStatus(matches: bool, seqnum: nat, fstatus: int)
      requires Valid()
      modifies rtxdb.dbpC
      ensures Valid() && Value() == Record(old(Value()), matches, seqnum, fstatus)
    {
      if matches && enabled {
        rtxdb.PutRecord(seqnum, fstatus);
      }
    }

    method GetStatus(matches: bool, orig: nat) returns (status: int)
      requires Valid()
      ensures status == OrigStatus(Value(), matches, orig)
    {
      if !matches {
        return -1;
      }
      if !enabled {
        return -2;
      }
      var r := rtxdb.GetRecord(orig);
      status := if r.Some? then r.value else -1;
    }

    /** The update_stats_products functions for a complete retransmission. */
    method UpdateStats(orig: int)
      modifies this`rtxC, this`rtxP, this`rtxI, this`rtxR
      ensures Value() == CountRtx(old(Value()), orig)
    {
      rtxC := rtxC + 1;
      if orig == 0 {
        rtxI := rtxI + 1;
      } else {
        rtxP := rtxP + 1;
      }
      if orig == 1 {
        rtxR := rtxR + 1;
      }
    }

    /** pce_savefs_memfile over the memory file in use: what is at the path
        afterwards, if it was opened. */
    method SaveMemfile(p: Pce, mf: MemFile, save: Save) returns (status: int, left: Option<Bytes>)
      requires mf.Valid()
      ensures Spooled(status, left) == SaveFs(p, mf.Contents(), save)
    {
      if save == Unopened {
        return -1, None;
      }
      left := Some([]);
      var skip := if p.saveFormat == SAVEFORMAT_NO_CCB && p.hasCcb then CCB_SIZE else 0;
      if skip != 0 && mf.size <= skip {
        return 1, left;
      }
      var data := mf.p[skip..mf.size];
      if save.Partial? {
        return -1, Some(Short(data, save.n));
      }
      left := Some(data);
      status := 0;
    }

    /** pce_spool_product: the product's own memory file, or the frames assembled
        in the output one; `room` tells whether there was memory for that. */
    method SpoolMemfile(p: Pce, mf: MemFile, env: ProcEnv, limit: nat, ghost frames: seq<MemFrame>)
      returns (status: int, left: Option<Bytes>, ghost room: bool)
      requires Valid() && mf.Valid() && mf != outputmf && mf.p != outputmf.p
      requires mf.nread == 0 && p.mf == mf.Contents() && (p.saveUnz ==> Encodes(p.mf, frames))
      modifies mf`nread, outputmf, outputmf.p
      ensures Valid() && (outputmf.p == old(outputmf.p) || fresh(outputmf.p))
      ensures room ==> Spooled(status, left) == SpoolProduct(p, env.unz, env.save)
      ensures !room ==> status == -1 && left == None
      ensures Roomy(p, env.unz, limit) ==> room
    {
      room, left := true, None;
      if !p.saveUnz {
        status, left := SaveMemfile(p, mf, env.save);
        return;
      }
      outputmf.Close();
      status := McatFrames(mf, p.numFragments, env.unz, outputmf, limit, frames);
      if status == 0 {
        status, left := SaveMemfile(p, outputmf, env.save);
      } else {
        room := status != -1;
      }
    }

    /** The end of process_pctl_element: spool, enter in the ring, record, export. */
    method Finish(p: Pce, mf: MemFile, env: ProcEnv, limit: nat, ghost frames: seq<MemFrame>)
      returns (status: int, ghost save: Save)
      requires Valid() && mf.Valid() && mf != outputmf && mf.p != outputmf.p
      requires mf.nread == 0 && p.mf == mf.Contents() && (p.saveUnz ==> Encodes(p.mf, frames))
      requires |p.fpath| + 1 <= dir.spooldb.keysize && '\0' !in p.fpath
      modifies mf`nread, outputmf, outputmf.p, rtxdb.dbpC, dir, dir.spooldb, dir.spooldb.keys
      modifies this`files, this`exported
      ensures Valid() && (outputmf.p == old(outputmf.p) || fresh(outputmf.p))
      ensures save == env.save || save == Unopened
      ensures Value() == Spool(old(Value()), p, env.(save := save))
      ensures status == if SpoolProduct(p, env.unz, save).status != 0 then 1 else 0
      ensures Roomy(p, env.unz, limit) ==> save == env.save
    {
      hide Roomy;
      var left;
      ghost var room;
      status, left, room := SpoolMemfile(p, mf, env, limit, frames);
      save := if room then env.save else Unopened;
      SpooledExactlyWhen(p, env.unz, save);
      hide SpoolProduct;
      hide Spool;
      status := Settle(p, status, left, env, save);
    }

    /** What follows an attempt with this outcome. */
    method Settle(p: Pce, spooled: int, left: Option<Bytes>, env: ProcEnv, ghost save: Save) returns (status: int)
      requires Valid() && left == SpoolProduct(p, env.unz, save).left
      requires spooled == 0 <==> SpoolProduct(p, env.unz, save).status == 0
      requires |p.fpath| + 1 <= dir.spooldb.keysize && '\0' !in p.fpath
      modifies rtxdb.dbpC, dir, dir.spooldb, dir.spooldb.keys, this`files, this`exported
      ensures Valid() && Value() == Spool(old(Value()), p, env.(save := save))
      ensures status == if spooled != 0 then 1 else 0
    {
      SpooledExactlyWhen(p, env.unz, save);
      hide SpoolProduct;
      hide SD.Apply;
      if spooled == 0 {
        dir.Keep(p.fpath, left.value, env.delOk);
        PutStatus(env.rtxMatches, p.seqNumber, OK);
        files := files + [(p, left.value)];
        exported := exported + [p];
        return 0;
      }
      if left.Some? {
        dir.Leave(p.fpath, left.value);
      }
      status := 1;
    }

    /** process_pctl_element; `save` is what became of the file, Unopened when
        there was no memory to assemble it. */
    method ProcessElement(p: Pce, mf: MemFile, env: ProcEnv, limit: nat, ghost frames: seq<MemFrame>)
      returns (status: int, ghost save: Save)
      requires Valid() && mf.Valid() && mf != outputmf && mf.p != outputmf.p
      requires mf.nread == 0 && p.mf == mf.Contents() && (p.complete && p.saveUnz ==> Encodes(p.mf, frames))
      requires |p.fpath| + 1 <= dir.spooldb.keysize && '\0' !in p.fpath
      modifies mf`nread, outputmf, outputmf.p, rtxdb.dbpC, dir, dir.spooldb, dir.spooldb.keys
      modifies this`files, this`exported
      modifies this`rtxC, this`rtxP, this`rtxI, this`rtxR
      ensures Valid() && (outputmf.p == old(outputmf.p) || fresh(outputmf.p))
      ensures save == env.save || save == Unopened
      ensures Value() == Process(old(Value()), p, env.(save := save))
      ensures status == if Attempts(old(Value()), p, env.rtxMatches) && SpoolProduct(p, env.unz, save).status != 0
                        then 1 else 0
      ensures Attempts(old(Value()), p, env.rtxMatches) && Roomy(p, env.unz, limit) ==> save == env.save
    {
      hide Spool;
      hide SpoolProduct;
      hide Roomy;
      status, save := 0, Unopened;
      if !p.complete {
        PutStatus(env.rtxMatches, p.seqNumber, FAIL);
        return;
      }
      if p.origSeq != 0 {
        var orig := GetStatus(env.rtxMatches, p.origSeq);
        UpdateStats(orig);
        if orig == 0 {
          PutStatus(env.rtxMatches, p.seqNumber, OK);
          return;
        }
        if orig == -2 && !defaultProcess {
          return;
        }
      }
      status, save := Finish(p, mf, env, limit, frames);
    }

    /** The periodic truncation. */
    method TruncateRtx()
      requires Valid()
      modifies rtxdb, rtxdb.dbpO
      ensures Valid() && Value() == ProcStep(old(Value()), TruncateTick)
    {
      if enabled {
        rtxdb.TruncateDb();
      }
    }
  }
}
