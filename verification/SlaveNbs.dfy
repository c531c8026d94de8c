/** The receiving end of NBS1 (src/slavenbs): the blocks of a file are assembled
    in the active product of the reader's channel, with the same counters and the
    same control list as the noaaport frames. */
module SlaveNbs {
  import opened Common
  import opened Util
  import opened MFile
  import opened Assembly
  import opened Nbs1
  import opened Pctl

  /** What estart_activepce makes of the base name: it cannot be split, the filter
      rejects it, the file exists and duplicates are rejected; or the names. */
  datatype Verdict = BadName | Rejected | Duplicate | Accepted(fname: string, fpath: string)

  /** Conditions from outside the packet. `exists`: the file exists at the end. */
  datatype NbsEnv = NbsEnv(
    verdict: Verdict, savezRejects: bool, saveFormat: int, write: WriteOutcome, exists_: bool, pad: Bytes)

  datatype NbsPacket = NbsPacket(h: Header, block: Bytes, e: NbsEnv)

  /** Header fields as unpack_nbs1_header gives them. */
  predicate ValidPacket(p: NbsPacket)
  {
    InRange(p.h) && |p.e.pad| == 7
  }

  // ---------- slavenbsproc ----------

  function Reject(r: Reader): Reader { r.(stats := r.stats.(rejected := r.stats.rejected + 1)) }

  /** The fields estart_activepce fills in; f_has_ccb stays as it was. */
  function BeginNbs(p: Pce, k: NbsPacket): Pce
    requires ValidPacket(k)
  {
    var named := k.e.verdict.Accepted?;
    Pce(k.h.seqNumber, 0, k.h.channel, false, k.h.numBlocks, 0,
        named && k.h.fZip != 0 && k.e.savezRejects, k.e.saveFormat, p.hasCcb,
        if named then k.e.verdict.fname else p.fname, if named then k.e.verdict.fpath else p.fpath, p.mf)
  }

  /** estart_activepce */
  function StartNbs(r: Reader, k: NbsPacket): (Reader, int)
    requires ValidPacket(k)
  {
    var r1 := Reopen(r.(stats := r.stats.(transmitted := r.stats.transmitted + 1)));
    var r2 := r1.(pce := BeginNbs(r1.pce, k));
    match k.e.verdict
    case BadName => (Miss(CloseActive(r2)), 2)
    case Rejected => (CloseActive(Reject(r2)), 1)
    case Duplicate => (CloseActive(r2), 1)
    case Accepted(_, _) => (r2, 0)
  }

  /** msave_nbs_block */
  function SaveBlock(p: Pce, k: NbsPacket): (Pce, int)
    requires ValidPacket(k)
  {
    match k.e.write
    case Written =>
      (p.(mf := p.mf + if p.saveUnz then Info(|k.block|, k.h.fZip, k.e.pad) + k.block else k.block), 0)
    case Failed(left) => (p.(mf := left), -1)
  }

  /** eupdate_activepce: blocks are numbered from 1; a product that fails is closed
      and not sent. */
  function UpdateNbs(r: Reader, k: NbsPacket): (Reader, int)
    requires ValidPacket(k)
  {
    var (p, counted) := CountFrame(r.pce, k.h.seqNumber, k.h.blockNumber - 1);
    if counted == 1 then (r, 1)
    else
      var (q, status) := if counted == 0 then SaveBlock(p, k) else (p, counted);
      if status == 0 then (r.(pce := q), 0) else (CloseActive(Miss(r.(pce := q))), status)
  }

  /** eend_activepce: a complete product is sent unless its file exists by now. */
  function EndNbs(r: Reader, k: NbsPacket): (Reader, int)
    requires ValidPacket(k)
  {
    var (p, status) := Complete(r.pce, k.h.seqNumber);
    if status == 0 && !k.e.exists_ then
      (CloseActive(Send(Reader(p, r.stats.(completed := r.stats.completed + 1), r.sent))), 0)
    else (CloseActive(r.(pce := p)), status)
  }

  /** The update and end stages. */
  function StoreNbs(r: Reader, k: NbsPacket): (Reader, int)
    requires ValidPacket(k)
  {
    var (t, status) := UpdateNbs(r, k);
    if status == 0 && k.h.blockNumber == k.h.numBlocks then EndNbs(t, k) else (t, status)
  }

  /** slavenbsproc */
  function SlaveNbsProc(r: Reader, k: NbsPacket): (Reader, int)
    requires ValidPacket(k)
  {
    if k.h.blockNumber != 1 then StoreNbs(r, k)
    else
      var (t, status) := StartNbs(r, k);
      if status == 0 then StoreNbs(t, k) else (t, status)
  }

  predicate ValidPackets(ks: seq<NbsPacket>) { forall i :: 0 <= i < |ks| ==> ValidPacket(ks[i]) }

  function RunNbs(r: Reader, ks: seq<NbsPacket>): Reader
    requires ValidPackets(ks)
    decreases |ks|
  {
    if ks == [] then r else RunNbs(SlaveNbsProc(r, ks[0]).0, ks[1..])
  }

  lemma {:induction false} RunNbsAppend(r: Reader, a: seq<NbsPacket>, b: seq<NbsPacket>)
    requires ValidPackets(a) && ValidPackets(b)
    ensures ValidPackets(a + b) && RunNbs(r, a + b) == RunNbs(RunNbs(r, a), b)
    decreases |a|
  {
    hide SlaveNbsProc;
    assert ValidPackets(a + b);
    if a == [] {
      assert a + b == b;
    } else {
      assert (a + b)[1..] == a[1..] + b;
      RunNbsAppend(SlaveNbsProc(r, a[0]).0, a[1..], b);
    }
  }

  // ---------- the packets of a file ----------

  /** Nothing stands in the way of the product. */
  predicate Good(e: NbsEnv)
  {
    e.verdict.Accepted? && e.write.Written? && !e.exists_ && |e.pad| == 7
  }

  predicate AllGood(es: seq<NbsEnv>) { forall i :: 0 <= i < |es| ==> Good(es[i]) }

  /** What unpacking the packets gives, each with its conditions. */
  function Arriving(ps: seq<(Header, Bytes)>, es: seq<NbsEnv>): (ks: seq<NbsPacket>)
    requires |ps| == |es|
    ensures |ks| == |ps|
    ensures forall i :: 0 <= i < |ks| ==> ks[i] == NbsPacket(OnWire(ps[i].0), ps[i].1, es[i])
  {
    seq(|ps|, i requires 0 <= i < |ps| && |ps| == |es| => NbsPacket(OnWire(ps[i].0), ps[i].1, es[i]))
  }

  lemma ArrivingValid(ps: seq<(Header, Bytes)>, es: seq<NbsEnv>)
    requires |ps| == |es| && AllGood(es)
    ensures ValidPackets(Arriving(ps, es))
  {
  }

  /** The product that a file with this header should become; `e` holds the verdicts
      on its first packet. */
  function FileProduct(h: Header, data: Bytes, e: NbsEnv, ccb: bool): Pce
    requires e.verdict.Accepted?
  {
    Pce(h.seqNumber % TWO32, 0, h.channel % 256, true, h.numBlocks % TWO16, h.numBlocks % TWO16,
        false, e.saveFormat, ccb, e.verdict.fname, e.verdict.fpath, data)
  }

  /** The product is under way with `done` blocks. */
  predicate Filling(p: Pce, h: Header, done: nat, e: NbsEnv)
  {
    e.verdict.Accepted? && p == FileProduct(h, p.mf, e, p.hasCcb).(complete := false, recvFragments := done)
  }

  /** One block of a file, not the last. */
  lemma OneStored(r: Reader, k: NbsPacket, h: Header, done: nat, e: NbsEnv)
    requires ValidPacket(k) && k.e.write.Written? && k.h == OnWire(h).(blockNumber := done + 1)
    requires Filling(r.pce, h, done, e) && done + 1 != OnWire(h).numBlocks
    ensures var t := StoreNbs(r, k).0;
            && Filling(t.pce, h, done + 1, e) && t.pce.mf == r.pce.mf + k.block && t.sent == r.sent
            && t.pce.hasCcb == r.pce.hasCcb
  {
  }

  /** The last block: the product is sent as complete. */
  lemma LastStored(r: Reader, k: NbsPacket, h: Header, done: nat, e: NbsEnv)
    requires ValidPacket(k) && k.e.write.Written? && !k.e.exists_ && k.h == OnWire(h).(blockNumber := done + 1)
    requires Filling(r.pce, h, done, e) && done + 1 == OnWire(h).numBlocks
    ensures var t := StoreNbs(r, k).0;
            && Ready(t, r.pce.hasCcb)
            && t.sent == r.sent + [FileProduct(h, r.pce.mf + k.block, e, r.pce.hasCcb)]
  {
  }

  /** The channel is closed. */
  predicate Ready(r: Reader, ccb: bool) { CanOpen(r.pce) && r.pce.hasCcb == ccb }

  /** What was sent, and the product that was left unfinished, if there is one. */
  function Interrupted(r: Reader): seq<Pce>
  {
    if CanOpen(r.pce) then r.sent else r.sent + [r.pce]
  }

  lemma StartedNbs(r: Reader, k: NbsPacket, h: Header)
    requires ValidPacket(k) && k.e.verdict.Accepted?
    requires k.h == OnWire(h).(blockNumber := 1) && OnWire(h).fZip == 0
    ensures var (t, status) := StartNbs(r, k);
            && status == 0 && Filling(t.pce, h, 0, k.e) && t.pce.mf == [] && t.sent == Interrupted(r)
            && t.pce.hasCcb == r.pce.hasCcb
  {
  }

  /** All the blocks from the first one that is not stored yet. */
  lemma {:induction false} RestStored(r: Reader, file: Bytes, h: Header, done: nat, es: seq<NbsEnv>, e: NbsEnv)
    requires file != [] && |es| == NumBlocks(|file|) && AllGood(es)
    requires 0 < done && done + NumBlocks(|file|) == OnWire(h).numBlocks && Filling(r.pce, h, done, e)
    requires |Packets(file, h, done + 1)| == |es| && ValidPackets(Arriving(Packets(file, h, done + 1), es))
    ensures var t := RunNbs(r, Arriving(Packets(file, h, done + 1), es));
            && Ready(t, r.pce.hasCcb)
            && t.sent == r.sent + [FileProduct(h, r.pce.mf + file, e, r.pce.hasCcb)]
    decreases |file|
  {
    hide StoreNbs;
    hide Ready;
    hide FileProduct;
    hide Arriving;
    hide Packets;
    var size := if |file| <= NBS1_BLOCK_SIZE then |file| else NBS1_BLOCK_SIZE;
    var ks := Arriving(Packets(file, h, done + 1), es);
    BlockStep(|file|);
    FirstArriving(file, h, done + 1, es);
    if |file| <= NBS1_BLOCK_SIZE {
      LastStored(r, ks[0], h, done, e);
      assert file[..size] == file && ks[1..] == [];
    } else {
      OneStored(r, ks[0], h, done, e);
      RestStored(StoreNbs(r, ks[0]).0, file[size..], h, done + 1, es[1..], e);
      assert r.pce.mf + file == (r.pce.mf + file[..size]) + file[size..];
    }
  }

  lemma FirstArriving(file: Bytes, h: Header, number: nat, es: seq<NbsEnv>)
    requires file != [] && |Packets(file, h, number)| == |es|
    ensures var size := if |file| <= NBS1_BLOCK_SIZE then |file| else NBS1_BLOCK_SIZE;
            var ks := Arriving(Packets(file, h, number), es);
            && ks[0] == NbsPacket(OnWire(h.(blockNumber := number)), file[..size], es[0])
            && |Packets(file[size..], h, number + 1)| == |es| - 1
            && ks[1..] == Arriving(Packets(file[size..], h, number + 1), es[1..])
  {
  }

  lemma OnWireBlock(h: Header, n: nat)
    requires n < TWO16
    ensures OnWire(h.(blockNumber := n)) == OnWire(h).(blockNumber := n)
  {
  }

  /** A file whose block count is what its headers say becomes one product, whatever
      the state of the reader; a product that was left unfinished is sent first. */
  lemma FileStored(r: Reader, file: Bytes, h: Header, es: seq<NbsEnv>)
    requires file != [] && |es| == NumBlocks(|file|) == |Packets(file, h, 1)| && AllGood(es)
    requires OnWire(h).numBlocks == NumBlocks(|file|) && OnWire(h).fZip == 0
    ensures es != []
    ensures var ks := Arriving(Packets(file, h, 1), es);
            && ValidPackets(ks)
            && var t := RunNbs(r, ks);
               && Ready(t, r.pce.hasCcb)
               && t.sent == Interrupted(r) + [FileProduct(h, file, es[0], r.pce.hasCcb)]
  {
    hide StoreNbs;
    hide StartNbs;
    hide Ready;
    hide FileProduct;
    hide Interrupted;
    hide Arriving;
    hide Packets;
    hide OnWire;
    hide NumBlocks;
    hide Filling;
    var size := if |file| <= NBS1_BLOCK_SIZE then |file| else NBS1_BLOCK_SIZE;
    OnWireBlock(h, 1);
    BlockStep(|file|);
    PacketsCover(file, h, 1);
    ArrivingValid(Packets(file, h, 1), es);
    var ks := Arriving(Packets(file, h, 1), es);
    FirstArriving(file, h, 1, es);
    StartedNbs(r, ks[0], h);
    var u := StartNbs(r, ks[0]).0;
    if |file| <= NBS1_BLOCK_SIZE {
      LastStored(u, ks[0], h, 0, es[0]);
      assert [] + file[..size] == file && ks[1..] == [];
    } else {
      OneStored(u, ks[0], h, 0, es[0]);
      RestStored(StoreNbs(u, ks[0]).0, file[size..], h, 1, es[1..], es[0]);
      assert ([] + file[..size]) + file[size..] == file;
    }
  }

  // ---------- lists of files ----------

  predicate AllSendable(fs: seq<Outgoing>) { forall k :: 0 <= k < |fs| ==> Sendable(fs[k]) }

  lemma ArrivingAppend(a: seq<(Header, Bytes)>, b: seq<(Header, Bytes)>, es: seq<NbsEnv>)
    requires |es| == |a| + |b|
    ensures Arriving(a + b, es) == Arriving(a, es[..|a|]) + Arriving(b, es[|a|..])
  {
  }

  /** The products that the files should become. */
  function FileProducts(fs: seq<Outgoing>, es: seq<NbsEnv>, ccb: bool): (ps: seq<Pce>)
    requires AllSendable(fs) && |es| == |AllPackets(fs)| && AllGood(es)
    ensures |ps| == |fs|
    ensures forall k :: 0 <= k < |fs| ==> ps[k].complete && ps[k].mf == fs[k].data
    decreases |fs|
  {
    if fs == [] then []
    else
      PacketsCover(fs[0].data, FileInfo(fs[0]), 1);
      BlockStep(|fs[0].data|);
      [FileProduct(FileInfo(fs[0]), fs[0].data, es[0], ccb)]
      + FileProducts(fs[1..], es[|FilePackets(fs[0])|..], ccb)
  }

  /** Whatever the files and the state of the reader, every file becomes exactly one
      complete product with its bytes, number, channel and names, in order; a product
      that was left unfinished is sent first. */
  lemma {:induction false} FilesDelivered(r: Reader, fs: seq<Outgoing>, es: seq<NbsEnv>)
    requires AllSendable(fs) && |es| == |AllPackets(fs)| && AllGood(es)
    ensures var ks := Arriving(AllPackets(fs), es);
            && ValidPackets(ks)
            && RunNbs(r, ks).sent ==
               (if fs == [] then r.sent else Interrupted(r)) + FileProducts(fs, es, r.pce.hasCcb)
    decreases |fs|
  {
    hide FileProduct;
    hide FileInfo;
    hide SlaveNbsProc;
    if fs != [] {
      var a, b := FilePackets(fs[0]), AllPackets(fs[1..]);
      FileIsStored(r, fs[0], es[..|a|]);
      var u := RunNbs(r, Arriving(a, es[..|a|]));
      FilesDelivered(u, fs[1..], es[|a|..]);
      ArrivingAppend(a, b, es);
      RunNbsAppend(r, Arriving(a, es[..|a|]), Arriving(b, es[|a|..]));
      var p := FileProduct(FileInfo(fs[0]), fs[0].data, es[0], r.pce.hasCcb);
      Regrouped(Interrupted(r), [p], FileProducts(fs[1..], es[|a|..], r.pce.hasCcb));
    }
  }

  lemma FileIsStored(r: Reader, f: Outgoing, es: seq<NbsEnv>)
    requires Sendable(f) && |es| == |FilePackets(f)| && AllGood(es)
    ensures es != []
    ensures var ks := Arriving(FilePackets(f), es);
            && ValidPackets(ks)
            && var t := RunNbs(r, ks);
               && Ready(t, r.pce.hasCcb)
               && t.sent == Interrupted(r) + [FileProduct(FileInfo(f), f.data, es[0], r.pce.hasCcb)]
  {
    PacketsCover(f.data, FileInfo(f), 1);
    FileStored(r, f.data, FileInfo(f), es);
  }

  // ---------- exactly when ----------

  /** No more blocks than their number can count, and none of them longer. */
  predicate Small(p: Pce)
  {
    !p.saveUnz && p.recvFragments < TWO16 && |p.mf| <= NBS1_BLOCK_SIZE * p.recvFragments
  }

  predicate AllSmall(r: Reader) { Small(r.pce) && forall k :: 0 <= k < |r.sent| ==> Small(r.sent[k]) }

  lemma StartSmall(r: Reader, k: NbsPacket)
    requires ValidPacket(k) && k.h.fZip == 0 && AllSmall(r)
    ensures AllSmall(StartNbs(r, k).0)
  {
  }

  lemma StoreSmall(r: Reader, k: NbsPacket)
    requires ValidPacket(k) && |k.block| <= NBS1_BLOCK_SIZE && AllSmall(r)
    ensures AllSmall(StoreNbs(r, k).0)
  {
    var (t, status) := UpdateNbs(r, k);
    assert AllSmall(t);
  }

  lemma {:induction false} RunSmall(r: Reader, ks: seq<NbsPacket>)
    requires ValidPackets(ks) && AllSmall(r)
    requires forall i :: 0 <= i < |ks| ==> ks[i].h.fZip == 0 && |ks[i].block| <= NBS1_BLOCK_SIZE
    ensures AllSmall(RunNbs(r, ks))
    decreases |ks|
  {
    hide StartNbs;
    hide StoreNbs;
    hide AllSmall;
    if ks != [] {
      StartSmall(r, ks[0]);
      StoreSmall(r, ks[0]);
      StoreSmall(StartNbs(r, ks[0]).0, ks[0]);
      RunSmall(SlaveNbsProc(r, ks[0]).0, ks[1..]);
    }
  }

  lemma LargerThanSmall(size: nat)
    requires NumBlocks(size) >= TWO16
    ensures size > NBS1_BLOCK_SIZE * (TWO16 - 1)
  {
    BlockCount(size);
  }

  /** Under the best of conditions a file comes out as a product with its bytes if
      and only if its block count fits the 16-bit field. */
  lemma FileDeliveredIffCountFits(f: Outgoing, r: Reader, es: seq<NbsEnv>)
    requires ValidName(f.info.fbasename) && 0 < |f.data| && |es| == |FilePackets(f)| && AllGood(es)
    requires CanOpen(r.pce) && Small(r.pce) && r.sent == []
    ensures var ks := Arriving(FilePackets(f), es);
            && ValidPackets(ks)
            && ((exists k :: 0 <= k < |RunNbs(r, ks).sent| && RunNbs(r, ks).sent[k].mf == f.data)
                <==> NumBlocks(|f.data|) < TWO16)
  {
    PacketsCover(f.data, FileInfo(f), 1);
    ArrivingValid(FilePackets(f), es);
    var ks := Arriving(FilePackets(f), es);
    hide RunNbs;
    if NumBlocks(|f.data|) < TWO16 {
      FileIsStored(r, f, es);
      assert RunNbs(r, ks).sent[0].mf == f.data;
    } else {
      RunSmall(r, ks);
      LargerThanSmall(|f.data|);
      forall k | 0 <= k < |RunNbs(r, ks).sent| ensures RunNbs(r, ks).sent[k].mf != f.data {
        assert Small(RunNbs(r, ks).sent[k]);
      }
    }
  }

  lemma {:induction false} PacketsPrefix(file: Bytes, h: Header, number: nat, m: nat)
    requires m * NBS1_BLOCK_SIZE <= |file|
    ensures m <= |Packets(file, h, number)|
    ensures Packets(file, h, number)[..m] == Packets(file[..m * NBS1_BLOCK_SIZE], h, number)
    ensures NumBlocks(m * NBS1_BLOCK_SIZE) == m
    decreases m
  {
    if m > 0 {
      var rest, size := file[NBS1_BLOCK_SIZE..], (m - 1) * NBS1_BLOCK_SIZE;
      PacketsPrefix(rest, h, number + 1, m - 1);
      var cut := file[..m * NBS1_BLOCK_SIZE];
      assert cut[..NBS1_BLOCK_SIZE] == file[..NBS1_BLOCK_SIZE];
      if m > 1 {
        assert cut[NBS1_BLOCK_SIZE..] == rest[..size];
      } else {
        assert cut == file[..NBS1_BLOCK_SIZE] && cut[NBS1_BLOCK_SIZE..] == [];
      }
    }
  }

  /** A file that is too long: as soon as as many blocks have arrived as the cut
      count says, they are sent as a complete product, which holds just the start
      of the file. */
  lemma TooLongComesOutShort(f: Outgoing, r: Reader, es: seq<NbsEnv>)
    requires ValidName(f.info.fbasename) && NumBlocks(|f.data|) > TWO16 && NumBlocks(|f.data|) % TWO16 != 0
    requires |es| == NumBlocks(|f.data|) % TWO16 && AllGood(es)
    ensures var m := NumBlocks(|f.data|) % TWO16;
            && m < |FilePackets(f)| && m * NBS1_BLOCK_SIZE < |f.data|
            && var ks := Arriving(FilePackets(f)[..m], es);
               && ValidPackets(ks)
               && var t := RunNbs(r, ks);
                  t.sent == Interrupted(r) +
                            [FileProduct(FileInfo(f), f.data[..m * NBS1_BLOCK_SIZE], es[0], r.pce.hasCcb)]
  {
    var m := NumBlocks(|f.data|) % TWO16;
    PacketsCover(f.data, FileInfo(f), 1);
    LargerThanSmall(|f.data|);
    assert m * NBS1_BLOCK_SIZE < |f.data|;
    PacketsPrefix(f.data, FileInfo(f), 1, m);
    FileStored(r, f.data[..m * NBS1_BLOCK_SIZE], FileInfo(f), es);
  }

  /** Nothing complete is on the channel, nor was sent since n products ago. */
  predicate NoneComplete(r: Reader, n: nat)
  {
    && (CanOpen(r.pce) || (r.pce.seqNumber != 0 && !r.pce.complete))
    && forall k :: n <= k < |r.sent| ==> !r.sent[k].complete
  }

  lemma ZeroCountStep(r: Reader, k: NbsPacket, n: nat)
    requires ValidPacket(k) && k.h.numBlocks == 0 && k.h.seqNumber != 0 && NoneComplete(r, n)
    ensures NoneComplete(SlaveNbsProc(r, k).0, n)
  {
    var t := if k.h.blockNumber == 1 then StartNbs(r, k).0 else r;
    assert NoneComplete(t, n);
    assert UpdateNbs(t, k).1 == 0 ==> k.h.blockNumber != 0;
  }

  /** Packets that announce no blocks, as those of a file of a multiple of 65536
      blocks do: no product is ever complete. */
  lemma {:induction false} ZeroCountNeverCompletes(r: Reader, ks: seq<NbsPacket>, n: nat)
    requires ValidPackets(ks) && NoneComplete(r, n)
    requires forall i :: 0 <= i < |ks| ==> ks[i].h.numBlocks == 0 && ks[i].h.seqNumber != 0
    ensures NoneComplete(RunNbs(r, ks), n)
    decreases |ks|
  {
    hide SlaveNbsProc;
    hide NoneComplete;
    if ks != [] {
      ZeroCountStep(r, ks[0], n);
      ZeroCountNeverCompletes(SlaveNbsProc(r, ks[0]).0, ks[1..], n);
    }
  }

  // ---------- compressed files ----------

  /** The blocks are kept apart, to be decompressed later, if and only if the file is
      compressed and its name is one that is to be saved decompressed. */
  lemma KeptApartExactlyWhen(r: Reader, k: NbsPacket)
    requires ValidPacket(k) && k.e.verdict.Accepted?
    ensures StartNbs(r, k).1 == 0 && StartNbs(r, k).0.pce.mf == []
    ensures StartNbs(r, k).0.pce.saveUnz <==> k.h.fZip != 0 && k.e.savezRejects
  {
  }

  /** A block is appended as it is; or, when the blocks are kept apart, as one more
      frame with the flag of its packet. */
  lemma BlockIsSaved(p: Pce, k: NbsPacket, frames: seq<MemFrame>)
    requires ValidPacket(k) && k.e.write.Written? && |k.block| < INT_LIMIT
    requires p.saveUnz ==> Encodes(p.mf, frames)
    ensures var (q, status) := SaveBlock(p, k);
            && status == 0 && q == p.(mf := q.mf)
            && if p.saveUnz then Encodes(q.mf, frames + [MemFrame(k.block, k.h.fZip)]) else q.mf == p.mf + k.block
  {
    if p.saveUnz {
      EncodesAppend(p.mf, frames, MemFrame(k.block, k.h.fZip), k.e.pad);
      Regrouped(p.mf, Info(|k.block|, k.h.fZip, k.e.pad), k.block);
    }
  }

  // ---------- what becomes of the products ----------

  predicate First(k: NbsPacket) { k.h.blockNumber == 1 }

  /** The packet opens a product. */
  predicate OpensNbs(k: NbsPacket) { First(k) && k.e.verdict.Accepted? }

  /** The product that the packet finds on the channel, or opens: its number, how many
      blocks it was announced with, and how many of them are stored. */
  datatype Product = Product(seqNumber: nat, announced: nat, stored: nat)

  function Current(r: Reader, k: NbsPacket): Option<Product>
    requires ValidPacket(k)
  {
    if OpensNbs(k) then Some(Product(k.h.seqNumber, k.h.numBlocks, 0))
    else if First(k) then None
    else Some(Product(r.pce.seqNumber, r.pce.numFragments, r.pce.recvFragments))
  }

  /** The packet is of that product. */
  predicate OfCurrent(r: Reader, k: NbsPacket)
    requires ValidPacket(k)
  {
    Current(r, k).Some? && Current(r, k).value.seqNumber == k.h.seqNumber
  }

  /** The packet brings the next block of it. */
  predicate BringsNext(r: Reader, k: NbsPacket)
    requires ValidPacket(k)
  {
    OfCurrent(r, k) && k.h.blockNumber == Current(r, k).value.stored + 1
  }

  /** ... and that is stored. */
  predicate Stores(r: Reader, k: NbsPacket)
    requires ValidPacket(k)
  {
    BringsNext(r, k) && k.e.write.Written?
  }

  /** The packet is of the product, but does not bring its next block, or brings one
      that cannot be stored: the product is given up, and not sent. */
  predicate Spoils(r: Reader, k: NbsPacket)
    requires ValidPacket(k)
  {
    OfCurrent(r, k) && !Stores(r, k)
  }

  predicate BringsLast(r: Reader, k: NbsPacket)
    requires ValidPacket(k)
  {
    Stores(r, k) && k.h.blockNumber == k.h.numBlocks
  }

  /** The packet gives itself out as the last, but more blocks were announced. */
  predicate EndsEarly(r: Reader, k: NbsPacket)
    requires ValidPacket(k)
  {
    BringsLast(r, k) && k.h.blockNumber < Current(r, k).value.announced
  }

  /** The packet brings the last block, when the file is there already. */
  predicate TooLate(r: Reader, k: NbsPacket)
    requires ValidPacket(k)
  {
    BringsLast(r, k) && !EndsEarly(r, k) && k.e.exists_
  }

  predicate Loses(r: Reader, k: NbsPacket)
    requires ValidPacket(k)
  {
    Spoils(r, k) || EndsEarly(r, k) || TooLate(r, k)
  }

  /** The status: 0 if and only if the block is stored and does not end the product
      early; 1 for a product that is not wanted or not the current one; -1 when the
      block cannot be written; and 2 for a bad name, a gap or an early end. */
  lemma StatusExactlyWhen(r: Reader, k: NbsPacket)
    requires ValidPacket(k)
    ensures var status := SlaveNbsProc(r, k).1;
            && (status == 0 <==> Stores(r, k) && !EndsEarly(r, k))
            && (status == 1 <==> if First(k) then k.e.verdict.Rejected? || k.e.verdict.Duplicate?
                                 else !OfCurrent(r, k))
            && (status == -1 <==> BringsNext(r, k) && !k.e.write.Written?)
            && status in {0, 1, 2, -1}
  {
  }

  /** The products are balanced over a packet: the one it opens and the one it finds are
      sent, lost, or still there. */
  predicate BalancedNbs(r: Reader, k: NbsPacket)
    requires ValidPacket(k)
  {
    var t := SlaveNbsProc(r, k).0;
    |t.sent| + One(t.pce.seqNumber != 0) + One(Loses(r, k)) == |r.sent| + One(r.pce.seqNumber != 0) + One(OpensNbs(k))
  }

  /** Sequence number 0 means "closed", so a packet must not carry it, unless it opens
      no product or is all there is of one. */
  predicate SoundNbs(k: NbsPacket)
  {
    k.h.seqNumber != 0 || (First(k) && (!k.e.verdict.Accepted? || !k.e.write.Written? || k.h.numBlocks == 1))
  }

  lemma NbsFate(r: Reader, k: NbsPacket)
    requires ValidPacket(k) && SoundNbs(k) && Settled(r.pce)
    ensures BalancedNbs(r, k) && Settled(SlaveNbsProc(r, k).0.pce)
  {
    hide StartNbs;
    hide StoreNbs;
    if First(k) {
      StartOutcome(r, k);
      StoreOutcome(StartNbs(r, k).0, k);
    } else {
      StoreOutcome(r, k);
    }
  }

  lemma StartOutcome(r: Reader, k: NbsPacket)
    requires ValidPacket(k) && Settled(r.pce)
    ensures var (t, status) := StartNbs(r, k);
            && |t.sent| == |r.sent| + One(r.pce.seqNumber != 0)
            && (status == 0 <==> k.e.verdict.Accepted?)
            && (status != 0 ==> CanOpen(t.pce))
            && (status == 0 ==>
                  && t.pce.seqNumber == k.h.seqNumber && t.pce.numFragments == k.h.numBlocks
                  && t.pce.recvFragments == 0 && !t.pce.complete)
  {
  }

  lemma StoreOutcome(r: Reader, k: NbsPacket)
    requires ValidPacket(k)
    ensures var t := StoreNbs(r, k).0;
            var stores := k.h.blockNumber == r.pce.recvFragments + 1 && k.e.write.Written?;
            var last := stores && k.h.blockNumber == k.h.numBlocks;
            if r.pce.seqNumber != k.h.seqNumber then t == r
            else if !stores || (last && (k.h.blockNumber < r.pce.numFragments || k.e.exists_)) then
              t.sent == r.sent && CanOpen(t.pce)
            else if last then |t.sent| == |r.sent| + 1 && CanOpen(t.pce)
            else t.sent == r.sent && t.pce.seqNumber == k.h.seqNumber && t.pce.complete == r.pce.complete
  {
  }

  /** Soundness of the packet is exactly what the balance needs. */
  lemma BalancedExactlyWhenSoundNbs(k: NbsPacket)
    requires ValidPacket(k)
    ensures SoundNbs(k) <==> forall r: Reader :: Settled(r.pce) ==> BalancedNbs(r, k)
  {
    if SoundNbs(k) {
      forall r: Reader | Settled(r.pce) ensures BalancedNbs(r, k) {
        NbsFate(r, k);
      }
    } else {
      var r := IdleReader.(pce := IdlePce.(recvFragments := k.h.blockNumber));
      assert Settled(r.pce) && !BalancedNbs(r, k);
    }
  }

  predicate AllSound(ks: seq<NbsPacket>) { forall i :: 0 <= i < |ks| ==> ValidPacket(ks[i]) && SoundNbs(ks[i]) }

  function OpenedNbs(ks: seq<NbsPacket>): nat
  {
    if ks == [] then 0 else One(OpensNbs(ks[0])) + OpenedNbs(ks[1..])
  }

  function LostNbs(r: Reader, ks: seq<NbsPacket>): nat
    requires AllSound(ks)
    decreases |ks|
  {
    if ks == [] then 0 else One(Loses(r, ks[0])) + LostNbs(SlaveNbsProc(r, ks[0]).0, ks[1..])
  }

  /** Over every run of packets, every product that was opened is sent, still open, or
      was lost: given up for a wrong or unwritten block, ended early, or too late. */
  lemma {:induction false} NbsConservation(r: Reader, ks: seq<NbsPacket>)
    requires AllSound(ks) && Settled(r.pce)
    ensures ValidPackets(ks)
    ensures var t := RunNbs(r, ks);
            |t.sent| + One(t.pce.seqNumber != 0) + LostNbs(r, ks) ==
            |r.sent| + One(r.pce.seqNumber != 0) + OpenedNbs(ks)
    decreases |ks|
  {
    hide SlaveNbsProc;
    hide Loses;
    hide Settled;
    hide SoundNbs;
    if ks != [] {
      NbsFate(r, ks[0]);
      NbsConservation(SlaveNbsProc(r, ks[0]).0, ks[1..]);
    }
  }

  /** The two counters that count products sent, up to the products that were missed
      and not sent. */
  predicate CountedNbs(r: Reader, t: Reader, missed: int)
  {
    && t.stats.completed - CompleteIn(t.sent) == r.stats.completed - CompleteIn(r.sent)
    && t.stats.missed - (|t.sent| - CompleteIn(t.sent)) ==
       r.stats.missed - (|r.sent| - CompleteIn(r.sent)) + missed
  }

  lemma StartCountsNbs(r: Reader, k: NbsPacket)
    requires ValidPacket(k) && Settled(r.pce)
    ensures var t := StartNbs(r, k).0;
            CountedNbs(r, t, One(k.e.verdict.BadName?)) && !t.pce.complete
  {
    hide CompleteIn;
    CompleteInMore(r.sent, r.pce);
  }

  lemma StoreCountsNbs(r: Reader, k: NbsPacket)
    requires ValidPacket(k)
    ensures var t := StoreNbs(r, k).0;
            var stores := k.h.blockNumber == r.pce.recvFragments + 1 && k.e.write.Written?;
            CountedNbs(r, t, One(r.pce.seqNumber == k.h.seqNumber && !stores))
  {
    hide CompleteIn;
    var t := StoreNbs(r, k).0;
    if t.sent != r.sent {
      CompleteInMore(r.sent, t.sent[|r.sent|]);
      assert t.sent == r.sent + [t.sent[|r.sent|]];
    }
  }

  /** What a packet does to the counters: those of products announced and rejected
      count packets, and those of products completed and missed what was sent. */
  lemma NbsCounts(r: Reader, k: NbsPacket)
    requires ValidPacket(k) && Settled(r.pce)
    ensures var t := SlaveNbsProc(r, k).0;
            && t.stats.transmitted == r.stats.transmitted + One(First(k))
            && t.stats.rejected == r.stats.rejected + One(First(k) && k.e.verdict.Rejected?)
            && CountedNbs(r, t, One(Spoils(r, k)) + One(First(k) && k.e.verdict.BadName?))
  {
    hide CompleteIn;
    if First(k) {
      StartCountsNbs(r, k);
      StoreCountsNbs(StartNbs(r, k).0, k);
    } else {
      StoreCountsNbs(r, k);
    }
  }

  // ---------- the reader ----------

  /** The reader of one master: its channel's product, the counters, and what it
      has handed to the processor queue. */
  class NbsReader {
    const pce: ActivePce
    var stats: Stats
    var sent: seq<Pce>

    ghost predicate Valid()
      reads this, pce, pce.mf, pce.mf.p
    {
      pce.Valid()
    }

    ghost function View(): Reader
      requires Valid()
      reads this, pce, pce.mf, pce.mf.p
    {
      Reader(pce.Value(), stats, sent)
    }

    constructor (memfileSize: nat)
      ensures Valid() && fresh(pce) && fresh(pce.mf) && fresh(pce.mf.p)
      ensures CanOpen(View().pce) && sent == [] && stats == Stats(0, 0, 0, 0, 0, 0)
      ensures Small(View().pce) && !View().pce.hasCcb
    {
      pce := new ActivePce(memfileSize);
      stats, sent := Stats(0, 0, 0, 0, 0, 0), [];
    }

    /** The fields of a new product. */
    method SetFields(k: NbsPacket)
      requires Valid() && ValidPacket(k)
      modifies pce
      ensures Valid() && pce.Value() == BeginNbs(old(pce.Value()), k)
    {
      pce.complete, pce.numFragments, pce.recvFragments := false, k.h.numBlocks, 0;
      pce.seqNumber, pce.origSeq, pce.channel := k.h.seqNumber, 0, k.h.channel;
      pce.saveFormat, pce.saveUnz := k.e.saveFormat, false;
      if k.e.verdict.Accepted? {
        pce.fname, pce.fpath := k.e.verdict.fname, k.e.verdict.fpath;
        pce.saveUnz := k.h.fZip != 0 && k.e.savezRejects;
      }
    }

    /** open_pctl_activepce; an unfinished product is counted, sent and closed first. */
    method ReopenActive()
      requires Valid()
      modifies this`stats, this`sent, pce`seqNumber, pce.mf`size, pce.mf`nread
      ensures Valid() && View() == Reopen(old(View()))
    {
      var status := pce.OpenPce();
      if status != 0 {
        stats := stats.(missed := stats.missed + 1);
        sent := sent + [Pce(pce.seqNumber, pce.origSeq, pce.channel, pce.complete, pce.numFragments,
                            pce.recvFragments, pce.saveUnz, pce.saveFormat, pce.hasCcb,
                            pce.fname, pce.fpath, pce.mf.p[..pce.mf.size])];
        pce.ClosePce();
      }
    }

    /** estart_activepce */
    method StartActive(k: NbsPacket) returns (status: int)
      requires Valid() && ValidPacket(k)
      modifies this`stats, this`sent, pce, pce.mf`size, pce.mf`nread
      ensures Valid() && (View(), status) == StartNbs(old(View()), k)
    {
      stats := stats.(transmitted := stats.transmitted + 1);
      ReopenActive();
      SetFields(k);
      match k.e.verdict
      case BadName =>
        pce.ClosePce();
        stats := stats.(missed := stats.missed + 1);
        return 2;
      case Rejected =>
        stats := stats.(rejected := stats.rejected + 1);
        pce.ClosePce();
        return 1;
      case Duplicate =>
        pce.ClosePce();
        return 1;
      case Accepted(_, _) => return 0;
    }

    /** msave_nbs_block */
    method SaveInMemfile(k: NbsPacket, limit: nat) returns (status: int, ghost w: WriteOutcome)
      requires Valid() && ValidPacket(k)
      modifies pce.mf, pce.mf.p
      ensures Valid() && (pce.mf.p == old(pce.mf.p) || fresh(pce.mf.p))
      ensures (pce.Value(), status) == SaveBlock(old(pce.Value()), k.(e := k.e.(write := w)))
      ensures 2 * (|old(pce.Value()).mf| + INFO_SIZE + |k.block|) <= limit ==> w.Written?
    {
      ghost var was := pce.mf.Contents();
      Regrouped(was, Info(|k.block|, k.h.fZip, k.e.pad), k.block);
      if pce.saveUnz {
        status := pce.mf.WriteMemframe(MemFrame(k.block, k.h.fZip), k.e.pad, limit);
      } else {
        status := pce.mf.Write(k.block, limit);
      }
      w := if status == 0 then Written else Failed(pce.mf.Contents());
    }

    /** eupdate_activepce */
    method UpdateActive(k: NbsPacket, limit: nat) returns (status: int, ghost w: WriteOutcome)
      requires Valid() && ValidPacket(k)
      modifies this`stats, pce`recvFragments, pce`seqNumber, pce.mf, pce.mf.p
      ensures Valid() && (pce.mf.p == old(pce.mf.p) || fresh(pce.mf.p))
      ensures (View(), status) == UpdateNbs(old(View()), k.(e := k.e.(write := w)))
      ensures 2 * (|old(View()).pce.mf| + INFO_SIZE + |k.block|) <= limit ==> w.Written?
    {
      w := Written;
      status := pce.UpdateFrameCounter(k.h.seqNumber, k.h.blockNumber - 1);
      if status == 1 {
        return;
      }
      if status == 0 {
        status, w := SaveInMemfile(k, limit);
      }
      if status != 0 {
        stats := stats.(missed := stats.missed + 1);
        pce.ClosePce();
      }
    }

    /** eend_activepce */
    method EndActive(k: NbsPacket) returns (status: int)
      requires Valid() && ValidPacket(k)
      modifies this`stats, this`sent, pce`complete, pce`seqNumber, pce.mf`size, pce.mf`nread
      ensures Valid() && (View(), status) == EndNbs(old(View()), k)
    {
      status := pce.CompletePce(k.h.seqNumber);
      if status == 0 && !k.e.exists_ {
        stats := stats.(completed := stats.completed + 1);
        sent := sent + [Pce(pce.seqNumber, pce.origSeq, pce.channel, pce.complete, pce.numFragments,
                            pce.recvFragments, pce.saveUnz, pce.saveFormat, pce.hasCcb,
                            pce.fname, pce.fpath, pce.mf.p[..pce.mf.size])];
      }
      pce.ClosePce();
    }

    /** slavenbsproc; `w` tells whether the memory file took the block. */
    method Proc(k: NbsPacket, limit: nat) returns (status: int, ghost w: WriteOutcome)
      requires Valid() && ValidPacket(k)
      modifies this`stats, this`sent, pce, pce.mf, pce.mf.p
      ensures Valid() && (pce.mf.p == old(pce.mf.p) || fresh(pce.mf.p))
      ensures (View(), status) == SlaveNbsProc(old(View()), k.(e := k.e.(write := w)))
      ensures 2 * (|old(View()).pce.mf| + INFO_SIZE + |k.block|) <= limit ==> w.Written?
    {
      hide StartNbs;
      hide UpdateNbs;
      hide EndNbs;
      status, w := 0, Written;
      StartEmpties(View(), k);
      if k.h.blockNumber == 1 {
        status := StartActive(k);
      }
      WriteIgnored(old(View()), k);
      if status == 0 {
        status, w := UpdateActive(k, limit);
      }
      if status == 0 && k.h.blockNumber == k.h.numBlocks {
        WriteIgnored(View(), k);
        status := EndActive(k);
      }
    }

    /** slavenet_loop_nbs1: one packet is received and processed. 1 when it could not
        be received, 2 when it was ignored or could not be stored. `k` is the packet. */
    method LoopOnce(sock: Socket, grants: (seq<Grant>, seq<Grant>), e: NbsEnv, limit: nat)
      returns (status: int, ghost k: NbsPacket, ghost whole: bool)
      requires Valid() && |e.pad| == 7
      modifies this`stats, this`sent, pce, pce.mf, pce.mf.p, sock
      ensures Valid() && (pce.mf.p == old(pce.mf.p) || fresh(pce.mf.p))
      ensures Flows(grants.0, |old(sock.stream)| + 1) && Flows(grants.1, |old(sock.stream)| + 1) ==> whole
      ensures status in {0, 1, 2} && |sock.stream| <= |old(sock.stream)|
      ensures status == 1 ==> View() == old(View()) && (whole ==> Recv(old(sock.stream)).status != 0)
      ensures status != 1 ==>
                && whole && ValidPacket(k) && k.e == e.(write := k.e.write)
                && Recv(old(sock.stream)) == Received(0, Some(k.h), k.block, sock.stream)
                && View() == SlaveNbsProc(old(View()), k).0
                && (status == 2 <==> SlaveNbsProc(old(View()), k).1 in {1, -1})
                && (2 * (|old(View()).pce.mf| + |old(sock.stream)|) <= limit ==> k.e.write.Written?)
    {
      hide SlaveNbsProc;
      hide Recv;
      hide Flows;
      k := NbsPacket(Header(0, 0, 0, 0, 0, [], 0, 0, 0), [], e);
      RecvShrinks(sock.stream);
      var header, block;
      status, header, block, whole := RecvNbsPacket(sock, grants.0, grants.1);
      if status != 0 {
        return 1, k, whole;
      }
      var packet := NbsPacket(header.value, block, e);
      ghost var w;
      status, w := Proc(packet, limit);
      k := packet.(e := e.(write := w));
      status := if status == -1 || status == 1 then 2 else 0;
    }

    /** ... over and over, until a packet cannot be received or the connection ends.
        `ks` are the packets, and `whole` says that no error or timeout got in the way. */
    method Loop(sock: Socket, grants: nat -> (seq<Grant>, seq<Grant>), env: nat -> NbsEnv, limit: nat)
      returns (ghost ks: seq<NbsPacket>, ghost whole: bool)
      requires Valid() && forall i: nat :: |env(i).pad| == 7
      modifies this`stats, this`sent, pce, pce.mf, pce.mf.p, sock
      ensures Valid() && ValidPackets(ks) && View() == RunNbs(old(View()), ks)
      ensures Under(ks, env)
      ensures whole ==> Unwrapped(ks) == RecvAll(old(sock.stream)).packets
      ensures Flowing(grants, |old(sock.stream)| + 1) ==> whole
      ensures 2 * (|old(View()).pce.mf| + |old(sock.stream)|) <= limit ==> AllWritten(ks)
    {
      hide SlaveNbsProc;
      hide Recv;
      hide Flows;
      hide RunNbs;
      hide RecvAll;
      hide Unwrapped;
      ks, whole := [], true;
      NoPackets(View(), sock.stream);
      ghost var r0, room := View(), |View().pce.mf| + |sock.stream|;
      var i: nat := 0;
      while true
        invariant Valid() && (pce.mf.p == old(pce.mf.p) || fresh(pce.mf.p))
        invariant whole && i == |ks| && ValidPackets(ks) && View() == RunNbs(r0, ks) && Under(ks, env)
        invariant Unwrapped(ks) + RecvAll(sock.stream).packets == RecvAll(old(sock.stream)).packets
        invariant |sock.stream| <= |old(sock.stream)|
        invariant 2 * room <= limit ==> AllWritten(ks) && |View().pce.mf| + |sock.stream| <= room
        decreases |sock.stream|
      {
        ghost var stream := sock.stream;
        RecvShrinks(stream);
        FlowsLess(grants(i).0, |old(sock.stream)| + 1, |stream| + 1);
        FlowsLess(grants(i).1, |old(sock.stream)| + 1, |stream| + 1);
        var status;
        ghost var k;
        status, k, whole := LoopOnce(sock, grants(i), env(i), limit);
        if status == 1 {
          if whole {
            LastPacket(stream);
          }
          return;
        }
        GrowsByBlock(RunNbs(r0, ks), k);
        RunNbsSnoc(r0, ks, k);
        NextPacket(stream, k, sock.stream);
        UnwrappedSnoc(ks, k, RecvAll(sock.stream).packets);
        ks := ks + [k];
        i := i + 1;
      }
    }
  }

  /** The packets without their conditions. */
  function Unwrapped(ks: seq<NbsPacket>): (ps: seq<(Header, Bytes)>)
    ensures |ps| == |ks| && forall i :: 0 <= i < |ks| ==> ps[i] == (ks[i].h, ks[i].block)
  {
    seq(|ks|, i requires 0 <= i < |ks| => (ks[i].h, ks[i].block))
  }

  /** The packets met these conditions, but for what became of their writes. */
  predicate Under(ks: seq<NbsPacket>, env: nat -> NbsEnv)
  {
    forall i: nat :: i < |ks| ==> ks[i].e == env(i).(write := ks[i].e.write)
  }

  lemma RunNbsSnoc(r: Reader, ks: seq<NbsPacket>, k: NbsPacket)
    requires ValidPackets(ks) && ValidPacket(k)
    ensures ValidPackets(ks + [k]) && RunNbs(r, ks + [k]) == SlaveNbsProc(RunNbs(r, ks), k).0
  {
    hide SlaveNbsProc;
    RunNbsAppend(r, ks, [k]);
    assert RunNbs(RunNbs(r, ks), [k]) == RunNbs(SlaveNbsProc(RunNbs(r, ks), k).0, []);
  }

  lemma NoPackets(r: Reader, stream: Bytes)
    ensures RunNbs(r, []) == r && Unwrapped([]) + RecvAll(stream).packets == RecvAll(stream).packets
    ensures forall ks :: Unwrapped(ks) + [] == Unwrapped(ks)
  {
  }

  lemma NextPacket(stream: Bytes, k: NbsPacket, rest: Bytes)
    requires Recv(stream) == Received(0, Some(k.h), k.block, rest)
    ensures RecvAll(stream).packets == [(k.h, k.block)] + RecvAll(rest).packets
  {
    hide Recv;
    RecvShrinks(stream);
  }

  lemma LastPacket(stream: Bytes)
    requires Recv(stream).status != 0
    ensures RecvAll(stream).packets == []
  {
    hide Recv;
  }

  lemma UnwrappedSnoc(ks: seq<NbsPacket>, k: NbsPacket, rest: seq<(Header, Bytes)>)
    ensures Unwrapped(ks + [k]) + rest == Unwrapped(ks) + ([(k.h, k.block)] + rest)
  {
  }

  /** Every poll for every packet finds the connection ready. */
  ghost predicate Flowing(grants: nat -> (seq<Grant>, seq<Grant>), n: nat)
  {
    forall i: nat :: Flows(grants(i).0, n) && Flows(grants(i).1, n)
  }

  lemma FlowsLess(grants: seq<Grant>, n: nat, m: nat)
    requires m <= n
    ensures Flows(grants, n) ==> Flows(grants, m)
  {
  }

  lemma StartEmpties(r: Reader, k: NbsPacket)
    requires ValidPacket(k)
    ensures StartNbs(r, k).0.pce.mf == []
  {
  }

  /** A memory file grows by a block at most, and the record before it. */
  lemma GrowsByBlock(r: Reader, k: NbsPacket)
    requires ValidPacket(k)
    ensures k.e.write.Written? ==> |SlaveNbsProc(r, k).0.pce.mf| <= |r.pce.mf| + INFO_SIZE + |k.block|
  {
    hide StartNbs;
    hide StoreNbs;
    StartEmpties(r, k);
    StoreGrows(r, k);
    StoreGrows(StartNbs(r, k).0, k);
  }

  lemma StoreGrows(r: Reader, k: NbsPacket)
    requires ValidPacket(k)
    ensures k.e.write.Written? ==> |StoreNbs(r, k).0.pce.mf| <= |r.pce.mf| + INFO_SIZE + |k.block|
  {
  }

  /** Starting and ending do not depend on whether the block can be written. */
  lemma WriteIgnored(r: Reader, k: NbsPacket)
    requires ValidPacket(k)
    ensures forall w :: StartNbs(r, k.(e := k.e.(write := w))) == StartNbs(r, k)
    ensures forall w :: EndNbs(r, k.(e := k.e.(write := w))) == EndNbs(r, k)
  {
  }

  // ---------- from files to products ----------

  function EnvsOf(ks: seq<NbsPacket>): (es: seq<NbsEnv>)
    ensures |es| == |ks| && forall i :: 0 <= i < |ks| ==> es[i] == ks[i].e
  {
    seq(|ks|, i requires 0 <= i < |ks| => ks[i].e)
  }

  predicate AllWritten(ks: seq<NbsPacket>) { forall i :: 0 <= i < |ks| ==> ks[i].e.write.Written? }

  lemma ArrivedAre(fs: seq<Outgoing>, ks: seq<NbsPacket>)
    requires ValidNames(fs) && Unwrapped(ks) == RecvAll(FilesWire(fs)).packets
    ensures |ks| == |AllPackets(fs)| && ks == Arriving(AllPackets(fs), EnvsOf(ks))
  {
    FilesReadBack(fs);
    var ps := AllPackets(fs);
    hide RecvAll;
    forall i | 0 <= i < |ks| ensures ks[i] == Arriving(ps, EnvsOf(ks))[i] {
      assert Unwrapped(ks)[i] == OnWireAll(ps)[i];
    }
  }

  /** Sends files over a connection and receives them at the other end. Whatever
      the pieces in which the bytes are written and read, if no error or timeout
      gets in the way and the memory files take the blocks, every file comes out as
      exactly one complete product with its bytes, in order. Nothing gets in the way
      when every poll finds the connection ready, and twice the bytes sent are memory
      enough. */
  method Transfer(fs: seq<Outgoing>, outgoing: (nat, nat) -> seq<Grant>, incoming: nat -> (seq<Grant>, seq<Grant>),
                  env: nat -> NbsEnv, limit: nat)
    returns (sent: bool, products: seq<Pce>, ghost ks: seq<NbsPacket>, ghost whole: bool)
    requires AllSendable(fs)
    requires forall i: nat :: |env(i).pad| == 7 && env(i).verdict.Accepted? && !env(i).exists_
    ensures sent && whole && AllWritten(ks) ==>
              && |ks| == |AllPackets(fs)| && AllGood(EnvsOf(ks))
              && products == FileProducts(fs, EnvsOf(ks), false)
    ensures (forall k: nat, n: nat :: Flows(outgoing(k, n), NBS1_PACKET_MAXSIZE)) ==> sent
    ensures sent && Flowing(incoming, |FilesWire(fs)| + 1) ==> whole
    ensures sent && 2 * |FilesWire(fs)| <= limit ==> AllWritten(ks)
  {
    hide Flows;
    hide RunNbs;
    hide RecvAll;
    hide FileProducts;
    hide FilesWire;
    products, ks, whole := [], [], false;
    var sock := new Socket();
    var status := SendFiles(fs, sock, outgoing);
    sent := status == 0;
    if !sent {
      return;
    }
    assert sock.stream == FilesWire(fs);
    var reader := new NbsReader(0);
    ghost var r := reader.View();
    ks, whole := reader.Loop(sock, incoming, env, limit);
    products := reader.sent;
    if whole && AllWritten(ks) {
      ArrivedAre(fs, ks);
      FilesDelivered(r, fs, EnvsOf(ks));
    }
  }
}
