/** The NBS1 protocol: packing (src/pack.c), sending (src/nbs1s.c,
    src/serverc.c) and receiving (src/nbs1r.c) of files in blocks, over a byte
    stream that may be read and written in pieces (src/nreadn.c). */
module Nbs1 {
  import opened Common
  import opened Util

  const NBS_ENVELOPE_SIZE: nat := 12
  const PACKID_FDATA: nat := 1
  const NBS1_HEADER_SIZE: nat := 17 + FBASENAME_SIZE + 1
  const NBS1_BLOCK_SIZE: nat := 65536
  const NBS1_PACKET_MAXSIZE: nat := NBS1_BLOCK_SIZE + NBS1_HEADER_SIZE + NBS_ENVELOPE_SIZE

  // ---------- packets ----------

  /** What the packet of a block says about itself and its product. */
  datatype Header = Header(
    seqNumber: int, productType: int, category: int, code: int, channel: int,
    fbasename: Bytes, fZip: int, numBlocks: int, blockNumber: int)

  /** A base name as it goes into its field: no zero bytes, room for one at the end. */
  predicate ValidName(name: Bytes)
  {
    |name| <= FBASENAME_SIZE && forall i :: 0 <= i < |name| ==> name[i] != 0
  }

  function NameField(name: Bytes): (b: Bytes)
    requires ValidName(name)
    ensures |b| == FBASENAME_SIZE + 1
  {
    name + Zeros(FBASENAME_SIZE + 1 - |name|)
  }

  /** The bytes before the first zero. */
  function UntilZero(b: Bytes): Bytes
  {
    if b == [] || b[0] == 0 then [] else [b[0]] + UntilZero(b[1..])
  }

  lemma {:induction false} NameReadsBack(name: Bytes, n: nat)
    requires 0 < n && forall i :: 0 <= i < |name| ==> name[i] != 0
    ensures UntilZero(name + Zeros(n)) == name
  {
    if name != [] {
      assert (name + Zeros(n))[1..] == name[1..] + Zeros(n);
      NameReadsBack(name[1..], n);
    }
  }

  /** The header without its last field, the block size. */
  function HeaderStart(h: Header): (b: Bytes)
    requires ValidName(h.fbasename)
    ensures |b| == NBS1_HEADER_SIZE - 4
  {
    Pack32(h.seqNumber) + [h.productType % 256, h.category % 256, h.code % 256, h.channel % 256]
    + NameField(h.fbasename) + [h.fZip % 256] + Pack16(h.numBlocks) + Pack16(h.blockNumber)
  }

  function Data(h: Header, block: Bytes): (b: Bytes)
    requires ValidName(h.fbasename)
    ensures |b| == NBS1_HEADER_SIZE + |block|
  {
    HeaderStart(h) + Pack32(|block|) + block
  }

  function Envelope(data: Bytes): (b: Bytes)
    ensures |b| == NBS_ENVELOPE_SIZE
  {
    Pack32(PACKID_FDATA) + Pack32(|data|) + Pack32(Sum(data))
  }

  function Packet(h: Header, block: Bytes): (b: Bytes)
    requires ValidName(h.fbasename)
    ensures |b| == NBS_ENVELOPE_SIZE + NBS1_HEADER_SIZE + |block|
  {
    Envelope(Data(h, block)) + Data(h, block)
  }

  // ---------- receiving ----------

  /** unpack_nbs1_header on the data part of a packet. */
  function UnpackHeader(d: Bytes): Header
    requires |d| >= NBS1_HEADER_SIZE
  {
    Header(Unpack32(d[..4]), d[4], d[5], d[6], d[7], UntilZero(d[8..45]), d[45],
           Unpack16(d[46..48]), Unpack16(d[48..50]))
  }

  function UnpackBlockSize(d: Bytes): nat
    requires |d| >= NBS1_HEADER_SIZE
  {
    Unpack32(d[50..54])
  }

  datatype Received = Received(status: int, header: Option<Header>, block: Bytes, rest: Bytes)

  function Failed(status: int, rest: Bytes): Received { Received(status, None, [], rest) }

  /** recv_nbs_packet on a stream that ends after these bytes: -3 nothing left, 1
      short or not a file packet, 2 inconsistent sizes. */
  function Recv(stream: Bytes): Received
  {
    if stream == [] then Failed(-3, [])
    else if |stream| < NBS_ENVELOPE_SIZE then Failed(1, [])
    else
      var s := stream[NBS_ENVELOPE_SIZE..];
      if Unpack32(stream[..4]) != PACKID_FDATA then Failed(1, s)
      else
        var size := Unpack32(stream[4..8]);
        if (size + NBS_ENVELOPE_SIZE) % TWO32 > NBS1_PACKET_MAXSIZE then Failed(1, s)
        else if size == 0 || s == [] then Failed(-3, s)
        else if |s| < size then Failed(1, [])
        else RecvData(s[..size], s[size..])
  }

  function RecvData(d: Bytes, rest: Bytes): Received
  {
    if |d| < NBS1_HEADER_SIZE || |d| != NBS1_HEADER_SIZE + UnpackBlockSize(d) then Failed(2, rest)
    else Received(0, Some(UnpackHeader(d)), d[NBS1_HEADER_SIZE..], rest)
  }

  /** The header as its fields can carry it. */
  function OnWire(h: Header): Header
  {
    Header(h.seqNumber % TWO32, h.productType % 256, h.category % 256, h.code % 256, h.channel % 256,
           h.fbasename, h.fZip % 256, h.numBlocks % TWO16, h.blockNumber % TWO16)
  }

  lemma HeaderReadsBack(h: Header, block: Bytes)
    requires ValidName(h.fbasename) && |block| < TWO32
    ensures var d := Data(h, block);
            UnpackHeader(d) == OnWire(h) && UnpackBlockSize(d) == |block| && d[NBS1_HEADER_SIZE..] == block
  {
    hide Pack32;
    hide Pack16;
    hide Unpack32;
    hide Unpack16;
    hide UntilZero;
    var d := Data(h, block);
    assert d[..4] == Pack32(h.seqNumber);
    assert d[8..45] == NameField(h.fbasename);
    assert d[46..48] == Pack16(h.numBlocks);
    assert d[48..50] == Pack16(h.blockNumber);
    assert d[50..54] == Pack32(|block|);
    PackedNumbers(h.seqNumber);
    PackedNumbers(h.numBlocks);
    PackedNumbers(h.blockNumber);
    PackedNumbers(|block|);
    NameReadsBack(h.fbasename, FBASENAME_SIZE + 1 - |h.fbasename|);
  }

  /** Where the documented format has the fields of the data part. */
  lemma HeaderLayout(h: Header, block: Bytes)
    requires ValidName(h.fbasename) && |block| < TWO32
    ensures var d := Data(h, block);
            && |d| == 54 + |block|
            && Unpack32(d[0..4]) == h.seqNumber % 4294967296
            && d[4] == h.productType % 256 && d[5] == h.category % 256
            && d[6] == h.code % 256 && d[7] == h.channel % 256
            && d[8..8 + |h.fbasename|] == h.fbasename && (forall i :: 8 + |h.fbasename| <= i < 45 ==> d[i] == 0)
            && d[45] == h.fZip % 256
            && Unpack16(d[46..48]) == h.numBlocks % 65536 && Unpack16(d[48..50]) == h.blockNumber % 65536
            && Unpack32(d[50..54]) == |block| && d[54..] == block
  {
    hide Pack32;
    hide Pack16;
    hide Unpack32;
    hide Unpack16;
    PackedNumbers(h.seqNumber);
    PackedNumbers(h.numBlocks);
    PackedNumbers(h.blockNumber);
    PackedNumbers(|block|);
    var d := Data(h, block);
    assert d[0..4] == Pack32(h.seqNumber) && d[46..48] == Pack16(h.numBlocks);
    assert d[48..50] == Pack16(h.blockNumber) && d[50..54] == Pack32(|block|);
    assert d[8..45] == NameField(h.fbasename);
    assert d[8..8 + |h.fbasename|] == d[8..45][..|h.fbasename|];
    assert forall i :: 8 + |h.fbasename| <= i < 45 ==> d[i] == d[8..45][i - 8];
  }

  /** ... and of the envelope: the kind, the size, and the sum of the bytes. */
  lemma EnvelopeLayout(h: Header, block: Bytes)
    requires ValidName(h.fbasename) && |block| <= NBS1_BLOCK_SIZE
    ensures var p := Packet(h, block);
            && Unpack32(p[0..4]) == 1 && Unpack32(p[4..8]) == 54 + |block|
            && Unpack32(p[8..12]) == Sum(Data(h, block)) % 4294967296 && p[12..] == Data(h, block)
  {
    hide Data;
    hide Pack32;
    hide Unpack32;
    var d := Data(h, block);
    PackedNumbers(PACKID_FDATA);
    PackedNumbers(|d|);
    PackedNumbers(Sum(d));
    var p := Packet(h, block);
    assert p[0..4] == Pack32(PACKID_FDATA) && p[4..8] == Pack32(|d|) && p[8..12] == Pack32(Sum(d));
  }

  lemma EnvelopeFields(d: Bytes)
    requires |d| < TWO32
    ensures Unpack32(Envelope(d)[..4]) == PACKID_FDATA && Unpack32(Envelope(d)[4..8]) == |d|
  {
    hide Pack32;
    hide Unpack32;
    assert Envelope(d)[..4] == Pack32(PACKID_FDATA);
    assert Envelope(d)[4..8] == Pack32(|d|);
    PackedNumbers(PACKID_FDATA);
    PackedNumbers(|d|);
  }

  lemma EnvelopedReadsBack(e: Bytes, d: Bytes, rest: Bytes)
    requires |e| == NBS_ENVELOPE_SIZE && 0 < |d| <= NBS1_BLOCK_SIZE + NBS1_HEADER_SIZE
    requires Unpack32(e[..4]) == PACKID_FDATA && Unpack32(e[4..8]) == |d|
    ensures Recv(e + d + rest) == RecvData(d, rest)
  {
    var stream := e + d + rest;
    assert stream[..4] == e[..4] && stream[4..8] == e[4..8];
    var s := stream[NBS_ENVELOPE_SIZE..];
    assert s[..|d|] == d && s[|d|..] == rest;
  }

  /** What is received of any stream. A packet is received if and only if the stream
      starts with an envelope of a file packet that is not too large, all the bytes
      it announces are there, and the size of the block agrees. It is -3 at the end of
      the stream and after an envelope without data, 2 when the sizes do not agree,
      and 1 otherwise. */
  lemma ReceivedExactlyWhen(stream: Bytes)
    ensures var r := Recv(stream);
            if |stream| < 12 then r.status == if stream == [] then -3 else 1
            else
              var size := Unpack32(stream[4..8]);
              var fits := Unpack32(stream[0..4]) == 1 && (size + 12) % 4294967296 <= 65602;
              var there := fits && 0 < size && 12 + size <= |stream|;
              var agrees := there && 54 <= size && Unpack32(stream[62..66]) == size - 54;
              && (r.status == 0 <==> agrees)
              && (r.status == 2 <==> there && !agrees)
              && (r.status == -3 <==> fits && (size == 0 || |stream| == 12))
              && r.status in {0, 1, 2, -3}
              && (r.status == 0 ==>
                    && r.header == Some(UnpackHeader(stream[12..12 + size]))
                    && r.block == stream[66..12 + size] && r.rest == stream[12 + size..])
  {
    hide Unpack32;
    hide UnpackHeader;
    if |stream| >= 12 {
      var size, s := Unpack32(stream[4..8]), stream[NBS_ENVELOPE_SIZE..];
      assert stream[..4] == stream[0..4];
      if 0 < size <= |s| {
        var d := s[..size];
        assert d == stream[12..12 + size] && s[size..] == stream[12 + size..];
        if 54 <= size {
          assert d[50..54] == stream[62..66] && d[54..] == stream[66..12 + size];
        }
      }
    }
  }

  /** A packet at the front of a stream is received whole, and nothing after it
      is touched. */
  lemma PacketReadsBack(h: Header, block: Bytes, rest: Bytes)
    requires ValidName(h.fbasename) && |block| <= NBS1_BLOCK_SIZE
    ensures Recv(Packet(h, block) + rest) == Received(0, Some(OnWire(h)), block, rest)
  {
    var d := Data(h, block);
    EnvelopeFields(d);
    EnvelopedReadsBack(Envelope(d), d, rest);
    HeaderReadsBack(h, block);
  }

  // ---------- files as blocks ----------

  /** How many blocks a file of that size is cut into, and how long the last is. */
  function NumBlocks(size: nat): nat
  {
    if size == 0 then 0 else if size <= NBS1_BLOCK_SIZE then 1 else 1 + NumBlocks(size - NBS1_BLOCK_SIZE)
  }

  function LastBlockSize(size: nat): nat
    requires 0 < size
  {
    if size <= NBS1_BLOCK_SIZE then size else LastBlockSize(size - NBS1_BLOCK_SIZE)
  }

  /** One block is the last exactly when it holds all that is left. */
  lemma BlockStep(left: nat)
    ensures NumBlocks(left) == 0 <==> left == 0
    ensures 0 < left <= NBS1_BLOCK_SIZE ==> NumBlocks(left) == 1 && LastBlockSize(left) == left
    ensures left > NBS1_BLOCK_SIZE ==>
              && NumBlocks(left) == 1 + NumBlocks(left - NBS1_BLOCK_SIZE) >= 2
              && LastBlockSize(left) == LastBlockSize(left - NBS1_BLOCK_SIZE)
  {
  }

  lemma {:induction false} BlockCount(size: nat)
    ensures NumBlocks(size) == size / NBS1_BLOCK_SIZE + if size % NBS1_BLOCK_SIZE != 0 then 1 else 0
    ensures 0 < size ==>
              LastBlockSize(size) == if size % NBS1_BLOCK_SIZE == 0 then NBS1_BLOCK_SIZE else size % NBS1_BLOCK_SIZE
  {
    if size > NBS1_BLOCK_SIZE {
      BlockCount(size - NBS1_BLOCK_SIZE);
    }
  }

  method GetNumBlocks(fsize: nat) returns (pt: nat)
    ensures pt == NumBlocks(fsize)
  {
    BlockCount(fsize);
    pt := fsize / NBS1_BLOCK_SIZE;
    if fsize % NBS1_BLOCK_SIZE != 0 {
      pt := pt + 1;
    }
  }

  method GetLastBlockSize(fsize: nat) returns (size: nat)
    ensures 0 < fsize ==> size == LastBlockSize(fsize)
    ensures 0 == fsize ==> size == NBS1_BLOCK_SIZE
  {
    BlockCount(fsize);
    size := fsize % NBS1_BLOCK_SIZE;
    if size == 0 {
      size := NBS1_BLOCK_SIZE;
    }
  }

  /** Packets of the blocks of `file`, the first one numbered `number`. */
  function Packets(file: Bytes, h: Header, number: nat): (ps: seq<(Header, Bytes)>)
    decreases |file|
  {
    if file == [] then []
    else
      var size := if |file| <= NBS1_BLOCK_SIZE then |file| else NBS1_BLOCK_SIZE;
      [(h.(blockNumber := number), file[..size])] + Packets(file[size..], h, number + 1)
  }

  function Wire(ps: seq<(Header, Bytes)>): Bytes
    requires forall i :: 0 <= i < |ps| ==> ValidName(ps[i].0.fbasename)
  {
    if ps == [] then [] else Packet(ps[0].0, ps[0].1) + Wire(ps[1..])
  }

  function Blocks(ps: seq<(Header, Bytes)>): seq<Bytes>
  {
    if ps == [] then [] else [ps[0].1] + Blocks(ps[1..])
  }

  /** Every block fits, the numbers run on from `number`, and the blocks put
      together are the file. */
  lemma {:induction false} PacketsCover(file: Bytes, h: Header, number: nat)
    ensures var ps := Packets(file, h, number);
            && |ps| == NumBlocks(|file|)
            && Concat(Blocks(ps)) == file
            && forall i :: 0 <= i < |ps| ==>
                 ps[i].0 == h.(blockNumber := number + i) && 0 < |ps[i].1| <= NBS1_BLOCK_SIZE
    decreases |file|
  {
    if file != [] {
      var size := if |file| <= NBS1_BLOCK_SIZE then |file| else NBS1_BLOCK_SIZE;
      PacketsCover(file[size..], h, number + 1);
      assert file == file[..size] + file[size..];
    }
  }

  /** Receiving until the stream ends: the headers and blocks, and whether it
      ended between packets. */
  datatype AllReceived = AllReceived(packets: seq<(Header, Bytes)>, clean: bool)

  function RecvAll(stream: Bytes): AllReceived
    decreases |stream|
  {
    var r := Recv(stream);
    if r.status == -3 && stream == [] then AllReceived([], true)
    else if r.status != 0 || r.header.None? || |r.rest| >= |stream| then AllReceived([], false)
    else
      var more := RecvAll(r.rest);
      AllReceived([(r.header.value, r.block)] + more.packets, more.clean)
  }

  function OnWireAll(ps: seq<(Header, Bytes)>): (qs: seq<(Header, Bytes)>)
    ensures |qs| == |ps|
    ensures forall i :: 0 <= i < |ps| ==> qs[i] == (OnWire(ps[i].0), ps[i].1)
  {
    if ps == [] then [] else [(OnWire(ps[0].0), ps[0].1)] + OnWireAll(ps[1..])
  }

  lemma {:induction false} WireReadsBack(ps: seq<(Header, Bytes)>)
    requires forall i :: 0 <= i < |ps| ==> ValidName(ps[i].0.fbasename) && |ps[i].1| <= NBS1_BLOCK_SIZE
    ensures RecvAll(Wire(ps)) == AllReceived(OnWireAll(ps), true)
  {
    if ps != [] {
      PacketReadsBack(ps[0].0, ps[0].1, Wire(ps[1..]));
      WireReadsBack(ps[1..]);
    }
  }

  // ---------- lists of files ----------

  /** A file to send and what its packets say about the product. */
  datatype Outgoing = Outgoing(info: Header, data: Bytes)

  /** A nonempty file with a base name that fits, and whose block count fits its
      16-bit field. */
  predicate Sendable(f: Outgoing)
  {
    ValidName(f.info.fbasename) && 0 < |f.data| && NumBlocks(|f.data|) < TWO16
  }

  /** What init_nbs_packet_st puts in all the headers of a file. */
  function FileInfo(f: Outgoing): Header { f.info.(numBlocks := NumBlocks(|f.data|), fZip := 0) }

  function FilePackets(f: Outgoing): seq<(Header, Bytes)>
  {
    Packets(f.data, FileInfo(f), 1)
  }

  function AllPackets(fs: seq<Outgoing>): seq<(Header, Bytes)>
  {
    if fs == [] then [] else FilePackets(fs[0]) + AllPackets(fs[1..])
  }

  predicate ValidNames(fs: seq<Outgoing>) { forall k :: 0 <= k < |fs| ==> ValidName(fs[k].info.fbasename) }

  predicate Fits(p: (Header, Bytes)) { ValidName(p.0.fbasename) && |p.1| <= NBS1_BLOCK_SIZE }

  predicate AllFit(ps: seq<(Header, Bytes)>) { forall i :: 0 <= i < |ps| ==> Fits(ps[i]) }

  lemma FilePacketsFit(f: Outgoing)
    requires ValidName(f.info.fbasename)
    ensures AllFit(FilePackets(f))
  {
    PacketsCover(f.data, FileInfo(f), 1);
  }

  lemma {:induction false} AllPacketsFit(fs: seq<Outgoing>)
    requires ValidNames(fs)
    ensures AllFit(AllPackets(fs))
  {
    if fs != [] {
      FilePacketsFit(fs[0]);
      AllPacketsFit(fs[1..]);
    }
  }

  /** The bytes that sending these files puts on a connection. */
  function FilesWire(fs: seq<Outgoing>): Bytes
    requires ValidNames(fs)
  {
    AllPacketsFit(fs);
    Wire(AllPackets(fs))
  }

  /** The packets are numbered 1, 2, ... and their blocks are the file. */
  predicate Covered(f: Outgoing)
  {
    && |FilePackets(f)| == NumBlocks(|f.data|) && Concat(Blocks(FilePackets(f))) == f.data
    && forall i :: 0 <= i < |FilePackets(f)| ==> FilePackets(f)[i].0 == FileInfo(f).(blockNumber := i + 1)
  }

  /** Parsing the bytes of any files gives the packets of each back, numbered from
      1 and with the file in their blocks, the header fields modulo their widths;
      and the stream ends cleanly. */
  lemma FilesReadBack(fs: seq<Outgoing>)
    requires ValidNames(fs)
    ensures RecvAll(FilesWire(fs)) == AllReceived(OnWireAll(AllPackets(fs)), true)
    ensures forall k :: 0 <= k < |fs| ==> Covered(fs[k])
  {
    AllPacketsFit(fs);
    WireReadsBack(AllPackets(fs));
    forall k | 0 <= k < |fs| ensures Covered(fs[k]) {
      PacketsCover(fs[k].data, FileInfo(fs[k]), 1);
    }
  }

  /** A received packet shortens the stream, and its header fields are in range. */
  lemma RecvShrinks(stream: Bytes)
    ensures var r := Recv(stream);
            r.status == 0 ==>
              r.header.Some? && |r.rest| + 66 + |r.block| == |stream| && InRange(r.header.value)
  {
    hide Unpack32;
    if Recv(stream).status == 0 {
      var s, size := stream[NBS_ENVELOPE_SIZE..], Unpack32(stream[4..8]);
      UnpackedInRange(s[..size]);
    }
  }

  predicate InRange(h: Header)
  {
    && 0 <= h.seqNumber && 0 <= h.channel && 0 <= h.fZip < 256
    && 0 <= h.numBlocks < TWO16 && 0 <= h.blockNumber < TWO16
  }

  lemma UnpackedInRange(d: Bytes)
    requires |d| >= NBS1_HEADER_SIZE
    ensures InRange(UnpackHeader(d))
  {
    var channel: byte, zip: byte := d[7], d[45];
  }

  lemma {:induction false} WireAppend(a: seq<(Header, Bytes)>, b: seq<(Header, Bytes)>)
    requires AllFit(a) && AllFit(b)
    ensures AllFit(a + b) && Wire(a + b) == Wire(a) + Wire(b)
  {
    assert AllFit(a + b);
    if a == [] {
      assert a + b == b;
    } else {
      assert (a + b)[1..] == a[1..] + b;
      WireAppend(a[1..], b);
      Regrouped(Packet(a[0].0, a[0].1), Wire(a[1..]), Wire(b));
    }
  }

  /** One more file is sent after the others. */
  lemma {:induction false} FilesWireSnoc(fs: seq<Outgoing>, f: Outgoing)
    requires ValidNames(fs) && ValidName(f.info.fbasename)
    ensures ValidNames(fs + [f]) && FilesWire(fs + [f]) == FilesWire(fs) + FileWire(f.data, FileInfo(f), 1)
  {
    AllPacketsSnoc(fs, f);
    AllPacketsFit(fs);
    FilePacketsFit(f);
    WireAppend(AllPackets(fs), FilePackets(f));
  }

  lemma {:induction false} AllPacketsSnoc(fs: seq<Outgoing>, f: Outgoing)
    ensures AllPackets(fs + [f]) == AllPackets(fs) + FilePackets(f)
  {
    if fs == [] {
      assert fs + [f] == [f] && AllPackets([f]) == FilePackets(f) + AllPackets([]);
    } else {
      assert (fs + [f])[1..] == fs[1..] + [f];
      AllPacketsSnoc(fs[1..], f);
      Regrouped(FilePackets(fs[0]), AllPackets(fs[1..]), FilePackets(f));
    }
  }

  // ---------- short reads and writes ----------

  /** What a poll and the read or write after it do: fail, time out, or move up
      to n bytes. */
  datatype Grant = Error | TimedOut | Ready(n: nat)

  /** One end of a connection: the bytes written to it, or still to be read. */
  class Socket {
    var stream: Bytes

    constructor ()
      ensures stream == []
    {
      stream := [];
    }
  }

  /** How much of so many bytes is written, and whether an error stopped that. */
  function Written(size: nat, grants: seq<Grant>): (r: (nat, bool))
    ensures r.0 <= size
  {
    if size == 0 || grants == [] then (0, false)
    else match grants[0]
      case Error => (0, true)
      case TimedOut => (0, false)
      case Ready(m) =>
        if m == 0 then (0, false)
        else
          var moved := Min(m, size);
          var more := Written(size - moved, grants[1..]);
          (moved + more.0, more.1)
  }

  /** Every poll finds the connection ready, n times at least. */
  predicate Flows(grants: seq<Grant>, n: nat)
  {
    n <= |grants| && forall i :: 0 <= i < n ==> grants[i].Ready? && grants[i].n > 0
  }

  lemma {:induction false} FlowsOut(size: nat, grants: seq<Grant>, n: nat)
    requires Flows(grants, n) && size <= n
    ensures Written(size, grants) == (size, false)
    decreases size
  {
    if size > 0 {
      FlowsOut(size - Min(grants[0].n, size), grants[1..], n - 1);
    }
  }

  /** writem: -1 on an error, otherwise how much was written before a timeout. */
  method Writem(sock: Socket, buf: Bytes, grants: seq<Grant>) returns (n: int, ghost sent: nat)
    modifies sock
    ensures sent == Written(|buf|, grants).0 && n == if Written(|buf|, grants).1 then -1 else sent
    ensures sock.stream == old(sock.stream) + buf[..sent]
  {
    var i, k := 0, 0;
    assert grants[0..] == grants;
    while i < |buf| && k < |grants|
      invariant i <= |buf| && k <= |grants|
      invariant sock.stream == old(sock.stream) + buf[..i]
      invariant Written(|buf|, grants) == (i + Written(|buf| - i, grants[k..]).0, Written(|buf| - i, grants[k..]).1)
    {
      assert grants[k..][1..] == grants[k + 1..];
      match grants[k]
      case Error => return -1, i;
      case TimedOut => return i, i;
      case Ready(m) =>
        if m == 0 {
          return i, i;
        }
        var moved := if m < |buf| - i then m else |buf| - i;
        sock.stream := sock.stream + buf[i..i + moved];
        assert buf[..i] + buf[i..i + moved] == buf[..i + moved];
        i := i + moved;
        k := k + 1;
    }
    return i, i;
  }

  /** What is left of a stream that was read from. */
  predicate IsTail(rest: Bytes, stream: Bytes)
  {
    |rest| <= |stream| && rest == stream[|stream| - |rest|..]
  }

  /** How many of the bytes that are wanted are read when so many are there, and what
      stopped it: nothing when all were read or the stream has ended. */
  function Read(avail: nat, size: nat, grants: seq<Grant>): (r: (nat, Option<Grant>))
    ensures r.0 <= avail && r.0 <= size
    ensures r.1.None? ==> r.0 == Min(avail, size)
    ensures r.1.Some? ==> r.0 < size && (r.1.value == Error || r.1.value == TimedOut)
    decreases |grants|
  {
    if size == 0 then (0, None)
    else if grants == [] then (0, Some(TimedOut))
    else match grants[0]
      case Error => (0, Some(Error))
      case TimedOut => (0, Some(TimedOut))
      case Ready(m) =>
        if avail == 0 then (0, None)
        else
          var moved := Min(m, Min(avail, size));
          var more := Read(avail - moved, size - moved, grants[1..]);
          (moved + more.0, more.1)
  }

  lemma ReadTurn(avail: nat, size: nat, grants: seq<Grant>)
    requires size > 0
    ensures var grant := if grants == [] then TimedOut else grants[0];
            Read(avail, size, grants) ==
            if !grant.Ready? then (0, Some(grant))
            else if avail == 0 then (0, None)
            else
              var moved := Min(grant.n, Min(avail, size));
              var more := Read(avail - moved, size - moved, grants[1..]);
              (moved + more.0, more.1)
  {
  }

  lemma {:induction false} FlowsIn(avail: nat, size: nat, grants: seq<Grant>, n: nat)
    requires Flows(grants, n) && avail < n
    ensures Read(avail, size, grants) == (Min(avail, size), None)
    decreases |grants|
  {
    if size > 0 && avail > 0 {
      var moved := Min(grants[0].n, Min(avail, size));
      FlowsIn(avail - moved, size - moved, grants[1..], n - 1);
    }
  }

  /** sreadm: what was read before the end of the stream or a timeout; `whole`
      says that neither an error nor a timeout got in the way. */
  method Sreadm(sock: Socket, size: nat, grants: seq<Grant>) returns (n: int, buf: Bytes, ghost whole: bool)
    modifies sock
    ensures var (got, stop) := Read(|old(sock.stream)|, size, grants);
            && n == (if stop == Some(Error) then -1 else if stop == Some(TimedOut) && got == 0 then -2 else got)
            && whole == stop.None?
            && buf == old(sock.stream)[..got] && sock.stream == old(sock.stream)[got..]
  {
    hide Read;
    buf, whole := [], true;
    var k := 0;
    assert grants[0..] == grants;
    ghost var stream := sock.stream;
    while |buf| < size
      invariant |buf| <= size && k <= |grants| && whole
      invariant stream == buf + sock.stream
      invariant var r := Read(|sock.stream|, size - |buf|, grants[k..]);
                Read(|stream|, size, grants) == (|buf| + r.0, r.1)
      decreases |grants| - k, size - |buf|
    {
      ReadTurn(|sock.stream|, size - |buf|, grants[k..]);
      assert k < |grants| ==> grants[k..][1..] == grants[k + 1..];
      var grant := if k < |grants| then grants[k] else TimedOut;
      match grant
      case Error => return -1, buf, false;
      case TimedOut =>
        if |buf| > 0 {
          return |buf|, buf, false;
        }
        return -2, buf, false;
      case Ready(m) =>
        if sock.stream == [] {
          return |buf|, buf, whole;
        }
        var left := size - |buf|;
        var avail := if |sock.stream| < left then |sock.stream| else left;
        var moved := if m < avail then m else avail;
        buf := buf + sock.stream[..moved];
        sock.stream := sock.stream[moved..];
        k := k + 1;
    }
    return |buf|, buf, whole;
  }

  /** recv_nbs_packet, two reads in pieces: when they complete, what arrives is
      what Recv says. */
  method RecvNbsPacket(sock: Socket, grants1: seq<Grant>, grants2: seq<Grant>)
    returns (status: int, header: Option<Header>, block: Bytes, ghost whole: bool)
    modifies sock
    ensures whole ==> Received(status, header, block, sock.stream) == Recv(old(sock.stream))
    ensures !whole ==> status in {-1, -2, 1}
    ensures IsTail(sock.stream, old(sock.stream))
    ensures Flows(grants1, |old(sock.stream)| + 1) && Flows(grants2, |old(sock.stream)| + 1) ==> whole
  {
    hide Read;
    hide Flows;
    hide Unpack32;
    hide UnpackHeader;
    ghost var flows := Flows(grants1, |sock.stream| + 1) && Flows(grants2, |sock.stream| + 1);
    if flows {
      FlowsIn(|sock.stream|, NBS_ENVELOPE_SIZE, grants1, |sock.stream| + 1);
    }
    header, block := None, [];
    var n, e, d;
    n, e, whole := Sreadm(sock, NBS_ENVELOPE_SIZE, grants1);
    if n < 0 {
      return n, header, block, whole;
    } else if n == 0 {
      return -3, header, block, whole;
    } else if n != NBS_ENVELOPE_SIZE {
      return 1, header, block, whole;
    }
    ghost var stream := old(sock.stream);
    assert stream[..4] == e[..4] && stream[4..8] == e[4..8] && stream[NBS_ENVELOPE_SIZE..] == sock.stream;
    if Unpack32(e[..4]) != PACKID_FDATA {
      return 1, header, block, whole;
    }
    var size := Unpack32(e[4..8]);
    if (size + NBS_ENVELOPE_SIZE) % TWO32 > NBS1_PACKET_MAXSIZE {
      return 1, header, block, whole;
    }
    ghost var whole1, s := whole, sock.stream;
    if flows {
      FlowsIn(|s|, size, grants2, |stream| + 1);
    }
    n, d, whole := Sreadm(sock, size, grants2);
    whole := whole && whole1;
    if n < 0 {
      return n, header, block, whole;
    } else if n == 0 {
      return -3, header, block, whole;
    } else if n != size {
      return 1, header, block, whole;
    }
    assert s[..size] == d && s[size..] == sock.stream;
    if |d| < NBS1_HEADER_SIZE || |d| != NBS1_HEADER_SIZE + UnpackBlockSize(d) {
      return 2, header, block, whole;
    }
    return 0, Some(UnpackHeader(d)), d[NBS1_HEADER_SIZE..], whole;
  }

  // ---------- building and sending ----------

  /** build_nbs1_header: the 54 bytes after the envelope. */
  method BuildHeader(a: array<byte>, h: Header, blockSize: nat)
    requires a.Length == NBS1_PACKET_MAXSIZE && ValidName(h.fbasename)
    modifies a
    ensures a[12..66] == HeaderStart(h) + Pack32(blockSize)
    ensures forall i :: 66 <= i < a.Length ==> a[i] == old(a[i])
  {
    PackUint32(a, h.seqNumber, 12);
    Put(a, [h.productType % 256, h.category % 256, h.code % 256, h.channel % 256], 16);
    assert a[12..20] == Pack32(h.seqNumber) + [h.productType % 256, h.category % 256, h.code % 256, h.channel % 256];
    ghost var b := a[12..20];
    Put(a, NameField(h.fbasename), 20);
    assert a[12..57] == b + NameField(h.fbasename);
    b := a[12..57];
    Put(a, [h.fZip % 256], 57);
    PackUint16(a, h.numBlocks, 58);
    assert a[12..60] == b + [h.fZip % 256] + Pack16(h.numBlocks);
    b := a[12..60];
    PackUint16(a, h.blockNumber, 60);
    assert a[12..62] == HeaderStart(h);
    PackUint32(a, blockSize, 62);
    assert a[12..66] == HeaderStart(h) + Pack32(blockSize);
  }

  /** nbs_pack_envelope over data already in place. */
  method PackEnvelope(a: array<byte>, dataSize: nat)
    requires NBS_ENVELOPE_SIZE + dataSize <= a.Length
    modifies a
    ensures a[..12] == Envelope(old(a[12..12 + dataSize]))
    ensures forall i :: 12 <= i < a.Length ==> a[i] == old(a[i])
  {
    hide Pack32;
    ghost var data := a[12..12 + dataSize];
    PackUint32(a, PACKID_FDATA, 0);
    PackUint32(a, dataSize, 4);
    assert a[12..12 + dataSize] == data;
    var checksum := CalcChecksum(a[12..12 + dataSize]);
    PackUint32(a, checksum, 8);
    PackWraps(Sum(data));
    assert a[..12] == a[0..4] + a[4..8] + a[8..12];
  }

  lemma PacketsValid(file: Bytes, h: Header, number: nat)
    requires ValidName(h.fbasename)
    ensures forall i :: 0 <= i < |Packets(file, h, number)| ==> ValidName(Packets(file, h, number)[i].0.fbasename)
  {
    PacketsCover(file, h, number);
  }

  /** The bytes of the packets of `file`, the first one numbered `number`. */
  function FileWire(file: Bytes, h: Header, number: nat): Bytes
    requires ValidName(h.fbasename)
  {
    PacketsValid(file, h, number);
    Wire(Packets(file, h, number))
  }

  lemma FirstPacket(file: Bytes, h: Header, number: nat, size: nat)
    requires ValidName(h.fbasename) && file != []
    requires size == if |file| <= NBS1_BLOCK_SIZE then |file| else NBS1_BLOCK_SIZE
    ensures FileWire(file, h, number) ==
            Packet(h.(blockNumber := number), file[..size]) + FileWire(file[size..], h, number + 1)
  {
    PacketsValid(file, h, number);
    PacketsValid(file[size..], h, number + 1);
    assert Packets(file, h, number)[1..] == Packets(file[size..], h, number + 1);
  }

  /** struct nbs1_packet_st on the sending side, with the open spool file. */
  class Nbs1Packet {
    const file: Bytes
    var pos: nat                 // read position in the file
    const info: Header
    const packet: array<byte>
    var packetSize: nat
    const numBlocks: nat
    const lastBlockSize: nat
    var blockNumber: nat

    /** The header every packet of the file carries, but for its number. */
    function Info(): Header { info.(numBlocks := numBlocks, fZip := 0) }

    ghost predicate Valid()
      reads this
    {
      && packet.Length == NBS1_PACKET_MAXSIZE && ValidName(info.fbasename)
      && pos <= |file|
      && numBlocks == blockNumber + NumBlocks(|file| - pos)
      && (pos < |file| ==> lastBlockSize == LastBlockSize(|file| - pos))
    }

    constructor (f: Outgoing)
      requires ValidName(f.info.fbasename)
      ensures Valid() && file == f.data && info == f.info && pos == 0 && blockNumber == 0
      ensures fresh(packet)
    {
      file, info, pos := f.data, f.info, 0;
      packet := new byte[NBS1_PACKET_MAXSIZE];
      packetSize := 0;
      var nb := GetNumBlocks(|f.data|);
      var lb := GetLastBlockSize(|f.data|);
      numBlocks, lastBlockSize := nb, lb;
      blockNumber := 0;
    }

    /** What the packets not yet built will put on the wire. */
    ghost function Todo(): Bytes
      requires Valid()
      reads this
    {
      FileWire(file[pos..], Info(), blockNumber + 1)
    }

    /** Steps to the next block and reads it. */
    method NextBlock() returns (block: Bytes)
      requires Valid() && blockNumber < numBlocks
      modifies this`pos, this`blockNumber
      ensures Valid() && blockNumber == old(blockNumber) + 1 && old(pos) < pos
      ensures |block| <= NBS1_BLOCK_SIZE
      ensures old(Todo()) == Packet(Info().(blockNumber := blockNumber), block) + Todo()
    {
      hide NumBlocks;
      hide LastBlockSize;
      hide FileWire;
      var size := NBS1_BLOCK_SIZE;
      ghost var left := |file| - pos;
      BlockStep(left);
      BlockStep(0);
      if blockNumber + 1 == numBlocks {
        size := lastBlockSize;
      }
      assert size == if left <= NBS1_BLOCK_SIZE then left else NBS1_BLOCK_SIZE;
      FirstPacket(file[pos..], Info(), blockNumber + 1, size);
      block := file[pos..pos + size];
      assert file[pos..][..size] == block && file[pos..][size..] == file[pos + size..];
      blockNumber := blockNumber + 1;
      pos := pos + size;
      assert |file| - pos == left - size;
    }

    /** build_nbs_packet: the next block, with its header and envelope. */
    method Build() returns (status: int)
      requires Valid() && blockNumber < numBlocks
      modifies this`pos, this`packetSize, this`blockNumber, packet
      ensures status == 0 && Valid() && blockNumber == old(blockNumber) + 1
      ensures packetSize <= packet.Length
      ensures old(Todo()) == packet[..packetSize] + Todo()
    {
      hide FileWire;
      hide Packet;
      var block := NextBlock();
      ghost var todo := Todo();
      Put(packet, block, 66);
      packetSize := NBS_ENVELOPE_SIZE + NBS1_HEADER_SIZE + |block|;
      Fill(Info().(blockNumber := blockNumber), block);
      assert Todo() == todo;
      status := 0;
    }

    /** Builds the next packet and writes it out. */
    method SendNext(sock: Socket, grants: seq<Grant>) returns (status: int, ghost bytes: Bytes)
      requires Valid() && blockNumber < numBlocks
      modifies this`pos, this`packetSize, this`blockNumber, packet, sock
      ensures Valid() && blockNumber == old(blockNumber) + 1
      ensures old(Todo()) == bytes + Todo()
      ensures status == 0 ==> sock.stream == old(sock.stream) + bytes
      ensures Flows(grants, NBS1_PACKET_MAXSIZE) ==> status == 0
    {
      status := Build();
      var buf := packet[..packetSize];
      bytes := buf;
      if Flows(grants, NBS1_PACKET_MAXSIZE) {
        FlowsOut(|buf|, grants, NBS1_PACKET_MAXSIZE);
      }
      var n, sent := Writem(sock, buf, grants);
      if n == -1 {
        status := -1;
      } else if n != packetSize {
        status := 1;
      }
    }

    /** Header and envelope around a block that is in place. */
    method Fill(h: Header, ghost block: Bytes)
      requires packet.Length == NBS1_PACKET_MAXSIZE && ValidName(h.fbasename)
      requires packetSize == 66 + |block| <= packet.Length && packet[66..packetSize] == block
      modifies packet
      ensures packet[..packetSize] == Packet(h, block)
    {
      var blockSize := packetSize - 66;
      BuildHeader(packet, h, blockSize);
      assert packet[12..packetSize] == packet[12..66] + packet[66..packetSize];
      assert packet[66..packetSize] == block;
      ghost var data := packet[12..packetSize];
      assert data == Data(h, block);
      PackEnvelope(packet, NBS1_HEADER_SIZE + blockSize);
      assert packet[12..packetSize] == data;
      assert packet[..packetSize] == packet[..12] + packet[12..packetSize];
    }
  }

  /** The block loop of send_nbs1_client: when it finishes, the client has been
      sent the packets of the file, whatever the pieces they went out in. */
  method SendFile(f: Outgoing, sock: Socket, grants: nat -> seq<Grant>) returns (status: int)
    requires ValidName(f.info.fbasename)
    modifies sock
    ensures status == 0 ==>
              sock.stream == old(sock.stream) + FileWire(f.data, FileInfo(f), 1)
    ensures (forall n: nat :: Flows(grants(n), NBS1_PACKET_MAXSIZE)) ==> status == 0
  {
    status := 0;
    var nbs := new Nbs1Packet(f);
    assert f.data[0..] == f.data;
    ghost var todo, sent := nbs.Todo(), [];
    while nbs.blockNumber < nbs.numBlocks
      invariant nbs.Valid() && fresh(nbs) && fresh(nbs.packet)
      invariant nbs.blockNumber <= nbs.numBlocks && status == 0
      invariant sock.stream == old(sock.stream) + sent && sent + nbs.Todo() == todo
    {
      ghost var bytes;
      status, bytes := nbs.SendNext(sock, grants(nbs.blockNumber));
      if status != 0 {
        return;
      }
      Regrouped(sent, bytes, nbs.Todo());
      Regrouped(old(sock.stream), sent, bytes);
      sent := sent + bytes;
    }
    assert nbs.Todo() == [];
  }

  /** Sends the files one after another, until one cannot be sent. */
  method SendFiles(fs: seq<Outgoing>, sock: Socket, grants: (nat, nat) -> seq<Grant>) returns (status: int)
    requires ValidNames(fs)
    modifies sock
    ensures status == 0 ==> sock.stream == old(sock.stream) + FilesWire(fs)
    ensures (forall k: nat, n: nat :: Flows(grants(k, n), NBS1_PACKET_MAXSIZE)) ==> status == 0
  {
    hide FilesWire;
    hide FileWire;
    status := 0;
    var k: nat := 0;
    NothingSent();
    while k < |fs|
      invariant k <= |fs| && status == 0 && sock.stream == old(sock.stream) + FilesWire(fs[..k])
    {
      ghost var sent, more := FilesWire(fs[..k]), FileWire(fs[k].data, FileInfo(fs[k]), 1);
      assert fs[..k + 1] == fs[..k] + [fs[k]];
      FilesWireSnoc(fs[..k], fs[k]);
      Regrouped(old(sock.stream), sent, more);
      status := SendFile(fs[k], sock, (n: nat) => grants(k, n));
      if status != 0 {
        return;
      }
      k := k + 1;
    }
    assert fs[..k] == fs;
  }

  lemma NothingSent()
    ensures FilesWire([]) == []
  {
  }
}
