/** EMWIN packets (src/emwin.c): 1116 bytes each, with a printed header, a
    checksum and every bit inverted. */
module Emwin {
  import opened Common
  import opened Decimal
  import opened Util

  const EMWIN_HEADER_DATESIZE: nat := 22
  const EMWIN_HEADER_FNAMESIZE: nat := 12
  const EMWIN_HEADER_SIZE: nat := 80
  const EMWIN_NULL_SIZE: nat := 6
  const EMWIN_DATA_SIZE: nat := 1024
  const EMWIN_PACKET_SIZE: nat := 1116
  const DATA_START: nat := EMWIN_NULL_SIZE + EMWIN_HEADER_SIZE

  // ---------- the header ----------

  function Spaces(n: nat): (s: string)
    ensures |s| == n && forall i :: 0 <= i < n ==> s[i] == ' '
  {
    seq(n, i => ' ')
  }

  /** %-*s: left-justified, never cut. */
  function Left(s: string, width: nat): (r: string)
    ensures |r| == (if |s| <= width then width else |s|) && r[..|s|] == s
    ensures forall i :: |s| <= i < |r| ==> r[i] == ' '
  {
    if |s| <= width then s + Spaces(width - |s|) else s
  }

  function ToUpper(c: char): char
  {
    if 'a' <= c <= 'z' then (c as int - 32) as char else c
  }

  function Upper(s: string): (r: string)
    ensures |r| == |s|
    ensures forall i :: 0 <= i < |s| ==> r[i] == if 'a' <= s[i] <= 'z' then (s[i] as int - 32) as char else s[i]
  {
    if s == [] then [] else [ToUpper(s[0])] + Upper(s[1..])
  }

  /** What snprintf produces, before any truncation. */
  function HeaderText(fname: string, part: nat, total: nat, checksum: nat, date: string): string
  {
    "/PF" + Left(Upper(fname), 12) + "/PN " + Left(Dec(part), 5) + "/PT " + Left(Dec(total), 5)
    + "/CS " + Left(Dec(checksum), 6) + "/FD" + date + "          \r\n"
  }

  /** The part of a name that goes into the header. */
  function HeaderName(name: string): (r: string)
    ensures r <= name && |r| == Min(|name|, 12)
  {
    if |name| <= EMWIN_HEADER_FNAMESIZE then name else name[..EMWIN_HEADER_FNAMESIZE]
  }

  predicate ValidNames(fname: string, date: string)
  {
    |fname| <= EMWIN_HEADER_FNAMESIZE && |date| == EMWIN_HEADER_DATESIZE
  }

  /** The header is 80 bytes long exactly when both part numbers have at most five
      digits; the checksum of a data field always fits its six. */
  lemma HeaderFits(fname: string, part: nat, total: nat, data: Bytes, date: string)
    requires ValidNames(fname, date) && |data| <= EMWIN_DATA_SIZE
    ensures |HeaderText(fname, part, total, Sum(data), date)| == EMWIN_HEADER_SIZE <==>
            part <= 99999 && total <= 99999
  {
    SumBound(data);
    assert Pow10(5) == 100000 && Pow10(6) == 1000000;
    DecLength(part, 5);
    DecLength(total, 5);
    DecLength(Sum(data), 6);
  }

  /** The number at the start of a field that blanks fill up. */
  function Number(field: string): nat
  {
    Value(Digits(field))
  }

  function Digits(s: string): (r: string)
    ensures forall i :: 0 <= i < |r| ==> IsDigit(r[i])
  {
    if s == [] || !IsDigit(s[0]) then [] else [s[0]] + Digits(s[1..])
  }

  lemma {:induction false} DigitsOf(s: string, rest: string)
    requires (forall i :: 0 <= i < |s| ==> IsDigit(s[i])) && (rest == [] || !IsDigit(rest[0]))
    ensures Digits(s + rest) == s
  {
    if s == [] {
      assert s + rest == rest;
    } else {
      assert (s + rest)[1..] == s[1..] + rest;
      DigitsOf(s[1..], rest);
    }
  }

  lemma NumberReadsBack(n: nat, width: nat)
    ensures Number(Left(Dec(n), width)) == n
  {
    var s := Dec(n);
    if |s| <= width {
      DigitsOf(s, Spaces(width - |s|));
    } else {
      assert s + [] == s;
      DigitsOf(s, []);
    }
    DecReadsBack(n);
  }

  /** The fields of a header, in their places. */
  predicate Says(h: string, fname: string, part: nat, total: nat, checksum: nat, date: string)
  {
    && |h| == 80
    && h[..3] == "/PF" && h[3..15] == Left(Upper(fname), 12)
    && h[15..19] == "/PN " && Number(h[19..24]) == part
    && h[24..28] == "/PT " && Number(h[28..33]) == total
    && h[33..37] == "/CS " && Number(h[37..43]) == checksum
    && h[43..46] == "/FD" && h[46..68] == date && h[68..] == "          \r\n"
  }

  /** A header that fits says the name, the part, the number of parts, the checksum
      and the date. */
  lemma HeaderReadsBack(fname: string, part: nat, total: nat, data: Bytes, date: string)
    requires ValidNames(fname, date) && |data| <= EMWIN_DATA_SIZE && part <= 99999 && total <= 99999
    ensures Says(HeaderText(fname, part, total, Sum(data), date), fname, part, total, Sum(data), date)
  {
    hide Dec;
    hide Left;
    hide Upper;
    hide Number;
    SumBound(data);
    assert Pow10(5) == 100000 && Pow10(6) == 1000000;
    DecLength(part, 5);
    DecLength(total, 5);
    DecLength(Sum(data), 6);
    NumberReadsBack(part, 5);
    NumberReadsBack(total, 5);
    NumberReadsBack(Sum(data), 6);
    var name := Left(Upper(fname), 12);
    FieldsInPlace(name, Left(Dec(part), 5), Left(Dec(total), 5), Left(Dec(Sum(data)), 6), date);
  }

  lemma FieldsInPlace(name: string, pn: string, pt: string, cs: string, date: string)
    requires |name| == 12 && |pn| == |pt| == 5 && |cs| == 6 && |date| == 22
    ensures var h := "/PF" + name + "/PN " + pn + "/PT " + pt + "/CS " + cs + "/FD" + date + "          \r\n";
            && |h| == 80 && h[..3] == "/PF" && h[3..15] == name && h[15..19] == "/PN " && h[19..24] == pn
            && h[24..28] == "/PT " && h[28..33] == pt && h[33..37] == "/CS " && h[37..43] == cs
            && h[43..46] == "/FD" && h[46..68] == date && h[68..] == "          \r\n"
  {
  }

  // ---------- packets ----------

  /** XOR with 0xff, that is the complement of the byte. */
  function Flip(b: byte): byte { 255 - b }

  lemma XorIsComplement(v: bv8)
    ensures v ^ 0xff == 0xff - v
  {
  }

  function FlipAll(s: Bytes): (r: Bytes)
    ensures |r| == |s| && forall i :: 0 <= i < |s| ==> r[i] == Flip(s[i])
  {
    seq(|s|, i requires 0 <= i < |s| => Flip(s[i]))
  }

  /** What a receiver does: every bit is inverted back. */
  function Undone(s: Bytes): (r: Bytes)
    ensures |r| == |s| && forall i :: 0 <= i < |s| ==> r[i] == 255 - s[i]
  {
    seq(|s|, i requires 0 <= i < |s| => 255 - s[i])
  }

  lemma FlipUndone(s: Bytes)
    ensures Undone(FlipAll(s)) == s
  {
  }

  function Codes(s: string): (r: Bytes)
    ensures |r| == |s| && forall i :: 0 <= i < |s| ==> r[i] == s[i] as int % 256
  {
    seq(|s|, i requires 0 <= i < |s| => s[i] as int % 256)
  }

  /** The packet before inversion: nulls, header, data padded to its field, nulls. */
  function Clear(header: string, data: Bytes): (p: Bytes)
    requires |header| == EMWIN_HEADER_SIZE && |data| <= EMWIN_DATA_SIZE
    ensures |p| == EMWIN_PACKET_SIZE
  {
    Zeros(EMWIN_NULL_SIZE) + Codes(header) + data + Zeros(EMWIN_DATA_SIZE - |data|) + Zeros(EMWIN_NULL_SIZE)
  }

  /** What a receiver takes for the data of a packet. */
  function DataField(packet: Bytes): Bytes
    requires |packet| == EMWIN_PACKET_SIZE
  {
    Undone(packet)[86..1110]
  }

  function HeaderField(packet: Bytes): Bytes
    requires |packet| == EMWIN_PACKET_SIZE
  {
    Undone(packet)[6..86]
  }

  lemma FieldsReadBack(header: string, data: Bytes)
    requires |header| == EMWIN_HEADER_SIZE && |data| <= EMWIN_DATA_SIZE
    ensures var packet := FlipAll(Clear(header, data));
            && DataField(packet) == data + Zeros(EMWIN_DATA_SIZE - |data|)
            && HeaderField(packet) == Codes(header)
  {
    FlipUndone(Clear(header, data));
  }

  // ---------- files ----------

  /** How many parts a file of that size is cut into, and how long the last is. */
  function PartsTotal(size: nat): nat
  {
    if size == 0 then 0 else if size <= EMWIN_DATA_SIZE then 1 else 1 + PartsTotal(size - EMWIN_DATA_SIZE)
  }

  function LastPartSize(size: nat): (n: nat)
    requires 0 < size
    ensures 0 < n <= EMWIN_DATA_SIZE
  {
    if size <= EMWIN_DATA_SIZE then size else LastPartSize(size - EMWIN_DATA_SIZE)
  }

  /** One part is the last exactly when it holds all that is left. */
  lemma PartStep(left: nat)
    ensures PartsTotal(left) == 0 <==> left == 0
    ensures 0 < left <= EMWIN_DATA_SIZE ==> PartsTotal(left) == 1 && LastPartSize(left) == left
    ensures left > EMWIN_DATA_SIZE ==>
              && PartsTotal(left) == 1 + PartsTotal(left - EMWIN_DATA_SIZE) >= 2
              && LastPartSize(left) == LastPartSize(left - EMWIN_DATA_SIZE)
  {
  }

  lemma {:induction false} PartCount(size: nat)
    ensures PartsTotal(size) == size / EMWIN_DATA_SIZE + if size % EMWIN_DATA_SIZE != 0 then 1 else 0
    ensures 0 < size ==>
              LastPartSize(size) == if size % EMWIN_DATA_SIZE == 0 then EMWIN_DATA_SIZE else size % EMWIN_DATA_SIZE
  {
    if size > EMWIN_DATA_SIZE {
      PartCount(size - EMWIN_DATA_SIZE);
    }
  }

  /** The zeros after the last part. */
  function Padding(size: nat): (n: nat)
    ensures n < EMWIN_DATA_SIZE
  {
    if size == 0 then 0 else EMWIN_DATA_SIZE - LastPartSize(size)
  }

  datatype Job = Job(fname: string, date: string, total: nat)

  function PartPacket(j: Job, number: nat, data: Bytes): Bytes
    requires ValidNames(j.fname, j.date) && number <= 99999 && j.total <= 99999 && |data| <= EMWIN_DATA_SIZE
  {
    HeaderFits(j.fname, number, j.total, data, j.date);
    FlipAll(Clear(HeaderText(j.fname, number, j.total, Sum(data), j.date), data))
  }

  /** The file cut into parts. */
  function Parts(file: Bytes): (ps: seq<Bytes>)
    ensures |ps| == PartsTotal(|file|)
    ensures forall i :: 0 <= i < |ps| ==> |ps[i]| <= EMWIN_DATA_SIZE
    decreases |file|
  {
    if file == [] then []
    else if |file| <= EMWIN_DATA_SIZE then [file]
    else [file[..EMWIN_DATA_SIZE]] + Parts(file[EMWIN_DATA_SIZE..])
  }

  lemma FirstPart(file: Bytes, size: nat)
    requires file != [] && size == if |file| <= EMWIN_DATA_SIZE then |file| else EMWIN_DATA_SIZE
    ensures Parts(file) == [file[..size]] + Parts(file[size..])
  {
    assert |file| <= EMWIN_DATA_SIZE ==> file[..size] == file && Parts(file[size..]) == [];
  }

  predicate Printable(j: Job, number: nat, parts: nat)
  {
    ValidNames(j.fname, j.date) && j.total <= 99999 && 0 < number && number - 1 + parts == j.total
  }

  /** The packets of the parts, the first one numbered `number`. */
  function Packets(j: Job, parts: seq<Bytes>, number: nat): (ps: seq<Bytes>)
    requires Printable(j, number, |parts|)
    requires forall i :: 0 <= i < |parts| ==> |parts[i]| <= EMWIN_DATA_SIZE
    ensures |ps| == |parts|
    ensures forall i :: 0 <= i < |ps| ==> |ps[i]| == EMWIN_PACKET_SIZE
  {
    if parts == [] then [] else [PartPacket(j, number, parts[0])] + Packets(j, parts[1..], number + 1)
  }

  function DataFields(ps: seq<Bytes>): seq<Bytes>
    requires forall i :: 0 <= i < |ps| ==> |ps[i]| == EMWIN_PACKET_SIZE
  {
    if ps == [] then [] else [DataField(ps[0])] + DataFields(ps[1..])
  }

  lemma PartReadsBack(j: Job, number: nat, data: Bytes)
    requires ValidNames(j.fname, j.date) && number <= 99999 && j.total <= 99999 && |data| <= EMWIN_DATA_SIZE
    ensures |PartPacket(j, number, data)| == EMWIN_PACKET_SIZE
    ensures DataField(PartPacket(j, number, data)) == data + Zeros(EMWIN_DATA_SIZE - |data|)
    ensures Labelled(PartPacket(j, number, data), j, number, data)
  {
    HeaderFits(j.fname, number, j.total, data, j.date);
    HeaderReadsBack(j.fname, number, j.total, data, j.date);
    FieldsReadBack(HeaderText(j.fname, number, j.total, Sum(data), j.date), data);
  }

  /** The header of the packet says what part it is, and of what. */
  ghost predicate Labelled(packet: Bytes, j: Job, number: nat, data: Bytes)
  {
    && |packet| == EMWIN_PACKET_SIZE
    && exists h: string :: HeaderField(packet) == Codes(h) && Says(h, j.fname, number, j.total, Sum(data), j.date)
  }

  function Padded(part: Bytes): Bytes
    requires |part| <= EMWIN_DATA_SIZE
  {
    part + Zeros(EMWIN_DATA_SIZE - |part|)
  }

  function PaddedAll(parts: seq<Bytes>): seq<Bytes>
    requires forall i :: 0 <= i < |parts| ==> |parts[i]| <= EMWIN_DATA_SIZE
  {
    if parts == [] then [] else [Padded(parts[0])] + PaddedAll(parts[1..])
  }

  lemma {:induction false} PacketsReadBack(j: Job, parts: seq<Bytes>, number: nat)
    requires Printable(j, number, |parts|)
    requires forall i :: 0 <= i < |parts| ==> |parts[i]| <= EMWIN_DATA_SIZE
    ensures DataFields(Packets(j, parts, number)) == PaddedAll(parts)
    ensures forall i :: 0 <= i < |parts| ==> Labelled(Packets(j, parts, number)[i], j, number + i, parts[i])
  {
    hide PartPacket;
    hide DataField;
    hide HeaderField;
    hide HeaderText;
    hide Labelled;
    if parts != [] {
      PartReadsBack(j, number, parts[0]);
      PacketsReadBack(j, parts[1..], number + 1);
      assert Packets(j, parts, number)[1..] == Packets(j, parts[1..], number + 1);
    }
  }

  lemma {:induction false} PaddedParts(file: Bytes)
    ensures Concat(PaddedAll(Parts(file))) == file + Zeros(Padding(|file|))
    decreases |file|
  {
    if |file| > EMWIN_DATA_SIZE {
      var data, more := file[..EMWIN_DATA_SIZE], file[EMWIN_DATA_SIZE..];
      PaddedParts(more);
      var ps := Parts(file);
      assert ps[0] == data && ps[1..] == Parts(more);
      assert Padded(data) == data;
      assert PaddedAll(ps) == [data] + PaddedAll(Parts(more));
      var pad := Zeros(Padding(|more|));
      assert Concat(PaddedAll(ps)) == data + (more + pad);
      Regrouped(data, more, pad);
      assert file == data + more;
    } else if file != [] {
      OnePart(file);
    }
  }

  lemma OnePart(file: Bytes)
    requires 0 < |file| <= EMWIN_DATA_SIZE
    ensures Concat(PaddedAll(Parts(file))) == file + Zeros(Padding(|file|))
  {
    assert [file][1..] == [];
    assert PaddedAll([file]) == [Padded(file)];
    assert Concat([Padded(file)]) == Padded(file);
  }

  /** Undoing the inversion and joining the data fields gives the file, followed
      only by the zeros that fill up the last part; and the headers number the parts
      1, 2, ... and give their total, name and checksums. */
  lemma FileReadsBack(fname: string, date: string, file: Bytes)
    requires ValidNames(fname, date) && PartsTotal(|file|) <= 99999
    ensures var j := Job(fname, date, PartsTotal(|file|));
            var ps := Packets(j, Parts(file), 1);
            && Concat(DataFields(ps)) == file + Zeros(Padding(|file|))
            && forall i :: 0 <= i < |ps| ==> Labelled(ps[i], j, i + 1, Parts(file)[i])
  {
    hide Labelled;
    PacketsReadBack(Job(fname, date, PartsTotal(|file|)), Parts(file), 1);
    PaddedParts(file);
  }

  // ---------- building in place ----------

  method GetPartsTotal(fsize: nat) returns (pt: nat)
    ensures pt == PartsTotal(fsize)
  {
    PartCount(fsize);
    pt := fsize / EMWIN_DATA_SIZE;
    if fsize % EMWIN_DATA_SIZE != 0 {
      pt := pt + 1;
    }
  }

  method GetLastPartSize(fsize: nat) returns (size: nat)
    ensures size == if fsize == 0 then EMWIN_DATA_SIZE else LastPartSize(fsize)
  {
    PartCount(fsize);
    size := fsize % EMWIN_DATA_SIZE;
    if size == 0 {
      size := EMWIN_DATA_SIZE;
    }
  }

  method Invert(a: array<byte>)
    modifies a
    ensures a[..] == FlipAll(old(a[..]))
  {
    for i := 0 to a.Length
      invariant forall k :: 0 <= k < i ==> a[k] == Flip(old(a[k]))
      invariant forall k :: i <= k < a.Length ==> a[k] == old(a[k])
    {
      a[i] := Flip(a[i]);
    }
  }

  /** The packet contents before the header is known to fit are overwritten. */
  method Fill(packet: array<byte>, header: string, data: Bytes)
    requires packet.Length == EMWIN_PACKET_SIZE
    requires |header| == EMWIN_HEADER_SIZE && |data| <= EMWIN_DATA_SIZE
    requires packet[..] == Zeros(DATA_START) + data + Zeros(EMWIN_PACKET_SIZE - DATA_START - |data|)
    modifies packet
    ensures packet[..] == FlipAll(Clear(header, data))
  {
    Put(packet, Codes(header), EMWIN_NULL_SIZE);
    assert packet[..] == Clear(header, data);
    Invert(packet);
  }

  /** build_emwin_packet for the part `data`: 1 when the header does not come out
      at 80 bytes, and then the packet is not complete. */
  method BuildPacket(packet: array<byte>, j: Job, number: nat, data: Bytes) returns (status: int)
    requires packet.Length == EMWIN_PACKET_SIZE && ValidNames(j.fname, j.date) && |data| <= EMWIN_DATA_SIZE
    modifies packet
    ensures status == if number <= 99999 && j.total <= 99999 then 0 else 1
    ensures status == 0 ==> packet[..] == PartPacket(j, number, data)
  {
    hide HeaderText;
    hide Sum;
    hide Clear;
    Put(packet, Zeros(EMWIN_PACKET_SIZE), 0);
    Put(packet, data, DATA_START);
    assert packet[..] == Zeros(DATA_START) + data + Zeros(EMWIN_PACKET_SIZE - DATA_START - |data|);
    var checksum := CalcChecksum(data);
    SumBound(data);
    var header := HeaderText(j.fname, number, j.total, checksum, j.date);
    HeaderFits(j.fname, number, j.total, data, j.date);
    if |header| != EMWIN_HEADER_SIZE {
      return 1;
    }
    Fill(packet, header, data);
    status := 0;
  }

  /** One open file being sent part by part. */
  class EmwinFile {
    const job: Job
    const file: Bytes
    const lastPartSize: nat
    const packet: array<byte>
    var pos: nat
    var partNumber: nat

    ghost predicate Valid()
      reads this
    {
      && ValidNames(job.fname, job.date) && packet.Length == EMWIN_PACKET_SIZE && pos <= |file|
      && partNumber + PartsTotal(|file| - pos) == job.total
      && (pos < |file| ==> lastPartSize == LastPartSize(|file| - pos))
    }

    /** The parts still to come. */
    ghost function Todo(): seq<Bytes>
      requires Valid()
      reads this
    {
      Parts(file[pos..])
    }

    constructor (emwinfname: string, date: string, contents: Bytes)
      requires |date| == EMWIN_HEADER_DATESIZE
      ensures Valid() && job == Job(HeaderName(emwinfname), date, PartsTotal(|contents|)) && file == contents
      ensures pos == 0 && partNumber == 0 && fresh(packet) && Todo() == Parts(contents)
    {
      var total := GetPartsTotal(|contents|);
      var last := GetLastPartSize(|contents|);
      job := Job(HeaderName(emwinfname), date, total);
      file, lastPartSize, pos, partNumber := contents, last, 0, 0;
      packet := new byte[EMWIN_PACKET_SIZE];
      new;
      assert contents[0..] == contents;
    }

    /** Steps to the next part and reads it. */
    method NextPart() returns (data: Bytes)
      requires Valid() && partNumber < job.total
      modifies this`pos, this`partNumber
      ensures Valid() && partNumber == old(partNumber) + 1 && |data| <= EMWIN_DATA_SIZE
      ensures old(Todo()) == [data] + Todo()
    {
      hide PartsTotal;
      hide LastPartSize;
      hide Parts;
      var size := EMWIN_DATA_SIZE;
      ghost var left, rest := |file| - pos, file[pos..];
      PartStep(left);
      PartStep(0);
      if partNumber + 1 == job.total {
        size := lastPartSize;
      }
      assert size == if left <= EMWIN_DATA_SIZE then left else EMWIN_DATA_SIZE;
      FirstPart(rest, size);
      data := file[pos..pos + size];
      assert rest[..size] == data && rest[size..] == file[pos + size..];
      partNumber := partNumber + 1;
      pos := pos + size;
      assert |file| - pos == left - size;
    }

    /** build_emwin_packet */
    method Build() returns (status: int, ghost data: Bytes)
      requires Valid() && partNumber < job.total
      modifies this`pos, this`partNumber, packet
      ensures Valid() && partNumber == old(partNumber) + 1 && |data| <= EMWIN_DATA_SIZE
      ensures old(Todo()) == [data] + Todo()
      ensures status == if job.total <= 99999 then 0 else 1
      ensures status == 0 ==> IsPart(packet[..], job, partNumber, data)
    {
      var part := NextPart();
      data := part;
      status := BuildPacket(packet, job, partNumber, part);
    }
  }

  lemma {:induction false} PacketsAt(j: Job, parts: seq<Bytes>, number: nat, k: nat)
    requires Printable(j, number, |parts|) && k < |parts|
    requires forall i :: 0 <= i < |parts| ==> |parts[i]| <= EMWIN_DATA_SIZE
    ensures Packets(j, parts, number)[k] == PartPacket(j, number + k, parts[k])
  {
    hide PartPacket;
    if k > 0 {
      PacketsAt(j, parts[1..], number + 1, k - 1);
    }
  }

  predicate IsPart(packet: Bytes, j: Job, number: nat, data: Bytes)
  {
    && ValidNames(j.fname, j.date) && number <= 99999 && j.total <= 99999 && |data| <= EMWIN_DATA_SIZE
    && packet == PartPacket(j, number, data)
  }

  lemma PacketsTogether(j: Job, parts: seq<Bytes>, packets: seq<Bytes>)
    requires Printable(j, 1, |parts|) && |packets| == |parts|
    requires forall i :: 0 <= i < |parts| ==> |parts[i]| <= EMWIN_DATA_SIZE
    requires forall k :: 0 <= k < |packets| ==> IsPart(packets[k], j, k + 1, parts[k])
    ensures packets == Packets(j, parts, 1)
  {
    hide PartPacket;
    hide Packets;
    forall k | 0 <= k < |packets| ensures packets[k] == Packets(j, parts, 1)[k] {
      PacketsAt(j, parts, 1, k);
    }
  }

  /** The part loop of send_emwin_client, collecting what is sent: all the packets
      of the file, or none when it has more than 99999 parts. */
  method BuildFile(emwinfname: string, date: string, file: Bytes) returns (status: int, packets: seq<Bytes>)
    requires |date| == EMWIN_HEADER_DATESIZE
    ensures status == if PartsTotal(|file|) <= 99999 then 0 else 1
    ensures status == 0 ==> packets == Packets(Job(HeaderName(emwinfname), date, PartsTotal(|file|)), Parts(file), 1)
  {
    hide Parts;
    hide PartPacket;
    var ep := new EmwinFile(emwinfname, date, file);
    packets, status := [], 0;
    ghost var done := [];
    while ep.partNumber < ep.job.total
      invariant ep.Valid() && fresh(ep) && fresh(ep.packet) && status == 0
      invariant ep.partNumber <= ep.job.total && done + ep.Todo() == Parts(file)
      invariant |packets| == |done| == ep.partNumber && (packets != [] ==> ep.job.total <= 99999)
      invariant forall k :: 0 <= k < |packets| ==> IsPart(packets[k], ep.job, k + 1, done[k])
    {
      ghost var data;
      status, data := ep.Build();
      if status != 0 {
        return;
      }
      Regrouped(done, [data], ep.Todo());
      done := done + [data];
      packets := packets + [ep.packet[..]];
    }
    assert done == Parts(file);
    if ep.job.total <= 99999 {
      PacketsTogether(ep.job, done, packets);
    }
  }
}
