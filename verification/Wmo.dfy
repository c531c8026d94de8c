/** Product names (src/sbn.c, src/framep.c, src/nbspmspoolbdb.c): the WMO heading
    is read from the first lines of the data, the file name is made from it, and
    the spool key is read back out of the path. */
module Wmo {
  import opened Common
  import opened Decimal
  import Assembly

  const WMO_ID_SIZE := 6
  const WMO_STATION_SIZE := 4
  const WMO_TIME_SIZE := 6
  const WMO_AWIPS_SIZE := 6
  const WMO_NOTAWIPS_SIZE := 6
  const WMO_BBB_SIZE := 6
  const FNAME_SIZE := 18
  const FKEY_SPOOLBDB_SIZE := 10
  const CTRLHDR_WMO_SIZE := 21

  predicate IsAlpha(c: char) { 'A' <= c <= 'Z' || 'a' <= c <= 'z' }

  predicate IsAlnum(c: char) { IsAlpha(c) || IsDigit(c) }

  predicate IsSpace(c: char) { c == ' ' || 9 <= c as int <= 13 }

  predicate AllAlpha(s: string) { forall i :: 0 <= i < |s| ==> IsAlpha(s[i]) }

  predicate AllAlnum(s: string) { forall i :: 0 <= i < |s| ==> IsAlnum(s[i]) }

  predicate AllDigits(s: string) { forall i :: 0 <= i < |s| ==> IsDigit(s[i]) }

  /** No white space and no terminator. */
  predicate Solid(s: string) { forall i :: 0 <= i < |s| ==> !IsSpace(s[i]) && s[i] != '\0' }

  // ---------- sscanf ----------

  function SkipSpace(s: string): string
  {
    if s != [] && IsSpace(s[0]) then SkipSpace(s[1..]) else s
  }

  function Take(s: string, n: nat): (w: string)
    ensures |w| <= n && |w| <= |s| && w == s[..|w|] && Solid(w)
  {
    if n == 0 || s == [] || s[0] == '\0' || IsSpace(s[0]) then [] else [s[0]] + Take(s[1..], n - 1)
  }

  /** %ns: white space skipped, then at most n other characters. */
  function Word(s: string, n: nat): (w: string)
    ensures |w| <= n && Solid(w)
  {
    Take(SkipSpace(s), n)
  }

  function AfterWord(s: string, n: nat): string
  {
    SkipSpace(s)[|Word(s, n)|..]
  }

  /** The conversions that succeed, in order. */
  function Scan(s: string, widths: seq<nat>): (ws: seq<string>)
    ensures |ws| <= |widths|
    ensures forall i :: 0 <= i < |ws| ==> ws[i] != [] && |ws[i]| <= widths[i] && Solid(ws[i])
    decreases |widths|
  {
    if widths == [] || Word(s, widths[0]) == [] then []
    else [Word(s, widths[0])] + Scan(AfterWord(s, widths[0]), widths[1..])
  }

  // ---------- split_wmo_header ----------

  /** count_char, over at most the given characters */
  function CountChar(s: string, c: char): nat
  {
    if s == [] || s[0] == '\n' || s[0] == '\0' then 0
    else (if s[0] == c then 1 else 0) + CountChar(s[1..], c)
  }

  /** The words of the first line: three of them, or four with a BBB. */
  function Words(buf: string, size: nat): (ws: seq<string>)
    requires size <= |buf|
    ensures ws == [] || |ws| == 4
  {
    var blanks := CountChar(buf[..size], ' ');
    if blanks == 3 then
      var ws := Scan(buf, [WMO_ID_SIZE, WMO_STATION_SIZE, WMO_TIME_SIZE, WMO_BBB_SIZE]);
      if |ws| < 4 then [] else ws
    else if blanks == 2 then
      var ws := Scan(buf, [WMO_ID_SIZE, WMO_STATION_SIZE, WMO_TIME_SIZE]);
      if |ws| < 3 then [] else ws + [""]
    else []
  }

  /** validate_wmo */
  predicate ValidWords(ws: seq<string>)
    requires |ws| == 4
  {
    && |ws[0]| == WMO_ID_SIZE && AllAlnum(ws[0])
    && |ws[1]| == WMO_STATION_SIZE && AllAlpha(ws[1])
    && |ws[2]| == WMO_TIME_SIZE && AllDigits(ws[2])
    && AllAlnum(ws[3])
  }

  function NewlineAt(s: string): (i: nat)
    ensures i <= |s| && (i < |s| ==> s[i] == '\n')
    ensures forall k :: 0 <= k < i ==> s[k] != '\n'
  {
    if s == [] || s[0] == '\n' then 0 else 1 + NewlineAt(s[1..])
  }

  /** Up to n leading alphanumeric characters. */
  function Leading(s: string, n: nat): (w: string)
    ensures |w| <= n && |w| <= |s| && w == s[..|w|] && AllAlnum(w)
    ensures |w| < n && |w| < |s| ==> !IsAlnum(s[|w|])
  {
    if n == 0 || s == [] || !IsAlnum(s[0]) then [] else [s[0]] + Leading(s[1..], n - 1)
  }

  datatype Code = Code(awips: string, notawips: string)

  /** The second line, of which n characters are data. */
  function SecondLine(line: string, n: nat, bbb: string): Code
    requires 0 < n <= |line|
  {
    if !IsAlpha(line[0]) then Code("", bbb)
    else
      var c := if n >= 9 && line[8] == '\n' then Code(Word(line, WMO_AWIPS_SIZE), "")
               else Code("", Leading(line[..n], WMO_NOTAWIPS_SIZE));
      if c.awips == "" && c.notawips == "" then Code("", bbb) else c
  }

  datatype Heading = Heading(id: string, station: string, time: string, awips: string, notawips: string)

  /** The heading in the first `size` characters; what follows them is the rest of
      the frame buffer. */
  function SplitWmo(buf: string, size: nat): Option<Heading>
    requires size <= |buf|
  {
    var ws := Words(buf, size);
    if ws == [] || !ValidWords(ws) then None
    else
      var i := NewlineAt(buf[..size]);
      if i + 1 >= size then Some(Heading(ws[0], ws[1], ws[2], "", ""))
      else
        var c := SecondLine(buf[i + 1..], size - (i + 1), ws[3]);
        Some(Heading(ws[0], ws[1], ws[2], c.awips, c.notawips))
  }

  /** Where a frame has its heading: in a control header, behind the CCB if there
      is one; or at the start of the product data. */
  datatype Source = ControlHeader(buf: string, size: nat) | ProductData(buf: string, size: nat)

  predicate ValidSource(src: Source)
  {
    src.size <= |src.buf| && (src.ControlHeader? ==> 0 < src.size)
  }

  function SplitHeader(src: Source): Option<Heading>
    requires ValidSource(src)
  {
    match src
    case ProductData(buf, size) => SplitWmo(buf, size)
    case ControlHeader(buf, size) =>
      var skip := if IsAlpha(buf[0]) then 0 else CCB_SIZE;
      if size - skip < CTRLHDR_WMO_SIZE then None else SplitWmo(buf[skip..], size - skip)
  }

  // ---------- what an accepted heading looks like ----------

  predicate WellShaped(h: Heading)
  {
    && |h.id| == WMO_ID_SIZE && AllAlnum(h.id)
    && |h.station| == WMO_STATION_SIZE && AllAlpha(h.station)
    && |h.time| == WMO_TIME_SIZE && AllDigits(h.time)
    && |h.awips| <= WMO_AWIPS_SIZE && Solid(h.awips)
    && |h.notawips| <= WMO_NOTAWIPS_SIZE && AllAlnum(h.notawips)
    && (h.awips == "" || h.notawips == "")
  }

  lemma AcceptedShape(src: Source)
    requires ValidSource(src)
    ensures SplitHeader(src).Some? ==> WellShaped(SplitHeader(src).value)
  {
    match src
    case ProductData(buf, size) =>
      AcceptedWmo(buf, size);
    case ControlHeader(buf, size) =>
      var skip := if IsAlpha(buf[0]) then 0 else CCB_SIZE;
      if size - skip >= CTRLHDR_WMO_SIZE {
        AcceptedWmo(buf[skip..], size - skip);
      }
  }

  lemma AcceptedWmo(buf: string, size: nat)
    requires size <= |buf|
    ensures SplitWmo(buf, size).Some? ==> WellShaped(SplitWmo(buf, size).value)
  {
    hide Scan;
    hide CountChar;
    hide Take;
    hide Leading;
    hide NewlineAt;
  }

  /** Only first lines with two or three blanks are accepted, and just those with three
      have a BBB. */
  lemma BlanksDecide(buf: string, size: nat)
    requires size <= |buf| && SplitWmo(buf, size).Some?
    ensures CountChar(buf[..size], ' ') in {2, 3}
    ensures CountChar(buf[..size], ' ') == 3 <==> Words(buf, size)[3] != ""
  {
    hide Scan;
    hide CountChar;
    hide NewlineAt;
    hide SecondLine;
  }

  // ---------- the BBB ----------

  /** The copy of the BBB after the second line was looked at is never reached: a
      line that starts with a letter always yields a code. */
  lemma LetterYieldsCode(line: string, n: nat, bbb: string)
    requires 0 < n <= |line| && IsAlpha(line[0])
    ensures var c := SecondLine(line, n, bbb);
            if n >= 9 && line[8] == '\n' then c.awips != "" && c.notawips == "" && c.awips[0] == line[0]
            else c.awips == "" && c.notawips != "" && c.notawips[0] == line[0]
  {
  }

  /** A BBB is lost, and the product gets no third part in its name, exactly when
      the data ends with the first line. */
  lemma BbbLostExactlyAtEnd(buf: string, size: nat)
    requires size <= |buf| && SplitWmo(buf, size).Some? && Words(buf, size)[3] != ""
    ensures var h := SplitWmo(buf, size).value;
            h.awips == "" && h.notawips == "" <==> NewlineAt(buf[..size]) + 1 >= size
  {
    hide Words;
    var i := NewlineAt(buf[..size]);
    if i + 1 < size && IsAlpha(buf[i + 1..][0]) {
      LetterYieldsCode(buf[i + 1..], size - (i + 1), Words(buf, size)[3]);
    }
  }

  // ---------- well-formed headings are read back ----------

  lemma {:induction false} TakeAll(w: string, rest: string, n: nat)
    requires |w| <= n && Solid(w)
    requires |w| == n || rest == [] || IsSpace(rest[0]) || rest[0] == '\0'
    ensures Take(w + rest, n) == w
  {
    if w == [] {
      assert w + rest == rest;
    } else {
      assert (w + rest)[1..] == w[1..] + rest;
      TakeAll(w[1..], rest, n - 1);
    }
  }

  /** A word after at most one blank is converted whole. */
  lemma WordAt(gap: string, w: string, rest: string, n: nat)
    requires w != [] && |w| <= n && Solid(w)
    requires rest != [] && IsSpace(rest[0]) && (gap == "" || gap == " ")
    ensures Word(gap + w + rest, n) == w && AfterWord(gap + w + rest, n) == rest
  {
    var s := gap + w + rest;
    if gap == " " {
      assert s[1..] == w + rest;
    } else {
      assert s == w + rest;
    }
    assert SkipSpace(s) == w + rest;
    TakeAll(w, rest, n);
  }

  /** Words one blank apart are converted one by one. */
  lemma {:induction false} ScanWords(gap: string, ws: seq<string>, rest: string, widths: seq<nat>)
    requires |ws| == |widths| && (gap == "" || gap == " ") && rest != [] && IsSpace(rest[0])
    requires forall i :: 0 <= i < |ws| ==> ws[i] != [] && |ws[i]| <= widths[i] && Solid(ws[i])
    ensures Scan(Spaced(gap, ws) + rest, widths) == ws
    decreases |ws|
  {
    if ws != [] {
      var tail := Spaced(" ", ws[1..]) + rest;
      assert Spaced(gap, ws) + rest == gap + ws[0] + tail;
      assert tail != [] && IsSpace(tail[0]);
      WordAt(gap, ws[0], tail, widths[0]);
      ScanWords(" ", ws[1..], rest, widths[1..]);
    }
  }

  /** The words, a blank before each but the first, which has `gap`. */
  function Spaced(gap: string, ws: seq<string>): string
    decreases |ws|
  {
    if ws == [] then "" else gap + ws[0] + Spaced(" ", ws[1..])
  }

  lemma {:induction false} CountAfter(w: string, rest: string)
    requires Solid(w)
    ensures CountChar(w + rest, ' ') == CountChar(rest, ' ')
  {
    if w == [] {
      assert w + rest == rest;
    } else {
      assert (w + rest)[1..] == w[1..] + rest;
      CountAfter(w[1..], rest);
    }
  }

  lemma CountBlank(rest: string)
    ensures CountChar(" " + rest, ' ') == 1 + CountChar(rest, ' ')
  {
    assert (" " + rest)[1..] == rest;
  }

  lemma {:induction false} CountBlanks(gap: string, ws: seq<string>, rest: string)
    requires (gap == "" || gap == " ") && forall i :: 0 <= i < |ws| ==> Solid(ws[i])
    ensures CountChar(Spaced(gap, ws) + rest, ' ') ==
            (if ws == [] then 0 else |gap| + |ws| - 1) + CountChar(rest, ' ')
    decreases |ws|
  {
    hide CountChar;
    if ws == [] {
      assert Spaced(gap, ws) + rest == rest;
    } else {
      var tail := Spaced(" ", ws[1..]) + rest;
      CountBlanks(" ", ws[1..], rest);
      CountAfter(ws[0], tail);
      CountBlank(ws[0] + tail);
      assert Spaced(gap, ws) + rest == gap + (ws[0] + tail);
      assert gap == "" ==> gap + (ws[0] + tail) == ws[0] + tail;
    }
  }

  lemma {:induction false} NewlineAfter(w: string, rest: string)
    requires forall i :: 0 <= i < |w| ==> w[i] != '\n'
    ensures NewlineAt(w + rest) == |w| + NewlineAt(rest)
  {
    if w == [] {
      assert w + rest == rest;
    } else {
      assert (w + rest)[1..] == w[1..] + rest;
      NewlineAfter(w[1..], rest);
    }
  }

  lemma {:induction false} SpacedOnOneLine(gap: string, ws: seq<string>)
    requires (gap == "" || gap == " ") && forall i :: 0 <= i < |ws| ==> Solid(ws[i])
    ensures forall i :: 0 <= i < |Spaced(gap, ws)| ==> Spaced(gap, ws)[i] != '\n'
    decreases |ws|
  {
    if ws != [] {
      SpacedOnOneLine(" ", ws[1..]);
    }
  }

  const EOL := "\r\r\n"

  /** TTAAii CCCC YYGGgg [BBB], as transmitted. */
  function FirstLine(id: string, station: string, time: string, bbb: string): string
  {
    Spaced("", LineWords(id, station, time, bbb)) + EOL
  }

  function LineWords(id: string, station: string, time: string, bbb: string): seq<string>
  {
    [id, station, time] + if bbb == "" then [] else [bbb]
  }

  lemma LineEnds(rest: string)
    ensures CountChar(EOL + rest, ' ') == 0 && NewlineAt(EOL + rest) == 2
  {
    var s := EOL + rest;
    assert s[0] == s[1] == '\r' && s[2] == '\n';
    assert s[1..][1..] == s[2..];
    assert CountChar(s[2..], ' ') == 0 && NewlineAt(s[2..]) == 0;
    assert CountChar(s[1..], ' ') == 0 && NewlineAt(s[1..]) == 1;
  }

  lemma FirstLineReadsBack(id: string, station: string, time: string, bbb: string, rest: string, size: nat)
    requires ValidWords([id, station, time, bbb]) && |bbb| <= WMO_BBB_SIZE
    requires |FirstLine(id, station, time, bbb)| <= size <= |FirstLine(id, station, time, bbb) + rest|
    ensures var line := FirstLine(id, station, time, bbb);
            && Words(line + rest, size) == [id, station, time, bbb]
            && NewlineAt((line + rest)[..size]) == |line| - 1
  {
    hide Scan;
    hide CountChar;
    hide NewlineAt;
    hide Spaced;
    var ws := LineWords(id, station, time, bbb);
    var text := Spaced("", ws);
    var widths := if bbb == "" then [WMO_ID_SIZE, WMO_STATION_SIZE, WMO_TIME_SIZE]
                  else [WMO_ID_SIZE, WMO_STATION_SIZE, WMO_TIME_SIZE, WMO_BBB_SIZE];
    var buf, tail := text + EOL + rest, rest[..size - |text + EOL|];
    assert buf == text + (EOL + rest) && buf[..size] == text + (EOL + tail);
    ScanWords("", ws, EOL + rest, widths);
    CountBlanks("", ws, EOL + tail);
    LineEnds(tail);
    SpacedOnOneLine("", ws);
    NewlineAfter(text, EOL + tail);
    assert FirstLine(id, station, time, bbb) + rest == buf;
  }

  /** A heading whose second line is an AWIPS code, padded to six characters, is
      read back whatever follows it. */
  lemma AwipsHeadingReadsBack(h: Heading, bbb: string, pad: string, rest: string, size: nat)
    requires WellShaped(h) && h.awips != "" && IsAlpha(h.awips[0])
    requires AllAlnum(bbb) && |bbb| <= WMO_BBB_SIZE
    requires |h.awips + pad| == WMO_AWIPS_SIZE && forall i :: 0 <= i < |pad| ==> pad[i] == ' '
    requires var text := FirstLine(h.id, h.station, h.time, bbb) + h.awips + pad + EOL;
             |text| <= size <= |text + rest|
    ensures SplitWmo(FirstLine(h.id, h.station, h.time, bbb) + h.awips + pad + EOL + rest, size) == Some(h)
  {
    hide Words;
    hide NewlineAt;
    hide FirstLine;
    var line, second := FirstLine(h.id, h.station, h.time, bbb), h.awips + pad + EOL + rest;
    assert line + h.awips + pad + EOL + rest == line + second;
    FirstLineReadsBack(h.id, h.station, h.time, bbb, second, size);
    assert (line + second)[|line|..] == second;
    assert second == "" + h.awips + (pad + EOL + rest);
    WordAt("", h.awips, pad + EOL + rest, WMO_AWIPS_SIZE);
    assert second[8] == '\n';
  }

  /** A heading without a second line, its data not starting with a letter: the
      BBB, if any, names the product. */
  lemma BareHeadingReadsBack(h: Heading, rest: string, size: nat)
    requires WellShaped(h) && h.awips == "" && rest != [] && !IsAlpha(rest[0])
    requires var line := FirstLine(h.id, h.station, h.time, h.notawips);
             |line| < size <= |line + rest|
    ensures SplitWmo(FirstLine(h.id, h.station, h.time, h.notawips) + rest, size) == Some(h)
  {
    hide Words;
    hide NewlineAt;
    hide FirstLine;
    var line := FirstLine(h.id, h.station, h.time, h.notawips);
    FirstLineReadsBack(h.id, h.station, h.time, h.notawips, rest, size);
    assert (line + rest)[|line|..] == rest;
  }

  /** With nothing after the first line the same BBB is not used. */
  lemma LoneLineLosesBbb(id: string, station: string, time: string, bbb: string)
    requires ValidWords([id, station, time, bbb]) && |bbb| <= WMO_BBB_SIZE
    ensures var line := FirstLine(id, station, time, bbb);
            SplitWmo(line, |line|) == Some(Heading(id, station, time, "", ""))
  {
    hide Words;
    hide NewlineAt;
    hide FirstLine;
    var line := FirstLine(id, station, time, bbb);
    FirstLineReadsBack(id, station, time, bbb, "", |line|);
    assert line + "" == line;
  }

  /** A heading whose second line is some other text that starts with a letter and is
      not laid out as an AWIPS line: the code is what letters and digits it starts
      with, at most six. */
  lemma TextHeadingReadsBack(h: Heading, bbb: string, rest: string, size: nat)
    requires WellShaped(h) && h.awips == "" && h.notawips != "" && IsAlpha(h.notawips[0])
    requires AllAlnum(bbb) && |bbb| <= WMO_BBB_SIZE
    requires var text := FirstLine(h.id, h.station, h.time, bbb) + h.notawips;
             && |text| <= size <= |text + rest|
             && (size == |text| || !IsAlnum(rest[0]) || |h.notawips| == WMO_NOTAWIPS_SIZE)
             && (size < |text| - |h.notawips| + 9 || (h.notawips + rest)[8] != '\n')
    ensures SplitWmo(FirstLine(h.id, h.station, h.time, bbb) + h.notawips + rest, size) == Some(h)
  {
    hide Words;
    hide NewlineAt;
    hide FirstLine;
    hide SecondLine;
    hide IsAlpha;
    hide IsAlnum;
    var line, second := FirstLine(h.id, h.station, h.time, bbb), h.notawips + rest;
    assert line + h.notawips + rest == line + second;
    FirstLineReadsBack(h.id, h.station, h.time, bbb, second, size);
    assert (line + second)[|line|..] == second;
    TextLine(h.notawips, rest, size - |line|, bbb);
  }

  lemma TextLine(code: string, rest: string, n: nat, bbb: string)
    requires code != "" && AllAlnum(code) && IsAlpha(code[0]) && |code| <= WMO_NOTAWIPS_SIZE
    requires |code| <= n <= |code + rest|
    requires n == |code| || !IsAlnum(rest[0]) || |code| == WMO_NOTAWIPS_SIZE
    requires n < 9 || (code + rest)[8] != '\n'
    ensures SecondLine(code + rest, n, bbb) == Code("", code)
  {
    hide Leading;
    var tail := rest[..n - |code|];
    assert (code + rest)[..n] == code + tail;
    LeadingWord(code, tail, WMO_NOTAWIPS_SIZE);
  }

  lemma {:induction false} LeadingWord(w: string, rest: string, n: nat)
    requires AllAlnum(w) && |w| <= n && (|w| == n || rest == [] || !IsAlnum(rest[0]))
    ensures Leading(w + rest, n) == w
  {
    if w == [] {
      assert w + rest == rest;
    } else {
      assert (w + rest)[1..] == w[1..] + rest;
      LeadingWord(w[1..], rest, n - 1);
    }
  }

  /** In a control header the heading starts at the first byte if that is a letter,
      and after the 24 bytes of the CCB otherwise; one that has not 21 bytes left
      is refused. */
  lemma ControlHeaderSkipsCcb(ccb: string, buf: string, size: nat)
    requires size <= |buf| && 0 < |ccb| + size
    requires if ccb == "" then IsAlpha(buf[0]) else |ccb| == 24 && !IsAlpha(ccb[0])
    ensures SplitHeader(ControlHeader(ccb + buf, |ccb| + size)) ==
            if size < 21 then None else SplitHeader(ProductData(buf, size))
  {
    hide SplitWmo;
    assert ccb == "" ==> ccb + buf == buf;
    assert (ccb + buf)[|ccb|..] == buf;
  }

  lemma FirstLineStart(id: string, station: string, time: string, bbb: string)
    requires ValidWords([id, station, time, bbb])
    ensures var line := FirstLine(id, station, time, bbb);
            |line| >= 21 && line[0] == id[0]
  {
    var ws := LineWords(id, station, time, bbb);
    assert ws[1..][0] == station && ws[1..][1..][0] == time;
    assert Spaced("", ws) == id + Spaced(" ", ws[1..]);
    assert |Spaced(" ", ws[1..][1..])| >= 7 && |Spaced(" ", ws[1..])| >= 12;
  }

  /** So a heading with an AWIPS line is read back from a control header, with and
      without a CCB in front. */
  lemma ControlHeaderReadsBack(ccb: string, h: Heading, bbb: string, pad: string, rest: string, size: nat)
    requires WellShaped(h) && h.awips != "" && IsAlpha(h.awips[0])
    requires AllAlnum(bbb) && |bbb| <= WMO_BBB_SIZE
    requires |h.awips + pad| == WMO_AWIPS_SIZE && forall i :: 0 <= i < |pad| ==> pad[i] == ' '
    requires if ccb == "" then IsAlpha(h.id[0]) else |ccb| == 24 && !IsAlpha(ccb[0])
    requires var text := FirstLine(h.id, h.station, h.time, bbb) + h.awips + pad + EOL;
             |text| <= size <= |text + rest|
    ensures var buf := FirstLine(h.id, h.station, h.time, bbb) + h.awips + pad + EOL + rest;
            SplitHeader(ControlHeader(ccb + buf, |ccb| + size)) == Some(h)
  {
    var buf := FirstLine(h.id, h.station, h.time, bbb) + h.awips + pad + EOL + rest;
    FirstLineStart(h.id, h.station, h.time, bbb);
    hide FirstLine;
    hide SplitWmo;
    AwipsHeadingReadsBack(h, bbb, pad, rest, size);
    ControlHeaderSkipsCcb(ccb, buf, size);
  }

  // ---------- names ----------

  function Lower(s: string): (r: string)
    ensures |r| == |s|
    ensures forall i :: 0 <= i < |s| ==> r[i] == if 'A' <= s[i] <= 'Z' then (s[i] as int + 32) as char else s[i]
  {
    seq(|s|, i requires 0 <= i < |s| => if 'A' <= s[i] <= 'Z' then (s[i] as int + 32) as char else s[i])
  }

  /** make_product_fname */
  function Fname(h: Heading): string
  {
    Lower(h.station + "_" + h.id
          + if h.awips != "" then "-" + h.awips else if h.notawips != "" then "+" + h.notawips else "")
  }

  /** make_product_fbasename */
  function Fbasename(h: Heading, seqNumber: nat): string
  {
    Fname(h) + "." + h.time + "_" + Dec(seqNumber % TWO32)
  }

  /** make_product_fpath */
  function Fpath(spooldir: string, h: Heading, seqNumber: nat): string
  {
    spooldir + "/" + Lower(h.station) + "/" + Fbasename(h, seqNumber)
  }

  /** const_fpath_maxsize */
  function FpathMaxSize(spooldir: string): nat { |spooldir| + WMO_STATION_SIZE + FBASENAME_SIZE + 2 }

  lemma NumberFits(n: nat)
    ensures |Dec(n % TWO32)| <= FKEY_SPOOLBDB_SIZE
  {
    assert Pow10(5) == 100000;
    assert Pow10(10) == 100000 * Pow10(5);
    DecLength(n % TWO32, 10);
  }

  /** Every name made from an accepted heading fits its buffer. */
  lemma NamesFit(h: Heading, spooldir: string, seqNumber: nat)
    requires WellShaped(h)
    ensures |Fname(h)| <= FNAME_SIZE && |Fbasename(h, seqNumber)| <= FBASENAME_SIZE
    ensures |Fpath(spooldir, h, seqNumber)| <= FpathMaxSize(spooldir)
  {
    NumberFits(seqNumber);
  }

  /** The heading as start_activepce sees it, with the size checks it makes. */
  function StartHeading(src: Source, spooldir: string, seqNumber: nat): Assembly.Heading
    requires ValidSource(src)
  {
    match SplitHeader(src)
    case None => Assembly.BadHeading
    case Some(h) =>
      if |Fbasename(h, seqNumber)| > FBASENAME_SIZE then Assembly.NameTooLong
      else if |Fpath(spooldir, h, seqNumber)| > FpathMaxSize(spooldir) then Assembly.PathTooLong
      else Assembly.Named(Fname(h), Fpath(spooldir, h, seqNumber))
  }

  /** start_activepce never reports a name or a path that is too long. */
  lemma NeverTooLong(src: Source, spooldir: string, f: Assembly.Frame, e: Assembly.Env)
    requires ValidSource(src) && e.heading == StartHeading(src, spooldir, f.seqNumber)
    ensures Assembly.StartStatus(f, e) !in {2, 3}
  {
    hide SplitHeader;
    hide Fpath;
    hide Fbasename;
    AcceptedShape(src);
    if SplitHeader(src).Some? {
      NamesFit(SplitHeader(src).value, spooldir, f.seqNumber);
    }
  }

  // ---------- the key ----------

  /** What follows the last occurrence of c, if there is one. */
  function AfterLast(s: string, c: char): Option<string>
  {
    if s == [] then None
    else match AfterLast(s[1..], c)
      case Some(t) => Some(t)
      case None => if s[0] == c then Some(s[1..]) else None
  }

  /** get_fpath_key: None when there is no key or it is too long. */
  function FpathKey(fpath: string): Option<string>
  {
    match AfterLast(fpath, '_')
    case None => None
    case Some(key) => if |key| > FKEY_SPOOLBDB_SIZE then None else Some(key)
  }

  lemma {:induction false} AfterLastIs(a: string, c: char, b: string)
    requires c !in b
    ensures AfterLast(a + [c] + b, c) == Some(b)
  {
    if a == [] {
      assert (a + [c] + b)[1..] == b;
      NoneAfter(b, c);
    } else {
      assert (a + [c] + b)[1..] == a[1..] + [c] + b;
      AfterLastIs(a[1..], c, b);
    }
  }

  lemma {:induction false} NoneAfter(b: string, c: char)
    requires c !in b
    ensures AfterLast(b, c) == None
  {
    if b != [] {
      NoneAfter(b[1..], c);
    }
  }

  /** The key is what follows the last underscore, if there is one and at most ten
      characters follow it. */
  lemma KeyExactlyWhen(front: string, key: string)
    requires '_' !in key
    ensures FpathKey(key) == None
    ensures FpathKey(front + ['_'] + key) == if |key| <= 10 then Some(key) else None
  {
    NoneAfter(key, '_');
    AfterLastIs(front, '_', key);
  }

  /** The key of a product's path is its sequence number in decimal. */
  lemma KeyIsTheNumber(spooldir: string, h: Heading, seqNumber: nat)
    ensures FpathKey(Fpath(spooldir, h, seqNumber)) == Some(Dec(seqNumber % TWO32))
    ensures AfterLast(Fbasename(h, seqNumber), '_') == Some(Dec(seqNumber % TWO32))
  {
    hide AfterLast;
    var number := Dec(seqNumber % TWO32);
    NumberFits(seqNumber);
    var front := Fname(h) + "." + h.time;
    var a := spooldir + "/" + Lower(h.station) + "/" + front;
    assert Fpath(spooldir, h, seqNumber) == a + ['_'] + number;
    assert Fbasename(h, seqNumber) == front + ['_'] + number;
    AfterLastIs(a, '_', number);
    AfterLastIs(front, '_', number);
  }

  /** Two products share a key exactly when their numbers agree in 32 bits. */
  lemma KeysCollide(spooldir: string, h1: Heading, n1: nat, h2: Heading, n2: nat)
    ensures FpathKey(Fpath(spooldir, h1, n1)) == FpathKey(Fpath(spooldir, h2, n2)) <==> n1 % TWO32 == n2 % TWO32
  {
    KeyIsTheNumber(spooldir, h1, n1);
    KeyIsTheNumber(spooldir, h2, n2);
    if Dec(n1 % TWO32) == Dec(n2 % TWO32) {
      DecInjective(n1 % TWO32, n2 % TWO32);
    }
  }

  predicate SameProduct(h1: Heading, n1: nat, h2: Heading, n2: nat)
  {
    && n1 % TWO32 == n2 % TWO32 && h1.time == h2.time
    && Lower(h1.station) == Lower(h2.station) && Lower(h1.id) == Lower(h2.id)
    && Lower(h1.awips) == Lower(h2.awips) && Lower(h1.notawips) == Lower(h2.notawips)
  }

  /** The third part of a file name, with its separator. */
  function Third(h: Heading): string
  {
    if h.awips != "" then "-" + Lower(h.awips) else if h.notawips != "" then "+" + Lower(h.notawips) else ""
  }

  lemma FnameParts(h: Heading)
    ensures Fname(h) == Lower(h.station) + "_" + Lower(h.id) + Third(h)
  {
    hide Lower;
    LowerAppend(h.station, "_");
    LowerAppend(h.station + "_", h.id);
    LowerSeparators();
    LowerAppend("-", h.awips);
    LowerAppend("+", h.notawips);
    var third := if h.awips != "" then "-" + h.awips else if h.notawips != "" then "+" + h.notawips else "";
    LowerAppend(h.station + "_" + h.id, third);
    assert Lower(third) == Third(h);
  }

  lemma LowerAppend(a: string, b: string)
    ensures Lower(a + b) == Lower(a) + Lower(b)
  {
  }

  lemma LowerSeparators()
    ensures Lower("_") == "_" && Lower("-") == "-" && Lower("+") == "+" && Lower("") == ""
  {
  }

  lemma ThirdDetermines(h1: Heading, h2: Heading)
    requires WellShaped(h1) && WellShaped(h2)
    ensures Third(h1) == Third(h2) <==>
            Lower(h1.awips) == Lower(h2.awips) && Lower(h1.notawips) == Lower(h2.notawips)
  {
    if Third(h1) == Third(h2) && Third(h1) != "" {
      assert Third(h1)[0] == Third(h2)[0];
      assert Third(h1)[1..] == Third(h2)[1..];
    }
  }

  /** No file of another product is written over: two base names are equal exactly
      when heading, time and number are, up to letter case. */
  lemma NamesAreApart(h1: Heading, n1: nat, h2: Heading, n2: nat)
    requires WellShaped(h1) && WellShaped(h2)
    ensures Fbasename(h1, n1) == Fbasename(h2, n2) <==> SameProduct(h1, n1, h2, n2)
  {
    FnameParts(h1);
    FnameParts(h2);
    ThirdDetermines(h1, h2);
    hide Fname;
    hide Third;
    if Fbasename(h1, n1) == Fbasename(h2, n2) {
      KeysCollide("", h1, n1, h2, n2);
      KeyIsTheNumber("", h1, n1);
      KeyIsTheNumber("", h2, n2);
      DecInjective(n1 % TWO32, n2 % TWO32);
      SameFront(Fname(h1), h1.time, Fname(h2), h2.time, Dec(n1 % TWO32));
      SamePieces(Lower(h1.station), Lower(h1.id), Third(h1), Lower(h2.station), Lower(h2.id), Third(h2));
    }
  }

  lemma SameFront(f1: string, t1: string, f2: string, t2: string, number: string)
    requires f1 + "." + t1 + "_" + number == f2 + "." + t2 + "_" + number && |t1| == |t2|
    ensures f1 == f2 && t1 == t2
  {
    var a, b := f1 + "." + t1 + "_" + number, f2 + "." + t2 + "_" + number;
    assert |f1| == |f2|;
    assert f1 == a[..|f1|] && f2 == b[..|f1|];
    assert t1 == a[|f1| + 1..|f1| + 1 + |t1|] && t2 == b[|f1| + 1..|f1| + 1 + |t1|];
  }

  lemma SamePieces(a1: string, b1: string, c1: string, a2: string, b2: string, c2: string)
    requires a1 + "_" + b1 + c1 == a2 + "_" + b2 + c2 && |a1| == |a2| && |b1| == |b2|
    ensures a1 == a2 && b1 == b2 && c1 == c2
  {
    var s, t := a1 + "_" + b1 + c1, a2 + "_" + b2 + c2;
    var m, n := |a1| + 1, |a1| + 1 + |b1|;
    assert a1 == s[..|a1|] && a2 == t[..|a1|];
    assert b1 == s[m..n] && b2 == t[m..n];
    assert c1 == s[n..] && c2 == t[n..];
  }

  // ---------- the loops ----------

  method CountCharUpTo(s: string, n: nat, c: char) returns (count: nat)
    requires n <= |s|
    ensures count == CountChar(s[..n], c)
  {
    var i := 0;
    count := 0;
    ghost var t := s[..n];
    assert t[0..] == t;
    while i < n && s[i] != '\n' && s[i] != '\0'
      invariant 0 <= i <= n
      invariant count + CountChar(t[i..], c) == CountChar(t, c)
    {
      if s[i] == c {
        count := count + 1;
      }
      assert t[i..][1..] == t[i + 1..];
      i := i + 1;
    }
  }

  /** One of the scanning loops of validate_wmo. */
  method AllOf(s: string, kind: char -> bool) returns (ok: bool)
    ensures ok <==> forall i :: 0 <= i < |s| ==> kind(s[i])
  {
    var p := 0;
    while p < |s|
      invariant 0 <= p <= |s| && forall i :: 0 <= i < p ==> kind(s[i])
    {
      if !kind(s[p]) {
        return false;
      }
      p := p + 1;
    }
    ok := true;
  }

  method ValidateWmo(id: string, station: string, time: string, bbb: string) returns (status: int)
    ensures status == if ValidWords([id, station, time, bbb]) then 0 else 1
  {
    if |id| != WMO_ID_SIZE || |station| != WMO_STATION_SIZE || |time| != WMO_TIME_SIZE {
      return 1;
    }
    var ok := AllOf(id, IsAlnum);
    if ok {
      ok := AllOf(station, IsAlpha);
    }
    if ok {
      ok := AllOf(time, IsDigit);
    }
    if ok {
      ok := AllOf(bbb, IsAlnum);
    }
    status := if ok then 0 else 1;
  }

  /** The loop that copies the BBB. */
  method CopyBbb(bbb: string) returns (notawips: string)
    requires |bbb| <= WMO_BBB_SIZE
    ensures notawips == bbb
  {
    notawips := "";
    var b := 0;
    while b < WMO_NOTAWIPS_SIZE && b < |bbb|
      invariant 0 <= b <= |bbb| && notawips == bbb[..b]
    {
      notawips := notawips + [bbb[b]];
      b := b + 1;
    }
  }

  method CopyLeading(line: string, n: nat) returns (notawips: string)
    requires n <= |line|
    ensures notawips == Leading(line[..n], WMO_NOTAWIPS_SIZE)
  {
    notawips := "";
    var b := 0;
    while b < WMO_NOTAWIPS_SIZE && b < n && IsAlnum(line[b])
      invariant 0 <= b <= n && b <= WMO_NOTAWIPS_SIZE
      invariant notawips == line[..b] && forall i :: 0 <= i < b ==> IsAlnum(line[i])
    {
      notawips := notawips + [line[b]];
      b := b + 1;
    }
    LeadingIs(line[..n], b, WMO_NOTAWIPS_SIZE);
    assert line[..n][..b] == line[..b];
  }

  lemma {:induction false} LeadingIs(s: string, b: nat, n: nat)
    requires b <= n && b <= |s| && forall i :: 0 <= i < b ==> IsAlnum(s[i])
    requires b == n || b == |s| || !IsAlnum(s[b])
    ensures Leading(s, n) == s[..b]
  {
    if b > 0 {
      LeadingIs(s[1..], b - 1, n - 1);
      assert s[..b] == [s[0]] + s[1..][..b - 1];
    }
  }

  method ReadSecondLine(line: string, n: nat, bbb: string) returns (awips: string, notawips: string)
    requires 0 < n <= |line| && |bbb| <= WMO_BBB_SIZE
    ensures Code(awips, notawips) == SecondLine(line, n, bbb)
  {
    awips, notawips := "", "";
    if !IsAlpha(line[0]) {
      notawips := CopyBbb(bbb);
      return;
    }
    if n >= 9 && line[8] == '\n' {
      awips := Word(line, WMO_AWIPS_SIZE);
    } else {
      notawips := CopyLeading(line, n);
    }
    if awips == "" && notawips == "" {
      notawips := CopyBbb(bbb);
    }
  }

  method ReadWords(buf: string, size: nat) returns (ws: seq<string>)
    requires size <= |buf|
    ensures ws == Words(buf, size)
  {
    var blanks := CountCharUpTo(buf, size, ' ');
    ws := [];
    if blanks == 3 {
      ws := Scan(buf, [WMO_ID_SIZE, WMO_STATION_SIZE, WMO_TIME_SIZE, WMO_BBB_SIZE]);
      if |ws| < 4 {
        ws := [];
      }
    } else if blanks == 2 {
      ws := Scan(buf, [WMO_ID_SIZE, WMO_STATION_SIZE, WMO_TIME_SIZE]);
      ws := if |ws| < 3 then [] else ws + [""];
    }
  }

  method FindNewline(buf: string, size: nat) returns (i: nat)
    requires size <= |buf|
    ensures i == NewlineAt(buf[..size])
  {
    i := 0;
    while i < size && buf[i] != '\n'
      invariant 0 <= i <= size && forall k :: 0 <= k < i ==> buf[k] != '\n'
    {
      i := i + 1;
    }
  }

  /** split_wmo_header */
  method SplitWmoHeader(src: Source) returns (status: int, h: Heading)
    requires ValidSource(src)
    ensures status == if SplitHeader(src).Some? then 0 else 1
    ensures status == 0 ==> h == SplitHeader(src).value
  {
    hide Words;
    hide SecondLine;
    hide NewlineAt;
    h := Heading("", "", "", "", "");
    var skip := 0;
    if src.ControlHeader? {
      if !IsAlpha(src.buf[0]) {
        skip := CCB_SIZE;
      }
      if src.size - skip < CTRLHDR_WMO_SIZE {
        return 1, h;
      }
    }
    var wmo, size := src.buf[skip..], src.size - skip;
    assert skip == 0 ==> wmo == src.buf;
    var ws := ReadWords(wmo, size);
    if ws == [] {
      return 1, h;
    }
    status := ValidateWmo(ws[0], ws[1], ws[2], ws[3]);
    assert ws == [ws[0], ws[1], ws[2], ws[3]];
    if status != 0 {
      return;
    }
    h := Heading(ws[0], ws[1], ws[2], "", "");
    var i := FindNewline(wmo, size);
    if i + 1 >= size {
      return;
    }
    BbbFits(wmo, size);
    var awips, notawips := ReadSecondLine(wmo[i + 1..], size - (i + 1), ws[3]);
    h := Heading(ws[0], ws[1], ws[2], awips, notawips);
  }

  lemma BbbFits(buf: string, size: nat)
    requires size <= |buf| && Words(buf, size) != []
    ensures |Words(buf, size)[3]| <= WMO_BBB_SIZE
  {
    hide Scan;
  }

  /** strncat of s at n, with its terminator. */
  method Append(a: array<char>, n: nat, s: string)
    requires n + |s| < a.Length
    modifies a
    ensures a[..n + |s|] == old(a[..n]) + s && a[n + |s|] == '\0'
  {
    forall i | 0 <= i < |s| {
      a[n + i] := s[i];
    }
    a[n + |s|] := '\0';
  }

  /** cvt_to_lc on the string s in the buffer. */
  method CvtToLc(p: array<char>, ghost s: string)
    requires |s| < p.Length && p[..|s|] == s && p[|s|] == '\0' && '\0' !in s
    modifies p
    ensures p[..|s|] == Lower(s) && p[|s|] == '\0'
  {
    var i := 0;
    assert forall k :: 0 <= k < |s| ==> p[..|s|][k] == s[k];
    while p[i] != '\0'
      invariant 0 <= i <= |s| && p[|s|] == '\0'
      invariant forall k :: 0 <= k < |s| ==> p[k] == if k < i then Lower(s)[k] else s[k]
      decreases |s| - i
    {
      if 'A' <= p[i] <= 'Z' {
        p[i] := (p[i] as int + 32) as char;
      }
      i := i + 1;
    }
  }

  /** A separator and a part of the name. */
  method AppendPart(a: array<char>, n: nat, sep: char, s: string) returns (m: nat)
    requires n + 1 + |s| < a.Length
    modifies a
    ensures m == n + 1 + |s| && a[..m] == old(a[..n]) + ([sep] + s) && a[m] == '\0'
  {
    Append(a, n, [sep]);
    Append(a, n + 1, s);
    m := n + 1 + |s|;
  }

  /** make_product_fname: every write stays in the buffer of FNAME_SIZE + 1. */
  method MakeProductFname(fname: array<char>, h: Heading)
    requires WellShaped(h) && fname.Length == FNAME_SIZE + 1
    modifies fname
    ensures |Fname(h)| <= FNAME_SIZE && fname[..|Fname(h)|] == Fname(h) && fname[|Fname(h)|] == '\0'
  {
    Append(fname, 0, h.station);
    var n := AppendPart(fname, |h.station|, '_', h.id);
    ghost var third := "";
    if h.awips != "" {
      n := AppendPart(fname, n, '-', h.awips);
      third := "-" + h.awips;
    } else if h.notawips != "" {
      n := AppendPart(fname, n, '+', h.notawips);
      third := "+" + h.notawips;
    }
    assert fname[..n] == h.station + "_" + h.id + third;
    CvtToLc(fname, h.station + "_" + h.id + third);
  }

  /** get_fpath_key: 1 when the path has no key or too long a one. */
  method GetFpathKey(fpath: string) returns (status: int, key: string)
    ensures status == if FpathKey(fpath).Some? then 0 else 1
    ensures status == 0 ==> key == FpathKey(fpath).value
  {
    key := "";
    var p := |fpath|;
    while p > 0 && fpath[p - 1] != '_'
      invariant 0 <= p <= |fpath| && '_' !in fpath[p..]
    {
      p := p - 1;
    }
    if p == 0 {
      assert fpath[0..] == fpath;
      NoneAfter(fpath, '_');
      return 1, key;
    }
    AfterLastIs(fpath[..p - 1], '_', fpath[p..]);
    assert fpath[..p - 1] + ['_'] + fpath[p..] == fpath;
    if |fpath[p..]| > FKEY_SPOOLBDB_SIZE {
      return 1, key;
    }
    status, key := 0, fpath[p..];
  }
}
