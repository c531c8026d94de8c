/** What a slave makes of the base name of a product it receives
    (src/slavenbs/framep.c): the name is taken apart again into what its master
    made it from. */
module Basename {
  import opened Common
  import opened Decimal
  import opened Wmo
  import SlaveNbs

  /** strchr: where c is first, or |s|. */
  function FirstAt(s: string, c: char): (i: nat)
    ensures i <= |s| && (i < |s| ==> s[i] == c) && c !in s[..i]
  {
    if s == [] || s[0] == c then 0
    else
      var i := 1 + FirstAt(s[1..], c);
      assert s[..i] == [s[0]] + s[1..][..i - 1];
      i
  }

  lemma {:induction false} FirstIs(a: string, c: char, b: string)
    requires c !in a
    ensures FirstAt(a + [c] + b, c) == |a|
  {
    if a != [] {
      assert (a + [c] + b)[1..] == a[1..] + [c] + b;
      FirstIs(a[1..], c, b);
    }
  }

  lemma {:induction false} FirstIsWithin(a: string, c: char, b: string)
    requires c in a
    ensures FirstAt(a + b, c) < |a|
  {
    if a[0] != c {
      assert (a + b)[1..] == a[1..] + b;
      FirstIsWithin(a[1..], c, b);
    }
  }

  function Upper(s: string): (r: string)
    ensures |r| == |s|
    ensures forall i :: 0 <= i < |s| ==> r[i] == if 'a' <= s[i] <= 'z' then (s[i] as int - 32) as char else s[i]
  {
    seq(|s|, i requires 0 <= i < |s| => if 'a' <= s[i] <= 'z' then (s[i] as int - 32) as char else s[i])
  }

  datatype Names = Names(
    fname: string, station: string, id: string, awips: string, notawips: string, fpath: string)

  /** The part after the station: the id, and a code after either separator. */
  datatype Tail = Tail(id: string, awips: string, notawips: string)

  function SplitTail(s: string): Option<Tail>
  {
    var i, j := FirstAt(s, '-'), FirstAt(s, '+');
    if i < |s| then
      if i > WMO_ID_SIZE || |s[i + 1..]| > WMO_AWIPS_SIZE then None else Some(Tail(s[..i], s[i + 1..], ""))
    else if j < |s| then
      if j > WMO_ID_SIZE || |s[j + 1..]| > WMO_NOTAWIPS_SIZE then None else Some(Tail(s[..j], "", s[j + 1..]))
    else if |s| > WMO_ID_SIZE then None else Some(Tail(s, "", ""))
  }

  /** split_fbasename */
  function SplitFbasename(name: string, spooldir: string): Option<Names>
  {
    var dot := FirstAt(name, '.');
    if |name| > FBASENAME_SIZE || dot == |name| || dot > FNAME_SIZE then None
    else
      var fname := name[..dot];
      var sep := FirstAt(fname, '_');
      if sep == |fname| || sep > WMO_STATION_SIZE then None
      else
        var station, fpath := fname[..sep], spooldir + "/" + fname[..sep] + "/" + name;
        match SplitTail(fname[sep + 1..])
        case None => None
        case Some(t) =>
          if |fpath| > FpathMaxSize(spooldir) then None
          else Some(Names(fname, Upper(station), Upper(t.id), Upper(t.awips), Upper(t.notawips), fpath))
  }

  // ---------- the names of the master come back ----------

  lemma UpperLower(s: string)
    ensures Upper(Lower(s)) == Upper(s)
  {
  }

  /** Letters and digits have no separator among them, in lower case either. */
  lemma NoSeparator(s: string, c: char)
    requires AllAlnum(s) && c in {'.', '_', '-', '+'}
    ensures c !in Lower(s)
  {
  }

  lemma DotLower(s: string)
    ensures '.' in Lower(s) <==> '.' in s
  {
    if i :| 0 <= i < |s| && s[i] == '.' {
      assert Lower(s)[i] == '.';
    }
    if i :| 0 <= i < |s| && Lower(s)[i] == '.' {
      assert s[i] == '.';
    }
  }

  lemma TailReadsBack(h: Heading)
    requires WellShaped(h)
    ensures SplitTail(Lower(h.id) + Third(h)) == Some(Tail(Lower(h.id), Lower(h.awips), Lower(h.notawips)))
  {
    hide IsAlnum;
    var id, s := Lower(h.id), Lower(h.id) + Third(h);
    NoSeparator(h.id, '-');
    NoSeparator(h.id, '+');
    NoSeparator(h.notawips, '-');
    if h.awips != "" {
      assert s == id + ['-'] + Lower(h.awips);
      FirstIs(id, '-', Lower(h.awips));
      assert s[..6] == id && s[7..] == Lower(h.awips);
    } else if h.notawips != "" {
      assert s == id + ['+'] + Lower(h.notawips);
      FirstIs(id, '+', Lower(h.notawips));
      assert '-' !in s;
      assert s[..6] == id && s[7..] == Lower(h.notawips);
    } else {
      assert s == id;
    }
  }

  /** What the slave should find out: the names that the master gave the product, the
      parts of its heading, and the path under its own spool directory. */
  function NamesOf(h: Heading, seqNumber: nat, spooldir: string): Names
  {
    Names(Fname(h), Upper(h.station), Upper(h.id), Upper(h.awips), Upper(h.notawips), Fpath(spooldir, h, seqNumber))
  }

  lemma NameHasNoDot(h: Heading)
    requires WellShaped(h)
    ensures '.' in Fname(h) <==> '.' in h.awips
  {
    FnameParts(h);
    NoSeparator(h.station, '.');
    NoSeparator(h.id, '.');
    NoSeparator(h.notawips, '.');
    DotLower(h.awips);
    hide Lower;
    hide Fname;
    if h.awips != "" {
      var front := Lower(h.station) + "_" + Lower(h.id) + "-";
      assert Fname(h) == front + Lower(h.awips);
      assert '.' !in front;
    }
  }

  /** The slave takes a base name for what the master meant by it if and only if there
      is no dot in the AWIPS code. */
  lemma NamesReadBackIffNoDot(h: Heading, seqNumber: nat, spooldir: string)
    requires WellShaped(h)
    ensures SplitFbasename(Fbasename(h, seqNumber), spooldir) == Some(NamesOf(h, seqNumber, spooldir))
            <==> '.' !in h.awips
  {
    NameHasNoDot(h);
    if '.' in h.awips {
      DotCutsName(h, seqNumber, spooldir);
    } else {
      NamesReadBack(h, seqNumber, spooldir);
    }
  }

  /** Such a heading is accepted, and its name comes out wrong. */
  lemma DotInAwipsIsMisread()
    ensures var h := Heading("SXUS01", "KWBC", "121200", "A.B", "");
            WellShaped(h) && SplitFbasename(Fbasename(h, 7), "/spool") != Some(NamesOf(h, 7, "/spool"))
  {
    var h := Heading("SXUS01", "KWBC", "121200", "A.B", "");
    assert h.awips[1] == '.';
    NamesReadBackIffNoDot(h, 7, "/spool");
  }

  /** The file name is cut at the first dot. */
  lemma DotCutsName(h: Heading, seqNumber: nat, spooldir: string)
    requires WellShaped(h) && '.' in Fname(h)
    ensures var r := SplitFbasename(Fbasename(h, seqNumber), spooldir);
            r.Some? ==> |r.value.fname| < |Fname(h)|
  {
    hide SplitTail;
    hide Fname;
    var name := Fbasename(h, seqNumber);
    var rest := "." + h.time + "_" + Dec(seqNumber % TWO32);
    assert name == Fname(h) + rest;
    FirstIsWithin(Fname(h), '.', rest);
  }

  lemma NamesReadBack(h: Heading, seqNumber: nat, spooldir: string)
    requires WellShaped(h) && '.' !in Fname(h)
    ensures SplitFbasename(Fbasename(h, seqNumber), spooldir) == Some(NamesOf(h, seqNumber, spooldir))
  {
    hide SplitTail;
    hide FirstAt;
    hide Fname;
    hide Lower;
    hide Upper;
    var name, fname := Fbasename(h, seqNumber), Fname(h);
    var ext := h.time + "_" + Dec(seqNumber % TWO32);
    assert name == fname + ['.'] + ext;
    FirstIs(fname, '.', ext);
    assert name[..|fname|] == fname;
    NamesFit(h, spooldir, seqNumber);
    StationReadsBack(h);
    TailReadsBack(h);
    UpperLower(h.station);
    UpperLower(h.id);
    UpperLower(h.awips);
    UpperLower(h.notawips);
    hide WellShaped;
    hide Fbasename;
  }

  lemma StationReadsBack(h: Heading)
    requires WellShaped(h)
    ensures FirstAt(Fname(h), '_') == 4 && |Fname(h)| >= 11
    ensures Fname(h)[..4] == Lower(h.station) && Fname(h)[5..] == Lower(h.id) + Third(h)
  {
    FnameParts(h);
    NoSeparator(h.station, '_');
    var station, rest := Lower(h.station), Lower(h.id) + Third(h);
    assert Fname(h) == station + ['_'] + rest;
    FirstIs(station, '_', rest);
  }

  // ---------- the verdict ----------

  /** What estart_activepce makes of the name: whether the filter rejects it, whether
      duplicates are rejected, and whether the file exists, are given. */
  function VerdictOn(name: string, spooldir: string,
                     rejected: string -> bool, noDuplicates: bool, exists_: string -> bool): SlaveNbs.Verdict
  {
    match SplitFbasename(name, spooldir)
    case None => SlaveNbs.BadName
    case Some(n) =>
      if rejected(n.fname) then SlaveNbs.Rejected
      else if noDuplicates && exists_(n.fpath) then SlaveNbs.Duplicate
      else SlaveNbs.Accepted(n.fname, n.fpath)
  }

  /** A product with a name from a master is accepted, under that name and at its path
      in the slave's spool, if and only if the filter lets it pass and it is not
      rejected as a duplicate. */
  lemma AcceptedUnderItsName(h: Heading, seqNumber: nat, spooldir: string,
                             rejected: string -> bool, noDuplicates: bool, exists_: string -> bool)
    requires WellShaped(h) && '.' !in h.awips
    ensures VerdictOn(Fbasename(h, seqNumber), spooldir, rejected, noDuplicates, exists_) ==
            SlaveNbs.Accepted(Fname(h), Fpath(spooldir, h, seqNumber))
            <==> !rejected(Fname(h)) && !(noDuplicates && exists_(Fpath(spooldir, h, seqNumber)))
  {
    hide SplitFbasename;
    NamesReadBackIffNoDot(h, seqNumber, spooldir);
  }
}
