/** The table of master servers (src/slavet.c): a counting pass and a filling pass
    over the configuration string, the fields of each entry, and the channel index
    each nbs1 reader gets. */
module SlaveTable {
  import opened Common
  import opened StrSplit

  const SEP1 := "| \t\n"
  const SEP2 := ",:"
  const NUM_OPTIONS := 5
  const NET_STRING_FIELDS := 8
  const IN_STRING_FIELDS := 7
  const NBS1 := 1
  const NBS2 := 2
  const INFIFO := 3
  const NPCAST_NUM_CHANNELS := 9

  /** strto_int: the value, or None when the string is not a number. */
  type StrtoInt = string -> Option<int>

  /** struct slave_options_st: the port and the five numeric options. */
  datatype Defaults = Defaults(masterport: string, options: seq<int>)

  predicate ValidDefaults(d: Defaults) { |d.options| == NUM_OPTIONS }

  datatype Slave = Slave(
    slavetype: int, mastername: string, masterport: string, infifo: string, options: seq<int>, readerIndex: int)

  datatype Config = Invalid | Good(slave: Slave)

  // ---------- one entry ----------

  /** Option i is the i-th field when that is a number, else its default. */
  function Overridden(options: seq<int>, fields: seq<string>, strto: StrtoInt): (r: seq<int>)
    requires |fields| <= |options|
  {
    seq(|options|, i requires 0 <= i < |options| =>
      if i < |fields| && strto(fields[i]).Some? then strto(fields[i]).value else options[i])
  }

  function ConfigureFifo(f: seq<string>, d: Defaults, strto: StrtoInt): Config
    requires ValidDefaults(d)
  {
    if 2 <= |f| <= IN_STRING_FIELDS && f[1] != ""
    then Good(Slave(INFIFO, "", "", f[1], Overridden(d.options, f[2..], strto), -1))
    else Invalid
  }

  function ConfigureNet(slavetype: int, f: seq<string>, d: Defaults, strto: StrtoInt): Config
    requires ValidDefaults(d)
  {
    if !(2 <= |f| <= NET_STRING_FIELDS) || (slavetype != NBS1 && slavetype != NBS2) then Invalid
    else
      var port := if |f| == 3 || (|f| > 3 && f[2] != "") then f[2] else d.masterport;
      if f[1] == "" || port == "" then Invalid
      else Good(Slave(slavetype, f[1], port, "",
                      Overridden(d.options, if |f| > 3 then f[3..] else [], strto), -1))
  }

  /** slave_element_configure on the fields of the entry. */
  function Configure(f: seq<string>, d: Defaults, strto: StrtoInt): Config
    requires f != [] && ValidDefaults(d)
  {
    match strto(f[0])
    case None => Invalid
    case Some(slavetype) =>
      if slavetype == INFIFO then ConfigureFifo(f, d, strto) else ConfigureNet(slavetype, f, d, strto)
  }

  function ConfigureEntry(entry: string, d: Defaults, strto: StrtoInt): Config
    requires ValidDefaults(d)
  {
    Configure(Segments(entry, SEP2), d, strto)
  }

  /** The documented form of an entry: its fields and five options. */
  function EntryFields(s: Slave, show: int -> string): seq<string>
    requires |s.options| == NUM_OPTIONS
  {
    [show(s.slavetype)] + (if s.slavetype == INFIFO then [s.infifo] else [s.mastername, s.masterport])
    + [show(s.options[0]), show(s.options[1]), show(s.options[2]), show(s.options[3]), show(s.options[4])]
  }

  predicate Readable(n: int, strto: StrtoInt, show: int -> string)
  {
    strto(show(n)) == Some(n) && Free(show(n), SEP2)
  }

  predicate Wellformed(s: Slave)
  {
    && |s.options| == NUM_OPTIONS && s.readerIndex == -1
    && Free(s.mastername, SEP2) && Free(s.masterport, SEP2) && Free(s.infifo, SEP2)
    && if s.slavetype == INFIFO then s.infifo != "" && s.mastername == s.masterport == ""
       else s.slavetype in {NBS1, NBS2} && s.mastername != "" && s.masterport != "" && s.infifo == ""
  }

  /** An entry written out with any of the field separators is read back, whatever
      the defaults. */
  lemma EntryReadsBack(s: Slave, seps: string, d: Defaults, strto: StrtoInt, show: int -> string)
    requires Wellformed(s) && ValidDefaults(d) && Readable(s.slavetype, strto, show)
    requires forall i :: 0 <= i < NUM_OPTIONS ==> Readable(s.options[i], strto, show)
    requires |seps| + 1 == |EntryFields(s, show)| && forall k :: 0 <= k < |seps| ==> seps[k] in SEP2
    ensures ConfigureEntry(Rejoin(EntryFields(s, show), seps), d, strto) == Good(s)
  {
    hide Segments;
    hide Rejoin;
    hide Configure;
    SegmentsUnique(EntryFields(s, show), seps, SEP2);
    FieldsReadBack(s, d, strto, show);
  }

  lemma OptionsReadBack(options: seq<int>, defaults: seq<int>, fields: seq<string>, strto: StrtoInt)
    requires |options| == |defaults| == |fields|
    requires forall i :: 0 <= i < |options| ==> strto(fields[i]) == Some(options[i])
    ensures Overridden(defaults, fields, strto) == options
  {
  }

  lemma FieldsReadBack(s: Slave, d: Defaults, strto: StrtoInt, show: int -> string)
    requires Wellformed(s) && ValidDefaults(d) && Readable(s.slavetype, strto, show)
    requires forall i :: 0 <= i < NUM_OPTIONS ==> Readable(s.options[i], strto, show)
    ensures Configure(EntryFields(s, show), d, strto) == Good(s)
  {
    hide Overridden;
    var f := EntryFields(s, show);
    OptionsReadBack(s.options, d.options, if s.slavetype == INFIFO then f[2..] else f[3..], strto);
  }

  function Shown(options: seq<int>, show: int -> string): (f: seq<string>)
    ensures |f| == |options| && forall i :: 0 <= i < |f| ==> f[i] == show(options[i])
  {
    seq(|options|, i requires 0 <= i < |options| => show(options[i]))
  }

  predicate AllReadable(options: seq<int>, strto: StrtoInt, show: int -> string)
  {
    forall i :: 0 <= i < |options| ==> Readable(options[i], strto, show)
  }

  /** The options given first, then the defaults of the others. */
  function Filled(options: seq<int>, d: Defaults): seq<int>
    requires ValidDefaults(d) && |options| <= NUM_OPTIONS
  {
    options + d.options[|options|..]
  }

  lemma OptionsFilled(options: seq<int>, d: Defaults, strto: StrtoInt, show: int -> string)
    requires ValidDefaults(d) && |options| <= NUM_OPTIONS && AllReadable(options, strto, show)
    ensures Overridden(d.options, Shown(options, show), strto) == Filled(options, d)
  {
  }

  /** The short forms of an entry for a network slave: the host alone, the host and
      the port, or also some of the options, with the port perhaps left empty. What
      is not given is the default. */
  lemma NetEntryReadsBack(slavetype: int, host: string, port: string, options: seq<int>, seps: string,
                          d: Defaults, strto: StrtoInt, show: int -> string)
    requires slavetype in {NBS1, NBS2} && Readable(slavetype, strto, show) && ValidDefaults(d)
    requires |options| <= NUM_OPTIONS && AllReadable(options, strto, show)
    requires Free(host, SEP2) && Free(port, SEP2) && host != "" && (port != "" || d.masterport != "")
    requires var f := [show(slavetype), host] + (if port == "" && options == [] then [] else [port])
                      + Shown(options, show);
             |seps| + 1 == |f|
    requires forall k :: 0 <= k < |seps| ==> seps[k] in SEP2
    ensures var f := [show(slavetype), host] + (if port == "" && options == [] then [] else [port])
                     + Shown(options, show);
            ConfigureEntry(Rejoin(f, seps), d, strto) ==
            Good(Slave(slavetype, host, if port == "" then d.masterport else port, "", Filled(options, d), -1))
  {
    hide Segments;
    hide Rejoin;
    hide Overridden;
    var f := [show(slavetype), host] + (if port == "" && options == [] then [] else [port]) + Shown(options, show);
    assert forall i :: 0 <= i < |f| ==> Free(f[i], SEP2);
    SegmentsUnique(f, seps, SEP2);
    OptionsFilled(options, d, strto, show);
    assert |f| > 3 ==> f[3..] == Shown(options, show);
    assert |f| <= 3 ==> options == [] && Shown(options, show) == [];
  }

  /** And those of an entry for a fifo. */
  lemma FifoEntryReadsBack(fifo: string, options: seq<int>, seps: string,
                           d: Defaults, strto: StrtoInt, show: int -> string)
    requires Readable(INFIFO, strto, show) && ValidDefaults(d)
    requires |options| <= NUM_OPTIONS && AllReadable(options, strto, show)
    requires Free(fifo, SEP2) && fifo != ""
    requires |seps| == |options| + 1 && forall k :: 0 <= k < |seps| ==> seps[k] in SEP2
    ensures ConfigureEntry(Rejoin([show(INFIFO), fifo] + Shown(options, show), seps), d, strto) ==
            Good(Slave(INFIFO, "", "", fifo, Filled(options, d), -1))
  {
    hide Segments;
    hide Rejoin;
    hide Overridden;
    var f := [show(INFIFO), fifo] + Shown(options, show);
    assert forall i :: 0 <= i < |f| ==> Free(f[i], SEP2);
    SegmentsUnique(f, seps, SEP2);
    OptionsFilled(options, d, strto, show);
    assert f[2..] == Shown(options, show);
  }

  /** What is refused: a type that is no number or none of the three, too few or too
      many fields, no host or fifo, and a port that is given as the last field but
      empty, or not given and without a default. */
  lemma RefusedExactlyWhen(f: seq<string>, d: Defaults, strto: StrtoInt)
    requires f != [] && ValidDefaults(d)
    ensures Configure(f, d, strto) == Invalid <==>
            || strto(f[0]) !in {Some(1), Some(2), Some(3)}
            || |f| < 2 || f[1] == ""
            || |f| > (if strto(f[0]) == Some(3) then 7 else 8)
            || (strto(f[0]) != Some(3) && (if |f| == 3 then f[2] == ""
                                           else (|f| == 2 || f[2] == "") && d.masterport == ""))
  {
  }

  /** The a[] array of slave_element_override_options: every write is in range. */
  method OverrideOptions(options: seq<int>, fields: seq<string>, strto: StrtoInt) returns (r: seq<int>)
    requires |options| == NUM_OPTIONS && |fields| <= NUM_OPTIONS
    ensures r == Overridden(options, fields, strto)
  {
    var a := new int[NUM_OPTIONS](i requires 0 <= i < NUM_OPTIONS => options[i]);
    for i := 0 to |fields|
      invariant forall k :: 0 <= k < NUM_OPTIONS ==>
                  a[k] == if k < i then Overridden(options, fields, strto)[k] else options[k]
    {
      var v := strto(fields[i]);
      if v.Some? {
        a[i] := v.value;
      }
    }
    r := a[..];
  }

  /** The C string at `off`. */
  method StringAt(buf: array<char>, off: nat, ghost token: string) returns (t: string)
    requires TokenAt(buf[..], off, token)
    ensures t == token
  {
    var e := off;
    assert forall i :: 0 <= i < |token| ==> buf[..][off..off + |token|][i] == token[i];
    while buf[e] != '\0'
      invariant off <= e <= off + |token|
      decreases off + |token| - e
    {
      e := e + 1;
    }
    t := buf[off..e];
  }

  /** The fields strsplit_create found. */
  method FieldsOf(s: string, delim: string) returns (f: seq<string>)
    requires s != [] && '\0' !in s
    ensures f == Segments(s, delim)
  {
    ghost var fields := Segments(s, delim);
    var found, sp, argv := Split(s, delim, true);
    f := [];
    for i := 0 to argv.Length
      invariant f == fields[..i]
      invariant forall k :: 0 <= k < |fields| ==> TokenAt(sp[..], argv[k], fields[k])
    {
      var t := StringAt(sp, argv[i], fields[i]);
      f := f + [t];
    }
  }

  /** slave_element_configure and slave_element_configure2 */
  method ConfigureElement(s: string, d: Defaults, strto: StrtoInt) returns (c: Config)
    requires s != [] && '\0' !in s && ValidDefaults(d)
    ensures c == ConfigureEntry(s, d, strto)
  {
    var argv := FieldsOf(s, SEP2);
    var slavetype := strto(argv[0]);
    if slavetype.None? {
      return Invalid;
    }
    var options := [];
    if slavetype.value == INFIFO {
      if !(2 <= |argv| <= IN_STRING_FIELDS) || argv[1] == "" {
        return Invalid;
      }
      options := OverrideOptions(d.options, argv[2..], strto);
      return Good(Slave(INFIFO, "", "", argv[1], options, -1));
    }
    var mastername, masterport := "", d.masterport;
    var given := [];
    if |argv| == 2 {
      mastername := argv[1];
    } else if |argv| == 3 {
      mastername, masterport := argv[1], argv[2];
    } else if 3 < |argv| <= NET_STRING_FIELDS {
      mastername := argv[1];
      if argv[2] != "" {
        masterport := argv[2];
      }
      given := argv[3..];
    } else {
      return Invalid;
    }
    if mastername == "" || masterport == "" || (slavetype.value != NBS1 && slavetype.value != NBS2) {
      return Invalid;
    }
    options := OverrideOptions(d.options, given, strto);
    c := Good(Slave(slavetype.value, mastername, masterport, "", options, -1));
  }

  // ---------- channel indices ----------

  /** The nbs1 readers among the slaves. */
  function Readers(slaves: seq<Slave>): nat
  {
    if slaves == [] then 0
    else Readers(slaves[..|slaves| - 1]) + if slaves[|slaves| - 1].slavetype == NBS1 then 1 else 0
  }

  function Base(noaaport: bool): nat { if noaaport then NPCAST_NUM_CHANNELS else 0 }

  /** The table with its reader indices. */
  function Indexed(slaves: seq<Slave>, noaaport: bool): (r: seq<Slave>)
    ensures |r| == |slaves|
  {
    if slaves == [] then []
    else
      var n := |slaves| - 1;
      Indexed(slaves[..n], noaaport)
      + [if slaves[n].slavetype == NBS1
         then slaves[n].(readerIndex := Base(noaaport) + Readers(slaves[..n])) else slaves[n]]
  }

  /** The channels init_pctl() opens. */
  function NumChannels(noaaport: bool, masterservers: bool, readers: nat): nat
  {
    Base(noaaport) + if !masterservers then 0 else if readers != 0 then readers else 1
  }

  lemma {:induction false} ReadersAfter(slaves: seq<Slave>, i: nat)
    requires i < |slaves| && slaves[i].slavetype == NBS1
    ensures Readers(slaves[..i]) < Readers(slaves)
  {
    var n := |slaves| - 1;
    if i < n {
      ReadersAfter(slaves[..n], i);
      assert slaves[..n][..i] == slaves[..i];
    }
  }

  /** What the table holds at k. */
  lemma {:induction false} IndexAt(slaves: seq<Slave>, noaaport: bool, k: nat)
    requires k < |slaves|
    ensures Indexed(slaves, noaaport)[k] ==
            if slaves[k].slavetype == NBS1
            then slaves[k].(readerIndex := Base(noaaport) + Readers(slaves[..k])) else slaves[k]
  {
    var n := |slaves| - 1;
    if k < n {
      IndexAt(slaves[..n], noaaport, k);
      assert slaves[..n][..k] == slaves[..k];
    }
  }

  /** Every nbs1 reader has a channel of its own, none of the noaaport ones, in
      table order. */
  lemma ChannelsAreApart(slaves: seq<Slave>, noaaport: bool, i: nat, j: nat)
    requires i < j < |slaves| && slaves[i].slavetype == NBS1 && slaves[j].slavetype == NBS1
    ensures var t := Indexed(slaves, noaaport);
            && (if noaaport then 9 else 0) <= t[i].readerIndex < t[j].readerIndex
            && t[j].readerIndex < (if noaaport then 9 else 0) + Readers(slaves)
  {
    IndexAt(slaves, noaaport, i);
    IndexAt(slaves, noaaport, j);
    ReadersAfter(slaves[..j], i);
    assert slaves[..j][..i] == slaves[..i];
    ReadersAfter(slaves, j);
  }

  /** Every reader's channel is one that init_pctl() opens, exactly when the
      master servers mode is on or there is no such reader. */
  lemma ChannelsAreOpen(slaves: seq<Slave>, noaaport: bool, masterservers: bool)
    ensures masterservers || Readers(slaves) == 0 <==>
            forall k :: 0 <= k < |slaves| && slaves[k].slavetype == NBS1 ==>
              Indexed(slaves, noaaport)[k].readerIndex < NumChannels(noaaport, masterservers, Readers(slaves))
  {
    forall k | 0 <= k < |slaves| && slaves[k].slavetype == NBS1
      ensures Indexed(slaves, noaaport)[k].readerIndex < NumChannels(noaaport, masterservers, Readers(slaves))
              <==> masterservers || Readers(slaves) == 0
    {
      IndexAt(slaves, noaaport, k);
      ReadersAfter(slaves, k);
    }
    if Readers(slaves) != 0 {
      var k := SomeReader(slaves);
    }
  }

  /** Indexing changes nothing but the index of the nbs1 readers. */
  lemma OnlyIndexed(slaves: seq<Slave>, noaaport: bool, k: nat)
    requires k < |slaves|
    ensures var t := Indexed(slaves, noaaport)[k];
            && t.(readerIndex := slaves[k].readerIndex) == slaves[k]
            && (slaves[k].slavetype != 1 ==> t == slaves[k])
  {
    IndexAt(slaves, noaaport, k);
  }

  /** Every channel past the noaaport ones that init_pctl() opens for readers is the
      channel of one of them. */
  lemma {:induction false} ChannelsAreUsed(slaves: seq<Slave>, noaaport: bool, c: nat) returns (k: nat)
    requires Readers(slaves) > 0 && (if noaaport then 9 else 0) <= c < NumChannels(noaaport, true, Readers(slaves))
    ensures k < |slaves| && slaves[k].slavetype == 1 && Indexed(slaves, noaaport)[k].readerIndex == c
  {
    var n := |slaves| - 1;
    var last := Readers(slaves[..n]);
    if slaves[n].slavetype == NBS1 && c == Base(noaaport) + last {
      k := n;
    } else {
      k := ChannelsAreUsed(slaves[..n], noaaport, c);
    }
  }

  lemma {:induction false} SomeReader(slaves: seq<Slave>) returns (k: nat)
    requires Readers(slaves) != 0
    ensures k < |slaves| && slaves[k].slavetype == NBS1
  {
    k := |slaves| - 1;
    if slaves[k].slavetype != NBS1 {
      k := SomeReader(slaves[..k]);
    }
  }

  /** The last loop of slave_table_create. */
  method AssignIndices(slave: array<Slave>, noaaport: bool) returns (numReaders: nat)
    modifies slave
    ensures slave[..] == Indexed(old(slave[..]), noaaport) && numReaders == Readers(old(slave[..]))
  {
    ghost var was := slave[..];
    numReaders := 0;
    for i := 0 to slave.Length
      invariant numReaders == Readers(was[..i])
      invariant slave[..i] == Indexed(was[..i], noaaport)
      invariant forall k :: i <= k < slave.Length ==> slave[k] == was[k]
    {
      assert was[..i + 1][..i] == was[..i];
      ghost var done := slave[..i];
      if slave[i].slavetype == NBS1 {
        var index := numReaders;
        if noaaport {
          index := index + NPCAST_NUM_CHANNELS;
        }
        slave[i] := slave[i].(readerIndex := index);
        numReaders := numReaders + 1;
      }
      assert slave[..i + 1] == done + [slave[i]];
    }
    assert was[..slave.Length] == was;
  }

  // ---------- the whole table ----------

  /** slave_table_create's result; IncorrectAllocation when the filling pass finds
      more entries than the counting pass. */
  datatype Outcome = Table(slaves: seq<Slave>, readers: nat) | Refused(status: int) | IncorrectAllocation

  predicate Configured(entries: seq<string>, d: Defaults, strto: StrtoInt, slaves: seq<Slave>)
    requires ValidDefaults(d)
  {
    && |slaves| == |entries|
    && forall k :: 0 <= k < |entries| ==> ConfigureEntry(entries[k], d, strto) == Good(slaves[k])
  }

  predicate Misconfigured(entries: seq<string>, d: Defaults, strto: StrtoInt)
    requires ValidDefaults(d)
  {
    entries == [] || exists k :: 0 <= k < |entries| && ConfigureEntry(entries[k], d, strto) == Invalid
  }

  method Copy(s: string) returns (buf: array<char>)
    requires '\0' !in s
    ensures fresh(buf) && Holds(buf[..], s, 0)
  {
    buf := new char[|s| + 1](i requires 0 <= i => if i < |s| then s[i] else '\0');
    assert buf[..][0..|s|] == s[0..];
  }

  method CountSlaves(masterservers: string) returns (n: nat)
    requires '\0' !in masterservers
    ensures n == |Fields(masterservers, SEP1, false)|
  {
    hide FieldsFrom;
    var copy := Copy(masterservers);
    n := 0;
    var q: int := 0;
    FromStart(masterservers, SEP1, false);
    while q != -1
      invariant q == -1 || (0 <= q && Holds(copy[..], masterservers, q))
      invariant n + |FieldsFrom(masterservers, q, SEP1, false)| == |Fields(masterservers, SEP1, false)|
      decreases if q == -1 then 0 else |masterservers| + 2 - q
    {
      var keep;
      ghost var token;
      q, keep, token := NextField(copy, masterservers, q, SEP1, false);
      if keep {
        n := n + 1;
      }
    }
    FromEnd(masterservers, SEP1, false);
  }

  /** The filling pass. */
  method FillSlaves(masterservers: string, slave: array<Slave>, d: Defaults, strto: StrtoInt)
    returns (status: int, fits: bool)
    requires '\0' !in masterservers && ValidDefaults(d)
    requires slave.Length == |Fields(masterservers, SEP1, false)|
    modifies slave
    ensures fits && (status == 0 || status == 1)
    ensures status == 0 ==> Configured(Fields(masterservers, SEP1, false), d, strto, slave[..])
    ensures status == 1 ==>
              exists k :: 0 <= k < |Fields(masterservers, SEP1, false)| &&
                ConfigureEntry(Fields(masterservers, SEP1, false)[k], d, strto) == Invalid
  {
    hide FieldsFrom;
    hide Fields;
    hide ConfigureEntry;
    ghost var all := Fields(masterservers, SEP1, false);
    ghost var done := [];
    var copy := Copy(masterservers);
    var i, q: int := 0, 0;
    status, fits := 0, true;
    FromStart(masterservers, SEP1, false);
    while q != -1
      invariant q == -1 || (0 <= q && Holds(copy[..], masterservers, q))
      invariant 0 <= i == |done| <= slave.Length && status == 0 && fits
      invariant done + FieldsFrom(masterservers, q, SEP1, false) == all
      invariant forall k :: 0 <= k < i ==> ConfigureEntry(done[k], d, strto) == Good(slave[k])
      decreases if q == -1 then 0 else |masterservers| + 2 - q
    {
      var p := q;
      var keep;
      ghost var token;
      q, keep, token := NextField(copy, masterservers, p, SEP1, false);
      FieldMoves(done, Kept(token, false), FieldsFrom(masterservers, q, SEP1, false), all);
      if keep {
        if i == slave.Length {
          status, fits := 1, false;
          break;
        }
        var entry := StringAt(copy, p, token);
        var c := ConfigureElement(entry, d, strto);
        if c.Invalid? {
          status := 1;
          assert all[i] == entry;
          return;
        }
        slave[i] := c.slave;
        i := i + 1;
      }
      done := done + Kept(token, false);
    }
    FromEnd(masterservers, SEP1, false);
  }

  /** slave_table_create: the two passes agree, an entry that is not accepted
      refuses the whole table, and each slave comes from its own entry. */
  method CreateTable(masterservers: string, d: Defaults, strto: StrtoInt, noaaport: bool) returns (t: Outcome)
    requires '\0' !in masterservers && ValidDefaults(d)
    ensures var entries := Fields(masterservers, SEP1, false);
            && t != IncorrectAllocation
            && (t == Refused(-1) <==> masterservers == "")
            && (t == Refused(1) <==> masterservers != "" && Misconfigured(entries, d, strto))
            && (t.Table? <==> !Misconfigured(entries, d, strto))
            && (t.Table? ==> exists slaves ::
                  && Configured(entries, d, strto, slaves)
                  && t == Table(Indexed(slaves, noaaport), Readers(slaves)))
  {
    hide Fields;
    hide ConfigureEntry;
    if masterservers == "" {
      EmptyString();
      return Refused(-1);
    }
    var n := CountSlaves(masterservers);
    if n == 0 {
      return Refused(1);
    }
    var slave := new Slave[n](_ => Slave(0, "", "", "", [], -1));
    var status, fits := FillSlaves(masterservers, slave, d, strto);
    if status != 0 {
      return if fits then Refused(1) else IncorrectAllocation;
    }
    ghost var slaves := slave[..];
    var readers := AssignIndices(slave, noaaport);
    t := Table(slave[..], readers);
    assert Configured(Fields(masterservers, SEP1, false), d, strto, slaves);
  }

  lemma EmptyString()
    ensures Fields("", SEP1, false) == []
  {
    assert NonEmpty([[]]) == NonEmpty([]);
  }

  // ---------- the configuration string of the input fifo mode ----------

  /** slave_make_configuration_string */
  function ConfigurationString(infifo: string, masterservers: string, mastersEnabled: bool): string
  {
    "3," + infifo + if mastersEnabled then "\n" + masterservers else ""
  }

  /** The fifo becomes the first entry, ahead of all the masters. */
  lemma FifoComesFirst(infifo: string, masterservers: string, mastersEnabled: bool)
    requires Free(infifo, SEP1)
    ensures Fields(ConfigurationString(infifo, masterservers, mastersEnabled), SEP1, false) ==
            ["3," + infifo] + if mastersEnabled then Fields(masterservers, SEP1, false) else []
  {
    var s, head := ConfigurationString(infifo, masterservers, mastersEnabled), "3," + infifo;
    assert Free(head, SEP1);
    if mastersEnabled {
      assert s[..|head|] == head && s[|head| + 1..] == masterservers;
      FirstSegment(s, SEP1, |head|);
      FieldsStep(s, head, masterservers, SEP1, false);
    } else {
      assert s == head;
      WholeSegment(s, SEP1);
      FieldsStep(s, head, "", SEP1, false);
    }
  }
}
