/** The spool ring (src/spooldb.c): the names of the files in the spool
    directory, and which of them goes when a new one comes. */
module SpoolDb {
  import opened Common

  /** The slots as names ("" for an unused one) and the next slot to fill. */
  datatype Ring = Ring(slots: seq<string>, slot: nat)

  predicate ValidRing(r: Ring) { r.slot < |r.slots| }

  function NextSlot(r: Ring): nat
    requires ValidRing(r)
  {
    if r.slot + 1 == |r.slots| then 0 else r.slot + 1
  }

  /** spooldb_insert */
  function Insert(r: Ring, key: string): (t: Ring)
    requires ValidRing(r)
    ensures ValidRing(t)
  {
    Ring(r.slots[r.slot := key], NextSlot(r))
  }

  function Unused(n: nat): (s: seq<string>)
    ensures |s| == n && forall i :: 0 <= i < n ==> s[i] == ""
  {
    seq(n, i => "")
  }

  /** spooldb_write, then spooldb_read into a ring of at least as many slots. */
  function Reload(r: Ring, numslots: nat): (t: Ring)
    requires ValidRing(r) && |r.slots| <= numslots
    ensures ValidRing(t)
  {
    Ring(r.slots + Unused(numslots - |r.slots|), r.slot)
  }

  // ---------- oldest first ----------

  function NonEmpty(s: seq<string>): seq<string>
  {
    if s == [] then [] else (if s[0] == "" then [] else [s[0]]) + NonEmpty(s[1..])
  }

  lemma {:induction false} NonEmptyAppend(a: seq<string>, b: seq<string>)
    ensures NonEmpty(a + b) == NonEmpty(a) + NonEmpty(b)
  {
    if a == [] {
      assert a + b == b;
    } else {
      assert (a + b)[1..] == a[1..] + b;
      NonEmptyAppend(a[1..], b);
    }
  }

  lemma {:induction false} NonEmptyUnused(s: seq<string>)
    requires forall i :: 0 <= i < |s| ==> s[i] == ""
    ensures NonEmpty(s) == []
  {
    if s != [] {
      NonEmptyUnused(s[1..]);
    }
  }

  lemma {:induction false} NonEmptyBound(s: seq<string>)
    ensures |NonEmpty(s)| <= |s|
  {
    if s != [] {
      NonEmptyBound(s[1..]);
    }
  }

  /** The names in the ring, read cyclically from the next slot. */
  function Live(r: Ring): seq<string>
    requires ValidRing(r)
  {
    NonEmpty(r.slots[r.slot..] + r.slots[..r.slot])
  }

  /** What an insertion pushes out: nothing, or the oldest name. */
  lemma InsertIsFifo(r: Ring, key: string)
    requires ValidRing(r) && key != ""
    ensures var oldkey := r.slots[r.slot];
            && (oldkey != "" ==> Live(r) != [] && Live(r)[0] == oldkey)
            && Live(Insert(r, key)) == (if oldkey == "" then Live(r) else Live(r)[1..]) + [key]
  {
    var rest := r.slots[r.slot + 1..] + r.slots[..r.slot];
    assert r.slots[r.slot..] + r.slots[..r.slot] == [r.slots[r.slot]] + rest;
    NonEmptyAppend([r.slots[r.slot]], rest);
    var t := Insert(r, key);
    assert t.slots[t.slot..] + t.slots[..t.slot] == rest + [key];
    NonEmptyAppend(rest, [key]);
  }

  /** Saving and reloading into an equal or larger ring changes no name and no order. */
  lemma ReloadKeepsOrder(r: Ring, numslots: nat)
    requires ValidRing(r) && |r.slots| <= numslots
    ensures Live(Reload(r, numslots)) == Live(r)
  {
    var t, pad := Reload(r, numslots), Unused(numslots - |r.slots|);
    assert t.slots[t.slot..] + t.slots[..t.slot] == (r.slots[r.slot..] + pad) + r.slots[..r.slot];
    NonEmptyAppend(r.slots[r.slot..] + pad, r.slots[..r.slot]);
    NonEmptyAppend(r.slots[r.slot..], pad);
    NonEmptyAppend(r.slots[r.slot..], r.slots[..r.slot]);
    NonEmptyUnused(pad);
  }

  // ---------- the spool directory ----------

  /** ... and the ring then has as many slots as it is given. */
  lemma RestartKeepsNames(s: Spool, n: nat)
    requires ValidRing(s.ring)
    ensures var t := Apply(s, ReloadOp(n));
            && t.disk == s.disk && ValidRing(t.ring) && Live(t.ring) == Live(s.ring)
            && |t.ring.slots| == if |s.ring.slots| <= n then n else |s.ring.slots|
  {
    if |s.ring.slots| <= n {
      ReloadKeepsOrder(s.ring, n);
    }
  }

  /** What happens to the directory: a product's file is written whole and its
      name entered in the ring, which may or may not manage to delete the file
      whose slot it takes; a save that fails leaves what it had written and enters
      nothing; nbsp is restarted with at least as many slots. */
  datatype Op =
    | SaveOp(path: string, data: Bytes, delOk: bool)
    | FailOp(path: string, left: Bytes)
    | ReloadOp(numslots: nat)

  /** A ring without slots is one that is not in use. */
  datatype Spool = Spool(ring: Ring, disk: map<string, Bytes>)

  function OldKey(r: Ring): string { if ValidRing(r) then r.slots[r.slot] else "" }

  function Apply(s: Spool, op: Op): (t: Spool)
  {
    match op
    case SaveOp(path, data, delOk) =>
      var d := s.disk[path := data];
      Spool(if ValidRing(s.ring) then Insert(s.ring, path) else s.ring,
            if delOk && OldKey(s.ring) != "" then d - {OldKey(s.ring)} else d)
    case FailOp(path, left) => s.(disk := s.disk[path := left])
    case ReloadOp(n) =>
      if ValidRing(s.ring) && |s.ring.slots| <= n then s.(ring := Reload(s.ring, n)) else s
  }

  function RunOps(s: Spool, ops: seq<Op>): (t: Spool)
  {
    if ops == [] then s else Apply(RunOps(s, ops[..|ops| - 1]), ops[|ops| - 1])
  }

  predicate ValidOps(ops: seq<Op>)
  {
    forall i :: 0 <= i < |ops| && !ops[i].ReloadOp? ==> ops[i].path != ""
  }

  /** The names entered, in order. */
  function Entered(ops: seq<Op>): seq<string>
  {
    if ops == [] then []
    else Entered(ops[..|ops| - 1]) + if ops[|ops| - 1].SaveOp? then [ops[|ops| - 1].path] else []
  }

  /** The paths of failed saves. */
  function Failed(ops: seq<Op>): set<string>
  {
    if ops == [] then {}
    else Failed(ops[..|ops| - 1]) + if ops[|ops| - 1].FailOp? then {ops[|ops| - 1].path} else {}
  }

  /** The names pushed out whose files could not be deleted. */
  function Undeleted(s: Spool, ops: seq<Op>): set<string>
  {
    if ops == [] then {}
    else
      var n := |ops| - 1;
      Undeleted(s, ops[..n])
      + if ops[n].SaveOp? && !ops[n].delOk then {OldKey(RunOps(s, ops[..n]).ring)} else {}
  }

  /** The latest attempt to write a path. */
  function LastAttempt(ops: seq<Op>, path: string): (r: Option<Op>)
    ensures r.Some? ==> !r.value.ReloadOp? && r.value.path == path && r.value in ops
  {
    if ops == [] then None
    else
      var n := |ops| - 1;
      if !ops[n].ReloadOp? && ops[n].path == path then Some(ops[n]) else LastAttempt(ops[..n], path)
  }

  /** What an attempt leaves at its path. */
  function LeftBy(op: Op): Bytes
    requires !op.ReloadOp?
  {
    if op.SaveOp? then op.data else op.left
  }

  predicate IsSuffix(a: seq<string>, b: seq<string>)
  {
    |a| <= |b| && a == b[|b| - |a|..]
  }

  function Names(s: seq<string>): set<string> { set i | 0 <= i < |s| :: s[i] }

  predicate AllDistinct(s: seq<string>)
  {
    forall i, j :: 0 <= i < j < |s| ==> s[i] != s[j]
  }

  lemma NamesAppend(s: seq<string>, key: string)
    ensures Names(s + [key]) == Names(s) + {key}
  {
    assert (s + [key])[|s|] == key;
    assert forall i :: 0 <= i < |s| ==> (s + [key])[i] == s[i];
  }

  lemma NamesFirst(s: seq<string>)
    requires s != []
    ensures Names(s) == {s[0]} + Names(s[1..])
  {
    assert forall i :: 1 <= i < |s| ==> s[i] == s[1..][i - 1];
  }

  lemma {:induction false} NoEmptyNames(s: seq<string>)
    ensures "" !in Names(NonEmpty(s))
  {
    if s != [] {
      NoEmptyNames(s[1..]);
      var tail := NonEmpty(s[1..]);
      forall i | 0 <= i < |NonEmpty(s)| ensures NonEmpty(s)[i] != "" {
        if s[0] == "" {
          assert NonEmpty(s)[i] == tail[i];
        } else if i > 0 {
          assert NonEmpty(s)[i] == tail[i - 1];
        }
      }
    }
  }

  /** The names in the ring before and after a save. */
  lemma LiveAfterSave(r: Ring, key: string)
    requires ValidRing(r) && key != ""
    ensures var oldkey := OldKey(r);
            && Names(Live(Insert(r, key))) == Names(if oldkey == "" then Live(r) else Live(r)[1..]) + {key}
            && (oldkey != "" ==>
                  Live(r) != [] && Live(r)[0] == oldkey && Names(Live(r)) == {oldkey} + Names(Live(r)[1..]))
  {
    hide NonEmpty;
    InsertIsFifo(r, key);
    var rest := if OldKey(r) == "" then Live(r) else Live(r)[1..];
    NamesAppend(rest, key);
    if OldKey(r) != "" {
      NamesFirst(Live(r));
    }
  }

  /** When the directory holds the files of the ring, it still does after a save
      if and only if the name pushed out is neither the new one nor in the ring a
      second time; otherwise a file that is wanted is deleted. */
  lemma FilesAfterInsert(s: Spool, path: string, data: Bytes)
    requires ValidRing(s.ring) && path != "" && s.disk.Keys == Names(Live(s.ring))
    ensures var t := Apply(s, SaveOp(path, data, true));
            var oldkey := OldKey(s.ring);
            t.disk.Keys == Names(Live(t.ring)) <==>
            oldkey == "" || (oldkey != path && Live(s.ring) != [] && oldkey !in Names(Live(s.ring)[1..]))
  {
    hide Live;
    LiveAfterSave(s.ring, path);
    var t := Apply(s, SaveOp(path, data, true));
    assert t.disk.Keys == (s.disk.Keys + {path}) - (if OldKey(s.ring) != "" then {OldKey(s.ring)} else {});
  }

  /** In every ring, using the oldest name again deletes the file just written. */
  lemma ReusedNameIsDeleted(s: Spool, data: Bytes)
    requires ValidRing(s.ring) && OldKey(s.ring) != ""
    ensures var path := OldKey(s.ring);
            var t := Apply(s, SaveOp(path, data, true));
            path !in t.disk && Live(t.ring) != [] && Live(t.ring)[|Live(t.ring)| - 1] == path
  {
    InsertIsFifo(s.ring, OldKey(s.ring));
  }

  // ---------- whole runs ----------

  /** A new ring and an empty directory. */
  predicate Fresh(s: Spool)
  {
    ValidRing(s.ring) && Live(s.ring) == [] && s.disk == map[]
  }

  lemma {:induction false} RingStaysValid(s: Spool, ops: seq<Op>)
    requires ValidRing(s.ring)
    ensures ValidRing(RunOps(s, ops).ring)
  {
    if ops != [] {
      RingStaysValid(s, ops[..|ops| - 1]);
    }
  }

  /** The ring holds the latest names entered, oldest first. */
  lemma {:induction false} RingHoldsLatest(s: Spool, ops: seq<Op>)
    requires Fresh(s) && ValidOps(ops)
    ensures var r := RunOps(s, ops).ring;
            ValidRing(r) && IsSuffix(Live(r), Entered(ops))
  {
    hide Live;
    RingStaysValid(s, ops);
    if ops != [] {
      var n := |ops| - 1;
      RingHoldsLatest(s, ops[..n]);
      var r, past := RunOps(s, ops[..n]).ring, Entered(ops[..n]);
      match ops[n]
      case SaveOp(path, _, _) =>
        InsertIsFifo(r, path);
        SuffixGrows(Live(r), past, path);
      case FailOp(_, _) =>
      case ReloadOp(m) =>
        if |r.slots| <= m {
          ReloadKeepsOrder(r, m);
        }
    }
  }

  /** The ring after so many names were entered since it was new. */
  predicate Filled(r: Ring, count: nat)
  {
    && ValidRing(r)
    && (forall i :: 0 <= i < |r.slots| ==> (r.slots[i] != "" <==> i < count))
    && (count < |r.slots| ==> r.slot == count)
  }

  lemma {:induction false} RingFills(s: Spool, ops: seq<Op>)
    requires Filled(s.ring, 0) && ValidOps(ops) && forall i :: 0 <= i < |ops| ==> !ops[i].ReloadOp?
    ensures Filled(RunOps(s, ops).ring, |Entered(ops)|) && |RunOps(s, ops).ring.slots| == |s.ring.slots|
  {
    if ops != [] {
      RingFills(s, ops[..|ops| - 1]);
    }
  }

  lemma {:induction false} FilledHolds(slots: seq<string>, count: nat)
    requires forall i :: 0 <= i < |slots| ==> (slots[i] != "" <==> i < count)
    ensures |NonEmpty(slots)| == Min(count, |slots|)
    decreases |slots|
  {
    if slots != [] {
      FilledHolds(slots[1..], if count == 0 then 0 else count - 1);
    }
  }

  /** Until there is a restart, the ring holds the latest names up to its size. */
  lemma RingIsFull(s: Spool, ops: seq<Op>)
    requires Filled(s.ring, 0) && ValidOps(ops) && forall i :: 0 <= i < |ops| ==> !ops[i].ReloadOp?
    ensures var r := RunOps(s, ops).ring;
            ValidRing(r) && |Live(r)| == Min(|Entered(ops)|, |s.ring.slots|)
  {
    hide NonEmpty;
    RingFills(s, ops);
    var r := RunOps(s, ops).ring;
    FilledHolds(r.slots, |Entered(ops)|);
    NonEmptyAppend(r.slots[..r.slot], r.slots[r.slot..]);
    NonEmptyAppend(r.slots[r.slot..], r.slots[..r.slot]);
    assert r.slots == r.slots[..r.slot] + r.slots[r.slot..];
  }

  lemma SuffixGrows(a: seq<string>, b: seq<string>, key: string)
    requires IsSuffix(a, b)
    ensures IsSuffix(a + [key], b + [key])
    ensures a != [] ==> IsSuffix(a[1..] + [key], b + [key])
  {
  }

  /** Every file is what the latest attempt on its path left there: the product's
      data if and only if that attempt wrote it whole. */
  lemma {:induction false} FilesAreLastAttempts(s: Spool, ops: seq<Op>, path: string)
    requires s.disk == map[] && path in RunOps(s, ops).disk
    ensures var last := LastAttempt(ops, path);
            last.Some? && RunOps(s, ops).disk[path] == LeftBy(last.value)
  {
    var n := |ops| - 1;
    if ops[n].ReloadOp? || ops[n].path != path {
      FilesAreLastAttempts(s, ops[..n], path);
    }
  }

  /** Nothing is in the directory but the files of the ring, what failed saves
      left, and what could not be deleted. */
  lemma {:induction false} FilesAccountedFor(s: Spool, ops: seq<Op>)
    requires Fresh(s) && ValidOps(ops)
    ensures var t := RunOps(s, ops);
            && ValidRing(t.ring)
            && t.disk.Keys <= Names(Live(t.ring)) + Failed(ops) + Undeleted(s, ops)
  {
    hide Live;
    RingStaysValid(s, ops);
    if ops != [] {
      var n := |ops| - 1;
      FilesAccountedFor(s, ops[..n]);
      RingStaysValid(s, ops[..n]);
      var u := RunOps(s, ops[..n]);
      match ops[n]
      case SaveOp(path, _, _) =>
        LiveAfterSave(u.ring, path);
      case FailOp(_, _) =>
      case ReloadOp(m) =>
        if |u.ring.slots| <= m {
          ReloadKeepsOrder(u.ring, m);
        }
    }
  }

  lemma {:induction false} NamesBound(s: seq<string>)
    ensures |Names(s)| <= |s|
  {
    if s != [] {
      NamesBound(s[..|s| - 1]);
      NamesAppend(s[..|s| - 1], s[|s| - 1]);
      assert s == s[..|s| - 1] + [s[|s| - 1]];
    }
  }

  lemma SizeOfSubset(a: set<string>, b: set<string>)
    requires a <= b
    ensures |a| <= |b|
  {
    assert b == a + (b - a);
  }

  /** The directory has at most a file for each slot, each path of a failed save,
      and each name that could not be deleted. */
  lemma DirectoryBound(s: Spool, ops: seq<Op>)
    requires Fresh(s) && ValidOps(ops)
    ensures var t := RunOps(s, ops);
            |t.disk| <= |t.ring.slots| + |Failed(ops) + Undeleted(s, ops)|
  {
    FilesAccountedFor(s, ops);
    var t := RunOps(s, ops);
    var live, others := Names(Live(t.ring)), Failed(ops) + Undeleted(s, ops);
    NonEmptyBound(t.ring.slots[t.ring.slot..] + t.ring.slots[..t.ring.slot]);
    NamesBound(Live(t.ring));
    assert live + Failed(ops) + Undeleted(s, ops) == live + others;
    SizeOfSubset(t.disk.Keys, live + others);
    assert |live + others| <= |live| + |others|;
  }

  /** With names that are not reused, the file of every name in the ring is there. */
  lemma {:induction false} RingFilesAreThere(s: Spool, ops: seq<Op>)
    requires Fresh(s) && ValidOps(ops) && AllDistinct(Entered(ops))
    ensures var t := RunOps(s, ops);
            ValidRing(t.ring) && Names(Live(t.ring)) <= t.disk.Keys
  {
    hide Live;
    RingStaysValid(s, ops);
    if ops != [] {
      var n := |ops| - 1;
      DistinctPrefix(ops);
      RingFilesAreThere(s, ops[..n]);
      var u := RunOps(s, ops[..n]);
      match ops[n]
      case SaveOp(path, _, _) =>
        LiveAfterSave(u.ring, path);
        RingHoldsLatest(s, ops[..n]);
        OldestIsGone(Live(u.ring), Entered(ops[..n]), path);
      case FailOp(_, _) =>
      case ReloadOp(m) =>
        if |u.ring.slots| <= m {
          ReloadKeepsOrder(u.ring, m);
        }
    }
  }

  lemma DistinctPrefix(ops: seq<Op>)
    requires ops != [] && AllDistinct(Entered(ops))
    ensures AllDistinct(Entered(ops[..|ops| - 1]))
    ensures ops[|ops| - 1].SaveOp? ==> AllDistinct(Entered(ops[..|ops| - 1]) + [ops[|ops| - 1].path])
  {
    var a, b := Entered(ops[..|ops| - 1]), Entered(ops);
    forall i, j | 0 <= i < j < |a| ensures a[i] != a[j] {
      assert b[i] != b[j];
    }
  }

  lemma OldestIsGone(live: seq<string>, past: seq<string>, key: string)
    requires IsSuffix(live, past) && AllDistinct(past + [key])
    ensures live != [] ==> live[0] != key && live[0] !in Names(live[1..])
  {
    if live != [] {
      var all, b := past + [key], |past| - |live|;
      assert all[b] == live[0] && all[|past|] == key;
      forall i | 0 <= i < |live[1..]| ensures live[1..][i] != live[0] {
        assert live[1..][i] == all[b + 1 + i];
      }
    }
  }

  lemma FilledIsFresh(s: Spool)
    requires Filled(s.ring, 0) && s.disk == map[]
    ensures Fresh(s)
  {
    NonEmptyUnused(s.ring.slots[s.ring.slot..] + s.ring.slots[..s.ring.slot]);
  }

  /** Until there is a restart, and with names that are not reused, the files of
      the latest names are there, as many as the ring has slots. */
  lemma LatestAreThere(s: Spool, ops: seq<Op>, k: nat)
    requires Filled(s.ring, 0) && s.disk == map[] && ValidOps(ops) && AllDistinct(Entered(ops))
    requires forall i :: 0 <= i < |ops| ==> !ops[i].ReloadOp?
    requires k < |Entered(ops)| <= k + |s.ring.slots|
    ensures Entered(ops)[k] in RunOps(s, ops).disk
  {
    hide Live;
    hide RunOps;
    hide Entered;
    FilledIsFresh(s);
    RingIsFull(s, ops);
    RingHoldsLatest(s, ops);
    RingFilesAreThere(s, ops);
    var live, all := Live(RunOps(s, ops).ring), Entered(ops);
    assert live[k - (|all| - |live|)] == all[k];
  }

  lemma {:induction false} FailedAre(ops: seq<Op>, op: Op)
    requires op in ops && op.FailOp?
    ensures op.path in Failed(ops)
  {
    var n := |ops| - 1;
    if ops[n] != op {
      FailedAre(ops[..n], op);
    }
  }

  /** What a failed save leaves is never deleted, unless the path is saved later
      or was before. */
  lemma {:induction false} ResidueStays(s: Spool, ops: seq<Op>, path: string)
    requires Fresh(s) && ValidOps(ops) && path in Failed(ops) && path !in Names(Entered(ops))
    ensures path in RunOps(s, ops).disk
  {
    hide Live;
    var n := |ops| - 1;
    RingStaysValid(s, ops[..n]);
    RingHoldsLatest(s, ops[..n]);
    var u, past := RunOps(s, ops[..n]), Entered(ops[..n]);
    assert forall i :: 0 <= i < |past| ==> Entered(ops)[i] == past[i];
    assert path !in Names(past);
    if path in Failed(ops[..n]) {
      ResidueStays(s, ops[..n], path);
    }
    if ops[n].SaveOp? {
      assert Entered(ops)[|past|] == ops[n].path;
      LiveAfterSave(u.ring, ops[n].path);
      if OldKey(u.ring) != "" {
        assert past[|past| - |Live(u.ring)|] == OldKey(u.ring);
      }
    }
  }

  /** The C string at the start of a buffer. */
  function CStr(s: seq<char>): string
  {
    if s == [] || s[0] == '\0' then [] else [s[0]] + CStr(s[1..])
  }

  lemma {:induction false} CStrReadsBack(key: string, tail: seq<char>)
    requires '\0' !in key
    ensures CStr(key + ['\0'] + tail) == key
  {
    var s := key + ['\0'] + tail;
    if key != [] {
      assert s[1..] == key[1..] + ['\0'] + tail;
      CStrReadsBack(key[1..], tail);
    }
  }

  /** Where slot k starts in the key buffer. */
  function Offset(k: nat, size: nat): nat
  {
    if k == 0 then 0 else Offset(k - 1, size) + size
  }

  lemma {:induction false} OffsetIsProduct(k: nat, size: nat)
    ensures Offset(k, size) == k * size
  {
    if k > 0 {
      OffsetIsProduct(k - 1, size);
    }
  }

  lemma {:induction false} OffsetsApart(j: nat, k: nat, size: nat)
    requires j < k
    ensures Offset(j, size) + size <= Offset(k, size)
  {
    if j < k - 1 {
      OffsetsApart(j, k - 1, size);
    }
  }

  function SlotBytes(buf: seq<char>, k: nat, n: nat, size: nat): (s: seq<char>)
    requires |buf| == Offset(n, size) && k < n
    ensures Offset(k, size) + size <= |buf| && |s| == size
  {
    OffsetsApart(k, n, size);
    buf[Offset(k, size)..Offset(k, size) + size]
  }

  /** The buffer of n slots holds these names. */
  predicate Holds(buf: seq<char>, slots: seq<string>, n: nat, size: nat)
  {
    && |buf| == Offset(n, size) && |slots| == n
    && forall k :: 0 <= k < n ==> slots[k] == CStr(SlotBytes(buf, k, n, size))
  }

  lemma BlankHolds(buf: seq<char>, n: nat, size: nat)
    requires |buf| == Offset(n, size) && forall i :: 0 <= i < |buf| ==> buf[i] == '\0'
    ensures Holds(buf, Unused(n), n, size)
  {
  }

  /** Writing a name at the start of its slot leaves the other slots alone. */
  lemma OneSlotWritten(buf: seq<char>, slots: seq<string>, n: nat, size: nat, at: nat, key: string, buf': seq<char>)
    requires Holds(buf, slots, n, size) && at < n && |key| < size && '\0' !in key
    requires |buf'| == |buf|
    requires forall i :: 0 <= i < |buf| ==>
               buf'[i] == if Offset(at, size) <= i < Offset(at, size) + |key| then key[i - Offset(at, size)]
                          else if i == Offset(at, size) + |key| then '\0'
                          else buf[i]
    ensures Holds(buf', slots[at := key], n, size)
  {
    hide Offset;
    hide CStr;
    forall k | 0 <= k < n ensures CStr(SlotBytes(buf', k, n, size)) == slots[at := key][k] {
      var s := SlotBytes(buf', k, n, size);
      if k == at {
        assert s == key + ['\0'] + s[|key| + 1..];
        CStrReadsBack(key, s[|key| + 1..]);
      } else {
        OffsetsApart(if k < at then k else at, if k < at then at else k, size);
        var t, o := SlotBytes(buf, k, n, size), Offset(k, size);
        forall i | 0 <= i < size ensures s[i] == t[i] {
          assert s[i] == buf'[o + i] && t[i] == buf[o + i];
        }
        assert s == t;
      }
    }
  }

  lemma SlotOfPrefix(saved: seq<char>, buf: seq<char>, k: nat, n: nat, m: nat, size: nat)
    requires k < n <= m && |saved| == Offset(n, size) <= |buf| == Offset(m, size) && buf[..|saved|] == saved
    ensures SlotBytes(buf, k, m, size) == SlotBytes(saved, k, n, size)
  {
    hide Offset;
    var s, t, o := SlotBytes(buf, k, m, size), SlotBytes(saved, k, n, size), Offset(k, size);
    forall i | 0 <= i < size ensures s[i] == t[i] {
      assert buf[..|saved|][o + i] == saved[o + i];
    }
  }

  /** A saved buffer at the start of a larger blank one. */
  lemma LargerBuffer(saved: seq<char>, slots: seq<string>, n: nat, m: nat, size: nat, buf: seq<char>)
    requires Holds(saved, slots, n, size) && n <= m && |buf| == Offset(m, size)
    requires |saved| <= |buf| && buf[..|saved|] == saved
    requires forall i :: |saved| <= i < |buf| ==> buf[i] == '\0'
    ensures Holds(buf, slots + Unused(m - n), m, size)
  {
    hide Offset;
    forall k | 0 <= k < m ensures CStr(SlotBytes(buf, k, m, size)) == (slots + Unused(m - n))[k] {
      var s := SlotBytes(buf, k, m, size);
      if k < n {
        SlotOfPrefix(saved, buf, k, n, m, size);
      } else {
        if n < k {
          OffsetsApart(n, k, size);
        }
        assert size > 0 ==> s[0] == '\0';
      }
    }
  }

  /** What spooldb_write writes: the struct, then the key buffer. */
  datatype Head = Head(numslots: nat, keysize: nat, slot: nat, index: nat)

  /** The file it leaves; the struct or the keys may have been cut short. */
  datatype SavedFile = NoFile | SavedFile(head: Option<Head>, keys: seq<char>)

  /** The struct and keys of a ring with these names. */
  predicate SavedFrom(h: Head, keys: seq<char>, r: Ring)
  {
    && ValidRing(r) && |r.slots| == h.numslots && r.slot == h.slot && 0 < h.keysize
    && h.index == Offset(h.slot, h.keysize)
    && Holds(keys, r.slots, h.numslots, h.keysize)
  }

  /** All that was to be written is there. */
  predicate IsWhole(f: SavedFile)
  {
    f.SavedFile? && f.head.Some? && |f.keys| == Offset(f.head.value.numslots, f.head.value.keysize)
  }

  datatype WriteOutcome = OpenFails | HeadCut | KeysCut(n: nat) | Done

  datatype ReadOutcome = NoError | HeadError | KeysError

  class SpoolDb {
    const numslots: nat
    const keysize: nat
    const keys: array<char>
    var slot: nat
    var index: nat          // start of the next slot in keys

    /** The buffer holds the ring r; the next slot starts at slot * keysize. */
    ghost predicate Shows(r: Ring)
      reads this, keys
    {
      && 0 < keysize
      && ValidRing(r) && r.slot == slot
      && Holds(keys[..], r.slots, numslots, keysize)
      && index == Offset(slot, keysize)
    }

    constructor (slots: nat, size: nat)
      requires 0 < slots && 0 < size
      ensures numslots == slots && keysize == size && fresh(keys)
      ensures Shows(Ring(Unused(slots), 0))
      ensures forall i :: 0 <= i < keys.Length ==> keys[i] == '\0'
    {
      numslots, keysize := slots, size;
      slot, index := 0, 0;
      OffsetIsProduct(slots, size);
      keys := new char[slots * size](_ => '\0');
      new;
      BlankHolds(keys[..], numslots, keysize);
    }

    /** Hands the old name of the next slot to destroy_key and puts the new one
        in its place. */
    method InsertKey(key: string, ghost r: Ring) returns (oldkey: string)
      requires Shows(r) && |key| + 1 <= keysize && '\0' !in key
      modifies this`slot, this`index, keys
      ensures Shows(Insert(r, key)) && oldkey == r.slots[r.slot]
    {
      OffsetsApart(slot, numslots, keysize);
      assert keys[index..index + keysize] == SlotBytes(keys[..], slot, numslots, keysize);
      oldkey := CStr(keys[index..index + keysize]);
      ghost var before := keys[..];
      forall i | 0 <= i < |key| + 1 {
        keys[index + i] := if i < |key| then key[i] else '\0';
      }
      OneSlotWritten(before, r.slots, numslots, keysize, slot, key, keys[..]);
      slot := slot + 1;
      index := index + keysize;
      if slot == numslots {
        slot := 0;
        index := 0;
      }
    }

    /** A save that fails leaves the earlier file or one that is not whole. */
    method Write(before: SavedFile, outcome: WriteOutcome, ghost r: Ring) returns (status: int, file: SavedFile)
      requires Shows(r)
      ensures status == if outcome == Done then 0 else -1
      ensures status == 0 ==>
                && IsWhole(file) && SavedFrom(file.head.value, file.keys, r)
                && file.head.value.numslots == numslots && file.head.value.keysize == keysize
      ensures status != 0 ==> file == before || !IsWhole(file)
    {
      match outcome
      case OpenFails => return -1, before;
      case HeadCut => return -1, SavedFile(None, []);
      case KeysCut(n) =>
        OffsetsApart(0, numslots, keysize);
        var size := Min(n, keys.Length - 1);
        return -1, SavedFile(Some(Head(numslots, keysize, slot, index)), keys[..size]);
      case Done => return 0, SavedFile(Some(Head(numslots, keysize, slot, index)), keys[..]);
    }

    /** Restores a saved ring into this new one, which must have the same key
        size and no fewer slots; only a file that is whole is restored. */
    method Read(file: SavedFile, outcome: ReadOutcome, ghost r: Ring) returns (status: int)
      requires Shows(Ring(Unused(numslots), 0)) && (IsWhole(file) ==> SavedFrom(file.head.value, file.keys, r))
      requires file.SavedFile? && file.head.Some? ==>
                 |file.keys| <= Offset(file.head.value.numslots, file.head.value.keysize)
      requires forall i :: 0 <= i < keys.Length ==> keys[i] == '\0'
      modifies this`slot, this`index, keys
      ensures status in {0, 1, -1}
      ensures status == 0 <==>
                && outcome == NoError && IsWhole(file)
                && file.head.value.keysize == keysize && file.head.value.numslots <= numslots
      ensures status == 0 ==> Shows(Reload(r, numslots))
      ensures file == NoFile ==> status == -1
    {
      if file == NoFile || outcome == HeadError {
        return -1;
      }
      if file.head.None? {
        return 1;
      }
      var saved := file.head.value;
      if saved.keysize != keysize || saved.numslots > numslots {
        return 1;
      }
      slot := saved.slot;
      index := saved.index;
      if outcome == KeysError {
        return -1;
      }
      if saved.numslots < numslots {
        OffsetsApart(saved.numslots, numslots, keysize);
      }
      forall i | 0 <= i < |file.keys| {
        keys[i] := file.keys[i];
      }
      OffsetIsProduct(saved.numslots, saved.keysize);
      if |file.keys| != saved.numslots * saved.keysize {
        return 1;
      }
      LargerBuffer(file.keys, r.slots, saved.numslots, numslots, keysize, keys[..]);
      status := 0;
    }
  }

  /** The spool directory and its ring. */
  class SpoolDirectory {
    const spooldb: SpoolDb
    ghost var ring: Ring              // what spooldb shows
    var disk: map<string, Bytes>
    ghost var ops: seq<Op>

    ghost predicate Valid()
      reads this, spooldb, spooldb.keys
    {
      spooldb.Shows(ring)
    }

    ghost function Value(): Spool
      reads this
    {
      Spool(ring, disk)
    }

    constructor (slots: nat, keysize: nat)
      requires 0 < slots && 0 < keysize
      ensures Valid() && fresh(spooldb) && fresh(spooldb.keys) && spooldb.keysize == keysize
      ensures Value() == Spool(Ring(Unused(slots), 0), map[]) && ops == []
    {
      spooldb := new SpoolDb(slots, keysize);
      ring, disk, ops := Ring(Unused(slots), 0), map[], [];
    }

    /** A failed save has left this much at the path. */
    method Leave(path: string, left: Bytes)
      requires Valid()
      modifies this
      ensures Valid() && Value() == Apply(old(Value()), FailOp(path, left)) && ops == old(ops) + [FailOp(path, left)]
    {
      disk := disk[path := left];
      ops := ops + [FailOp(path, left)];
    }

    /** The file is written whole; nbsp_spooldb_insert enters its name and deletes
        the file that it pushes out, if that can be done. */
    method Keep(path: string, data: Bytes, delOk: bool)
      requires Valid() && |path| + 1 <= spooldb.keysize && '\0' !in path
      modifies this, spooldb, spooldb.keys
      ensures Valid() && Value() == Apply(old(Value()), SaveOp(path, data, delOk))
      ensures ops == old(ops) + [SaveOp(path, data, delOk)]
    {
      disk := disk[path := data];
      var oldkey := spooldb.InsertKey(path, ring);
      if oldkey != "" && delOk {
        disk := disk - {oldkey};
      }
      ring, ops := Insert(ring, path), ops + [SaveOp(path, data, delOk)];
    }
  }
}
