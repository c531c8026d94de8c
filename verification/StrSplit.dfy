/** Splitting a string at delimiters (src/strsplit.c): a counting pass sizes the
    result, then a strsep pass cuts a copy in place and fills it. */
module StrSplit {

  /** All segments between delimiters, empty ones included. */
  function Segments(s: string, delim: string): (r: seq<string>)
    ensures r != []
  {
    if s == [] then [[]]
    else
      var rest := Segments(s[1..], delim);
      if s[0] in delim then [[]] + rest else [[s[0]] + rest[0]] + rest[1..]
  }

  function NonEmpty(fields: seq<string>): seq<string>
  {
    if fields == [] then [] else (if fields[0] == [] then [] else [fields[0]]) + NonEmpty(fields[1..])
  }

  /** The fields of strsplit_create: all segments, or the nonempty ones. */
  function Fields(s: string, delim: string, incEmpty: bool): seq<string>
  {
    if incEmpty then Segments(s, delim) else NonEmpty(Segments(s, delim))
  }

  // ---------- what the segments are ----------

  predicate Free(s: string, delim: string) { forall i :: 0 <= i < |s| ==> s[i] !in delim }

  /** The delimiters that were removed, in order. */
  function Removed(s: string, delim: string): string
  {
    if s == [] then [] else (if s[0] in delim then [s[0]] else []) + Removed(s[1..], delim)
  }

  /** Segments with the delimiters put back between them. */
  function Rejoin(segments: seq<string>, delims: string): string
    requires |segments| == |delims| + 1
  {
    if delims == [] then segments[0] else segments[0] + [delims[0]] + Rejoin(segments[1..], delims[1..])
  }

  /** Segments hold no delimiter, and with the removed delimiters put back they
      are the string again. */
  lemma {:induction false} SegmentsRejoin(s: string, delim: string)
    ensures |Segments(s, delim)| == |Removed(s, delim)| + 1
    ensures Rejoin(Segments(s, delim), Removed(s, delim)) == s
    ensures forall k :: 0 <= k < |Segments(s, delim)| ==> Free(Segments(s, delim)[k], delim)
  {
    if s != [] {
      SegmentsRejoin(s[1..], delim);
      var rest, out := Segments(s[1..], delim), Removed(s[1..], delim);
      var segments := Segments(s, delim);
      assert s == [s[0]] + s[1..];
      if s[0] in delim {
        assert segments[1..] == rest && Removed(s, delim)[1..] == out;
      } else {
        RejoinLonger(s[0], rest, out);
        assert Removed(s, delim) == out;
        assert Free(segments[0], delim);
      }
    }
  }

  lemma RejoinLonger(c: char, segments: seq<string>, delims: string)
    requires |segments| == |delims| + 1
    ensures Rejoin([[c] + segments[0]] + segments[1..], delims) == [c] + Rejoin(segments, delims)
  {
    var longer := [[c] + segments[0]] + segments[1..];
    assert longer[1..] == segments[1..];
    if delims != [] {
      var tail := Rejoin(segments[1..], delims[1..]);
      assert ([c] + segments[0]) + [delims[0]] + tail == [c] + (segments[0] + [delims[0]] + tail);
    }
  }

  /** Only these: any delimiter-free pieces that rejoin to the string with
      delimiters are its segments. */
  lemma {:induction false} SegmentsUnique(pieces: seq<string>, delims: string, delim: string)
    requires |pieces| == |delims| + 1
    requires forall k :: 0 <= k < |pieces| ==> Free(pieces[k], delim)
    requires forall k :: 0 <= k < |delims| ==> delims[k] in delim
    ensures Segments(Rejoin(pieces, delims), delim) == pieces
    decreases |pieces|
  {
    var s := Rejoin(pieces, delims);
    if delims == [] {
      WholeSegment(s, delim);
    } else {
      var rest := Rejoin(pieces[1..], delims[1..]);
      SegmentsUnique(pieces[1..], delims[1..], delim);
      FirstSegment(s, delim, |pieces[0]|);
      assert s[..|pieces[0]|] == pieces[0] && s[|pieces[0]| + 1..] == rest;
    }
  }

  lemma {:induction false} WholeSegment(s: string, delim: string)
    requires Free(s, delim)
    ensures Segments(s, delim) == [s]
  {
    if s != [] {
      WholeSegment(s[1..], delim);
      assert s == [s[0]] + s[1..];
    }
  }

  /** The text up to the first delimiter is the first segment. */
  lemma {:induction false} FirstSegment(s: string, delim: string, e: nat)
    requires e < |s| && Free(s[..e], delim) && s[e] in delim
    ensures Segments(s, delim) == [s[..e]] + Segments(s[e + 1..], delim)
  {
    if e > 0 {
      var t := s[1..];
      assert t[..e - 1] == s[..e][1..] && t[e - 1] == s[e];
      var u := t[..e - 1];
      forall i | 0 <= i < |u| ensures u[i] !in delim {
        assert u[i] == s[..e][i + 1];
      }
      FirstSegment(t, delim, e - 1);
      assert t[e..] == s[e + 1..];
      assert s[..e][0] !in delim;
      assert s[..e] == [s[0]] + t[..e - 1];
    }
  }

  // ---------- the counting pass ----------

  /** Fields still to be counted when b characters of the current one were seen. */
  function Left(b: nat, rest: string, delim: string, incEmpty: bool): nat
    decreases |rest|
  {
    if rest == [] then (if b != 0 || incEmpty then 1 else 0)
    else if rest[0] in delim then
      (if b != 0 || incEmpty then 1 else 0) + Left(0, rest[1..], delim, incEmpty)
    else Left(b + 1, rest[1..], delim, incEmpty)
  }

  lemma {:induction false} LeftIsFields(b: nat, rest: string, delim: string, incEmpty: bool)
    ensures var segments := Segments(rest, delim);
            Left(b, rest, delim, incEmpty) ==
            if incEmpty then |segments|
            else (if b != 0 || segments[0] != [] then 1 else 0) + |NonEmpty(segments[1..])|
    decreases |rest|
  {
    if rest != [] {
      LeftIsFields(if rest[0] in delim then 0 else b + 1, rest[1..], delim, incEmpty);
      var segments, more := Segments(rest, delim), Segments(rest[1..], delim);
      if rest[0] in delim {
        assert segments[1..] == more;
      } else {
        assert segments[1..] == more[1..];
      }
    }
  }

  method CountFields(s: string, delim: string, incEmpty: bool) returns (n: nat)
    ensures n == |Fields(s, delim, incEmpty)|
  {
    n := 0;
    var p, b := 0, 0;
    LeftIsFields(0, s, delim, incEmpty);
    assert s[0..] == s;
    while p < |s|
      invariant 0 <= p <= |s|
      invariant n + Left(b, s[p..], delim, incEmpty) == Left(0, s, delim, incEmpty)
    {
      if s[p] in delim {
        if b != 0 || incEmpty {
          n := n + 1;
        }
        b := 0;
      } else {
        b := b + 1;
      }
      assert s[p..][1..] == s[p + 1..];
      p := p + 1;
    }
    if b != 0 || incEmpty {
      n := n + 1;
    }
  }

  // ---------- the filling pass ----------

  /** The buffer holds the C string t at `off`. */
  predicate TokenAt(buf: seq<char>, off: nat, t: string)
  {
    && off + |t| < |buf| && buf[off..off + |t|] == t && buf[off + |t|] == '\0'
    && '\0' !in t
  }

  /** The buffer still holds the text s from `pos` on, and its terminator. */
  predicate Holds(buf: seq<char>, s: string, pos: nat)
  {
    |buf| == |s| + 1 && pos <= |s| && buf[pos..|s|] == s[pos..] && buf[|s|] == '\0'
  }

  /** Cutting the text at e leaves the token before it and the text after it. */
  lemma CutAt(buf: seq<char>, s: string, from: nat, e: nat)
    requires Holds(buf, s, from) && from <= e <= |s| && '\0' !in s
    ensures e < |s| ==> TokenAt(buf[e := '\0'], from, s[from..e]) && Holds(buf[e := '\0'], s, e + 1)
    ensures e == |s| ==> TokenAt(buf, from, s[from..e])
    ensures e < |s| ==> buf[e] == s[e]
  {
    HoldsAt(buf, s, from);
    if e < |s| {
      var cut := buf[e := '\0'];
      assert cut[from..e] == s[from..e];
      assert cut[e + 1..|s|] == s[e + 1..];
    } else {
      assert buf[from..e] == s[from..e];
    }
  }

  lemma HoldsAt(buf: seq<char>, s: string, from: nat)
    requires Holds(buf, s, from)
    ensures forall i :: from <= i < |s| ==> buf[i] == s[i]
  {
    forall i | from <= i < |s| ensures buf[i] == s[i] {
      assert buf[from..|s|][i - from] == s[from..][i - from];
    }
  }

  /** strsep: cuts the token at `from` off with a zero byte; -1 when it was the
      last one. */
  method Strsep(sp: array<char>, s: string, from: nat, delim: string) returns (next: int, ghost token: string)
    requires Holds(sp[..], s, from) && '\0' !in s
    modifies sp
    ensures TokenAt(sp[..], from, token)
    ensures forall i :: 0 <= i < from ==> sp[i] == old(sp[i])
    ensures next == -1 ==> Segments(s[from..], delim) == [token]
    ensures next != -1 ==>
              && next == from + |token| + 1 && Holds(sp[..], s, next)
              && Segments(s[from..], delim) == [token] + Segments(s[next..], delim)
  {
    var e := from;
    ghost var buf := sp[..];
    HoldsAt(buf, s, from);
    while sp[e] != '\0' && sp[e] !in delim
      invariant from <= e <= |s|
      invariant forall i :: from <= i < e ==> s[i] !in delim
      decreases |s| - e
    {
      e := e + 1;
    }
    token := s[from..e];
    CutAt(buf, s, from, e);
    ghost var rest := s[from..];
    assert rest[..e - from] == token;
    if sp[e] == '\0' {
      assert rest == token;
      WholeSegment(rest, delim);
      next := -1;
    } else {
      FirstSegment(rest, delim, e - from);
      assert rest[e - from + 1..] == s[e + 1..];
      sp[e] := '\0';
      assert sp[..] == buf[e := '\0'];
      next := e + 1;
    }
  }

  /** The field a token contributes. */
  function Kept(token: string, incEmpty: bool): seq<string>
  {
    if token != [] || incEmpty then [token] else []
  }

  /** Where it starts. */
  function KeptAt(from: nat, token: string, incEmpty: bool): seq<nat>
  {
    if token != [] || incEmpty then [from] else []
  }

  lemma FieldsStep(s: string, token: string, rest: string, delim: string, incEmpty: bool)
    ensures Segments(s, delim) == [token] ==> Fields(s, delim, incEmpty) == Kept(token, incEmpty)
    ensures Segments(s, delim) == [token] + Segments(rest, delim) ==>
              Fields(s, delim, incEmpty) == Kept(token, incEmpty) + Fields(rest, delim, incEmpty)
  {
    assert NonEmpty([token]) == Kept(token, false);
    assert ([token] + Segments(rest, delim))[1..] == Segments(rest, delim);
  }

  /** Tokens before `pos` do not see what is written from `pos` on. */
  predicate Tokens(buf: seq<char>, offs: seq<nat>, fields: seq<string>, pos: nat)
  {
    |offs| == |fields| &&
    forall k :: 0 <= k < |fields| ==> TokenAt(buf, offs[k], fields[k]) && offs[k] + |fields[k]| < pos
  }

  lemma TokensLast(buf: seq<char>, buf': seq<char>, offs: seq<nat>, fields: seq<string>, pos: nat)
    requires Tokens(buf, offs, fields, pos) && |buf'| == |buf| && pos <= |buf|
    requires forall i :: 0 <= i < pos ==> buf'[i] == buf[i]
    ensures Tokens(buf', offs, fields, pos)
  {
    forall k | 0 <= k < |fields| ensures TokenAt(buf', offs[k], fields[k]) {
      var o, n := offs[k], |fields[k]|;
      assert TokenAt(buf, o, fields[k]);
      assert buf'[o..o + n] == buf[o..o + n];
    }
  }

  /** The fields from `next` on, none when strsep found the end. */
  function FieldsFrom(s: string, next: int, delim: string, incEmpty: bool): seq<string>
  {
    if 0 <= next <= |s| then Fields(s[next..], delim, incEmpty) else []
  }

  lemma FromStart(s: string, delim: string, incEmpty: bool)
    ensures FieldsFrom(s, 0, delim, incEmpty) == Fields(s, delim, incEmpty)
  {
    assert s[0..] == s;
  }

  lemma FromEnd(s: string, delim: string, incEmpty: bool)
    ensures FieldsFrom(s, -1, delim, incEmpty) == []
  {
  }

  /** One turn of the loop: the token, and the text that is left (or none). */
  method NextField(sp: array<char>, s: string, from: nat, delim: string, incEmpty: bool)
    returns (next: int, keep: bool, ghost token: string)
    requires Holds(sp[..], s, from) && '\0' !in s
    modifies sp
    ensures keep <==> token != [] || incEmpty
    ensures TokenAt(sp[..], from, token)
    ensures forall i :: 0 <= i < from ==> sp[i] == old(sp[i])
    ensures next == -1 || (next == from + |token| + 1 && Holds(sp[..], s, next))
    ensures FieldsFrom(s, from, delim, incEmpty) == Kept(token, incEmpty) + FieldsFrom(s, next, delim, incEmpty)
  {
    next, token := Strsep(sp, s, from, delim);
    FieldsStep(s[from..], token, if next == -1 then [] else s[next..], delim, incEmpty);
    assert token != [] ==> sp[..][from..from + |token|][0] == token[0];
    keep := sp[from] != '\0' || incEmpty;
  }

  lemma TokensGrow(buf: seq<char>, buf': seq<char>, offs: seq<nat>, fields: seq<string>, from: nat, token: string, incEmpty: bool)
    requires Tokens(buf, offs, fields, from) && |buf'| == |buf| && TokenAt(buf', from, token)
    requires forall i :: 0 <= i < from ==> buf'[i] == buf[i]
    ensures Tokens(buf', offs + KeptAt(from, token, incEmpty), fields + Kept(token, incEmpty), from + |token| + 1)
  {
    TokensLast(buf, buf', offs, fields, from);
  }

  /** One more token moves from what is left to what was found. */
  lemma FieldMoves(fields: seq<string>, kept: seq<string>, todo: seq<string>, all: seq<string>)
    requires fields + (kept + todo) == all
    ensures (fields + kept) + todo == all && |fields + kept| <= |all|
  {
    assert (fields + kept) + todo == fields + (kept + todo);
  }

  /** struct strsplit_st while it is being filled. */
  class Splitter {
    const s: string
    const delim: string
    const incEmpty: bool
    const sp: array<char>        // the copy that is cut
    const argv: array<nat>       // sized by the counting pass
    var n: nat
    var nextp: int               // -1 when there is no more text
    ghost const all: seq<string>
    ghost var fields: seq<string>
    ghost var offs: seq<nat>
    ghost var pos: nat

    ghost predicate Text()
      reads this, sp
    {
      && '\0' !in s
      && Tokens(sp[..], offs, fields, pos)
      && fields + FieldsFrom(s, nextp, delim, incEmpty) == all
      && (nextp == -1 || (nextp == pos && Holds(sp[..], s, pos)))
    }

    ghost predicate Entries()
      reads this, argv
    {
      && n == |offs| == |fields| && argv.Length == |all|
      && forall k :: 0 <= k < n && k < argv.Length ==> argv[k] == offs[k]
    }

    constructor (text: string, d: string, inc: bool, argc: nat)
      requires text != [] && '\0' !in text && argc == |Fields(text, d, inc)|
      ensures Text() && Entries() && nextp == 0
      ensures s == text && delim == d && incEmpty == inc && all == Fields(text, d, inc)
      ensures fresh(sp) && fresh(argv)
    {
      s, delim, incEmpty, all := text, d, inc, Fields(text, d, inc);
      sp := new char[|text| + 1](i requires 0 <= i => if i < |text| then text[i] else '\0');
      argv := new nat[argc];
      n, nextp, fields, offs, pos := 0, 0, [], [], 0;
      new;
      assert text[0..] == text && sp[..][0..|text|] == text;
    }

    /** Cuts the next token; `keep` when it is a field. */
    method Cut() returns (keep: bool)
      requires Text() && nextp != -1
      modifies this`nextp, this`fields, this`offs, this`pos, sp
      ensures Text() && (nextp == -1 || old(nextp) < nextp <= |s|)
      ensures offs == old(offs) + if keep then [old(nextp) as nat] else []
    {
      hide FieldsFrom;
      ghost var p: nat, buf, token := nextp, sp[..], [];
      nextp, keep, token := NextField(sp, s, nextp, delim, incEmpty);
      TokensGrow(buf, sp[..], offs, fields, p, token, incEmpty);
      FieldMoves(fields, Kept(token, incEmpty), FieldsFrom(s, nextp, delim, incEmpty), all);
      fields, pos := fields + Kept(token, incEmpty), p + |token| + 1;
      offs := offs + KeptAt(p, token, incEmpty);
      assert Tokens(sp[..], offs, fields, pos);
    }

    /** The next token, entered in argv unless it is to be skipped. */
    method Step()
      requires Text() && Entries() && nextp != -1
      modifies this`n, this`nextp, this`fields, this`offs, this`pos, sp, argv
      ensures Text() && Entries() && (nextp == -1 || old(nextp) < nextp <= |s|)
    {
      var p := nextp;
      var keep := Cut();
      assert |fields| <= |all|;
      if keep {
        argv[n] := p;
        n := n + 1;
      }
    }
  }

  /** strsplit_create: counts, allocates, fills; nothing for an empty string. Every
      write to argv is in range, and its entries point at the fields, in order. */
  method Split(s: string, delim: string, incEmpty: bool) returns (found: bool, sp: array<char>, argv: array<nat>)
    requires '\0' !in s
    ensures found <==> s != ""
    ensures found ==> argv.Length == |Fields(s, delim, incEmpty)|
    ensures found ==>
              forall k :: 0 <= k < argv.Length ==> TokenAt(sp[..], argv[k], Fields(s, delim, incEmpty)[k])
  {
    found := s != "";
    if !found {
      sp, argv := new char[0], new nat[0];
      return;
    }
    var argc := CountFields(s, delim, incEmpty);
    var strp := new Splitter(s, delim, incEmpty, argc);
    while strp.nextp != -1
      invariant strp.Text() && strp.Entries() && fresh(strp) && fresh(strp.sp) && fresh(strp.argv)
      decreases if strp.nextp == -1 then 0 else |s| + 2 - strp.nextp
    {
      strp.Step();
    }
    sp, argv := strp.sp, strp.argv;
    FromEnd(s, delim, incEmpty);
    assert strp.fields == strp.all;
  }
}
