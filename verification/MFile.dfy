/** Memory files (src/mfile.c): a growable buffer with a write and a read
    position, and the frame records that are stored in it. */
module MFile {
  import opened Common

  const MF_STATIC_POOL_SIZE_MIN: nat := 8192
  const GROW_FACTOR: nat := 2

  // struct memframe_info_st on an LP64 little-endian host: the flag byte,
  // seven bytes of padding and an eight-byte size.
  const INFO_SIZE: nat := 16

  // The exclusive upper bound of the frame sizes an int can carry.
  const INT_LIMIT: nat := 0x8000_0000

  // ---------- frame records ----------

  datatype MemFrame = MemFrame(data: Bytes, compressed: byte)

  /** The k low-order bytes of n, least significant first. */
  function Le(n: nat, k: nat): (s: Bytes)
    ensures |s| == k
  {
    if k == 0 then [] else [n % 256] + Le(n / 256, k - 1)
  }

  function UnLe(s: Bytes): nat
  {
    if s == [] then 0 else s[0] + 256 * UnLe(s[1..])
  }

  function Pow256(k: nat): nat
  {
    if k == 0 then 1 else 256 * Pow256(k - 1)
  }

  lemma {:induction false} LeRoundTrip(n: nat, k: nat)
    requires n < Pow256(k)
    ensures UnLe(Le(n, k)) == n
  {
    if k > 0 {
      LeRoundTrip(n / 256, k - 1);
      assert Le(n, k)[1..] == Le(n / 256, k - 1);
    }
  }

  /** The bytes of a memframe_info_st; the padding is whatever was on the stack. */
  function Info(size: nat, compressed: byte, pad: Bytes): (s: Bytes)
    requires |pad| == 7
    ensures |s| == INFO_SIZE
  {
    [compressed] + pad + Le(size, 8)
  }

  predicate ValidFrame(f: MemFrame)
  {
    |f.data| < INT_LIMIT
  }

  /** What get_memframe finds at the read position. */
  datatype FrameRead = NoFrame | Broken | Found(frame: MemFrame)

  predicate HasInfo(rest: Bytes)
  {
    |rest| >= INFO_SIZE && UnLe(rest[8..16]) < INT_LIMIT
  }

  function NextFrame(rest: Bytes): (r: FrameRead)
    requires rest == [] || HasInfo(rest)
  {
    if rest == [] then NoFrame
    else
      var size := UnLe(rest[8..16]);
      if INFO_SIZE + size <= |rest|
      then Found(MemFrame(rest[INFO_SIZE..INFO_SIZE + size], rest[0]))
      else Broken
  }

  /** The bytes hold exactly these frames, one record after another. */
  predicate Encodes(bytes: Bytes, frames: seq<MemFrame>)
    decreases |frames|
  {
    if frames == [] then bytes == []
    else
      var n := |frames[0].data|;
      && HasInfo(bytes)
      && NextFrame(bytes) == Found(frames[0])
      && INFO_SIZE + n <= |bytes|
      && Encodes(bytes[INFO_SIZE + n..], frames[1..])
  }

  lemma InfoReadsBack(f: MemFrame, pad: Bytes, tail: Bytes)
    requires ValidFrame(f) && |pad| == 7
    ensures var s := Info(|f.data|, f.compressed, pad) + f.data + tail;
            HasInfo(s) && NextFrame(s) == Found(f) && s[INFO_SIZE + |f.data|..] == tail
  {
    var info := Info(|f.data|, f.compressed, pad);
    var s := info + f.data + tail;
    InfoSize(|f.data|, f.compressed, pad);
    assert s[8..16] == info[8..16];
    assert s[0] == f.compressed;
    assert s[INFO_SIZE..INFO_SIZE + |f.data|] == f.data;
    assert s[INFO_SIZE + |f.data|..] == tail;
  }

  lemma InfoSize(size: nat, compressed: byte, pad: Bytes)
    requires size < INT_LIMIT && |pad| == 7
    ensures UnLe(Info(size, compressed, pad)[8..16]) == size && Info(size, compressed, pad)[0] == compressed
  {
    hide Le;
    hide UnLe;
    assert size < Pow256(8) by { assert Pow256(8) == 256 * 256 * 256 * 256 * 256 * 256 * 256 * 256; }
    hide Pow256;
    LeRoundTrip(size, 8);
    var start := [compressed] + pad;
    assert |start| == 8 && (start + Le(size, 8))[8..16] == Le(size, 8);
  }

  /** A record that is all there does not see what follows it. */
  lemma NextFrameStays(bytes: Bytes, more: Bytes)
    requires HasInfo(bytes) && NextFrame(bytes).Found?
    ensures HasInfo(bytes + more) && NextFrame(bytes + more) == NextFrame(bytes)
  {
    var n := INFO_SIZE + UnLe(bytes[8..16]);
    assert (bytes + more)[8..16] == bytes[8..16];
    assert (bytes + more)[INFO_SIZE..n] == bytes[INFO_SIZE..n];
  }

  /** Appending one more record appends one more frame. */
  lemma {:induction false} EncodesAppend(bytes: Bytes, frames: seq<MemFrame>, f: MemFrame, pad: Bytes)
    requires Encodes(bytes, frames) && ValidFrame(f) && |pad| == 7
    ensures Encodes(bytes + Info(|f.data|, f.compressed, pad) + f.data, frames + [f])
    decreases |frames|
  {
    hide Info;
    hide NextFrame;
    hide HasInfo;
    var rec := Info(|f.data|, f.compressed, pad) + f.data;
    assert bytes + Info(|f.data|, f.compressed, pad) + f.data == bytes + rec;
    if frames == [] {
      InfoReadsBack(f, pad, []);
      assert rec + [] == rec == bytes + rec;
      assert (frames + [f])[1..] == [];
    } else {
      var n := INFO_SIZE + |frames[0].data|;
      EncodesAppend(bytes[n..], frames[1..], f, pad);
      assert bytes[n..] + Info(|f.data|, f.compressed, pad) + f.data == (bytes + rec)[n..];
      assert (frames + [f])[1..] == frames[1..] + [f];
      NextFrameStays(bytes, rec);
    }
  }

  /** The result of reading up to k frames, one get_memframe call after another;
      reading stops where a call reports no frame or a broken one. */
  function ReadFrames(bytes: Bytes, k: nat): (r: seq<MemFrame>)
    decreases k
  {
    if k == 0 || !HasInfo(bytes) || !NextFrame(bytes).Found? then []
    else
      var f := NextFrame(bytes).frame;
      [f] + ReadFrames(bytes[INFO_SIZE + |f.data|..], k - 1)
  }

  /** Reading back: the first k records are the first k frames, flags included. */
  lemma {:induction false} ReadBack(bytes: Bytes, frames: seq<MemFrame>, k: nat)
    requires Encodes(bytes, frames) && k <= |frames|
    ensures ReadFrames(bytes, k) == frames[..k]
    decreases k
  {
    if k > 0 {
      ReadBack(bytes[INFO_SIZE + |frames[0].data|..], frames[1..], k - 1);
      assert frames[..k] == [frames[0]] + frames[1..][..k - 1];
    }
  }

  // ---------- the buffer ----------

  class MemFile {
    var p: array<byte>          // allocsize is p.Length
    var maxallocsize: nat
    var size: nat               // write position
    var nread: nat              // read position

    ghost predicate Valid()
      reads this, p
    {
      && 0 < p.Length <= maxallocsize
      && nread <= size <= p.Length
    }

    /** Everything written since the file was opened. */
    ghost function Contents(): (s: Bytes)
      requires Valid()
      reads this, p
    {
      p[..size]
    }

    /** What has not been read yet. */
    ghost function Rest(): (s: Bytes)
      requires Valid()
      reads this, p
    {
      p[nread..size]
    }

    constructor (mpoolsize: nat)
      ensures Valid() && fresh(p) && Contents() == [] && nread == 0
      ensures p.Length == Max(mpoolsize, MF_STATIC_POOL_SIZE_MIN)
    {
      var allocsize := MF_STATIC_POOL_SIZE_MIN;
      if mpoolsize > allocsize {
        allocsize := mpoolsize;
      }
      p := new byte[allocsize];
      maxallocsize := allocsize;
      size := 0;
      nread := 0;
    }

    /** 0 exactly when nothing was written and nothing was read. */
    method Open() returns (status: int)
      requires Valid()
      ensures status == (if Contents() == [] then 0 else 1)
    {
      if size != 0 || nread != 0 {
        status := 1;
      } else {
        status := 0;
      }
    }

    method Close()
      requires Valid()
      modifies this`size, this`nread
      ensures Valid() && Contents() == [] && nread == 0
    {
      size := 0;
      nread := 0;
    }

    /** realloc() succeeds up to `limit` bytes. A successful call keeps the
        contents when there is room for one byte more, and otherwise cuts them
        to one byte below the new allocation. */
    method Realloc(newsize: nat, limit: nat) returns (status: int)
      requires Valid() && 0 < newsize
      modifies this
      ensures Valid() && (p == old(p) || fresh(p))
      ensures status == 0 <==> newsize <= limit
      ensures status == 0 ==> p.Length == newsize
      ensures status == 0 ==>
                Contents() == old(Contents())[..if old(size) < newsize then old(size) else newsize - 1]
      ensures status == 0 && old(nread) < newsize ==> nread == old(nread)
      ensures status != 0 ==> status == -1 && unchanged(this)
    {
      if newsize > limit {
        return -1;
      }
      var q := new byte[newsize];
      forall k | 0 <= k < newsize && k < size {
        q[k] := p[k];
      }
      p := q;
      if p.Length > maxallocsize {
        maxallocsize := p.Length;
      }
      if size >= p.Length {
        size := p.Length - 1;
      }
      if nread >= p.Length {
        nread := p.Length - 1;
      }
      status := 0;
    }

    /** Appends, doubling the allocation until the data fits. */
    method Write(data: Bytes, limit: nat) returns (status: int)
      requires Valid()
      modifies this, p
      ensures Valid() && (p == old(p) || fresh(p))
      ensures status == 0 || status == -1
      ensures status == 0 ==> Contents() == old(Contents()) + data
      ensures status != 0 ==> Contents() == old(Contents())
      ensures nread == old(nread)
      ensures old(size) + |data| <= old(p.Length) ==> status == 0
      ensures 2 * (old(size) + |data|) <= limit ==> status == 0
    {
      status := 0;
      while size + |data| > p.Length && status == 0
        invariant Valid() && (p == old(p) || fresh(p))
        invariant status == 0 || status == -1
        invariant Contents() == old(Contents()) && nread == old(nread)
        invariant old(size) + |data| <= old(p.Length) ==> p == old(p) && status == 0
        invariant 2 * (old(size) + |data|) <= limit ==> status == 0
        decreases if status == 0 then 1 else 0, size + |data| - p.Length
      {
        status := Realloc(GROW_FACTOR * p.Length, limit);
      }
      if status != 0 {
        return;
      }
      forall k | 0 <= k < |data| {
        p[size + k] := data[k];
      }
      size := size + |data|;
      assert Contents() == old(Contents()) + data;
    }

    /** Hands out up to n of the bytes not yet read. */
    method Read(n: nat) returns (chunk: Bytes)
      requires Valid()
      modifies this`nread
      ensures Valid() && Contents() == old(Contents())
      ensures chunk == old(Rest())[..Min(n, |old(Rest())|)]
      ensures Rest() == old(Rest())[|chunk|..]
    {
      var rsize := n;
      if nread + n > size {
        rsize := size - nread;
      }
      chunk := p[nread..nread + rsize];
      nread := nread + rsize;
    }

    /** One record: the info first, then the data. A failure can leave the info
        behind, so the contents then are the old ones with or without it. */
    method WriteMemframe(f: MemFrame, pad: Bytes, limit: nat) returns (status: int)
      requires Valid() && |pad| == 7
      modifies this, p
      ensures Valid() && (p == old(p) || fresh(p))
      ensures status == 0 || status == -1
      ensures status == 0 ==>
                Contents() == old(Contents()) + Info(|f.data|, f.compressed, pad) + f.data
      ensures status != 0 ==>
                || Contents() == old(Contents())
                || Contents() == old(Contents()) + Info(|f.data|, f.compressed, pad)
      ensures nread == old(nread)
      ensures 2 * (old(size) + INFO_SIZE + |f.data|) <= limit ==> status == 0
    {
      status := Write(Info(|f.data|, f.compressed, pad), limit);
      if status != -1 {
        status := Write(f.data, limit);
      }
    }

    /** The next record. n is the frame size, 0 at the end of the data and for
        an empty frame alike, and -1 when the data is cut short. */
    method GetMemframe() returns (n: int, frame: MemFrame)
      requires Valid() && (Rest() == [] || HasInfo(Rest()))
      modifies this`nread
      ensures Valid() && Contents() == old(Contents())
      ensures match old(NextFrame(Rest()))
              case NoFrame => n == 0
              case Broken => n == -1
              case Found(f) =>
                n == |f.data| && frame == f && Rest() == old(Rest())[INFO_SIZE + n..]
    {
      frame := MemFrame([], 0);
      ghost var rest := Rest();
      var info := Read(INFO_SIZE);
      if |info| == 0 {
        return 0, frame;
      }
      assert info[8..16] == rest[8..16];
      n := UnLe(info[8..16]);
      var data := Read(n);
      if |data| == n {
        frame := MemFrame(data, info[0]);
        assert data == rest[INFO_SIZE..INFO_SIZE + n];
      } else {
        n := -1;
      }
    }

    /** Makes room for an estimate, or gives half the allocation back when that
        is at its lifetime maximum; refusals are ignored by the caller. */
    method AdjustSize(estimated: nat, limit: nat)
      requires Valid() && Contents() == []
      modifies this
      ensures Valid() && (p == old(p) || fresh(p)) && Contents() == []
      ensures var want := if estimated > old(p.Length) then estimated
                          else if estimated * GROW_FACTOR < old(p.Length) == old(maxallocsize)
                          then old(p.Length) / GROW_FACTOR
                          else old(p.Length);
              p.Length == if 0 < want <= limit then want else old(p.Length)
    {
      var oldsize := p.Length;
      var newsize := 0;
      if estimated > oldsize {
        newsize := estimated;
      } else if estimated * GROW_FACTOR < oldsize && oldsize == maxallocsize {
        newsize := oldsize / GROW_FACTOR;
      }
      if newsize != 0 {
        var status := Realloc(newsize, limit);
      }
    }
  }
}
