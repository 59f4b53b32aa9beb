/** Dynamic strings: a header with length and free space over one buffer, grown by
    doubling below a megabyte and by a megabyte above. */
module Sds {
  import opened Bytes

  const SDS_MAX_PREALLOC := 1024 * 1024

  /** What the header says, and how often the buffer has been reallocated: by doubling,
      and by adding SDS_MAX_PREALLOC. */
  datatype Header = Header(len: nat, free: nat, doublings: nat, extensions: nat)

  /** The header once there is room for `addlen` more bytes. */
  function WithRoom(h: Header, addlen: nat): (r: Header)
    ensures r.len == h.len && r.free >= addlen && r.free >= h.free
  {
    if h.free >= addlen then h
    else
      var newlen := h.len + addlen;
      if newlen < SDS_MAX_PREALLOC then Header(h.len, 2 * newlen - h.len, h.doublings + 1, h.extensions)
      else Header(h.len, newlen + SDS_MAX_PREALLOC - h.len, h.doublings, h.extensions + 1)
  }

  /** Too little room is made twice what is needed, or a megabyte more. */
  lemma RoomMade(h: Header, addlen: nat)
    ensures var need, all := h.len + addlen, WithRoom(h, addlen).len + WithRoom(h, addlen).free;
            all == if h.free >= addlen then h.len + h.free
                   else if need < 0x10_0000 then 2 * need else need + 0x10_0000
  {
  }

  function Appended(h: Header, n: nat): Header {
    var r := WithRoom(h, n);
    Header(h.len + n, r.free - n, r.doublings, r.extensions)
  }

  // --- Amortized growth ---

  function AppendedAll(h: Header, sizes: seq<nat>): Header
    decreases |sizes|
  {
    if sizes == [] then h else AppendedAll(Appended(h, sizes[0]), sizes[1..])
  }

  function Sum(sizes: seq<nat>): nat {
    if sizes == [] then 0 else sizes[0] + Sum(sizes[1..])
  }

  function Pow2(k: nat): (p: nat)
    ensures p > 0
  {
    if k == 0 then 1 else 2 * Pow2(k - 1)
  }

  /** What every append keeps, starting from the empty string. */
  ghost predicate Grown(h: Header) {
    (h.doublings == 0 || Pow2(h.doublings) <= h.len + h.free) &&
    (h.extensions == 0 ==> h.len + h.free <= 2 * h.len && h.len + h.free < 2 * SDS_MAX_PREALLOC) &&
    (h.doublings > 0 ==> Pow2(h.doublings) <= 2 * h.len && Pow2(h.doublings) < 2 * SDS_MAX_PREALLOC) &&
    (h.extensions > 0 ==>
       h.extensions * SDS_MAX_PREALLOC <= h.len && (h.extensions + 1) * SDS_MAX_PREALLOC <= h.len + h.free)
  }

  lemma AppendKeepsGrown(h: Header, n: nat)
    requires Grown(h)
    ensures Grown(Appended(h, n))
  {
    assert Pow2(h.doublings + 1) == 2 * Pow2(h.doublings);
    assert (h.extensions + 2) * SDS_MAX_PREALLOC == (h.extensions + 1) * SDS_MAX_PREALLOC + SDS_MAX_PREALLOC;
  }

  lemma {:induction false} AppendsKeepGrown(h: Header, sizes: seq<nat>)
    requires Grown(h)
    ensures Grown(AppendedAll(h, sizes)) && AppendedAll(h, sizes).len == h.len + Sum(sizes)
    decreases |sizes|
  {
    if sizes != [] {
      AppendKeepsGrown(h, sizes[0]);
      AppendsKeepGrown(Appended(h, sizes[0]), sizes[1..]);
    }
  }

  /** Any run of appends of total length n to an empty string reallocates the buffer
      k times by doubling, where 2^k <= 2n, and at most n / SDS_MAX_PREALLOC times by
      extending; below SDS_MAX_PREALLOC it never extends. */
  lemma AppendsReallocateRarely(sizes: seq<nat>)
    ensures var h := AppendedAll(Header(0, 0, 0, 0), sizes);
            h.len == Sum(sizes) &&
            (Sum(sizes) > 0 ==> Pow2(h.doublings) <= 2 * Sum(sizes)) &&
            h.extensions * SDS_MAX_PREALLOC <= Sum(sizes) &&
            (Sum(sizes) < SDS_MAX_PREALLOC ==> h.extensions == 0)
  {
    AppendsKeepGrown(Header(0, 0, 0, 0), sizes);
  }

  // --- Trimming and ranges ---

  /** strchr also finds the terminator: a NUL byte counts as a member of every set. */
  predicate InSet(c: Byte, cset: seq<Byte>) {
    c == 0 || c in cset
  }

  /** s[a..b] is `s` without the longest prefix and suffix made of members of the set. */
  ghost predicate TrimsAt(s: seq<Byte>, cset: seq<Byte>, a: nat, b: nat) {
    a <= b <= |s| &&
    (forall i :: 0 <= i < a || b <= i < |s| ==> InSet(s[i], cset)) &&
    (a < b ==> !InSet(s[a], cset) && !InSet(s[b - 1], cset))
  }

  ghost predicate IsTrimmed(t: seq<Byte>, s: seq<Byte>, cset: seq<Byte>) {
    exists a: nat, b: nat :: TrimsAt(s, cset, a, b) && t == s[a..b]
  }

  /** There is only one trimmed string. */
  lemma TrimUnique(t: seq<Byte>, u: seq<Byte>, s: seq<Byte>, cset: seq<Byte>)
    requires IsTrimmed(t, s, cset) && IsTrimmed(u, s, cset)
    ensures t == u
  {
    var a: nat, b: nat :| TrimsAt(s, cset, a, b) && t == s[a..b];
    var c: nat, d: nat :| TrimsAt(s, cset, c, d) && u == s[c..d];
    CutsAgree(s, cset, a, b, c, d);
  }

  lemma CutsAgree(s: seq<Byte>, cset: seq<Byte>, a: nat, b: nat, c: nat, d: nat)
    requires TrimsAt(s, cset, a, b) && TrimsAt(s, cset, c, d)
    ensures a < b || c < d ==> a == c && b == d
  {
  }

  /** A possibly negative index counts from the end, but not beyond the start. */
  function FromEnd(i: int, len: nat): nat {
    if i >= 0 then i else if len + i >= 0 then len + i else 0
  }

  /** The part of `s` from index `start` to index `end`, both inclusive. */
  function RangeOf(s: seq<Byte>, start: int, end: int): seq<Byte> {
    var lo, hi := FromEnd(start, |s|), FromEnd(end, |s|) + 1;
    if lo < |s| && lo < hi then s[lo..if hi < |s| then hi else |s|] else []
  }

  /** Position `p` is kept if it is neither before the start nor behind the end, where negative
      ones count from the end of the string, and an end before the string is taken for 0. */
  predicate Kept(p: nat, len: nat, start: int, end: int) {
    p < len && (if start >= 0 then start <= p else len + start <= p) &&
    (if end >= 0 then p <= end else p <= len + end || p == 0)
  }

  /** The range is the run of positions kept. */
  lemma RangeKeeps(s: seq<Byte>, start: int, end: int) returns (a: nat, b: nat)
    ensures a <= b <= |s| && RangeOf(s, start, end) == s[a..b]
    ensures forall p: nat :: a <= p < b <==> Kept(p, |s|, start, end)
  {
    var lo, hi := FromEnd(start, |s|), FromEnd(end, |s|) + 1;
    if lo < |s| && lo < hi {
      a, b := lo, if hi < |s| then hi else |s|;
    } else {
      a, b := 0, 0;
    }
  }

  class SdsString {
    var len: nat
    var free: nat
    var buf: array<Byte>
    ghost var doublings: nat
    ghost var extensions: nat

    /** len + free + 1 bytes are allocated and the content is NUL-terminated. */
    ghost predicate Valid()
      reads this, buf
    {
      buf.Length == len + free + 1 && buf[len] == 0
    }

    ghost function Contents(): seq<Byte>
      reads this, buf
      requires Valid()
    {
      buf[..len]
    }

    ghost function Hdr(): Header
      reads this
    {
      Header(len, free, doublings, extensions)
    }

    constructor NewLen(init: seq<Byte>)
      ensures Valid() && fresh(buf) && Contents() == init && Hdr() == Header(|init|, 0, 0, 0)
    {
      len, free := |init|, 0;
      doublings, extensions := 0, 0;
      var b := new Byte[|init| + 1](i requires 0 <= i <= |init| => if i < |init| then init[i] else 0);
      assert b[..|init|] == init;
      buf := b;
    }

    method MakeRoomFor(addlen: nat)
      requires Valid()
      modifies this
      ensures Valid() && Contents() == old(Contents()) && Hdr() == WithRoom(old(Hdr()), addlen)
      ensures buf == old(buf) || fresh(buf)
    {
      if free >= addlen {
        return;
      }
      var newlen := len + addlen;
      if newlen < SDS_MAX_PREALLOC {
        newlen := newlen * 2;
        doublings := doublings + 1;
      } else {
        newlen := newlen + SDS_MAX_PREALLOC;
        extensions := extensions + 1;
      }
      var newbuf := new Byte[newlen + 1](i requires 0 <= i <= newlen reads this, buf =>
        if i < buf.Length then buf[i] else 0);
      assert newbuf[..len] == buf[..len];
      buf := newbuf;
      free := newlen - len;
    }

    method CatLen(t: seq<Byte>)
      requires Valid()
      modifies this, buf
      ensures Valid() && (buf == old(buf) || fresh(buf))
      ensures Contents() == old(Contents()) + t && Hdr() == Appended(old(Hdr()), |t|)
    {
      ghost var before := Contents();
      MakeRoomFor(|t|);
      forall i | 0 <= i < |t| {
        buf[len + i] := t[i];
      }
      len := len + |t|;
      free := free - |t|;
      buf[len] := 0;
      assert buf[..len] == before + t;
    }

    method CpyLen(t: seq<Byte>)
      requires Valid()
      modifies this, buf
      ensures Valid() && (buf == old(buf) || fresh(buf)) && Contents() == t
    {
      var totlen := free + len;
      if totlen < |t| {
        MakeRoomFor(|t| - len);
        totlen := free + len;
      }
      forall i | 0 <= i < |t| {
        buf[i] := t[i];
      }
      buf[|t|] := 0;
      len := |t|;
      free := totlen - |t|;
      assert buf[..len] == t;
    }

    /** memmove of `newlen` bytes from `start` to the front; the rest becomes free space. */
    method Keep(start: nat, newlen: nat)
      requires Valid() && start + newlen <= len
      modifies this`len, this`free, buf
      ensures Valid() && Contents() == old(Contents())[start..start + newlen]
      ensures len + free == old(len + free)
    {
      ghost var kept := buf[start..start + newlen];
      forall i | 0 <= i < newlen {
        buf[i] := buf[start + i];
      }
      buf[newlen] := 0;
      free := free + (len - newlen);
      len := newlen;
      assert buf[..len] == kept;
    }

    method Trim(cset: seq<Byte>)
      requires Valid()
      modifies this`len, this`free, buf
      ensures Valid() && len + free == old(len + free) && IsTrimmed(Contents(), old(Contents()), cset)
    {
      ghost var s := Contents();
      var start, end := 0, len - 1;
      var sp, ep := start, end;
      while sp <= end && InSet(buf[sp], cset)
        invariant 0 <= sp <= end + 1
        invariant forall i :: 0 <= i < sp ==> InSet(buf[i], cset)
      {
        sp := sp + 1;
      }
      while ep > start && InSet(buf[ep], cset)
        invariant -1 <= ep <= end
        invariant ep >= 0 || end < 0
        invariant forall i :: ep < i < len ==> InSet(buf[i], cset)
      {
        ep := ep - 1;
      }
      var newlen := if sp > ep then 0 else ep - sp + 1;
      ghost var cut := if sp > ep then sp else ep + 1;
      assert TrimsAt(s, cset, sp, cut);
      Keep(sp, newlen);
    }

    method Range(start: int, end: int)
      requires Valid()
      modifies this`len, this`free, buf
      ensures Valid() && len + free == old(len + free) && Contents() == RangeOf(old(Contents()), start, end)
    {
      if len == 0 {
        return;
      }
      var start, end := start, end;
      if start < 0 {
        start := len + start;
        if start < 0 { start := 0; }
      }
      if end < 0 {
        end := len + end;
        if end < 0 { end := 0; }
      }
      var newlen := if start > end then 0 else end - start + 1;
      if newlen != 0 {
        if start >= len {
          newlen := 0;
        } else if end >= len {
          end := len - 1;
          newlen := if start > end then 0 else end - start + 1;
        }
      } else {
        start := 0;
      }
      Keep(if newlen != 0 then start else 0, newlen);
    }
  }

  function Sizes(parts: seq<seq<Byte>>): seq<nat> {
    seq(|parts|, i requires 0 <= i < |parts| => |parts[i]|)
  }

  /** Any run of appends: the content is the concatenation, the header the run of headers. */
  method CatAll(s: SdsString, parts: seq<seq<Byte>>)
    requires s.Valid()
    modifies s, s.buf
    ensures s.Valid() && s.Contents() == old(s.Contents()) + Flat(parts)
    ensures s.Hdr() == AppendedAll(old(s.Hdr()), Sizes(parts))
  {
    for i := 0 to |parts|
      invariant s.Valid() && (s.buf == old(s.buf) || fresh(s.buf))
      invariant s.Contents() + Flat(parts[i..]) == old(s.Contents()) + Flat(parts)
      invariant AppendedAll(s.Hdr(), Sizes(parts)[i..]) == AppendedAll(old(s.Hdr()), Sizes(parts))
    {
      assert parts[i..][1..] == parts[i + 1..] && Sizes(parts)[i..][1..] == Sizes(parts)[i + 1..];
      ghost var before := s.Contents();
      s.CatLen(parts[i]);
      assert (before + parts[i]) + Flat(parts[i + 1..]) == before + (parts[i] + Flat(parts[i + 1..]));
    }
    assert parts[|parts|..] == [] && Sizes(parts)[|parts|..] == [];
  }
}
