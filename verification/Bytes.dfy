/** Bytes and little-endian integers, as written through `*(int*)ptr = value`. */
module Bytes {

  type Byte = b: int | 0 <= b < 256

  /** 256 to the power `w`. */
  function Pow256(w: nat): (p: nat)
    ensures p > 0
  {
    if w == 0 then 1 else 256 * Pow256(w - 1)
  }

  /** The low `w` bytes of `n`, least significant first. */
  function LittleEndian(n: nat, w: nat): (bs: seq<Byte>)
    ensures |bs| == w
    decreases w
  {
    if w == 0 then [] else [n % 256] + LittleEndian(n / 256, w - 1)
  }

  function FromLittleEndian(bs: seq<Byte>): nat {
    if bs == [] then 0 else bs[0] + 256 * FromLittleEndian(bs[1..])
  }

  lemma {:induction false} UnsignedRoundTrip(n: nat, w: nat)
    requires n < Pow256(w)
    ensures FromLittleEndian(LittleEndian(n, w)) == n
    decreases w
  {
    if w > 0 {
      UnsignedRoundTrip(n / 256, w - 1);
    }
  }

  /** `n` fits a two's complement integer of `w` bytes. */
  predicate FitsSigned(n: int, w: nat) {
    0 <= 2 * n + Pow256(w) && 2 * n < Pow256(w)
  }

  predicate FitsUnsigned(n: int, w: nat) {
    0 <= n < Pow256(w)
  }

  function Signed(n: int, w: nat): seq<Byte> {
    LittleEndian(n % Pow256(w), w)
  }

  function FromSigned(bs: seq<Byte>): int {
    var u := FromLittleEndian(bs);
    if 2 * u >= Pow256(|bs|) then u - Pow256(|bs|) else u
  }

  lemma SignedRoundTrip(n: int, w: nat)
    requires FitsSigned(n, w)
    ensures |Signed(n, w)| == w && FromSigned(Signed(n, w)) == n
  {
    var p := Pow256(w);
    if n < 0 {
      ModWrap(n, p);
    } else {
      ModSmall(n, p);
    }
    UnsignedRoundTrip(n % p, w);
  }

  lemma ModSmall(n: nat, p: nat)
    requires n < p
    ensures n % p == n
  {
  }

  lemma ModWrap(n: int, p: nat)
    requires n < 0 <= n + p
    ensures n % p == n + p
  {
    assert n + p < p;
    ModSmall(n + p, p);
    assert (n + p) % p == n % p;
  }

  lemma Pow256Values()
    ensures Pow256(1) == 0x100 && Pow256(2) == 0x1_0000 && Pow256(4) == 0x1_0000_0000
    ensures Pow256(8) == 0x1_0000_0000_0000_0000
  {
    assert Pow256(3) == 0x100_0000 && Pow256(5) == 0x100_0000_0000;
    assert Pow256(6) == 0x1_0000_0000_0000 && Pow256(7) == 0x100_0000_0000_0000;
  }

  lemma Assoc<T>(a: seq<T>, b: seq<T>, c: seq<T>)
    ensures (a + b) + c == a + (b + c)
  {
  }

  /** Byte strings one after the other. */
  function Flat(parts: seq<seq<Byte>>): seq<Byte> {
    if parts == [] then [] else parts[0] + Flat(parts[1..])
  }

  lemma {:induction false} FlatParts(a: seq<seq<Byte>>, s: seq<Byte>, b: seq<seq<Byte>>)
    ensures Flat([]) == [] && Flat([s]) == s && Flat(a + [s] + b) == Flat(a) + s + Flat(b)
    decreases |a|
  {
    assert [s][1..] == [] && s + [] == s;
    if a == [] {
      assert (a + [s] + b)[1..] == b;
    } else {
      FlatParts(a[1..], s, b);
      assert (a + [s] + b)[1..] == a[1..] + [s] + b;
      Assoc(a[0], Flat(a[1..]), s + Flat(b));
      Assoc(Flat(a[1..]), s, Flat(b));
      Assoc(Flat(a), s, Flat(b));
    }
  }

  /** One ASCII character folded to upper case. */
  function ToUpper(c: Byte): (u: Byte)
    ensures 'a' as int <= c <= 'z' as int ==> u - 'A' as int == c - 'a' as int
    ensures u != c ==> 'a' as int <= c <= 'z' as int
  {
    if 97 <= c <= 122 then c - 32 else c
  }

  function Upper(s: seq<Byte>): (r: seq<Byte>)
    ensures |r| == |s| && forall i :: 0 <= i < |s| ==> r[i] == ToUpper(s[i])
  {
    seq(|s|, i requires 0 <= i < |s| => ToUpper(s[i]))
  }

  /** Two's complement truncation to 32 bits. */
  function ToInt32(x: int): int {
    (x + 0x8000_0000) % 0x1_0000_0000 - 0x8000_0000
  }

  /** The one 32-bit integer that differs from `x` by a multiple of 2^32. */
  lemma Truncates(x: int, r: int)
    ensures r == ToInt32(x) <==> -0x8000_0000 <= r < 0x8000_0000 && (x - r) % 0x1_0000_0000 == 0
  {
  }
}
