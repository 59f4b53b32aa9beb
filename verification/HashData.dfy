/** HashData2 and its lookup table. */
module HashData {
  // --- The table ---

  /** HashDataLookup: the sixteen entries whose index has the high half `h`. */
  function Row(h: bv8): bv128 {
    match h
    case 0 => 0x010E6E1961AE84778AAA7D761BE98C33
    case 1 => 0x57C5B16BEAA938441E07AD49BC282441
    case 2 => 0x31D568BE39D394DF30730F0243BAD21C
    case 3 => 0x0CB56746163A4B4EB7A7EE9D7C93AC90
    case 4 => 0xB0A18D563C4280539CF14F2EA8C629FE
    case 5 => 0xB255FDEDFA9A855823CE5F74FCC036DD
    case 6 => 0x66DAFFF0526A9EC93D0359092A9B9F5D
    case 7 => 0xA6503222AFC364631A961091042108BD
    case 8 => 0x79404D48D0F5827A8F3769861DA4B9C2
    case 9 => 0xC1EF65F205AB7E0B4A3B89E46CBFE88B
    case 10 => 0x061851147F115B5CFB97E1CF15627170
    case 11 => 0x54E212D6C7BB0D205EDCE0D4F7CCC42B
    case 12 => 0xF9EC2DF46FB69988815AD9CA13A5E747
    case 13 => 0xE68E60E33EB3F672A235A0D7CDB42F6D
    case 14 => 0x2C261F958700D8343F172545277592B8
    case _ => 0xA3C8DEEBF8F3DB0A98837BE5CB4C78D1
  }

  /** Where each value stands in the table, in the same form. */
  function Back(h: bv8): bv128 {
    match h
    case 0 => 0xE5002B697C94A0197E6BF79730B6012A
    case 1 => 0x7AA5B2CCA3AC34E9A103780C2F8C18E2
    case 2 => 0xB77D73581EEAE1EC1D4E6CBFE0C24BDE
    case 3 => 0x2820720FE7D95E89162435994468D4E8
    case 4 => 0x811F452C17EB33CF831B9836FD82374A
    case 5 => 0x71A26447B0514310576AC9A6A76FB85A
    case 6 => 0xD204AD7776926032228A65139CDF02C4
    case 7 => 0xAFAED7295BED0B07FE8087FA3C0A96A4
    case 8 => 0x46C886F906568BE4C79A089F0E42D188
    case 9 => 0x3F7BEE3D26E379A9F8C6556D483B666E
    case 10 => 0xDA41D8F08DCD70394C1509953E1A0574
    case 11 => 0x401250D5DD31C538EF8E2DB51C7F239D
    case 12 => 0x5D908F75BE114DB4F167CBFCBDDC59AB
    case 13 => 0x84FF2E25BB21B3DBE6CA61F6B95FF227
    case 14 => 0xBAAAB1D39BFBD0CE9E0D14F3C1533A91
    case _ => 0x634993F5C385D6BCF4C054A85C524F62
  }

  /** Entry `i` of sixteen, the first one in the highest byte. */
  function Entry(row: bv128, i: bv8): bv8
    requires i < 16
  {
    ((row >> (8 * (15 - i))) & 0xFF) as bv8
  }

  function Lookup(x: bv8): bv8 {
    Entry(Row(x >> 4), x & 15)
  }

  function Inverse(x: bv8): bv8 {
    Entry(Back(x >> 4), x & 15)
  }

  /** The table is a permutation of the bytes: every value stands in it exactly once. */
  lemma LookupIsPermutation(x: bv8)
    ensures Inverse(Lookup(x)) == x
  {
  }

  // --- The hash of one destination byte ---

  function Mix(b: bv8, h: bv8): bv8 {
    Lookup(b ^ h)
  }

  /** The source folded from its end into one byte that started as `h`. */
  function Fold(src: seq<bv8>, h: bv8): bv8 {
    if src == [] then h else Mix(src[0], Fold(src[1..], h))
  }

  function Next(h: bv8): bv8 {
    h + 1
  }

  function Value(h: bv8): nat {
    h as nat
  }

  lemma NextValue(h: bv8)
    ensures Value(Next(h)) == (Value(h) + 1) % 256 && Value(0) == 0
  {
  }

  /** The low eight bits of a position. */
  function Start(i: nat): bv8
    decreases i
  {
    if i == 0 then 0 else Next(Start(i - 1))
  }

  lemma {:induction false} StartValue(i: nat)
    ensures Value(Start(i)) == i % 256
    decreases i
  {
    hide Next, Value;
    if i == 0 {
      NextValue(0);
    } else {
      StartValue(i - 1);
      NextValue(Start(i - 1));
      assert ((i - 1) % 256 + 1) % 256 == i % 256;
    }
  }

  lemma SameByte(g: bv8, h: bv8)
    ensures Value(g) == Value(h) <==> g == h
  {
    assert (g as nat) as bv8 == g && (h as nat) as bv8 == h;
  }

  lemma StartInjective(i: nat, j: nat)
    ensures Start(i) == Start(j) <==> i % 256 == j % 256
  {
    hide Start, Value;
    StartValue(i);
    StartValue(j);
    SameByte(Start(i), Start(j));
  }

  /** Mixing is injective in either byte. */
  lemma MixCancels(a: bv8, b: bv8, g: bv8, h: bv8)
    ensures Mix(a, h) == Mix(b, h) <==> a == b
    ensures Mix(a, g) == Mix(a, h) <==> g == h
  {
    hide Lookup, Inverse;
    LookupIsPermutation(a ^ h);
    LookupIsPermutation(b ^ h);
    LookupIsPermutation(a ^ g);
  }

  /** Different starting bytes stay different, whatever the source. */
  lemma {:induction false} FoldInjective(src: seq<bv8>, g: bv8, h: bv8)
    ensures Fold(src, g) == Fold(src, h) <==> g == h
    decreases |src|
  {
    hide Mix;
    if src != [] {
      FoldInjective(src[1..], g, h);
      MixCancels(src[0], src[0], Fold(src[1..], g), Fold(src[1..], h));
    }
  }

  /** Changing one source byte, wherever it is, changes every destination byte. */
  lemma {:induction false} FoldSensitive(src: seq<bv8>, k: nat, c: bv8, h: bv8)
    requires k < |src|
    ensures Fold(src, h) == Fold(src[k := c], h) <==> c == src[k]
    decreases |src|
  {
    hide Mix;
    var changed := src[k := c];
    if k == 0 {
      assert changed[1..] == src[1..];
      MixCancels(src[0], c, h, Fold(src[1..], h));
    } else {
      assert changed[1..] == src[1..][k - 1 := c];
      FoldSensitive(src[1..], k - 1, c, h);
      MixCancels(src[0], src[0], Fold(src[1..], h), Fold(changed[1..], h));
    }
  }

  /** The destination after hashing. */
  function Hash(src: seq<bv8>, n: nat): (r: seq<bv8>)
    ensures |r| == n
  {
    seq(n, i requires 0 <= i < n => Fold(src, Start(i)))
  }

  /** Two destination bytes are equal exactly when their positions agree modulo 256, so up
      to 256 of them are pairwise distinct. */
  lemma HashDistinct(src: seq<bv8>, n: nat, i: nat, j: nat)
    requires i < n && j < n
    ensures Hash(src, n)[i] == Hash(src, n)[j] <==> i % 256 == j % 256
  {
    FoldInjective(src, Start(i), Start(j));
    StartInjective(i, j);
  }

  lemma HashSensitive(src: seq<bv8>, k: nat, c: bv8, n: nat, i: nat)
    requires k < |src| && i < n
    ensures Hash(src, n)[i] == Hash(src[k := c], n)[i] <==> c == src[k]
  {
    FoldSensitive(src, k, c, Start(i));
  }

  /** Byte by byte: without a source every place has its position; a source byte in front is
      mixed into what the rest gives and looked up. */
  lemma HashStep(b: bv8, src: seq<bv8>, n: nat, i: nat)
    requires i < n
    ensures Hash([], n)[i] as nat == i % 256
    ensures Hash([b] + src, n)[i] == Lookup(b ^ Hash(src, n)[i])
  {
    hide Lookup, Start;
    StartValue(i);
    assert ([b] + src)[1..] == src;
  }

  /** The byte a place already has, put in front of the source, makes that place Lookup(0). */
  lemma HashCancels(src: seq<bv8>, n: nat, i: nat)
    requires i < n
    ensures Hash([Hash(src, n)[i]] + src, n)[i] == Lookup(0)
  {
    hide Lookup;
    HashStep(Hash(src, n)[i], src, n, i);
    assert Hash(src, n)[i] ^ Hash(src, n)[i] == 0;
  }

  datatype HResult = Ok | InvalidArgument

  /** The bytes hashed: the count is a signed 32-bit number, so of more than two billion
      bytes none is. */
  function Counted(s: seq<bv8>): seq<bv8> {
    if |s| <= 0x8000_0000 then s else []
  }

  /** Every byte starts as its position and takes in the source from its end. */
  method HashData2(lpSrc: array?<bv8>, lpDest: array?<bv8>) returns (hr: HResult)
    requires lpSrc != null && lpDest != null ==> lpSrc != lpDest
    requires lpSrc != null ==> lpSrc.Length < 0x1_0000_0000
    requires lpDest != null ==> lpDest.Length <= 0x8000_0000
    modifies lpDest
    ensures hr == InvalidArgument <==> lpSrc == null || lpDest == null
    ensures hr == Ok ==> lpDest[..] == Hash(Counted(old(lpSrc[..])), lpDest.Length)
    ensures hr == Ok && lpSrc.Length <= 0x8000_0000 ==> lpDest[..] == Hash(old(lpSrc[..]), lpDest.Length)
    ensures hr == Ok && lpSrc.Length > 0x8000_0000 ==> lpDest[..] == Hash([], lpDest.Length)
  {
    hide Lookup, Fold, Start, FoldedAll;
    if lpSrc == null || lpDest == null {
      return InvalidArgument;
    }
    ghost var src := Counted(lpSrc[..]);
    var srcCount := if lpSrc.Length <= 0x8000_0000 then lpSrc.Length - 1 else lpSrc.Length - 1 - 0x1_0000_0000;
    var destCount := lpDest.Length - 1;
    while destCount >= 0
      invariant -1 <= destCount < lpDest.Length
      invariant forall i :: destCount < i < lpDest.Length ==> lpDest[i] == Start(i)
    {
      lpDest[destCount] := Start(destCount);
      destCount := destCount - 1;
    }
    FoldedNothing(lpDest[..]);
    ghost var done: seq<bv8> := [];
    assert src[|src|..] == done;
    while srcCount >= 0
      invariant -1 <= srcCount < |src| || (srcCount < 0 && src == [])
      invariant FoldedAll(lpDest[..], done) && done == if srcCount >= -1 then src[srcCount + 1..] else []
    {
      FoldEveryByte(lpSrc[srcCount], lpDest, done);
      done := [src[srcCount]] + done;
      srcCount := srcCount - 1;
    }
    assert done == src;
    FoldedIsHash(lpDest[..], src);
    return Ok;
  }

  ghost predicate FoldedAll(dest: seq<bv8>, src: seq<bv8>) {
    forall i :: 0 <= i < |dest| ==> dest[i] == Fold(src, Start(i))
  }

  lemma FoldedNothing(dest: seq<bv8>)
    requires forall i :: 0 <= i < |dest| ==> dest[i] == Start(i)
    ensures FoldedAll(dest, [])
  {
  }

  lemma FoldedIsHash(dest: seq<bv8>, src: seq<bv8>)
    requires FoldedAll(dest, src)
    ensures dest == Hash(src, |dest|)
  {
  }

  /** The inner loop: one source byte taken into every destination byte. */
  method FoldEveryByte(b: bv8, lpDest: array<bv8>, ghost done: seq<bv8>)
    requires FoldedAll(lpDest[..], done)
    modifies lpDest
    ensures FoldedAll(lpDest[..], [b] + done)
  {
    hide Lookup, Start;
    assert ([b] + done)[1..] == done;
    var destCount := lpDest.Length - 1;
    while destCount >= 0
      invariant -1 <= destCount < lpDest.Length
      invariant forall i :: 0 <= i <= destCount ==> lpDest[i] == Fold(done, Start(i))
      invariant forall i :: destCount < i < lpDest.Length ==> lpDest[i] == Fold([b] + done, Start(i))
    {
      lpDest[destCount] := Lookup(b ^ lpDest[destCount]);
      destCount := destCount - 1;
    }
  }
}
