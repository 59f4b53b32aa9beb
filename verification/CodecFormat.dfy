/** The format in numbers: which values there are, which of them are written and read back,
    and which bytes they become. */
module CodecFormat {
  import opened Bytes
  import opened Odometer
  import opened Codec
  import opened CodecRoundTrip

  // --- The values ---

  /** 16-, 32- and 64-bit integers, bytes, 4- and 8-byte floating-point numbers, dates,
      decimals, and strings below 2 GB. */
  lemma ScalarsInNumbers(v: Value)
    requires !v.Arr?
    ensures v.Int? ==> (WellFormed(v) <==>
              match v.vt
              case 2 => -0x8000 <= v.n < 0x8000
              case 3 => -0x8000_0000 <= v.n < 0x8000_0000
              case 20 => -0x8000_0000_0000_0000 <= v.n < 0x8000_0000_0000_0000
              case 17 => 0 <= v.n < 0x100
              case 18 => 0 <= v.n < 0x1_0000
              case 19 => 0 <= v.n < 0x1_0000_0000
              case 21 => 0 <= v.n < 0x1_0000_0000_0000_0000
              case _ => false)
    ensures v.Bits? ==>
              (WellFormed(v) <==> (v.kind == 4 && |v.bits| == 4) || ((v.kind == 5 || v.kind == 7) && |v.bits| == 8))
    ensures v.Decimal? ==> (WellFormed(v) <==> |v.rest| == 14)
    ensures v.Str? ==> (WellFormed(v) <==> |v.utf8| < 0x8000_0000)
    ensures v.Null? || v.DbNull? || v.Bool? ==> WellFormed(v)
  {
    Pow256Values();
  }

  /** An array of any of the element types: up to 32 dimensions, 32-bit indices, below 2 GB. */
  lemma ArraysInNumbers(elem: ElemType, lens: seq<nat>, lbs: seq<int>, items: seq<Value>)
    requires 1 <= |lens| == |lbs| <= 32 && |items| == Product(lens) && 8 * |items| < 0x8000_0000
    requires forall i :: 0 <= i < |lens| ==>
               lens[i] < 0x8000_0000 && -0x8000_0000 <= lbs[i] <= 0x7FFF_FFFF && lbs[i] + lens[i] - 1 <= 0x7FFF_FFFF
    requires |elem.name| < 0x8000_0000
    requires if elem.vt == 12 then elem.name != [] else elem.name == [] || 93 in elem.name
    requires elem.vt in {1, 2, 3, 4, 5, 7, 8, 11, 12, 14, 17, 18, 19, 20, 21}
    requires forall i :: 0 <= i < |items| ==> WellFormed(items[i])
    requires 93 in elem.name ==> forall i :: 0 <= i < |items| ==> items[i].Arr? || items[i].Null?
    requires 93 !in elem.name && elem.vt == 8 ==> forall i :: 0 <= i < |items| ==> items[i].Str? || items[i].Null?
    requires 93 !in elem.name && elem.vt == 1 ==> forall i :: 0 <= i < |items| ==> items[i].DbNull?
    requires 93 !in elem.name && elem.vt == 14 ==> forall i :: 0 <= i < |items| ==> items[i].Decimal?
    requires 93 !in elem.name && elem.vt == 11 ==> forall i :: 0 <= i < |items| ==> items[i].Bool?
    requires 93 !in elem.name && elem.vt in {4, 5, 7} ==>
               forall i :: 0 <= i < |items| ==> items[i].Bits? && items[i].kind == elem.vt
    requires 93 !in elem.name && elem.vt in {2, 3, 17, 18, 19, 20, 21} ==>
               forall i :: 0 <= i < |items| ==> items[i].Int? && items[i].vt == elem.vt
    ensures WellFormed(Arr(elem, lens, lbs, items))
  {
    forall i | 0 <= i < |items| ensures GoodItem(elem, items[i]) {
    }
    assert UnitSize(elem.vt, ModeOf(elem)) <= 8;
  }

  // --- Which are written ---

  /** Every scalar is written.  Of the arrays that are not arrays of arrays, those of
      integers and floating-point numbers are; of bytes, unless they have one dimension not
      starting at 0; of strings and decimals, unless dimension 0 ends at the largest
      integer; of booleans only when empty, and of dates never. */
  lemma WrittenInNumbers(v: Value)
    requires WellFormed(v)
    ensures !v.Arr? ==> Writable(v)
    ensures v.Arr? && 93 !in v.elem.name ==>
              match v.elem.vt
              case 17 => Writable(v) <==> |v.lens| != 1 || v.lbs[0] == 0
              case 8 => Writable(v) <==> v.items == [] || v.lens[0] + v.lbs[0] <= 0x7FFF_FFFF
              case 14 => Writable(v) <==> v.items == [] || v.lens[0] + v.lbs[0] <= 0x7FFF_FFFF
              case 11 => Writable(v) <==> v.items == []
              case 7 => !Writable(v)
              case 12 => true
              case _ => Writable(v)
  {
  }

  /** An array of objects or of arrays is written if its elements are and dimension 0 ends
      below the largest integer; empty, only an array of objects is. */
  lemma WrittenByElement(v: Value)
    requires WellFormed(v) && v.Arr? && (93 in v.elem.name || v.elem.vt == 12)
    ensures v.items == [] ==> (Writable(v) <==> 93 !in v.elem.name)
    ensures v.items != [] ==>
              (Writable(v) <==>
               v.lens[0] + v.lbs[0] <= 0x7FFF_FFFF && forall i :: 0 <= i < |v.items| ==> Writable(v.items[i]))
  {
  }

  /** Everything but a non-empty array of DBNull can be read, at any depth. */
  lemma ReadInNumbers(v: Value)
    requires WellFormed(v)
    ensures !v.Arr? ==> Readable(v)
    ensures v.Arr? && (93 in v.elem.name || v.elem.vt == 12) ==>
              (Readable(v) <==> forall i :: 0 <= i < |v.items| ==> Readable(v.items[i]))
    ensures v.Arr? && 93 !in v.elem.name && v.elem.vt != 12 ==> (Readable(v) <==> v.elem.vt != 1 || v.items == [])
  {
  }

  /** What comes back. */
  lemma NormInNumbers(v: Value)
    requires v.Arr? ==> GoodElem(v.elem)
    ensures !v.Arr? ==> Norm(v) == if v.Int? && v.vt == 17 then Int(3, v.n) else v
    ensures v.Arr? ==> Norm(v).Arr? && Norm(v).elem == v.elem && Norm(v).lens == v.lens && Norm(v).lbs == v.lbs
    ensures v.Arr? ==> |Norm(v).items| == |v.items|
    ensures v.Arr? && (93 in v.elem.name || v.elem.vt == 12) ==>
              forall i :: 0 <= i < |v.items| ==> Norm(v).items[i] == Norm(v.items[i])
    ensures v.Arr? && 93 !in v.elem.name && v.elem.vt == 8 ==>
              forall i :: 0 <= i < |v.items| ==> Norm(v).items[i] == if v.items[i].Null? then Str([]) else v.items[i]
    ensures v.Arr? && 93 !in v.elem.name && v.elem.vt != 8 && v.elem.vt != 12 ==> Norm(v) == v
  {
    if v.Arr? {
      forall i | 0 <= i < |v.items| ensures |Norm(v).items| == |v.items| && Norm(v).items[i] == NormItem(v, i) {
      }
      assert 93 !in v.elem.name && v.elem.vt != 8 && v.elem.vt != 12 ==> NormItems(v) == v.items;
    }
  }

  // --- The round trip over them ---

  /** Strings, some of them null, in an array of any shape: the nulls come back empty. */
  lemma StringArrayRound(lens: seq<nat>, lbs: seq<int>, items: seq<Value>, rest: seq<Byte>)
    requires 1 <= |lens| == |lbs| <= 32 && |items| == Product(lens) && 8 * |items| < 0x8000_0000
    requires forall i :: 0 <= i < |lens| ==>
               lens[i] < 0x8000_0000 && -0x8000_0000 <= lbs[i] <= 0x7FFF_FFFF && lbs[i] + lens[i] - 1 <= 0x7FFF_FFFF
    requires lens[0] + lbs[0] <= 0x7FFF_FFFF
    requires forall i :: 0 <= i < |items| ==> items[i].Null? || (items[i].Str? && |items[i].utf8| < 0x8000_0000)
    ensures var v := Arr(ElemType(8, []), lens, lbs, items);
            var back := seq(|items|, i requires 0 <= i < |items| => if items[i].Null? then Str([]) else items[i]);
            WellFormed(v) && Dec(0x2008, Enc(v) + rest) == Ok((Arr(ElemType(8, []), lens, lbs, back), rest))
  {
    hide Dec, Enc, Norm, Writable, Readable;
    var v := Arr(ElemType(8, []), lens, lbs, items);
    ArraysInNumbers(v.elem, lens, lbs, items);
    WrittenInNumbers(v);
    ReadInNumbers(v);
    RoundTrip(v);
    NormInNumbers(v);
    assert Dec(Tag(v), Enc(v) + rest) == Ok((Norm(v), rest));
    assert Norm(v).items == seq(|items|, i requires 0 <= i < |items| => if items[i].Null? then Str([]) else items[i]);
  }

  /** Integers, floating-point numbers and decimals in an array come back as they were. */
  lemma NumberArrayRound(v: Value, rest: seq<Byte>)
    requires WellFormed(v) && v.Arr? && v.elem.name == [] && v.elem.vt in {2, 3, 4, 5, 14, 17, 18, 19, 20, 21}
    requires v.elem.vt == 14 ==> v.lens[0] + v.lbs[0] <= 0x7FFF_FFFF
    requires v.elem.vt == 17 ==> |v.lens| != 1 || v.lbs[0] == 0
    ensures Dec(0x2000 + v.elem.vt, Enc(v) + rest) == Ok((v, rest))
  {
    hide Dec, Enc, Norm, Writable, Readable, WellFormed;
    WrittenInNumbers(v);
    ReadInNumbers(v);
    RoundTrip(v);
    NormInNumbers(v);
    assert Dec(Tag(v), Enc(v) + rest) == Ok((Norm(v), rest));
  }

  /** Arrays of objects and of arrays come back if each of their elements does. */
  lemma NestedArrayRound(v: Value, rest: seq<Byte>)
    requires WellFormed(v) && v.Arr? && (93 in v.elem.name || v.elem.vt == 12) && v.items != []
    requires v.lens[0] + v.lbs[0] <= 0x7FFF_FFFF
    requires forall i :: 0 <= i < |v.items| ==> Writable(v.items[i]) && Readable(v.items[i])
    ensures Dec(0x2000 + v.elem.vt, Enc(v) + rest) == Ok((Norm(v), rest))
  {
    hide Dec, Enc, Norm, Writable, Readable, WellFormed;
    WrittenByElement(v);
    ReadInNumbers(v);
    RoundTrip(v);
    assert Dec(Tag(v), Enc(v) + rest) == Ok((Norm(v), rest));
  }

  // --- The bytes ---

  /** Least significant byte first. */
  lemma {:induction false} LittleEndianAt(n: nat, w: nat, i: nat)
    requires i < w
    ensures LittleEndian(n, w)[i] as int == n / Pow256(i) % 256
  {
    if i > 0 {
      LittleEndianAt(n / 256, w - 1, i - 1);
      DivideTwice(n, 256, Pow256(i - 1));
    }
  }

  lemma DivideTwice(n: nat, a: nat, b: nat)
    requires a > 0 && b > 0
    ensures a * b > 0 && n / a / b == n / (a * b)
  {
    DivideBounds(n, a);
    DivideBounds(n / a, b);
    Nested(n, a, b, n / a, n / a / b);
    DivideIs(n, a * b, n / a / b);
  }

  lemma DivideBounds(n: nat, a: nat)
    requires a > 0
    ensures a * (n / a) <= n < a * (n / a) + a
  {
  }

  lemma Nested(n: nat, a: nat, b: nat, m: nat, q: nat)
    requires a > 0 && b > 0 && a * m <= n < a * m + a && b * q <= m < b * q + b
    ensures a * b > 0 && (a * b) * q <= n < (a * b) * q + a * b
  {
    Scaled(a, b * q, m);
    Scaled(a, m + 1, b * q + b);
    Product3(a, b, q);
  }

  lemma Product3(a: nat, b: nat, q: nat)
    ensures a * (b * q) == (a * b) * q && a * (b * q + b) == (a * b) * q + a * b
  {
  }

  lemma Scaled(a: nat, x: int, y: int)
    requires x <= y
    ensures a * x <= a * y
  {
  }

  lemma DivideIs(n: nat, m: nat, q: nat)
    requires m > 0 && m * q <= n < m * q + m
    ensures n / m == q
  {
    var k := n / m;
    AtMost(m, k, q, n);
    AtMost(m, q, k, n);
  }

  lemma AtMost(m: nat, x: nat, y: nat, n: nat)
    requires m * y <= n < m * x + m
    ensures y <= x
  {
    if x < y {
      Scaled(m, x + 1, y);
    }
  }

  /** The four bytes at `at` are `n`, least significant first. */
  predicate Int32At(s: seq<Byte>, at: nat, n: int) {
    at + 4 <= |s| && -0x8000_0000 <= n < 0x8000_0000 &&
    s[at] as int + 0x100 * s[at + 1] as int + 0x1_0000 * s[at + 2] as int + 0x100_0000 * s[at + 3] as int ==
       if n >= 0 then n else n + 0x1_0000_0000
  }

  predicate Int16At(s: seq<Byte>, at: nat, n: int) {
    at + 2 <= |s| && -0x8000 <= n < 0x8000 && s[at] as int + 0x100 * s[at + 1] as int == if n >= 0 then n else n + 0x1_0000
  }

  lemma SignedAt(n: int)
    ensures |Signed(n, 4)| == 4 && |Signed(n, 2)| == 2
    ensures -0x8000_0000 <= n < 0x8000_0000 ==> Int32At(Signed(n, 4), 0, n)
    ensures -0x8000 <= n < 0x8000 ==> Int16At(Signed(n, 2), 0, n)
  {
    hide LittleEndian, FromLittleEndian;
    Pow256Values();
    FromFour(LittleEndian(n % 0x1_0000_0000, 4));
    FromTwo(LittleEndian(n % 0x1_0000, 2));
    UnsignedRoundTrip(n % 0x1_0000_0000, 4);
    UnsignedRoundTrip(n % 0x1_0000, 2);
  }

  lemma FromTwo(b: seq<Byte>)
    requires |b| == 2
    ensures FromLittleEndian(b) == b[0] as int + 0x100 * b[1] as int
  {
    assert b[1..][1..] == [];
    assert FromLittleEndian(b[1..]) == b[1] + 256 * FromLittleEndian([]);
  }

  lemma FromFour(b: seq<Byte>)
    requires |b| == 4
    ensures FromLittleEndian(b) == b[0] as int + 0x100 * b[1] as int + 0x1_0000 * b[2] as int + 0x100_0000 * b[3] as int
  {
    assert b[1..][1..] == b[2..];
    FromTwo(b[2..]);
    assert FromLittleEndian(b[1..]) == b[1] + 256 * FromLittleEndian(b[2..]);
  }

  /** A string is its length in 32 bits and its bytes. */
  lemma StringLayout(b: seq<Byte>)
    requires |b| < 0x8000_0000
    ensures |EncString(b)| == 4 + |b| && Int32At(EncString(b), 0, |b|) && EncString(b)[4..] == b
  {
    SignedAt(|b|);
  }

  /** Descriptor, name of the element type, and one pair of length and lower bound for each
      dimension. */
  lemma HeaderLayout(elem: ElemType, lens: seq<nat>, lbs: seq<int>, d: nat)
    requires GoodShape(lens, lbs) && GoodElem(elem) && d < |lens|
    ensures var h := EncHeader(elem, lens, lbs);
            var info := if elem.vt == 12 then EncString(elem.name)
                        else if 93 in elem.name then EncString(JAGGED) + EncString(elem.name) else EncString([]);
            var at := 12 + |info| + 8 * d;
            |h| == 12 + |info| + 8 * |lens| && Int16At(h, 0, 0x2000 + elem.vt) && h[2] == 0 && h[3] == 0 &&
            Int32At(h, 4, ElementSize(elem.vt)) && Int32At(h, 8, |lens|) && h[12..12 + |info|] == info &&
            Int32At(h, at, lens[d]) && Int32At(h, at + 4, lbs[d])
  {
    hide Signed, EncString, Int16At, Int32At, EncDescriptor, EncBounds, EncTypeInfo, GoodElem, GoodShape, JAGGED;
    ShapeIs(elem, lens, lbs);
    InfoIs(elem);
    BoundsAt(lens, lbs, d);
    DescriptorAt(elem.vt, |lens|);
    HeaderParts(EncDescriptor(elem.vt, |lens|), EncTypeInfo(elem), EncBounds(lens, lbs), d,
                0x2000 + elem.vt, ElementSize(elem.vt), |lens|, lens[d], lbs[d]);
  }

  lemma HeaderParts(desc: seq<Byte>, info: seq<Byte>, bounds: seq<Byte>, d: nat,
                    tag: int, size: int, rank: int, len: int, lb: int)
    requires |desc| == 12 && Int16At(desc, 0, tag) && Int32At(desc, 4, size) && Int32At(desc, 8, rank)
    requires Int32At(bounds, 8 * d, len) && Int32At(bounds, 8 * d + 4, lb)
    ensures var h := desc + info + bounds;
            Int16At(h, 0, tag) && h[2] == desc[2] && h[3] == desc[3] && Int32At(h, 4, size) && Int32At(h, 8, rank) &&
            h[12..12 + |info|] == info &&
            Int32At(h, 12 + |info| + 8 * d, len) && Int32At(h, 12 + |info| + 8 * d + 4, lb)
  {
    hide Int16At, Int32At;
    Laid(desc, info, bounds);
    Shifted(desc, 0, [], info + bounds, tag);
    Shifted(desc, 4, [], info + bounds, size);
    Shifted(desc, 8, [], info + bounds, rank);
    Shifted(bounds, 8 * d, desc + info, [], len);
    Shifted(bounds, 8 * d + 4, desc + info, [], lb);
  }

  lemma Laid(desc: seq<Byte>, info: seq<Byte>, bounds: seq<Byte>)
    ensures desc + info + bounds == [] + desc + (info + bounds) == (desc + info) + bounds + []
    ensures (desc + info + bounds)[|desc|..|desc| + |info|] == info
    ensures forall i :: 0 <= i < |desc| ==> (desc + info + bounds)[i] == desc[i]
  {
  }

  lemma ShapeIs(elem: ElemType, lens: seq<nat>, lbs: seq<int>)
    requires GoodShape(lens, lbs) && GoodElem(elem)
    ensures |lens| == |lbs| && |lens| <= 32 && 0 <= elem.vt < 0x100
    ensures forall i :: 0 <= i < |lens| ==> lens[i] < 0x8000_0000 && -0x8000_0000 <= lbs[i] < 0x8000_0000
  {
  }

  lemma InfoIs(elem: ElemType)
    requires GoodElem(elem)
    ensures EncTypeInfo(elem) ==
            if elem.vt == 12 then EncString(elem.name)
            else if 93 in elem.name then EncString(JAGGED) + EncString(elem.name) else EncString([])
  {
  }

  lemma Shifted(s: seq<Byte>, at: nat, before: seq<Byte>, after: seq<Byte>, n: int)
    ensures Int32At(s, at, n) ==> Int32At(before + s + after, |before| + at, n)
    ensures Int16At(s, at, n) ==> Int16At(before + s + after, |before| + at, n)
  {
  }

  lemma DescriptorAt(vt: int, rank: nat)
    requires 0 <= vt < 0x100 && rank <= 32
    ensures var d := EncDescriptor(vt, rank);
            |d| == 12 && Int16At(d, 0, 0x2000 + vt) && d[2] == 0 && d[3] == 0 &&
            Int32At(d, 4, ElementSize(vt)) && Int32At(d, 8, rank)
  {
    hide Signed;
    SignedAt(0x2000 + vt);
    SignedAt(ElementSize(vt));
    SignedAt(rank);
  }

  lemma {:induction false} BoundsAt(lens: seq<nat>, lbs: seq<int>, d: nat)
    requires d < |lens| == |lbs|
    requires forall i :: 0 <= i < |lens| ==> lens[i] < 0x8000_0000 && -0x8000_0000 <= lbs[i] < 0x8000_0000
    ensures |EncBounds(lens, lbs)| == 8 * |lens|
    ensures Int32At(EncBounds(lens, lbs), 8 * d, lens[d]) && Int32At(EncBounds(lens, lbs), 8 * d + 4, lbs[d])
    decreases |lens|
  {
    hide Signed;
    var a, b, more := Signed(lens[0], 4), Signed(lbs[0], 4), EncBounds(lens[1..], lbs[1..]);
    SignedAt(lens[0]);
    SignedAt(lbs[0]);
    if |lens| > 1 {
      BoundsAt(lens[1..], lbs[1..], if d > 0 then d - 1 else 0);
    }
    if d > 0 {
      Shifted(more, 8 * (d - 1), a + b, [], lens[d]);
      Shifted(more, 8 * (d - 1) + 4, a + b, [], lbs[d]);
      assert a + b + more + [] == EncBounds(lens, lbs);
    }
  }

  /** Storage sizes in bytes, and the mark of a jagged array. */
  lemma SizesInNumbers()
    ensures JAGGED == ['_' as int, '_' as int, 'j' as int, 'a' as int, 'g' as int, 'g' as int, 'e' as int, 'd' as int]
    ensures ElementSize(17) == 1
    ensures forall vt | vt in {2, 11, 18} :: ElementSize(vt) == 2
    ensures forall vt | vt in {3, 4, 19} :: ElementSize(vt) == 4
    ensures forall vt | vt in {5, 7, 8, 20, 21} :: ElementSize(vt) == 8
    ensures forall vt | vt in {12, 14} :: ElementSize(vt) == 16
    ensures ElementSize(1) == 0
  {
  }

  /** True is -1 and false 0 in 16 bits; a decimal begins with its own tag; nulls are empty. */
  lemma ScalarLayout(v: Value)
    requires WellFormed(v) && !v.Arr?
    ensures v.Bool? ==> EncScalar(v) == if v.b then [255, 255] else [0, 0]
    ensures v.Decimal? ==> EncScalar(v) == [14, 0] + v.rest
    ensures v.Bits? ==> EncScalar(v) == v.bits
    ensures v.Null? || v.DbNull? ==> EncScalar(v) == []
    ensures v.Int? && v.vt == 2 ==> |EncScalar(v)| == 2 && Int16At(EncScalar(v), 0, v.n)
    ensures v.Int? && v.vt == 3 ==> |EncScalar(v)| == 4 && Int32At(EncScalar(v), 0, v.n)
    ensures v.Int? && v.vt == 17 ==> EncScalar(v) == [v.n]
    ensures v.Str? ==> EncScalar(v) == EncString(v.utf8)
  {
    Pow256Values();
    if v.Int? {
      SignedAt(v.n);
    } else if v.Bool? && v.b {
      TwoBytesOfMinusOne();
    }
  }

  /** Integers of every width, least significant byte first, negative ones in two's complement. */
  lemma IntLayout(v: Value, i: nat)
    requires WellFormed(v) && v.Int? && i < ElementSize(v.vt)
    ensures var w := ElementSize(v.vt);
            var u := if v.n >= 0 then v.n else v.n + Pow256(w);
            |EncScalar(v)| == w && 0 <= u < Pow256(w) && EncScalar(v)[i] as int == u / Pow256(i) % 256
  {
    hide LittleEndian, Pow256;
    var w := ElementSize(v.vt);
    if v.n >= 0 {
      ModSmall(v.n, Pow256(w));
    } else {
      ModWrap(v.n, Pow256(w));
    }
    LittleEndianAt(v.n % Pow256(w), w, i);
  }

  /** The elements of a primitive array lie one after the other in memory order. */
  lemma {:induction false} BlockLayout(items: seq<Value>, i: nat)
    requires i < |items| && forall x :: x in items ==> !x.Arr?
    ensures EncBlock(items) == EncBlock(items[..i]) + (EncScalar(items[i]) + EncBlock(items[i + 1..]))
    ensures |items| == 1 ==> EncBlock(items) == EncScalar(items[0])
  {
    hide EncScalar;
    if i > 0 {
      BlockLayout(items[1..], i - 1);
      assert items[..i][1..] == items[1..][..i - 1] && items[1..][i..] == items[i + 1..];
      Assoc(EncScalar(items[0]), EncBlock(items[1..][..i - 1]), EncScalar(items[i]) + EncBlock(items[i + 1..]));
    } else {
      assert items[..0] == [] && [] + EncBlock(items) == EncBlock(items);
    }
    if |items| == 1 {
      assert EncScalar(items[0]) + [] == EncScalar(items[0]);
    }
  }

  lemma TwoBytesOfMinusOne()
    ensures Signed(-1, 2) == [255, 255]
  {
    Pow256Values();
    assert LittleEndian(0xFFFF, 2) == [255] + LittleEndian(255, 1) && LittleEndian(255, 1) == [255] + LittleEndian(0, 0);
  }

  /** The elements of an array follow its header one after the other in visiting order. */
  lemma ArrayLayout(v: Value)
    requires WellFormed(v) && v.Arr?
    ensures Enc(v) == EncHeader(v.elem, v.lens, v.lbs) + EncBody(v)
    ensures ElementWise(ModeOf(v.elem)) ==> EncBody(v) == Concat(v, Order(v.lens), |v.items|)
  {
    if ElementWise(ModeOf(v.elem)) {
      FromIsConcat(v, Order(v.lens), 0);
      assert [] + EncFrom(v, Order(v.lens), 0) == EncFrom(v, Order(v.lens), 0);
    }
  }

  /** An object has its tag in front. */
  lemma ItemLayout(v: Value, j: nat)
    requires WellFormed(v) && v.Arr? && j < |v.items|
    ensures 93 in v.elem.name || v.elem.vt == 12 ==> EncItem(v, j) == Signed(Tag(v.items[j]), 2) + Enc(v.items[j])
    ensures 93 !in v.elem.name && v.elem.vt == 8 ==>
              EncItem(v, j) == EncString(if v.items[j].Null? then [] else v.items[j].utf8)
    ensures 93 !in v.elem.name && v.elem.vt == 14 ==> EncItem(v, j) == [14, 0] + v.items[j].rest
  {
    hide Enc;
    assert GoodItem(v.elem, v.items[j]);
  }

  /** The first `k` elements of the visiting order. */
  ghost function Concat(v: Value, order: seq<nat>, k: nat): (b: seq<Byte>)
    requires WellFormed(v) && v.Arr? && IsOrder(order, |v.items|) && k <= |v.items|
    decreases k
  {
    if k == 0 then [] else Concat(v, order, k - 1) + EncItem(v, order[k - 1])
  }

  lemma {:induction false} FromIsConcat(v: Value, order: seq<nat>, k: nat)
    requires WellFormed(v) && v.Arr? && IsOrder(order, |v.items|) && k <= |v.items|
    ensures Concat(v, order, k) + EncFrom(v, order, k) == Concat(v, order, |v.items|)
    decreases |v.items| - k
  {
    if k < |v.items| {
      FromIsConcat(v, order, k + 1);
      Assoc(Concat(v, order, k), EncItem(v, order[k]), EncFrom(v, order, k + 1));
    } else {
      assert Concat(v, order, k) + [] == Concat(v, order, k);
    }
  }
}
