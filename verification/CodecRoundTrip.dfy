/** Reading back what was written: the value up to Norm, every byte consumed, the
    suffix untouched; and exactly when reading fails. */
module CodecRoundTrip {
  import opened Bytes
  import opened Odometer
  import opened Codec

  lemma TakeRound(b: seq<Byte>, rest: seq<Byte>)
    ensures Take(b + rest, |b|) == Ok((b, rest))
  {
    assert (b + rest)[..|b|] == b && (b + rest)[|b|..] == rest;
  }

  lemma IntRound(n: int, w: nat, rest: seq<Byte>)
    requires FitsSigned(n, w)
    ensures DecInt(Signed(n, w) + rest, w) == Ok((n, rest))
  {
    SignedRoundTrip(n, w);
    TakeRound(Signed(n, w), rest);
  }

  lemma StringRound(b: seq<Byte>, rest: seq<Byte>)
    requires |b| < 0x8000_0000
    ensures DecString(EncString(b) + rest) == Ok((b, rest))
  {
    Pow256Values();
    assert EncString(b) + rest == Signed(|b|, 4) + (b + rest);
    IntRound(|b|, 4, b + rest);
    TakeRound(b, rest);
  }

  lemma DecimalRound(x: seq<Byte>, rest: seq<Byte>)
    requires |x| == 14
    ensures DecDecimal(EncDecimal(x) + rest) == Ok((Decimal(x), rest))
  {
    TakeRound(EncDecimal(x), rest);
    assert EncDecimal(x)[2..] == x;
  }

  lemma UnsignedRound(n: nat, w: nat, rest: seq<Byte>)
    requires FitsUnsigned(n, w)
    ensures Take(Signed(n, w) + rest, w) == Ok((Signed(n, w), rest))
    ensures FromLittleEndian(Signed(n, w)) == n
  {
    ModSmall(n, Pow256(w));
    UnsignedRoundTrip(n, w);
    TakeRound(Signed(n, w), rest);
  }

  lemma IntegerRound(v: Value, rest: seq<Byte>)
    requires WellFormed(v) && v.Int?
    ensures DecScalar(v.vt, Signed(v.n, ElementSize(v.vt)) + rest) == Ok((Norm(v), rest))
  {
    if IsSignedInt(v.vt) {
      IntRound(v.n, ElementSize(v.vt), rest);
    } else {
      UnsignedRound(v.n, ElementSize(v.vt), rest);
      if v.vt == VT_UI1 {
        assert FromLittleEndian(Signed(v.n, 1)) == Signed(v.n, 1)[0];
      }
    }
  }

  lemma ScalarRound(v: Value, rest: seq<Byte>)
    requires WellFormed(v) && !v.Arr?
    ensures !HasArrayFlag(Tag(v)) && DecScalar(Tag(v), EncScalar(v) + rest) == Ok((Norm(v), rest))
  {
    match v
    case Int(_, _) => IntegerRound(v, rest);
    case Bool(b) =>
      Pow256Values();
      IntRound(if b then -1 else 0, 2, rest);
    case Bits(_, bits) => TakeRound(bits, rest);
    case Decimal(x) => DecimalRound(x, rest);
    case Str(utf8) => StringRound(utf8, rest);
    case Null => assert [] + rest == rest;
    case DbNull => assert [] + rest == rest;
  }

  // --- Array header ---

  lemma TypeInfoRound(elem: ElemType, rest: seq<Byte>)
    requires GoodElem(elem)
    ensures DecTypeInfo(elem.vt, EncTypeInfo(elem) + rest) ==
            Ok(((elem, IsJagged(elem) && elem.vt != VT_VARIANT), rest))
  {
    if HasTypeName(elem.vt) {
      StringRound(elem.name, rest);
    } else if IsJagged(elem) {
      assert EncTypeInfo(elem) + rest == EncString(JAGGED) + (EncString(elem.name) + rest);
      StringRound(JAGGED, EncString(elem.name) + rest);
      StringRound(elem.name, rest);
    } else {
      StringRound([], rest);
    }
  }

  lemma FourBytesRound(n: int, rest: seq<Byte>)
    requires -0x8000_0000 <= n < 0x8000_0000
    ensures DecInt(Signed(n, 4) + rest, 4) == Ok((n, rest))
  {
    Pow256Values();
    IntRound(n, 4, rest);
  }

  lemma {:induction false} BoundsRound(lens: seq<nat>, lbs: seq<int>, rest: seq<Byte>)
    requires |lens| == |lbs|
    requires forall i :: 0 <= i < |lens| ==> lens[i] < 0x8000_0000
    requires forall i :: 0 <= i < |lbs| ==> -0x8000_0000 <= lbs[i] < 0x8000_0000
    ensures DecBounds(|lens|, EncBounds(lens, lbs) + rest) == Ok(((lens, lbs), rest))
  {
    hide Signed, DecInt;
    if lens == [] {
      assert [] + rest == rest;
    } else {
      var tail := EncBounds(lens[1..], lbs[1..]) + rest;
      Assoc(Signed(lens[0], 4) + Signed(lbs[0], 4), EncBounds(lens[1..], lbs[1..]), rest);
      Assoc(Signed(lens[0], 4), Signed(lbs[0], 4), tail);
      FourBytesRound(lens[0], Signed(lbs[0], 4) + tail);
      FourBytesRound(lbs[0], tail);
      BoundsRound(lens[1..], lbs[1..], rest);
      assert lens == [lens[0]] + lens[1..] && lbs == [lbs[0]] + lbs[1..];
    }
  }

  lemma DescriptorRound(vt: int, rank: nat, rest: seq<Byte>)
    requires rank < 0x8000_0000
    ensures DecDescriptor(EncDescriptor(vt, rank) + rest) == Ok(((ElementSize(vt), rank), rest))
  {
    Pow256Values();
    var prefix, size, dims := Signed(VT_ARRAY + vt, 2) + [0, 0], Signed(ElementSize(vt), 4), Signed(rank, 4);
    Assoc(prefix + size, dims, rest);
    Assoc(prefix, size, dims + rest);
    TakeRound(prefix, size + (dims + rest));
    IntRound(ElementSize(vt), 4, dims + rest);
    IntRound(rank, 4, rest);
  }

  lemma HeaderRound(elem: ElemType, lens: seq<nat>, lbs: seq<int>, rest: seq<Byte>)
    requires GoodShape(lens, lbs) && GoodElem(elem)
    ensures DecHeader(elem.vt, EncHeader(elem, lens, lbs) + rest) ==
            Ok((Header(elem, IsJagged(elem) && elem.vt != VT_VARIANT, ElementSize(elem.vt), lens, lbs), rest))
  {
    var d, t, b := EncDescriptor(elem.vt, |lens|), EncTypeInfo(elem), EncBounds(lens, lbs);
    Assoc(d + t, b, rest);
    Assoc(d, t, b + rest);
    DescriptorRound(elem.vt, |lens|, t + (b + rest));
    TypeInfoRound(elem, b + rest);
    BoundsRound(lens, lbs, rest);
  }

  lemma ArrayTag(elem: ElemType)
    requires GoodElem(elem)
    ensures HasArrayFlag(VT_ARRAY + elem.vt) && FitsSigned(VT_ARRAY + elem.vt, 2)
    ensures ElementMode(elem, IsJagged(elem) && elem.vt != VT_VARIANT) == ModeOf(elem)
  {
    Pow256Values();
  }

  lemma TagFits(v: Value)
    requires WellFormed(v)
    ensures FitsSigned(Tag(v), 2)
  {
    Pow256Values();
    if v.Arr? {
      ArrayTag(v.elem);
    }
  }

  // --- Blocks ---

  lemma BlockItemRound(vt: int, x: Value, rest: seq<Byte>)
    requires WellFormed(x) && !x.Arr? && Tag(x) == vt
    requires IsSignedInt(vt) || IsUnsignedInt(vt) || vt == VT_R4 || vt == VT_R8
    ensures Take(EncScalar(x) + rest, ElementSize(vt)) == Ok((EncScalar(x), rest))
    ensures BlockItem(vt, EncScalar(x)) == x
  {
    TakeRound(EncScalar(x), rest);
    if IsSignedInt(vt) {
      SignedRoundTrip(x.n, ElementSize(vt));
    } else if IsUnsignedInt(vt) {
      UnsignedRound(x.n, ElementSize(vt), rest);
    }
  }

  lemma {:induction false} BlockRound(vt: int, items: seq<Value>, rest: seq<Byte>)
    requires forall i :: 0 <= i < |items| ==> WellFormed(items[i]) && !items[i].Arr? && Tag(items[i]) == vt
    requires IsSignedInt(vt) || IsUnsignedInt(vt) || vt == VT_R4 || vt == VT_R8
    ensures DecBlock(vt, |items|, EncBlock(items) + rest) == Ok((items, rest))
  {
    if items == [] {
      assert [] + rest == rest;
    } else {
      var x := items[0];
      Assoc(EncScalar(x), EncBlock(items[1..]), rest);
      BlockItemRound(vt, x, EncBlock(items[1..]) + rest);
      BlockRound(vt, items[1..], rest);
      assert items == [x] + items[1..];
    }
  }

  lemma {:induction false} BlockLength(vt: int, items: seq<Value>)
    requires forall i :: 0 <= i < |items| ==> WellFormed(items[i]) && !items[i].Arr? && Tag(items[i]) == vt
    requires IsSignedInt(vt) || IsUnsignedInt(vt) || vt == VT_R4 || vt == VT_R8
    ensures |EncBlock(items)| == |items| * ElementSize(vt)
  {
    if items != [] {
      BlockLength(vt, items[1..]);
      BlockItemRound(vt, items[0], []);
      assert |items| * ElementSize(vt) == (|items| - 1) * ElementSize(vt) + ElementSize(vt);
    }
  }

  /** With the element size that is written, the whole block is copied. */
  lemma CopiedRound(vt: int, items: seq<Value>, rest: seq<Byte>)
    requires forall i :: 0 <= i < |items| ==> WellFormed(items[i]) && !items[i].Arr? && Tag(items[i]) == vt
    requires IsSignedInt(vt) || IsUnsignedInt(vt) || vt == VT_R4 || vt == VT_R8
    requires |items| * ElementSize(vt) < 0x8000_0000
    ensures DecCopied(vt, |items|, ElementSize(vt), EncBlock(items) + rest) == Ok((items, rest))
  {
    hide DecBlock, EncBlock, DecCopied, WellFormed;
    BlockLength(vt, items);
    BlockRound(vt, items, []);
    assert EncBlock(items) + [] == EncBlock(items);
    AllCopied(vt, |items|, ElementSize(vt), EncBlock(items), rest, items);
  }

  lemma AllCopied(vt: int, n: nat, elSize: int, b: seq<Byte>, rest: seq<Byte>, xs: seq<Value>)
    requires |b| == n * elSize == n * MemorySize(vt) && |b| < 0x8000_0000 && DecBlock(vt, n, b) == Ok((xs, []))
    ensures DecCopied(vt, n, elSize, b + rest) == Ok((xs, rest))
  {
    hide DecBlock, ToInt32;
    Truncates(n * elSize, n * elSize);
    TakeRound(b, rest);
    assert b + ZeroBytes(0) == b;
  }

  // --- Elements in visiting order, and whole values ---

  ghost predicate RoundTrips(v: Value)
    requires WellFormed(v)
  {
    forall rest :: Dec(Tag(v), Enc(v) + rest) == Ok((Norm(v), rest))
  }

  /** The reader undoes the writer, for every value and every suffix. */
  lemma {:induction false} RoundTrip(v: Value)
    requires WellFormed(v) && Writable(v) && Readable(v)
    ensures RoundTrips(v)
    decreases v
  {
    forall rest: seq<Byte> ensures Dec(Tag(v), Enc(v) + rest) == Ok((Norm(v), rest)) {
      if v.Arr? {
        if ModeOf(v.elem).Tagged? {
          forall j | 0 <= j < |v.items| ensures RoundTrips(v.items[j]) {
            assert WellFormed(v.items[j]) && Writable(v.items[j]) && Readable(v.items[j]);
            RoundTrip(v.items[j]);
          }
        }
        BodyRound(v, rest);
        ArrayRound(v, rest);
      } else {
        ScalarRound(v, rest);
      }
    }
  }

  ghost function HeaderOf(v: Value): Header
    requires v.Arr?
  {
    Header(v.elem, IsJagged(v.elem) && v.elem.vt != VT_VARIANT, ElementSize(v.elem.vt), v.lens, v.lbs)
  }

  /** Behind its header an array is read as its elements are. */
  lemma ArrayRound(v: Value, rest: seq<Byte>)
    requires WellFormed(v) && v.Arr?
    ensures Dec(Tag(v), Enc(v) + rest) ==
            match DecBody(HeaderOf(v), EncBody(v) + rest)
            case Ok(body) => Ok((Arr(v.elem, v.lens, v.lbs, body.0), body.1))
            case Err(e) => Err(e)
  {
    hide DecBody, DecHeader, EncHeader, EncBody;
    ArrayTag(v.elem);
    Assoc(EncHeader(v.elem, v.lens, v.lbs), EncBody(v), rest);
    HeaderRound(v.elem, v.lens, v.lbs, EncBody(v) + rest);
  }

  /** Every element is read back, provided the elements of object arrays are. */
  lemma BodyRound(v: Value, rest: seq<Byte>)
    requires WellFormed(v) && Writable(v) && Readable(v) && v.Arr?
    requires ModeOf(v.elem).Tagged? ==> forall j :: 0 <= j < |v.items| ==> RoundTrips(v.items[j])
    ensures DecBody(HeaderOf(v), EncBody(v) + rest) == Ok((NormItems(v), rest))
  {
    ArrayTag(v.elem);
    if v.items == [] {
      EmptyArray(v);
      assert EncBody(v) + rest == rest;
    } else if ModeOf(v.elem).Block? {
      CopiedRound(v.elem.vt, v.items, rest);
      assert NormItems(v) == v.items;
    } else {
      ElementsRound(v, rest);
    }
  }

  lemma ElementsRound(v: Value, rest: seq<Byte>)
    requires WellFormed(v) && v.Arr? && ElementWise(ModeOf(v.elem))
    requires ModeOf(v.elem).Tagged? ==> forall j :: 0 <= j < |v.items| ==> RoundTrips(v.items[j])
    ensures DecElems(ModeOf(v.elem), |v.items|, EncFrom(v, Order(v.lens), 0) + rest) ==
            Ok((Gather(NormItems(v), Order(v.lens)), rest))
    ensures Scatter(Gather(NormItems(v), Order(v.lens)), v.lens) == NormItems(v)
  {
    hide Norm, NormItem, EncItem, EncFrom, DecElem, DecElems, Slot;
    forall j: nat, tail | j < |v.items|
      ensures DecElem(ModeOf(v.elem), EncItem(v, j) + tail) == Ok((NormItem(v, j), tail))
    {
      ItemRound(v, j, tail);
    }
    ElemsRound(v, Order(v.lens), 0, rest);
    ScatterGather(NormItems(v), v.lens);
    assert Gather(NormItems(v), Order(v.lens))[0..] == Gather(NormItems(v), Order(v.lens));
  }

  lemma EmptyArray(v: Value)
    requires WellFormed(v) && v.Arr? && v.items == []
    ensures EncBody(v) == [] && NormItems(v) == []
  {
  }

  lemma ItemRound(v: Value, j: nat, rest: seq<Byte>)
    requires WellFormed(v) && v.Arr? && j < |v.items| && ElementWise(ModeOf(v.elem))
    requires ModeOf(v.elem).Tagged? ==> RoundTrips(v.items[j])
    ensures DecElem(ModeOf(v.elem), EncItem(v, j) + rest) == Ok((NormItem(v, j), rest))
  {
    var x := v.items[j];
    assert GoodItem(v.elem, x) && WellFormed(x);
    match ModeOf(v.elem)
    case Strings => StringRound(if x.Str? then x.utf8 else [], rest);
    case Decimals => DecimalRound(x.rest, rest);
    case Tagged =>
      TagFits(x);
      Assoc(Signed(Tag(x), 2), Enc(x), rest);
      IntRound(Tag(x), 2, Enc(x) + rest);
  }

  ghost predicate ItemsRoundTrip(v: Value)
    requires WellFormed(v) && v.Arr?
  {
    forall j: nat, tail | j < |v.items| ::
      DecElem(ModeOf(v.elem), EncItem(v, j) + tail) == Ok((NormItem(v, j), tail))
  }

  lemma {:induction false} ElemsRound(v: Value, order: seq<nat>, k: nat, rest: seq<Byte>)
    requires WellFormed(v) && v.Arr? && IsOrder(order, |v.items|) && k <= |v.items| && ItemsRoundTrip(v)
    ensures DecElems(ModeOf(v.elem), |v.items| - k, EncFrom(v, order, k) + rest) ==
            Ok((Gather(NormItems(v), order)[k..], rest))
    decreases |v.items| - k
  {
    hide Norm, NormItem, EncItem, DecElem;
    var xs := Gather(NormItems(v), order);
    if k == |v.items| {
      assert EncFrom(v, order, k) + rest == rest && xs[k..] == [];
    } else {
      var e, tail := EncItem(v, order[k]), EncFrom(v, order, k + 1) + rest;
      Assoc(e, EncFrom(v, order, k + 1), rest);
      assert DecElem(ModeOf(v.elem), e + tail) == Ok((NormItem(v, order[k]), tail));
      ElemsRound(v, order, k + 1, rest);
      DecElemsCons(ModeOf(v.elem), |v.items| - k, e + tail, xs[k], tail, xs[k + 1..], rest);
      assert xs[k..] == [xs[k]] + xs[k + 1..];
    }
  }

  lemma DecElemsCons(mode: Mode, n: nat, s: seq<Byte>, x: Value, s1: seq<Byte>, xs: seq<Value>, s2: seq<Byte>)
    requires n > 0 && DecElem(mode, s) == Ok((x, s1)) && DecElems(mode, n - 1, s1) == Ok((xs, s2))
    ensures DecElems(mode, n, s) == Ok(([x] + xs, s2))
  {
  }

  // --- Exactly the values without a non-empty DBNull array are read back ---

  ghost predicate Unreadable(v: Value)
    requires WellFormed(v)
  {
    forall rest :: Dec(Tag(v), Enc(v) + rest).Err?
  }

  /** What can be written is read back if and only if it is Readable. */
  lemma {:induction false} ReadBackIffReadable(v: Value)
    requires WellFormed(v) && Writable(v)
    ensures if Readable(v) then RoundTrips(v) else Unreadable(v)
    decreases v
  {
    if Readable(v) {
      RoundTrip(v);
    } else {
      if ModeOf(v.elem).Tagged? {
        forall j | 0 <= j < |v.items|
          ensures WellFormed(v.items[j]) && if Readable(v.items[j]) then RoundTrips(v.items[j]) else Unreadable(v.items[j])
        {
          assert WellFormed(v.items[j]) && Writable(v.items[j]);
          ReadBackIffReadable(v.items[j]);
        }
      }
      forall rest: seq<Byte> ensures Dec(Tag(v), Enc(v) + rest).Err? {
        BodyFails(v, rest);
        ArrayRound(v, rest);
      }
    }
  }

  /** Every element of an object array is either read back or makes reading fail. */
  ghost predicate Settled(v: Value)
    requires WellFormed(v) && v.Arr?
  {
    forall j | 0 <= j < |v.items| :: if Readable(v.items[j]) then RoundTrips(v.items[j]) else Unreadable(v.items[j])
  }

  lemma BodyFails(v: Value, rest: seq<Byte>)
    requires WellFormed(v) && !Readable(v) && v.Arr?
    requires ModeOf(v.elem).Tagged? ==> Settled(v)
    ensures DecBody(HeaderOf(v), EncBody(v) + rest).Err?
  {
    hide DecBody, EncBody;
    if ModeOf(v.elem).Tagged? {
      var bad :| 0 <= bad < |v.items| && !Readable(v.items[bad]);
      OrderOfVisit(bad, v.lens);
      TaggedFails(v, Order(v.lens), Visit(bad, v.lens), rest);
      TaggedBody(v, rest);
    } else {
      NullsBody(v, rest);
    }
  }

  /** The body of an object array fails if its elements do. */
  lemma TaggedBody(v: Value, rest: seq<Byte>)
    requires WellFormed(v) && v.Arr? && ModeOf(v.elem).Tagged? && v.items != []
    requires DecElems(Tagged, |v.items|, EncFrom(v, Order(v.lens), 0) + rest).Err?
    ensures DecBody(HeaderOf(v), EncBody(v) + rest).Err?
  {
    hide DecElems, EncFrom, Order;
    ArrayTag(v.elem);
  }

  lemma NullsBody(v: Value, rest: seq<Byte>)
    requires WellFormed(v) && v.Arr? && ModeOf(v.elem).NoElements? && v.items != []
    ensures DecBody(HeaderOf(v), EncBody(v) + rest).Err?
  {
    hide DecElems, EncFrom, Order;
    ArrayTag(v.elem);
  }

  lemma TaggedFails(v: Value, order: seq<nat>, pos: nat, rest: seq<Byte>)
    requires WellFormed(v) && v.Arr? && ModeOf(v.elem).Tagged? && Settled(v)
    requires IsOrder(order, |v.items|) && pos < |v.items| && !Readable(v.items[order[pos]])
    ensures DecElems(Tagged, |v.items|, EncFrom(v, order, 0) + rest).Err?
  {
    ItemsSettle(v, order[pos]);
    ElemsFail(v, order, 0, pos, rest);
  }

  lemma ItemsSettle(v: Value, bad: nat)
    requires WellFormed(v) && v.Arr? && ModeOf(v.elem).Tagged? && Settled(v)
    requires bad < |v.items| && !Readable(v.items[bad])
    ensures forall j: nat, tail | j < |v.items| :: ItemDone(v, j, tail) || ItemFails(v, j, tail)
    ensures forall tail :: ItemFails(v, bad, tail)
  {
    forall j: nat, tail | j < |v.items|
      ensures if Readable(v.items[j]) then ItemDone(v, j, tail) else ItemFails(v, j, tail)
    {
      if Readable(v.items[j]) {
        ItemRound(v, j, tail);
      } else {
        ItemFailure(v, j, tail);
      }
    }
  }

  ghost predicate ItemDone(v: Value, j: nat, tail: seq<Byte>)
    requires WellFormed(v) && v.Arr? && j < |v.items|
  {
    DecElem(ModeOf(v.elem), EncItem(v, j) + tail) == Ok((NormItem(v, j), tail))
  }

  ghost predicate ItemFails(v: Value, j: nat, tail: seq<Byte>)
    requires WellFormed(v) && v.Arr? && j < |v.items|
  {
    DecElem(ModeOf(v.elem), EncItem(v, j) + tail).Err?
  }

  lemma ItemFailure(v: Value, j: nat, tail: seq<Byte>)
    requires WellFormed(v) && v.Arr? && j < |v.items| && ModeOf(v.elem).Tagged? && Unreadable(v.items[j])
    ensures ItemFails(v, j, tail)
  {
    var x := v.items[j];
    TagFits(x);
    Assoc(Signed(Tag(x), 2), Enc(x), tail);
    IntRound(Tag(x), 2, Enc(x) + tail);
  }

  lemma {:induction false} ElemsFail(v: Value, order: seq<nat>, k: nat, bad: nat, rest: seq<Byte>)
    requires WellFormed(v) && v.Arr? && IsOrder(order, |v.items|) && k <= bad < |v.items|
    requires forall j: nat, tail | j < |v.items| :: ItemDone(v, j, tail) || ItemFails(v, j, tail)
    requires forall tail :: ItemFails(v, order[bad], tail)
    ensures DecElems(ModeOf(v.elem), |v.items| - k, EncFrom(v, order, k) + rest).Err?
    decreases |v.items| - k
  {
    var tail := EncFrom(v, order, k + 1) + rest;
    Assoc(EncItem(v, order[k]), EncFrom(v, order, k + 1), rest);
    assert ItemDone(v, order[k], tail) || ItemFails(v, order[k], tail);
    if k < bad {
      ElemsFail(v, order, k + 1, bad, rest);
    } else {
      assert ItemFails(v, order[bad], tail);
    }
  }

  // --- Byte arrays that do not start at 0 ---

  /** They are never written; and were the bytes there, they would be read only if there
      were none. */
  lemma OffsetBytesRefused(v: Value, rest: seq<Byte>)
    requires WellFormed(v) && v.Arr? && OffsetBytes(v.elem.vt, ModeOf(v.elem), v.lbs)
    ensures !Writable(v)
    ensures Dec(Tag(v), Enc(v) + rest) == if v.items == [] then Ok((v, rest)) else Err(InvalidCast)
  {
    ArrayTag(v.elem);
    ArrayRound(v, rest);
    if v.items == [] {
      assert EncBody(v) + rest == rest;
    }
  }

  /** Two bytes at the indices 1 and 2. */
  lemma BytesFromOne()
    ensures var v := Arr(ElemType(VT_UI1, []), [2], [1], [Int(VT_UI1, 7), Int(VT_UI1, 8)]);
            WellFormed(v) && !Writable(v) && forall rest :: Dec(Tag(v), Enc(v) + rest) == Err(InvalidCast)
  {
    var v := Arr(ElemType(VT_UI1, []), [2], [1], [Int(VT_UI1, 7), Int(VT_UI1, 8)]);
    Pow256Values();
    assert Product([2]) == 2 * Product([]);
    assert WellFormed(v.items[0]) && WellFormed(v.items[1]);
    forall rest: seq<Byte> ensures Dec(Tag(v), Enc(v) + rest) == Err(InvalidCast) {
      OffsetBytesRefused(v, rest);
    }
  }

  // --- What a round trip leaves as it was ---

  /** No byte stands alone and no array of strings holds a null, at any depth. */
  ghost predicate Unaltered(v: Value) {
    match v
    case Int(vt, _) => vt != VT_UI1
    case Arr(elem, _, _, items) =>
      (ModeOf(elem).Tagged? ==> forall i :: 0 <= i < |items| ==> Unaltered(items[i])) &&
      (ModeOf(elem).Strings? ==> forall i :: 0 <= i < |items| ==> !items[i].Null?)
    case _ => true
  }

  /** A value comes back unchanged if and only if it is one of those. */
  lemma {:induction false} NormKeepsIff(v: Value)
    ensures Norm(v) == v <==> Unaltered(v)
    decreases v
  {
    if v.Arr? {
      if ModeOf(v.elem).Tagged? {
        forall i | 0 <= i < |v.items| ensures Norm(v.items[i]) == v.items[i] <==> Unaltered(v.items[i]) {
          NormKeepsIff(v.items[i]);
        }
      }
      ItemsKept(v);
    }
  }

  lemma ItemsKept(v: Value)
    requires v.Arr?
    ensures Norm(v) == v <==> forall j :: 0 <= j < |v.items| ==> NormItem(v, j) == v.items[j]
  {
    assert NormItems(v) == v.items <==> forall j :: 0 <= j < |v.items| ==> NormItem(v, j) == v.items[j];
  }

  /** Neither are arrays, element by element, whose dimension 0 ends at the largest integer. */
  lemma TopIndexRefused(v: Value, rest: seq<Byte>)
    requires WellFormed(v) && v.Arr? && v.items != [] && EndsAtTop(ModeOf(v.elem), v.lens, v.lbs)
    ensures !Writable(v) && Dec(Tag(v), Enc(v) + rest) == Err(IndexOutOfRange)
  {
    ArrayTag(v.elem);
    ArrayRound(v, rest);
  }
}
