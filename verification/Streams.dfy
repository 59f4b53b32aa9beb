/** The stream manager: a byte stream with a position, values written and read at it. */
module Streams {
  import opened Bytes
  import opened Odometer
  import opened Codec
  import opened CodecRoundTrip

  /** `d` with `b` written over it at position `p`. */
  function Splice(d: seq<Byte>, p: nat, b: seq<Byte>): (r: seq<Byte>)
    requires p <= |d|
    ensures |r| >= p + |b|
  {
    d[..p] + b + (if p + |b| < |d| then d[p + |b|..] else [])
  }

  lemma SpliceMore(d: seq<Byte>, p: nat, a: seq<Byte>, b: seq<Byte>)
    requires p <= |d|
    ensures Splice(Splice(d, p, a), p + |a|, b) == Splice(d, p, a + b)
  {
    var e := Splice(d, p, a);
    assert e[..p + |a|] == d[..p] + a;
    if p + |a| + |b| < |d| {
      assert e[p + |a| + |b|..] == d[p + |a| + |b|..];
    }
  }

  /** The odometer's tuples and the memory slots they stand for. */
  ghost predicate Located(ts: seq<seq<int>>, order: seq<nat>, lens: seq<nat>, lbs: seq<int>) {
    IsWalk(ts, lens, lbs) && IsOrder(order, |ts|) &&
    forall k :: 0 <= k < |ts| ==> InBounds(ts[k], lens, lbs) && RowRank(Unshift(ts[k], lens, lbs), lens) == order[k]
  }

  lemma TuplesLocated(lens: seq<nat>, lbs: seq<int>)
    requires |lens| == |lbs| > 0 && Product(lens) > 0
    ensures Located(Tuples(Product(lens), lens, lbs), Order(lens), lens, lbs)
  {
    var ts := Tuples(Product(lens), lens, lbs);
    TuplesAreWalk(Product(lens), lens, lbs);
    forall k | 0 <= k < |ts|
      ensures InBounds(ts[k], lens, lbs) && RowRank(Unshift(ts[k], lens, lbs), lens) == Order(lens)[k]
    {
      TupleSlot(k, lens, lbs);
    }
  }

  lemma TupleSlot(k: nat, lens: seq<nat>, lbs: seq<int>)
    requires |lens| == |lbs| && k < Product(lens)
    ensures InBounds(Tuple(k, lens, lbs), lens, lbs)
    ensures RowRank(Unshift(Tuple(k, lens, lbs), lens, lbs), lens) == Order(lens)[k]
  {
    UnshiftShift(Digits(k, lens), lens, lbs);
  }

  /** Walking along the order meets every element. */
  lemma AllVisited(v: Value)
    requires v.Arr? && |v.items| == Product(v.lens)
    ensures (forall k :: 0 <= k < |v.items| ==> Writable(v.items[Order(v.lens)[k]])) <==>
            (forall j :: 0 <= j < |v.items| ==> Writable(v.items[j]))
  {
    var order := Order(v.lens);
    if forall k :: 0 <= k < |v.items| ==> Writable(v.items[order[k]]) {
      forall j | 0 <= j < |v.items| ensures Writable(v.items[j]) {
        OrderOfVisit(j, v.lens);
        assert Writable(v.items[order[Visit(j, v.lens)]]);
      }
    }
  }

  /** Where an array with these bounds keeps the element at index tuple `t`. */
  method SlotAt(t: array<int>, lens: seq<nat>, lbs: seq<int>) returns (slot: nat)
    requires InBounds(t[..], lens, lbs)
    ensures slot == RowRank(Unshift(t[..], lens, lbs), lens) < Product(lens)
  {
    var d := Unshift(t[..], lens, lbs);
    RowRankInverse(d, lens);
    slot := RowRank(d, lens);
  }

  /** Every index tuple has its own place. */
  lemma SlotUnique(t: seq<int>, u: seq<int>, lens: seq<nat>, lbs: seq<int>)
    requires InBounds(t, lens, lbs) && InBounds(u, lens, lbs)
    ensures RowRank(Unshift(t, lens, lbs), lens) == RowRank(Unshift(u, lens, lbs), lens) <==> t == u
  {
    var d, e := Unshift(t, lens, lbs), Unshift(u, lens, lbs);
    RowRankInverse(d, lens);
    RowRankInverse(e, lens);
    if d == e {
      assert forall i :: 0 <= i < |t| ==> t[i] == d[i] + lbs[i] && u[i] == e[i] + lbs[i];
    }
  }

  class StreamManager {
    var data: seq<Byte>
    var position: nat

    ghost predicate Valid()
      reads this
    {
      position <= |data|
    }

    constructor (data: seq<Byte>)
      ensures Valid() && this.data == data && position == 0
    {
      this.data := data;
      position := 0;
    }

    /** `b` has been written at the position, and the position is behind it. */
    twostate predicate Wrote(b: seq<Byte>)
      reads this
    {
      old(Valid()) && Valid() && position == old(position) + |b| && data == Splice(old(data), old(position), b)
    }

    // --- Writing ---

    method Write(b: seq<Byte>)
      requires Valid()
      modifies this
      ensures Wrote(b)
    {
      data := Splice(data, position, b);
      position := position + |b|;
    }

    method WriteString(value: seq<Byte>)
      requires Valid()
      modifies this
      ensures Wrote(EncString(value))
    {
      if |value| > 0 {
        Write(Signed(|value|, 4) + value);
      } else {
        assert EncString(value) == Signed(0, 4);
        Write(Signed(0, 4));
      }
    }

    method WriteHeader(elem: ElemType, lens: seq<nat>, lbs: seq<int>)
      requires Valid() && |lens| == |lbs|
      modifies this
      ensures Wrote(EncHeader(elem, lens, lbs))
    {
      ghost var d, t := EncDescriptor(elem.vt, |lens|), EncTypeInfo(elem);
      Write(EncDescriptor(elem.vt, |lens|));
      WriteTypeInfo(elem);
      SpliceMore(old(data), old(position), d, t);
      WriteBounds(lens, lbs);
      SpliceMore(old(data), old(position), d + t, EncBounds(lens, lbs));
    }

    /** The bounds loop; what is left to write always completes the stream to the same end. */
    method WriteBounds(lens: seq<nat>, lbs: seq<int>)
      requires Valid() && |lens| == |lbs|
      modifies this
      ensures Wrote(EncBounds(lens, lbs))
    {
      for cx := 0 to |lens|
        invariant Valid()
        invariant position + |EncBounds(lens[cx..], lbs[cx..])| == old(position) + |EncBounds(lens, lbs)|
        invariant Splice(data, position, EncBounds(lens[cx..], lbs[cx..])) ==
                  Splice(old(data), old(position), EncBounds(lens, lbs))
      {
        assert lens[cx..][1..] == lens[cx + 1..] && lbs[cx..][1..] == lbs[cx + 1..];
        var b := Signed(lens[cx], 4) + Signed(lbs[cx], 4);
        SpliceMore(data, position, b, EncBounds(lens[cx + 1..], lbs[cx + 1..]));
        Write(b);
      }
      assert Splice(data, position, []) == data;
    }

    method WriteTypeInfo(elem: ElemType)
      requires Valid()
      modifies this
      ensures Wrote(EncTypeInfo(elem))
    {
      if HasTypeName(elem.vt) {
        WriteString(elem.name);
      } else if IsJagged(elem) {
        WriteString(JAGGED);
        WriteString(elem.name);
        SpliceMore(old(data), old(position), EncString(JAGGED), EncString(elem.name));
      } else {
        WriteString([]);
      }
    }

    /** Writes any value of the type system; it fails for exactly those that are not Writable. */
    method WriteValue(v: Value) returns (ok: bool)
      requires Valid() && WellFormed(v)
      modifies this
      ensures Valid() && (ok <==> Writable(v))
      ensures ok ==> Wrote(Enc(v))
      decreases v, 3
    {
      if !v.Arr? {
        Write(EncScalar(v));
        return true;
      }
      WriteHeader(v.elem, v.lens, v.lbs);
      ok := WriteBody(v);
      SpliceMore(old(data), old(position), EncHeader(v.elem, v.lens, v.lbs), EncBody(v));
    }

    method WriteBody(v: Value) returns (ok: bool)
      requires Valid() && WellFormed(v) && v.Arr?
      modifies this
      ensures Valid() && (ok <==> Writable(v))
      ensures ok ==> Wrote(EncBody(v))
      decreases v, 2, 0
    {
      var mode := ModeOf(v.elem);
      if mode.Block? {
        if OffsetBytes(v.elem.vt, mode, v.lbs) {
          return false;
        }
        // Block copy takes primitive elements only, and not more bytes than there are.
        if v.elem.vt == VT_DATE || v.elem.vt == VT_CY || (v.elem.vt == VT_BOOL && |v.items| > 0) {
          return false;
        }
        Write(EncBlock(v.items));
      } else if mode.NoElements? || (|v.items| == 0 && !IsJagged(v.elem)) {
        Write([]);
      } else if |v.items| == 0 {
        // The carry scan of an empty array runs past the last dimension.
        return false;
      } else if EndsAtTop(mode, v.lens, v.lbs) {
        // So does that of an array without an end: see Odometer.WalkNowhere.
        return false;
      } else {
        ok := WriteElements(v);
        return;
      }
      ok := true;
    }

    /** The element loop: each element is taken where the odometer stands. */
    method WriteElements(v: Value) returns (ok: bool)
      requires Valid() && WellFormed(v) && v.Arr? && v.items != [] && ElementWise(ModeOf(v.elem))
      requires v.lens[0] + v.lbs[0] <= INT_MAX
      modifies this
      ensures Valid() && (ok <==> (ModeOf(v.elem).Tagged? ==> forall j :: 0 <= j < |v.items| ==> Writable(v.items[j])))
      ensures ok ==> Wrote(EncFrom(v, Order(v.lens), 0))
      decreases v, 1, 1
    {
      TuplesLocated(v.lens, v.lbs);
      AllVisited(v);
      ok := WriteAlong(v, Tuples(Product(v.lens), v.lens, v.lbs), Order(v.lens));
    }

    method WriteAlong(v: Value, ghost ts: seq<seq<int>>, ghost order: seq<nat>) returns (ok: bool)
      requires Valid() && WellFormed(v) && v.Arr? && ElementWise(ModeOf(v.elem))
      requires Located(ts, order, v.lens, v.lbs) && |ts| == |v.items|
      requires Indexable(v.lens, v.lbs) && v.lens[0] + v.lbs[0] <= INT_MAX
      modifies this
      ensures Valid()
      ensures ok <==> (ModeOf(v.elem).Tagged? ==> forall k :: 0 <= k < |order| ==> Writable(v.items[order[k]]))
      ensures ok ==> Wrote(EncFrom(v, order, 0))
      decreases v, 1, 0, 1
    {
      hide Follows, WellFormed, Writable, Indexable, IndexEnd;
      var lElements := |v.items|;
      var rgIndices := FirstIndices(v.lens, v.lbs, ts);
      var findEl := 0;
      ghost var goal, end := Splice(data, position, EncFrom(v, order, 0)), position + |EncFrom(v, order, 0)|;
      while true
        invariant findEl < lElements && AtHead(rgIndices[..], findEl, ts) && rgIndices[0] >= v.lbs[0]
        invariant Valid() && position + |EncFrom(v, order, findEl)| == end
        invariant Splice(data, position, EncFrom(v, order, findEl)) == goal
        invariant ModeOf(v.elem).Tagged? ==> forall k :: 0 <= k < findEl ==> Writable(v.items[order[k]])
        decreases lElements - findEl, rgIndices[0] - v.lbs[0]
      {
        if rgIndices[0] < IndexEnd(v.lens, v.lbs) {
          NoCarryNeeded(rgIndices[..], findEl, ts, v.lens, v.lbs);
          ok := WriteCurrent(v, rgIndices, ts, order, findEl);
          if !ok {
            return;
          }
          Increment(rgIndices, v.lbs, findEl, ts);
          findEl := findEl + 1;
          if findEl == lElements {
            break;
          }
        } else {
          CarryTo(rgIndices, v.lens, v.lbs, findEl, ts);
        }
      }
      assert Splice(data, position, []) == data;
      ok := true;
    }

    /** Writes the element the odometer stands at; what is then left to write completes
        the stream to the same end. */
    method WriteCurrent(v: Value, rg: array<int>, ghost ts: seq<seq<int>>, ghost order: seq<nat>, ghost k: nat)
      returns (ok: bool)
      requires Valid() && WellFormed(v) && v.Arr? && ElementWise(ModeOf(v.elem))
      requires Located(ts, order, v.lens, v.lbs) && |ts| == |v.items| && k < |ts| && rg[..] == ts[k]
      modifies this
      ensures Valid() && (ok <==> (ModeOf(v.elem).Tagged? ==> Writable(v.items[order[k]])))
      ensures ok ==> Splice(data, position, EncFrom(v, order, k + 1)) ==
                     Splice(old(data), old(position), EncFrom(v, order, k))
      ensures ok ==> position + |EncFrom(v, order, k + 1)| == old(position) + |EncFrom(v, order, k)|
      decreases v, 1, 0, 0
    {
      var slot := SlotAt(rg, v.lens, v.lbs);
      ok := WriteItem(v, slot);
      SpliceMore(old(data), old(position), EncItem(v, slot), EncFrom(v, order, k + 1));
    }

    method WriteItem(v: Value, j: nat) returns (ok: bool)
      requires Valid() && WellFormed(v) && v.Arr? && j < |v.items| && ElementWise(ModeOf(v.elem))
      modifies this
      ensures Valid() && (ok <==> (ModeOf(v.elem).Tagged? ==> Writable(v.items[j])))
      ensures ok ==> Wrote(EncItem(v, j))
      decreases v, 0
    {
      var x := v.items[j];
      assert GoodItem(v.elem, x) && WellFormed(x);
      var mode := ModeOf(v.elem);
      ok := true;
      if mode.Strings? {
        WriteString(if x.Str? then x.utf8 else []);
      } else if mode.Decimals? {
        Write(EncDecimal(x.rest));
      } else {
        Write(Signed(Tag(x), 2));
        ok := WriteValue(x);
        SpliceMore(old(data), old(position), Signed(Tag(x), 2), Enc(x));
      }
    }

    // --- Reading ---

    /** The bytes from the position on. */
    ghost function Rest(): seq<Byte>
      requires Valid()
      reads this
    {
      data[position..]
    }

    /** The stream, still `before`, has been read as `spec` says. */
    ghost predicate ReadAs<T(!new)>(before: seq<Byte>, r: Result<T>, spec: Result<(T, seq<Byte>)>)
      reads this
    {
      Valid() && data == before &&
      match spec
      case Ok(done) => r == Ok(done.0) && Rest() == done.1
      case Err(e) => r == Err(e)
    }

    method Read(n: nat) returns (r: Result<seq<Byte>>)
      requires Valid()
      modifies this
      ensures ReadAs(old(data), r, Take(old(Rest()), n))
    {
      if n <= |data| - position {
        assert Rest()[..n] == data[position..position + n] && Rest()[n..] == data[position + n..];
        r := Ok(data[position..position + n]);
        position := position + n;
      } else {
        r := Err(Truncated);
      }
    }

    method ReadInt(w: nat) returns (r: Result<int>)
      requires Valid()
      modifies this
      ensures ReadAs(old(data), r, DecInt(old(Rest()), w))
    {
      var b :- Read(w);
      r := Ok(FromSigned(b));
    }

    method ReadString() returns (r: Result<seq<Byte>>)
      requires Valid()
      modifies this
      ensures ReadAs(old(data), r, DecString(old(Rest())))
    {
      var size :- ReadInt(4);
      if size < 0 {
        return Err(BadLength);
      }
      r := Read(size);
    }

    method ReadTypeInfo(vt: int) returns (r: Result<(ElemType, bool)>)
      requires Valid()
      modifies this
      ensures ReadAs(old(data), r, DecTypeInfo(vt, old(Rest())))
    {
      var first :- ReadString();
      if HasTypeName(vt) {
        return Ok((ElemType(vt, first), false));
      }
      if first == JAGGED {
        var name :- ReadString();
        return Ok((ElemType(vt, name), true));
      }
      return Ok((ElemType(vt, []), false));
    }

    /** The bounds loop. */
    method ReadBounds(rank: nat) returns (r: Result<(seq<nat>, seq<int>)>)
      requires Valid()
      modifies this
      ensures ReadAs(old(data), r, DecBounds(rank, old(Rest())))
    {
      var lengths: seq<nat>, lowerbounds: seq<int> := [], [];
      PrependNoBounds(DecBounds(rank, Rest()));
      for cx := 0 to rank
        invariant Valid() && data == old(data) && |lengths| == |lowerbounds| == cx
        invariant DecBounds(rank, old(Rest())) == PrependBounds(lengths, lowerbounds, DecBounds(rank - cx, Rest()))
      {
        ghost var s := Rest();
        var len :- ReadInt(4);
        var lb :- ReadInt(4);
        if len < 0 {
          return Err(BadBounds);
        }
        PrependBoundsMore(lengths, lowerbounds, len, lb, DecBounds(rank - cx - 1, Rest()));
        lengths := lengths + [len];
        lowerbounds := lowerbounds + [lb];
      }
      assert lengths + [] == lengths && lowerbounds + [] == lowerbounds;
      r := Ok((lengths, lowerbounds));
    }

    method ReadHeader(vt: int) returns (r: Result<Header>)
      requires Valid()
      modifies this
      ensures ReadAs(old(data), r, DecHeader(vt, old(Rest())))
    {
      var _ :- Read(4);
      var elSize :- ReadInt(4);
      var rank :- ReadInt(4);
      var info :- ReadTypeInfo(vt);
      if !Creatable(info.0, info.1) {
        return Err(BadType);
      }
      if rank < 0 {
        return Err(BadBounds);
      }
      if rank == 0 {
        return Ok(Header(info.0, info.1, elSize, [0], [0]));
      }
      var bounds :- ReadBounds(rank);
      r := Ok(Header(info.0, info.1, elSize, bounds.0, bounds.1));
    }

    method ReadScalar(t: int) returns (r: Result<Value>)
      requires Valid()
      modifies this
      ensures ReadAs(old(data), r, DecScalar(t, old(Rest())))
    {
      if t == VT_EMPTY {
        r := Ok(Null);
      } else if t == VT_NULL {
        r := Ok(DbNull);
      } else if t == VT_UI1 {
        var b :- Read(1);
        r := Ok(Int(VT_I4, b[0]));
      } else if IsSignedInt(t) {
        var n :- ReadInt(ElementSize(t));
        r := Ok(Int(t, n));
      } else if IsUnsignedInt(t) {
        var b :- Read(ElementSize(t));
        r := Ok(Int(t, FromLittleEndian(b)));
      } else if t == VT_BOOL {
        var n :- ReadInt(2);
        r := Ok(Bool(n == -1));
      } else if IsBits(t) || t == VT_CY {
        var b :- Read(ElementSize(t));
        r := Ok(Bits(t, b));
      } else if t == VT_DECIMAL {
        r := ReadDecimal();
      } else if t == VT_BSTR {
        var b :- ReadString();
        r := Ok(Str(b));
      } else {
        r := Err(NotImplemented);
      }
    }

    method ReadDecimal() returns (r: Result<Value>)
      requires Valid()
      modifies this
      ensures ReadAs(old(data), r, DecDecimal(old(Rest())))
    {
      var b :- Read(16);
      r := Ok(Decimal(b[2..]));
    }

    method ReadValue(t: int) returns (r: Result<Value>)
      requires Valid()
      modifies this
      ensures ReadAs(old(data), r, Dec(t, old(Rest())))
      decreases |data| - position, 1
    {
      if HasArrayFlag(t) {
        r := ReadArray(t - VT_ARRAY);
      } else {
        r := ReadScalar(t);
      }
    }

    method ReadArray(vt: int) returns (r: Result<Value>)
      requires Valid()
      modifies this
      ensures ReadAs(old(data), r, DecArray(vt, old(Rest())))
      decreases |data| - position, 0
    {
      var h :- ReadHeader(vt);
      if |h.lens| > 32 || !Indexable(h.lens, h.lbs) ||
         Product(h.lens) * UnitSize(vt, ElementMode(h.elem, h.jagged)) >= 0x8000_0000 {
        return Err(BadBounds);
      }
      var items :- ReadBody(h);
      r := Ok(Arr(h.elem, h.lens, h.lbs, items));
    }

    method ReadBody(h: Header) returns (r: Result<seq<Value>>)
      requires Valid() && |h.lens| > 0 && Indexable(h.lens, h.lbs)
      modifies this
      ensures ReadAs(old(data), r, DecBody(h, old(Rest())))
      decreases |data| - position, 4
    {
      var n := Product(h.lens);
      if n == 0 {
        return Ok([]);
      }
      var mode := ElementMode(h.elem, h.jagged);
      if mode.Block? {
        if OffsetBytes(h.elem.vt, mode, h.lbs) {
          return Err(InvalidCast);
        }
        if h.elem.vt == VT_DATE || h.elem.vt == VT_CY {
          return Err(BlockCopyRejected);
        }
        r := ReadBlock(h.elem.vt, n, h.elSize);
      } else if mode.NoElements? {
        r := Err(NotImplemented);
      } else if EndsAtTop(mode, h.lens, h.lbs) {
        r := Err(IndexOutOfRange);
      } else {
        TuplesLocated(h.lens, h.lbs);
        OrderInjective(h.lens);
        r := ReadAlong(mode, h.lens, h.lbs, Tuples(n, h.lens, h.lbs), Order(h.lens));
        match DecElems(mode, n, old(Rest())) {
          case Ok(done) => ScatterPlaced(r.value, done.0, h.lens);
          case Err(_) =>
        }
      }
    }

    /** One block of memory: the bytes are read as they are and copied into the new array. */
    method ReadBlock(vt: int, n: nat, elSize: int) returns (r: Result<seq<Value>>)
      requires Valid()
      modifies this
      ensures ReadAs(old(data), r, DecCopied(vt, n, elSize, old(Rest())))
    {
      var copied, room := ToInt32(n * elSize), n * MemorySize(vt);
      if copied < 0 || copied > room {
        return Err(BadElementSize);
      }
      var b :- Read(copied);
      var xs :- BlockElements(vt, n, b + ZeroBytes(room - copied));
      r := Ok(xs.0);
    }

    /** The elements that lie in the memory of an array. */
    static method BlockElements(vt: int, n: nat, memory: seq<Byte>) returns (r: Result<(seq<Value>, seq<Byte>)>)
      ensures r == DecBlock(vt, n, memory)
      decreases n
    {
      if n == 0 {
        return Ok(([], memory));
      }
      var b :- Take(memory, MemorySize(vt));
      var xs :- BlockElements(vt, n - 1, b.1);
      r := Ok(([BlockItem(vt, b.0)] + xs.0, xs.1));
    }

    method ReadElem(mode: Mode) returns (r: Result<Value>)
      requires Valid()
      modifies this
      ensures ReadAs(old(data), r, DecElem(mode, old(Rest())))
      decreases |data| - position, 2, 0
    {
      if mode.Strings? {
        var b :- ReadString();
        r := Ok(Str(b));
      } else if mode.Decimals? {
        r := ReadDecimal();
      } else {
        var t :- ReadInt(2);
        r := ReadValue(t);
      }
    }

    /** The element loop of the reader: each element is placed where the odometer stands. */
    method ReadAlong(mode: Mode, lens: seq<nat>, lbs: seq<int>, ghost ts: seq<seq<int>>, ghost order: seq<nat>)
      returns (r: Result<seq<Value>>)
      requires Valid() && Located(ts, order, lens, lbs) && |ts| == Product(lens) && NoDuplicates(order)
      requires Indexable(lens, lbs) && lens[0] + lbs[0] <= INT_MAX
      modifies this
      ensures Valid() && data == old(data)
      ensures match DecElems(mode, Product(lens), old(Rest()))
              case Ok(done) => r.Ok? && Rest() == done.1 && Placed(r.value, done.0, order)
              case Err(e) => r == Err(e)
      decreases |data| - position, 3
    {
      hide Follows, DecElems, Prepend, PlacedSoFar, Indexable, IndexEnd, NoDuplicates, InBounds, IsOrder;
      var lElements := Product(lens);
      var psa := new Value[lElements];
      var rgIndices := FirstIndices(lens, lbs, ts);
      var findEl := 0;
      ghost var xs: seq<Value> := [];
      ghost var all := DecElems(mode, lElements, Rest());
      PrependNone(all);
      PlaceNone(psa[..], order);
      while true
        invariant findEl < lElements && AtHead(rgIndices[..], findEl, ts) && rgIndices[0] >= lbs[0]
        invariant Pending(all, xs, mode, lElements - findEl) && data == old(data) && old(position) <= position
        invariant |xs| == findEl && PlacedSoFar(psa[..], xs, order)
        decreases lElements - findEl, rgIndices[0] - lbs[0]
      {
        if rgIndices[0] < IndexEnd(lens, lbs) {
          NoCarryNeeded(rgIndices[..], findEl, ts, lens, lbs);
          var x :- ReadCurrent(mode, lens, lbs, rgIndices, psa, ts, order, xs, all, lElements - findEl);
          xs := xs + [x];
          Increment(rgIndices, lbs, findEl, ts);
          findEl := findEl + 1;
          if findEl == lElements {
            break;
          }
        } else {
          CarryTo(rgIndices, lens, lbs, findEl, ts);
        }
      }
      PrependDone(xs, mode, Rest());
      r := Ok(psa[..]);
    }

    /** `all` is what has been read, followed by `left` elements still in the stream. */
    ghost predicate Pending(all: Result<(seq<Value>, seq<Byte>)>, xs: seq<Value>, mode: Mode, left: nat)
      reads this
    {
      Valid() && all == Prepend(xs, DecElems(mode, left, Rest()))
    }

    /** Reads one element into the slot the odometer stands at. */
    method ReadCurrent(mode: Mode, lens: seq<nat>, lbs: seq<int>, rg: array<int>, psa: array<Value>,
                       ghost ts: seq<seq<int>>, ghost order: seq<nat>, ghost xs: seq<Value>,
                       ghost all: Result<(seq<Value>, seq<Byte>)>, ghost left: nat)
      returns (r: Result<Value>)
      requires Pending(all, xs, mode, left) && left > 0
      requires Located(ts, order, lens, lbs) && |ts| == Product(lens) && NoDuplicates(order)
      requires |xs| < |ts| && rg[..] == ts[|xs|] && PlacedSoFar(psa[..], xs, order) && psa.Length == |ts|
      modifies this, psa
      ensures data == old(data) && (r.Ok? ==> old(position) <= position)
      ensures r.Ok? ==> Pending(all, xs + [r.value], mode, left - 1) && PlacedSoFar(psa[..], xs + [r.value], order)
      ensures r.Err? ==> Valid() && all == Err(r.error)
      decreases |data| - position, 2, 1
    {
      var slot := SlotAt(rg, lens, lbs);
      var x :- ReadElem(mode);
      PlaceOne(psa[..], xs, order, x);
      PrependMore(xs, x, DecElems(mode, left - 1, Rest()));
      psa[slot] := x;
      r := Ok(x);
    }
  }

  predicate NoDuplicates(order: seq<nat>) {
    forall i, k :: 0 <= i < k < |order| ==> order[i] != order[k]
  }

  lemma OrderInjective(lens: seq<nat>)
    ensures NoDuplicates(Order(lens))
  {
    forall i, k | 0 <= i < k < Product(lens) ensures Order(lens)[i] != Order(lens)[k] {
      if Slot(i, lens) == Slot(k, lens) {
        SlotInjective(i, k, lens);
      }
    }
  }

  /** Each element visited so far lies in its slot. */
  ghost predicate PlacedSoFar(items: seq<Value>, xs: seq<Value>, order: seq<nat>) {
    |xs| <= |items| && IsOrder(order, |items|) && forall i :: 0 <= i < |xs| ==> items[order[i]] == xs[i]
  }

  ghost predicate Placed(items: seq<Value>, xs: seq<Value>, order: seq<nat>) {
    |items| == |xs| && PlacedSoFar(items, xs, order)
  }

  lemma PlaceNone(items: seq<Value>, order: seq<nat>)
    requires IsOrder(order, |items|)
    ensures PlacedSoFar(items, [], order)
  {
  }

  lemma PlaceOne(items: seq<Value>, xs: seq<Value>, order: seq<nat>, x: Value)
    requires PlacedSoFar(items, xs, order) && |xs| < |items| && NoDuplicates(order)
    ensures PlacedSoFar(items[order[|xs|] := x], xs + [x], order)
  {
  }

  lemma ScatterPlaced(items: seq<Value>, xs: seq<Value>, lens: seq<nat>)
    requires |xs| == Product(lens) && Placed(items, xs, Order(lens))
    ensures items == Scatter(xs, lens)
  {
    forall j | 0 <= j < |items| ensures items[j] == Scatter(xs, lens)[j] {
      OrderOfVisit(j, lens);
    }
  }

  /** Elements read so far in front of what the rest of the stream gives. */
  ghost function Prepend(xs: seq<Value>, r: Result<(seq<Value>, seq<Byte>)>): Result<(seq<Value>, seq<Byte>)> {
    match r
    case Ok(done) => Ok((xs + done.0, done.1))
    case Err(e) => Err(e)
  }

  lemma PrependNone(r: Result<(seq<Value>, seq<Byte>)>)
    ensures Prepend([], r) == r
  {
    if r.Ok? {
      assert [] + r.value.0 == r.value.0;
    }
  }

  lemma PrependDone(xs: seq<Value>, mode: Mode, s: seq<Byte>)
    ensures Prepend(xs, DecElems(mode, 0, s)) == Ok((xs, s))
  {
    assert xs + [] == xs;
  }

  lemma PrependMore(xs: seq<Value>, x: Value, r: Result<(seq<Value>, seq<Byte>)>)
    ensures Prepend(xs, Prepend([x], r)) == Prepend(xs + [x], r)
  {
    if r.Ok? {
      assert xs + ([x] + r.value.0) == (xs + [x]) + r.value.0;
    }
  }

  ghost function PrependBounds(lens: seq<nat>, lbs: seq<int>, r: Result<((seq<nat>, seq<int>), seq<Byte>)>)
    : Result<((seq<nat>, seq<int>), seq<Byte>)>
  {
    match r
    case Ok(done) => Ok(((lens + done.0.0, lbs + done.0.1), done.1))
    case Err(e) => Err(e)
  }

  lemma PrependNoBounds(r: Result<((seq<nat>, seq<int>), seq<Byte>)>)
    ensures PrependBounds([], [], r) == r
  {
    if r.Ok? {
      assert [] + r.value.0.0 == r.value.0.0 && [] + r.value.0.1 == r.value.0.1;
    }
  }

  lemma PrependBoundsMore(lens: seq<nat>, lbs: seq<int>, len: nat, lb: int, r: Result<((seq<nat>, seq<int>), seq<Byte>)>)
    ensures PrependBounds(lens, lbs, PrependBounds([len], [lb], r)) == PrependBounds(lens + [len], lbs + [lb], r)
  {
    if r.Ok? {
      assert lens + ([len] + r.value.0.0) == (lens + [len]) + r.value.0.0;
      assert lbs + ([lb] + r.value.0.1) == (lbs + [lb]) + r.value.0.1;
    }
  }
}
