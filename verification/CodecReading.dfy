/** What the reader makes of bytes that no writer has written. */
module CodecReading {
  import opened Bytes
  import opened Odometer
  import opened Codec
  import opened CodecRoundTrip

  /** The bytes a value of a fixed-size scalar type takes. */
  function FixedSize(t: int): nat {
    if t == 17 then 1
    else if t == 2 || t == 18 || t == 11 then 2
    else if t == 3 || t == 19 || t == 4 then 4
    else if t == 20 || t == 21 || t == 5 || t == 6 || t == 7 then 8
    else if t == 14 then 16
    else 0
  }

  lemma ScalarIs(t: int, s: seq<Byte>)
    requires t < 0x2000 && t >= 0
    ensures !HasArrayFlag(t) && Dec(t, s) == DecScalar(t, s)
  {
  }

  /** Too few bytes are an error, of whatever fixed-size type. */
  lemma ScalarCutOff(t: int, s: seq<Byte>)
    requires |s| < FixedSize(t)
    ensures Dec(t, s) == Err(Truncated)
  {
    hide Dec;
    ScalarIs(t, s);
  }

  /** Enough bytes always make a value: of its type, a lone byte an int; as many are taken as
      it has. */
  lemma ScalarTaken(t: int, s: seq<Byte>)
    requires 0 < FixedSize(t) <= |s|
    ensures Dec(t, s).Ok? && Dec(t, s).value.1 == s[FixedSize(t)..]
    ensures Tag(Dec(t, s).value.0) == if t == 17 then 3 else t
  {
    hide Dec, FromSigned, FromLittleEndian;
    ScalarIs(t, s);
  }

  /** Only the two bytes of -1 are true. */
  lemma BoolRead(s: seq<Byte>)
    requires |s| >= 2
    ensures Dec(11, s) == Ok((Bool(s[0] == 255 && s[1] == 255), s[2..]))
  {
    hide Dec, Pow256, FromLittleEndian;
    ScalarIs(11, s);
    Pow256Values();
    FromTwo(s[..2]);
  }

  lemma FromTwo(b: seq<Byte>)
    requires |b| == 2
    ensures FromLittleEndian(b) == b[0] as int + 256 * b[1] as int
  {
    assert b[1..][1..] == [];
    assert FromLittleEndian(b[1..]) == b[1] + 256 * FromLittleEndian([]);
  }

  /** The two reserved bytes of a decimal are not looked at. */
  lemma DecimalRead(s: seq<Byte>)
    requires |s| >= 16
    ensures Dec(14, s) == Ok((Decimal(s[2..16]), s[16..]))
  {
    hide Dec;
    ScalarIs(14, s);
    assert s[..16][2..] == s[2..16];
  }

  /** A null takes no bytes; a tag that is neither that of a value nor of an object is refused. */
  lemma OtherTags(t: int, s: seq<Byte>)
    requires 0 <= t < 0x2000
    ensures Dec(0, s) == Ok((Null, s)) && Dec(1, s) == Ok((DbNull, s))
    ensures t !in {0, 1, 8, 9, 10, 12, 13} && FixedSize(t) == 0 ==> Dec(t, s) == Err(NotImplemented)
  {
    hide Dec;
    ScalarIs(0, s);
    ScalarIs(1, s);
    ScalarIs(t, s);
  }

  /** A string needs its length and as many bytes; a negative length is refused. */
  lemma StringRead(n: int, s: seq<Byte>)
    requires -0x8000_0000 <= n < 0x8000_0000
    ensures Dec(8, Signed(n, 4) + s) ==
            if n < 0 then Err(BadLength) else if n > |s| then Err(Truncated) else Ok((Str(s[..n]), s[n..]))
  {
    hide Dec, DecInt, Signed;
    ScalarIs(8, Signed(n, 4) + s);
    FourBytesRound(n, s);
  }

  lemma StringCutOff(s: seq<Byte>)
    requires |s| < 4
    ensures Dec(8, s) == Err(Truncated)
  {
    hide Dec;
    ScalarIs(8, s);
  }

  // --- Array headers ---

  /** The bytes that name the element type `vt`, and what they name. */
  ghost predicate Names(vt: int, info: seq<Byte>, name: seq<Byte>, jagged: bool) {
    if vt == 12 || vt == 13 || vt == 10 then !jagged && info == EncString(name)
    else if jagged then info == EncString(JAGGED) + EncString(name)
    else name == [] && exists x: seq<Byte> :: |x| < 0x8000_0000 && x != JAGGED && info == EncString(x)
  }

  lemma NamesRead(vt: int, info: seq<Byte>, name: seq<Byte>, jagged: bool, rest: seq<Byte>)
    requires |name| < 0x8000_0000 && Names(vt, info, name, jagged)
    ensures DecTypeInfo(vt, info + rest) == Ok(((ElemType(vt, name), jagged), rest))
  {
    hide EncString, DecString;
    if vt == 12 || vt == 13 || vt == 10 {
      StringRound(name, rest);
    } else if jagged {
      Assoc(EncString(JAGGED), EncString(name), rest);
      StringRound(JAGGED, EncString(name) + rest);
      StringRound(name, rest);
    } else {
      var x: seq<Byte> :| |x| < 0x8000_0000 && x != JAGGED && info == EncString(x);
      StringRound(x, rest);
    }
  }

  /** Whatever the first four bytes are: arrays of objects and arrays of arrays need a name, the
      others one of the known types; the rank must not be negative, and rank 0 stands for one
      dimension without elements. */
  lemma HeaderRead(any: seq<Byte>, vt: int, elSize: int, rank: int, info: seq<Byte>, name: seq<Byte>, jagged: bool,
                   rest: seq<Byte>)
    requires |any| == 4 && |name| < 0x8000_0000 && Names(vt, info, name, jagged)
    requires -0x8000_0000 <= elSize < 0x8000_0000 && -0x8000_0000 <= rank < 0x8000_0000
    ensures var known := if jagged || vt in {10, 12, 13} then name != []
                         else vt in {1, 2, 3, 4, 5, 6, 7, 8, 11, 14, 17, 18, 19, 20, 21};
            DecHeader(vt, any + (Signed(elSize, 4) + (Signed(rank, 4) + (info + rest)))) ==
            if !known then Err(BadType)
            else if rank < 0 then Err(BadBounds)
            else if rank == 0 then Ok((Header(ElemType(vt, name), jagged, elSize, [0], [0]), rest))
            else
              match DecBounds(rank, rest)
              case Ok(b) => Ok((Header(ElemType(vt, name), jagged, elSize, b.0.0, b.0.1), b.1))
              case Err(e) => Err(e)
  {
    hide DecTypeInfo, DecBounds, DecInt, Signed, Names;
    TakeRound(any, Signed(elSize, 4) + (Signed(rank, 4) + (info + rest)));
    FourBytesRound(elSize, Signed(rank, 4) + (info + rest));
    FourBytesRound(rank, info + rest);
    NamesRead(vt, info, name, jagged, rest);
  }

  /** A negative length anywhere among the bounds is refused. */
  lemma {:induction false} NegativeLength(lens: seq<nat>, lbs: seq<int>, len: int, lb: int, rank: nat, rest: seq<Byte>)
    requires |lens| == |lbs| < rank && -0x8000_0000 <= len < 0 && -0x8000_0000 <= lb < 0x8000_0000
    requires forall i :: 0 <= i < |lens| ==> lens[i] < 0x8000_0000 && -0x8000_0000 <= lbs[i] < 0x8000_0000
    ensures DecBounds(rank, EncBounds(lens, lbs) + (Signed(len, 4) + (Signed(lb, 4) + rest))) == Err(BadBounds)
    decreases |lens|
  {
    hide Signed, DecInt;
    var bad := Signed(len, 4) + (Signed(lb, 4) + rest);
    if lens == [] {
      assert [] + bad == bad;
      FourBytesRound(len, Signed(lb, 4) + rest);
      FourBytesRound(lb, rest);
    } else {
      var tail := EncBounds(lens[1..], lbs[1..]) + bad;
      Assoc(Signed(lens[0], 4) + Signed(lbs[0], 4), EncBounds(lens[1..], lbs[1..]), bad);
      Assoc(Signed(lens[0], 4), Signed(lbs[0], 4), tail);
      FourBytesRound(lens[0], Signed(lbs[0], 4) + tail);
      FourBytesRound(lbs[0], tail);
      NegativeLength(lens[1..], lbs[1..], len, lb, rank - 1, rest);
    }
  }

  lemma HeaderCutOff(vt: int, s: seq<Byte>)
    requires |s| < 12
    ensures DecHeader(vt, s) == Err(Truncated)
  {
    hide DecTypeInfo, DecBounds, FromSigned;
  }

  /** Every dimension takes eight bytes. */
  lemma {:induction false} BoundsCutOff(rank: nat, s: seq<Byte>)
    requires |s| < 8 * rank
    ensures DecBounds(rank, s).Err?
    decreases rank
  {
    hide FromSigned;
    if |s| >= 8 {
      BoundsCutOff(rank - 1, s[4..][4..]);
    }
  }

  // --- Array elements ---

  /** Elements that cannot be read, whatever bytes follow: bytes not from 0 on, types a block copy
      refuses, DBNull, and a dimension 0 that ends at the largest integer. */
  lemma ElementsRefused(h: Header, s: seq<Byte>)
    requires |h.lens| == |h.lbs| > 0 && Product(h.lens) > 0
    requires h.elem.vt in {1, 2, 3, 4, 5, 6, 7, 8, 11, 12, 14, 17, 18, 19, 20, 21}
    ensures !h.jagged && h.elem.vt == 17 && |h.lbs| == 1 && h.lbs[0] != 0 ==> DecBody(h, s) == Err(InvalidCast)
    ensures !h.jagged && h.elem.vt in {6, 7} ==> DecBody(h, s) == Err(BlockCopyRejected)
    ensures !h.jagged && h.elem.vt == 1 ==> DecBody(h, s) == Err(NotImplemented)
    ensures (h.jagged || h.elem.vt in {8, 12, 14}) && h.lens[0] + h.lbs[0] > 0x7FFF_FFFF ==>
              DecBody(h, s) == Err(IndexOutOfRange)
  {
  }

  lemma HeaderType(vt: int, s: seq<Byte>)
    ensures DecHeader(vt, s).Ok? ==> DecHeader(vt, s).value.0.elem.vt == vt
  {
    hide DecBounds, DecDescriptor, DecString;
  }

  /** No array has more than 32 dimensions. */
  lemma TooManyDimensions(vt: int, h: Header, s: seq<Byte>, rest: seq<Byte>)
    requires 0 <= vt < 0x1000 && DecHeader(vt, s) == Ok((h, rest)) && |h.lens| > 32
    ensures Dec(0x2000 + vt, s) == Err(BadBounds)
  {
    hide Dec, DecHeader;
    ArrayIs(vt, s);
  }

  lemma NoBody(h: Header, s: seq<Byte>)
    requires Product(h.lens) == 0
    ensures DecBody(h, s) == Ok(([], s))
  {
  }

  lemma ArrayIs(vt: int, s: seq<Byte>)
    requires 0 <= vt < 0x1000
    ensures Dec(0x2000 + vt, s) == DecArray(vt, s)
  {
    hide DecArray;
  }

  /** An array behind its header: no elements without a product, and none of 2 GB and more. */
  lemma ArrayRead(vt: int, h: Header, s: seq<Byte>, rest: seq<Byte>)
    requires 0 <= vt < 0x1000 && DecHeader(vt, s) == Ok((h, rest))
    requires forall i :: 0 <= i < |h.lens| ==> -0x8000_0000 <= h.lbs[i] && h.lbs[i] + h.lens[i] - 1 <= 0x7FFF_FFFF
    requires |h.lens| <= 32
    ensures Product(h.lens) == 0 ==> Dec(0x2000 + vt, s) == Ok((Arr(h.elem, h.lens, h.lbs, []), rest))
    ensures Product(h.lens) >= 0x8000_0000 && (h.jagged || vt in {1, 8, 11, 12, 14, 17}) ==>
              Dec(0x2000 + vt, s) == Err(BadBounds)
    ensures 0 < Product(h.lens) && 8 * Product(h.lens) < 0x8000_0000 ==>
              Dec(0x2000 + vt, s) == match DecBody(h, rest)
                                     case Ok(b) => Ok((Arr(h.elem, h.lens, h.lbs, b.0), b.1))
                                     case Err(e) => Err(e)
  {
    hide Dec, DecHeader, DecBody, Product;
    ArrayIs(vt, s);
    HeaderType(vt, s);
    var unit := UnitSize(vt, ElementMode(h.elem, h.jagged));
    assert unit <= 8;
    if Product(h.lens) == 0 {
      NoBody(h, rest);
    }
  }

  // --- Elements ---

  /** An object is read as its tag says; a string is its length and bytes. */
  lemma ElementRead(t: int, s: seq<Byte>, b: seq<Byte>)
    requires -0x8000 <= t < 0x8000 && |b| < 0x8000_0000
    ensures DecElem(Tagged, Signed(t, 2) + s) == Dec(t, s)
    ensures DecElem(Strings, EncString(b) + s) == Ok((Str(b), s))
    ensures DecElem(Decimals, s) == if |s| >= 16 then Ok((Decimal(s[2..16]), s[16..])) else Err(Truncated)
  {
    hide Dec, DecInt, DecString, EncString, Signed;
    Pow256Values();
    IntRound(t, 2, s);
    StringRound(b, s);
    if |s| >= 16 {
      assert s[..16][2..] == s[2..16];
    }
  }

  /** Elements are read one after the other; the first that fails ends the reading. */
  lemma ElementsRead(mode: Mode, n: nat, s: seq<Byte>)
    requires n > 0
    ensures DecElem(mode, s).Err? ==> DecElems(mode, n, s) == Err(DecElem(mode, s).error)
    ensures DecElem(mode, s).Ok? && DecElems(mode, n - 1, DecElem(mode, s).value.1).Err? ==>
              DecElems(mode, n, s) == Err(DecElems(mode, n - 1, DecElem(mode, s).value.1).error)
  {
  }

  // --- Blocks ---

  /** The element size in the descriptor says how many bytes are copied into the block: fewer than
      it holds leave zeros behind, more, or fewer than none, are refused. */
  lemma BlockRead(h: Header, s: seq<Byte>)
    requires |h.lens| == |h.lbs| > 0 && Product(h.lens) > 0 && !h.jagged && h.elem.vt in {2, 3, 4, 5, 11, 17, 18, 19, 20, 21}
    requires h.elem.vt == 17 && |h.lbs| == 1 ==> h.lbs[0] == 0
    requires -0x8000_0000 <= Product(h.lens) * h.elSize < 0x8000_0000
    ensures var n, size := Product(h.lens), if h.elem.vt == 11 then 1 else FixedSize(h.elem.vt);
            var copied := n * h.elSize;
            if copied < 0 || copied > n * size then DecBody(h, s) == Err(BadElementSize)
            else if copied > |s| then DecBody(h, s) == Err(Truncated)
            else
              DecBody(h, s) == match DecBlock(h.elem.vt, n, s[..copied] + ZeroBytes(n * size - copied))
                               case Ok(block) => Ok((block.0, s[copied..]))
                               case Err(e) => Err(e)
  {
    hide DecBlock, Product;
    Truncates(Product(h.lens) * h.elSize, Product(h.lens) * h.elSize);
  }

  /** Every element of a block is made of its own bytes; those of a boolean array are true unless
      they are zero. */
  lemma {:induction false} BlockTaken(vt: int, n: nat, memory: seq<Byte>, i: nat)
    requires vt in {2, 3, 4, 5, 11, 17, 18, 19, 20, 21} && i < n
    requires var size := if vt == 11 then 1 else FixedSize(vt); |memory| == n * size
    ensures var size := if vt == 11 then 1 else FixedSize(vt);
            DecBlock(vt, n, memory).Ok? && 0 <= i * size && i * size + size <= |memory| &&
            var own, x := memory[i * size..i * size + size], DecBlock(vt, n, memory).value.0[i];
            if vt == 11 then x == Bool(own != [0])
            else if vt == 4 || vt == 5 then x == Bits(vt, own)
            else if vt == 17 then x == Int(17, own[0])
            else Dec(vt, own) == Ok((x, []))
    decreases n
  {
    hide Dec, BlockItem, DecBlock;
    var size := if vt == 11 then 1 else FixedSize(vt);
    assert MemorySize(vt) == size && n * size == (n - 1) * size + size;
    BlockCons(vt, n, memory, size);
    if i > 0 {
      BlockTaken(vt, n - 1, memory[size..], i - 1);
      assert i * size == (i - 1) * size + size;
      Shifted(memory, (i - 1) * size, size);
    } else {
      OwnBytes(vt, memory[..size]);
      RestDecoded(vt, n - 1, memory[size..]);
    }
  }

  lemma BlockCons(vt: int, n: nat, memory: seq<Byte>, size: nat)
    requires n > 0 && size == MemorySize(vt) <= |memory|
    ensures DecBlock(vt, n, memory) ==
            match DecBlock(vt, n - 1, memory[size..])
            case Ok(more) => Ok(([BlockItem(vt, memory[..size])] + more.0, more.1))
            case Err(e) => Err(e)
  {
    hide BlockItem;
  }

  lemma Shifted(memory: seq<Byte>, at: nat, size: nat)
    requires at + size + size <= |memory|
    ensures memory[size..][at..at + size] == memory[at + size..at + size + size]
  {
  }

  lemma {:induction false} RestDecoded(vt: int, n: nat, memory: seq<Byte>)
    requires vt in {2, 3, 4, 5, 11, 17, 18, 19, 20, 21} && |memory| >= n * MemorySize(vt)
    ensures DecBlock(vt, n, memory).Ok?
    decreases n
  {
    hide BlockItem;
    if n > 0 {
      assert n * MemorySize(vt) == (n - 1) * MemorySize(vt) + MemorySize(vt);
      RestDecoded(vt, n - 1, memory[MemorySize(vt)..]);
    }
  }

  lemma OwnBytes(vt: int, own: seq<Byte>)
    requires vt in {2, 3, 4, 5, 11, 17, 18, 19, 20, 21} && |own| == if vt == 11 then 1 else FixedSize(vt)
    ensures var x := BlockItem(vt, own);
            if vt == 11 then x == Bool(own != [0])
            else if vt == 4 || vt == 5 then x == Bits(vt, own)
            else if vt == 17 then x == Int(17, own[0])
            else Dec(vt, own) == Ok((x, []))
  {
    hide Dec;
    ScalarIs(vt, own);
    if vt == 17 {
      assert own[1..] == [] && FromLittleEndian(own) == own[0] + 256 * FromLittleEndian([]);
    } else if vt != 11 {
      assert own[..|own|] == own && own[|own|..] == [];
    }
  }
}
