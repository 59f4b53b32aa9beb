/** The variant stream format: values, what is written for them, and how it is read back.
    A stream is a byte sequence; reading returns the value and the bytes that follow it. */
module Codec {
  import opened Bytes
  import opened Odometer

  // --- Values ---

  const VT_EMPTY := 0
  const VT_NULL := 1
  const VT_I2 := 2
  const VT_I4 := 3
  const VT_R4 := 4
  const VT_R8 := 5
  const VT_CY := 6
  const VT_DATE := 7
  const VT_BSTR := 8
  const VT_ERROR := 10
  const VT_BOOL := 11
  const VT_VARIANT := 12
  const VT_UNKNOWN := 13
  const VT_DECIMAL := 14
  const VT_I1 := 16
  const VT_UI1 := 17
  const VT_UI2 := 18
  const VT_UI4 := 19
  const VT_I8 := 20
  const VT_UI8 := 21
  const VT_ARRAY := 0x2000

  /** An array's element type: its tag, and the type name that is written for arrays of
      objects and for arrays of arrays (empty for all others). */
  datatype ElemType = ElemType(vt: int, name: seq<Byte>)

  /** Strings are their UTF-8 bytes; floating-point numbers, dates and currency values (which are
      read but never written) their 8 or 4 bytes;
      a decimal its 14 bytes after the two reserved ones.  The items of an array are in
      memory order, the last dimension turning fastest. */
  datatype Value =
    | Null
    | DbNull
    | Int(vt: int, n: int)
    | Bool(b: bool)
    | Bits(kind: int, bits: seq<Byte>)
    | Decimal(rest: seq<Byte>)
    | Str(utf8: seq<Byte>)
    | Arr(elem: ElemType, lens: seq<nat>, lbs: seq<int>, items: seq<Value>)

  /** The type tag written before a value. */
  function Tag(v: Value): int {
    match v
    case Null => VT_EMPTY
    case DbNull => VT_NULL
    case Int(vt, _) => vt
    case Bool(_) => VT_BOOL
    case Bits(kind, _) => kind
    case Decimal(_) => VT_DECIMAL
    case Str(_) => VT_BSTR
    case Arr(elem, _, _, _) => VT_ARRAY + elem.vt
  }

  predicate HasArrayFlag(t: int) {
    (t / VT_ARRAY) % 2 == 1
  }

  /** The storage size of an element; 8-byte pointers. */
  function ElementSize(vt: int): nat {
    if vt == VT_UI1 then 1
    else if vt == VT_BOOL || vt == VT_UI2 || vt == VT_I2 then 2
    else if vt == VT_R4 || vt == VT_I4 || vt == VT_UI4 then 4
    else if vt == VT_CY || vt == VT_UI8 || vt == VT_I8 || vt == VT_R8 || vt == VT_DATE || vt == VT_BSTR then 8
    else if vt == VT_VARIANT || vt == VT_DECIMAL then 16
    else 0
  }

  predicate IsSignedInt(vt: int) {
    vt == VT_I2 || vt == VT_I4 || vt == VT_I8
  }

  predicate IsUnsignedInt(vt: int) {
    vt == VT_UI1 || vt == VT_UI2 || vt == VT_UI4 || vt == VT_UI8
  }

  predicate IsBits(vt: int) {
    vt == VT_R4 || vt == VT_R8 || vt == VT_DATE
  }

  /** Array types have a bracket in their name. */
  predicate IsJagged(elem: ElemType) {
    93 in elem.name
  }

  predicate HasTypeName(vt: int) {
    vt == VT_UNKNOWN || vt == VT_ERROR || vt == VT_VARIANT
  }

  /** How the elements of an array are laid down. */
  datatype Mode = Block | Strings | Decimals | Tagged | NoElements

  function ElementMode(elem: ElemType, jagged: bool): Mode {
    if jagged then Tagged
    else if IsSignedInt(elem.vt) || IsUnsignedInt(elem.vt) || IsBits(elem.vt) ||
            elem.vt == VT_CY || elem.vt == VT_BOOL || elem.vt == VT_I1 then Block
    else if elem.vt == VT_BSTR then Strings
    else if elem.vt == VT_DECIMAL then Decimals
    else if elem.vt == VT_VARIANT || elem.vt == VT_UNKNOWN then Tagged
    else NoElements
  }

  function ModeOf(elem: ElemType): Mode {
    ElementMode(elem, IsJagged(elem))
  }

  /** What an element takes in the memory of an array that is copied as one block. */
  function MemorySize(vt: int): nat {
    if vt == VT_BOOL then 1 else ElementSize(vt)
  }

  /** What is counted in 32 bits: bytes where an array is copied as one block, elements
      otherwise. */
  function UnitSize(vt: int, mode: Mode): nat {
    if mode.Block? then MemorySize(vt) else 1
  }

  /** A one-dimensional byte array that does not start at 0 has a type of its own, which
      cannot be cast to the type of byte arrays. */
  predicate OffsetBytes(vt: int, mode: Mode, lbs: seq<int>) {
    mode.Block? && vt == VT_UI1 && |lbs| == 1 && lbs[0] != 0
  }

  /** Elements laid down one by one, where the odometer stands. */
  predicate ElementWise(mode: Mode) {
    mode.Strings? || mode.Decimals? || mode.Tagged?
  }

  /** The odometer has no end of dimension 0 to compare with. */
  predicate EndsAtTop(mode: Mode, lens: seq<nat>, lbs: seq<int>) {
    ElementWise(mode) && |lens| == |lbs| > 0 && lens[0] + lbs[0] > INT_MAX
  }

  /** What the type system guarantees of a value. */
  ghost predicate WellFormed(v: Value) {
    match v
    case Null => true
    case DbNull => true
    case Int(vt, n) =>
      (IsSignedInt(vt) && FitsSigned(n, ElementSize(vt))) || (IsUnsignedInt(vt) && FitsUnsigned(n, ElementSize(vt)))
    case Bool(_) => true
    case Bits(kind, bits) => IsBits(kind) && |bits| == ElementSize(kind)
    case Decimal(rest) => |rest| == 14
    case Str(utf8) => |utf8| < 0x8000_0000
    case Arr(elem, lens, lbs, items) =>
      GoodShape(lens, lbs) && |items| == Product(lens) && GoodElem(elem) &&
      |items| * UnitSize(elem.vt, ModeOf(elem)) < 0x8000_0000 &&
      forall i :: 0 <= i < |items| ==> GoodItem(elem, items[i]) && WellFormed(items[i])
  }

  predicate GoodShape(lens: seq<nat>, lbs: seq<int>) {
    |lens| == |lbs| && 0 < |lens| <= 32 && Indexable(lens, lbs) &&
    (forall i :: 0 <= i < |lens| ==> lens[i] < 0x8000_0000) &&
    (forall i :: 0 <= i < |lbs| ==> -0x8000_0000 <= lbs[i] < 0x8000_0000)
  }

  predicate GoodElem(elem: ElemType) {
    |elem.name| < 0x8000_0000 &&
    (elem.vt == VT_VARIANT || IsSignedInt(elem.vt) || IsUnsignedInt(elem.vt) || IsBits(elem.vt) ||
     elem.vt == VT_BOOL || elem.vt == VT_BSTR || elem.vt == VT_DECIMAL || elem.vt == VT_NULL) &&
    (if elem.vt == VT_VARIANT then elem.name != [] else elem.name == [] || IsJagged(elem))
  }

  predicate GoodItem(elem: ElemType, x: Value) {
    match ModeOf(elem)
    case Block => Tag(x) == elem.vt && !x.Arr?
    case Strings => x.Str? || x.Null?
    case Decimals => x.Decimal?
    case Tagged => IsJagged(elem) ==> x.Arr? || x.Null?
    case NoElements => x.DbNull?
  }

  // --- Visiting order ---

  /** The memory slot of the element the odometer visits as number `k`. */
  function Slot(k: nat, lens: seq<nat>): (j: nat)
    requires k < Product(lens)
    ensures j < Product(lens)
  {
    RowRankInverse(Digits(k, lens), lens);
    RowRank(Digits(k, lens), lens)
  }

  /** When the odometer visits memory slot `j`. */
  function Visit(j: nat, lens: seq<nat>): (k: nat)
    requires j < Product(lens)
    ensures k < Product(lens) && Slot(k, lens) == j
  {
    var d := RowDigits(j, lens);
    RankInjective(d, d, lens);
    RankInjective(d, Digits(Rank(d, lens), lens), lens);
    RowDigitsInverse(j, lens);
    Rank(d, lens)
  }

  lemma SlotInjective(i: nat, k: nat, lens: seq<nat>)
    requires i < Product(lens) && k < Product(lens) && Slot(i, lens) == Slot(k, lens)
    ensures i == k
  {
    RowRankInverse(Digits(i, lens), lens);
    RowRankInverse(Digits(k, lens), lens);
  }

  /** The memory slots in visiting order. */
  function Order(lens: seq<nat>): (order: seq<nat>)
    ensures IsOrder(order, Product(lens))
  {
    seq(Product(lens), k requires 0 <= k < Product(lens) => Slot(k, lens))
  }

  predicate IsOrder(order: seq<nat>, n: nat) {
    |order| == n && forall k :: 0 <= k < n ==> order[k] < n
  }

  /** Elements in memory order, taken in visiting order. */
  function Gather<T>(items: seq<T>, order: seq<nat>): seq<T>
    requires IsOrder(order, |items|)
  {
    seq(|items|, k requires 0 <= k < |items| => items[order[k]])
  }

  /** Elements in visiting order, put into memory order. */
  function Scatter<T>(xs: seq<T>, lens: seq<nat>): seq<T>
    requires |xs| == Product(lens)
  {
    seq(|xs|, j requires 0 <= j < |xs| => xs[Visit(j, lens)])
  }

  lemma OrderOfVisit(j: nat, lens: seq<nat>)
    requires j < Product(lens)
    ensures Order(lens)[Visit(j, lens)] == j && Visit(Order(lens)[j], lens) == j
  {
    SlotInjective(Visit(Slot(j, lens), lens), j, lens);
  }

  /** Placing the visited elements where the odometer stands restores the array. */
  lemma ScatterGather<T>(items: seq<T>, lens: seq<nat>)
    requires |items| == Product(lens)
    ensures Scatter(Gather(items, Order(lens)), lens) == items
  {
    forall j | 0 <= j < |items| ensures Scatter(Gather(items, Order(lens)), lens)[j] == items[j] {
      OrderOfVisit(j, lens);
    }
  }

  // --- Writing ---

  function EncString(b: seq<Byte>): seq<Byte> {
    Signed(|b|, 4) + b
  }

  /** "__jagged" */
  const JAGGED: seq<Byte> := [95, 95, 106, 97, 103, 103, 101, 100]

  function EncTypeInfo(elem: ElemType): seq<Byte> {
    if HasTypeName(elem.vt) then EncString(elem.name)
    else if IsJagged(elem) then EncString(JAGGED) + EncString(elem.name)
    else EncString([])
  }

  function EncBounds(lens: seq<nat>, lbs: seq<int>): seq<Byte>
    requires |lens| == |lbs|
  {
    if lens == [] then [] else Signed(lens[0], 4) + Signed(lbs[0], 4) + EncBounds(lens[1..], lbs[1..])
  }

  /** type, two bytes of padding, element size, rank */
  function EncDescriptor(vt: int, rank: nat): seq<Byte> {
    Signed(VT_ARRAY + vt, 2) + [0, 0] + Signed(ElementSize(vt), 4) + Signed(rank, 4)
  }

  function EncHeader(elem: ElemType, lens: seq<nat>, lbs: seq<int>): seq<Byte>
    requires |lens| == |lbs|
  {
    EncDescriptor(elem.vt, |lens|) + EncTypeInfo(elem) + EncBounds(lens, lbs)
  }

  function EncDecimal(rest: seq<Byte>): seq<Byte> {
    [VT_DECIMAL, 0] + rest
  }

  function EncScalar(v: Value): seq<Byte>
    requires !v.Arr?
  {
    match v
    case Null => []
    case DbNull => []
    case Int(vt, n) => Signed(n, ElementSize(vt))
    case Bool(b) => Signed(if b then -1 else 0, 2)
    case Bits(_, bits) => bits
    case Decimal(rest) => EncDecimal(rest)
    case Str(utf8) => EncString(utf8)
  }

  /** Memory of a primitive array, copied as one block. */
  function EncBlock(items: seq<Value>): seq<Byte> {
    if items == [] then []
    else (if items[0].Arr? then [] else EncScalar(items[0])) + EncBlock(items[1..])
  }

  function EncNullableString(x: Value): seq<Byte> {
    if x.Str? then EncString(x.utf8) else EncString([])
  }

  ghost function Enc(v: Value): seq<Byte>
    requires WellFormed(v)
    decreases v, 2
  {
    if v.Arr? then EncHeader(v.elem, v.lens, v.lbs) + EncBody(v) else EncScalar(v)
  }

  ghost function EncBody(v: Value): seq<Byte>
    requires WellFormed(v) && v.Arr?
    decreases v, 1, |v.items| + 1
  {
    match ModeOf(v.elem)
    case Block => EncBlock(v.items)
    case NoElements => []
    case _ => EncFrom(v, Order(v.lens), 0)
  }

  /** The elements from the `k`-th visited one on. */
  ghost function EncFrom(v: Value, order: seq<nat>, k: nat): seq<Byte>
    requires WellFormed(v) && v.Arr? && IsOrder(order, |v.items|) && k <= |v.items|
    decreases v, 1, |v.items| - k
  {
    if k == |v.items| then [] else EncItem(v, order[k]) + EncFrom(v, order, k + 1)
  }

  ghost function EncItem(v: Value, j: nat): seq<Byte>
    requires WellFormed(v) && v.Arr? && j < |v.items|
    decreases v, 0
  {
    var x := v.items[j];
    match ModeOf(v.elem)
    case Strings => EncNullableString(x)
    case Decimals => if x.Decimal? then EncDecimal(x.rest) else []
    case _ => Signed(Tag(x), 2) + Enc(x)
  }

  /** Exactly the values that can be written: block copy refuses arrays of dates and
      non-empty arrays of booleans, the cast to a byte array refuses one-dimensional ones
      that do not start at 0, and the carry loop of an empty array of arrays, or of an array
      whose dimension 0 ends at the largest integer, runs out of range. */
  ghost predicate Writable(v: Value) {
    v.Arr? ==>
      (ModeOf(v.elem).Block? ==> v.elem.vt != VT_DATE && v.elem.vt != VT_CY && (v.elem.vt == VT_BOOL ==> v.items == [])) &&
      !OffsetBytes(v.elem.vt, ModeOf(v.elem), v.lbs) &&
      (EndsAtTop(ModeOf(v.elem), v.lens, v.lbs) ==> v.items == []) &&
      (IsJagged(v.elem) ==> v.items != []) &&
      (ModeOf(v.elem).Tagged? ==> forall i :: 0 <= i < |v.items| ==> Writable(v.items[i]))
  }

  /** The reader has no branch for a non-empty array of DBNull. */
  ghost predicate Readable(v: Value) {
    v.Arr? ==>
      (ModeOf(v.elem).NoElements? ==> v.items == []) &&
      (ModeOf(v.elem).Tagged? ==> forall i :: 0 <= i < |v.items| ==> Readable(v.items[i]))
  }

  /** What a value is after a round trip: a lone byte has become an int, and a null
      string inside a string array the empty string. */
  ghost function Norm(v: Value): Value
    decreases v, 2
  {
    match v
    case Int(vt, n) => if vt == VT_UI1 then Int(VT_I4, n) else v
    case Arr(elem, lens, lbs, _) => Arr(elem, lens, lbs, NormItems(v))
    case _ => v
  }

  ghost function NormItems(v: Value): seq<Value>
    requires v.Arr?
    decreases v, 1
  {
    seq(|v.items|, j requires 0 <= j < |v.items| => NormItem(v, j))
  }

  ghost function NormItem(v: Value, j: nat): Value
    requires v.Arr? && j < |v.items|
    decreases v, 0
  {
    match ModeOf(v.elem)
    case Tagged => Norm(v.items[j])
    case Strings => NormString(v.items[j])
    case _ => v.items[j]
  }

  function NormString(x: Value): Value {
    if x.Null? then Str([]) else x
  }

  // --- Reading ---

  datatype Error =
    | Truncated | BadLength | BadBounds | BadType | BadElementSize | BlockCopyRejected | NotImplemented
    | CorruptState | InvalidCast | IndexOutOfRange | TooManyVariables

  datatype Result<+T> = Ok(value: T) | Err(error: Error) {
    predicate IsFailure() {
      Err?
    }

    function PropagateFailure<U>(): Result<U>
      requires Err?
    {
      Err(error)
    }

    function Extract(): T
      requires Ok?
    {
      value
    }
  }

  function Take(s: seq<Byte>, n: nat): (r: Result<(seq<Byte>, seq<Byte>)>)
    ensures r.Ok? ==> |r.value.0| == n && s == r.value.0 + r.value.1
    ensures r.Ok? <==> n <= |s|
  {
    if n <= |s| then Ok((s[..n], s[n..])) else Err(Truncated)
  }

  function DecInt(s: seq<Byte>, w: nat): (r: Result<(int, seq<Byte>)>)
    ensures r.Ok? ==> |r.value.1| == |s| - w
  {
    var (b, rest) :- Take(s, w);
    Ok((FromSigned(b), rest))
  }

  function DecString(s: seq<Byte>): (r: Result<(seq<Byte>, seq<Byte>)>)
    ensures r.Ok? ==> |r.value.1| <= |s| - 4
  {
    var (size, s1) :- DecInt(s, 4);
    if size < 0 then Err(BadLength) else Take(s1, size)
  }

  function DecTypeInfo(vt: int, s: seq<Byte>): (r: Result<((ElemType, bool), seq<Byte>)>)
    ensures r.Ok? ==> |r.value.1| <= |s|
  {
    var (first, s1) :- DecString(s);
    if HasTypeName(vt) then Ok(((ElemType(vt, first), false), s1))
    else if first == JAGGED then
      var (name, s2) :- DecString(s1);
      Ok(((ElemType(vt, name), true), s2))
    else Ok(((ElemType(vt, []), false), s1))
  }

  function DecBounds(rank: nat, s: seq<Byte>): (r: Result<((seq<nat>, seq<int>), seq<Byte>)>)
    ensures r.Ok? ==> |r.value.1| <= |s| && |r.value.0.0| == |r.value.0.1| == rank
    decreases rank
  {
    if rank == 0 then Ok((([], []), s))
    else
      var (len, s1) :- DecInt(s, 4);
      var (lb, s2) :- DecInt(s1, 4);
      if len < 0 then Err(BadBounds)
      else
        var (more, s3) :- DecBounds(rank - 1, s2);
        Ok((([len] + more.0, [lb] + more.1), s3))
  }

  /** The element types an array can be created for. */
  predicate Creatable(elem: ElemType, jagged: bool) {
    if jagged || HasTypeName(elem.vt) then elem.name != []
    else IsSignedInt(elem.vt) || IsUnsignedInt(elem.vt) || IsBits(elem.vt) || elem.vt == VT_BOOL ||
         elem.vt == VT_NULL || elem.vt == VT_DECIMAL || elem.vt == VT_CY || elem.vt == VT_BSTR
  }

  function DecScalar(t: int, s: seq<Byte>): (r: Result<(Value, seq<Byte>)>)
    ensures r.Ok? ==> |r.value.1| <= |s|
  {
    if t == VT_EMPTY then Ok((Null, s))
    else if t == VT_NULL then Ok((DbNull, s))
    else if t == VT_UI1 then
      var (b, s1) :- Take(s, 1);
      Ok((Int(VT_I4, b[0]), s1))
    else if IsSignedInt(t) then
      var (n, s1) :- DecInt(s, ElementSize(t));
      Ok((Int(t, n), s1))
    else if IsUnsignedInt(t) then
      var (b, s1) :- Take(s, ElementSize(t));
      Ok((Int(t, FromLittleEndian(b)), s1))
    else if t == VT_BOOL then
      var (n, s1) :- DecInt(s, 2);
      Ok((Bool(n == -1), s1))
    else if IsBits(t) || t == VT_CY then
      var (b, s1) :- Take(s, ElementSize(t));
      Ok((Bits(t, b), s1))
    else if t == VT_DECIMAL then DecDecimal(s)
    else if t == VT_BSTR then
      var (b, s1) :- DecString(s);
      Ok((Str(b), s1))
    else Err(NotImplemented)
  }

  function DecDecimal(s: seq<Byte>): (r: Result<(Value, seq<Byte>)>)
    ensures r.Ok? ==> |r.value.1| <= |s|
  {
    var (b, s1) :- Take(s, 16);
    Ok((Decimal(b[2..]), s1))
  }

  /** One element of a block: unlike a lone byte, a byte in a byte array stays a byte. */
  function BlockItem(vt: int, b: seq<Byte>): Value {
    if IsSignedInt(vt) then Int(vt, FromSigned(b))
    else if IsUnsignedInt(vt) then Int(vt, FromLittleEndian(b))
    else if vt == VT_BOOL then Bool(b != [0])
    else Bits(vt, b)
  }

  function DecBlock(vt: int, n: nat, s: seq<Byte>): (r: Result<(seq<Value>, seq<Byte>)>)
    ensures r.Ok? ==> |r.value.1| <= |s| && |r.value.0| == n
    decreases n
  {
    if n == 0 then Ok(([], s))
    else
      var (b, s1) :- Take(s, MemorySize(vt));
      var (xs, s2) :- DecBlock(vt, n - 1, s1);
      Ok(([BlockItem(vt, b)] + xs, s2))
  }

  function ZeroBytes(n: nat): seq<Byte> {
    seq(n, _ => 0)
  }

  /** `n` elements of fresh, zeroed memory after as many bytes have been copied into it as the
      element size in the descriptor says, in 32 bits. */
  function DecCopied(vt: int, n: nat, elSize: int, s: seq<Byte>): (r: Result<(seq<Value>, seq<Byte>)>)
    ensures r.Ok? ==> |r.value.1| <= |s|
  {
    var copied, room := ToInt32(n * elSize), n * MemorySize(vt);
    if copied < 0 || copied > room then Err(BadElementSize)
    else
      var (b, rest) :- Take(s, copied);
      var (xs, _) :- DecBlock(vt, n, b + ZeroBytes(room - copied));
      Ok((xs, rest))
  }

  function Dec(t: int, s: seq<Byte>): (r: Result<(Value, seq<Byte>)>)
    ensures r.Ok? ==> |r.value.1| <= |s|
    decreases |s|, 1
  {
    if HasArrayFlag(t) then DecArray(t - VT_ARRAY, s) else DecScalar(t, s)
  }

  datatype Header = Header(elem: ElemType, jagged: bool, elSize: int, lens: seq<nat>, lbs: seq<int>)

  function DecHeader(vt: int, s: seq<Byte>): (r: Result<(Header, seq<Byte>)>)
    ensures r.Ok? ==> |r.value.1| < |s| && |r.value.0.lens| == |r.value.0.lbs|
  {
    var ((elSize, rank), s1) :- DecDescriptor(s);
    var (info, s2) :- DecTypeInfo(vt, s1);
    if !Creatable(info.0, info.1) then Err(BadType)
    else if rank < 0 then Err(BadBounds)
    else if rank == 0 then Ok((Header(info.0, info.1, elSize, [0], [0]), s2))
    else
      var (bounds, s3) :- DecBounds(rank, s2);
      Ok((Header(info.0, info.1, elSize, bounds.0, bounds.1), s3))
  }

  /** The element size and the rank; the type in the descriptor is not looked at. */
  function DecDescriptor(s: seq<Byte>): (r: Result<((int, int), seq<Byte>)>)
    ensures r.Ok? ==> |r.value.1| < |s|
  {
    var (_, s1) :- Take(s, 4);
    var (elSize, s2) :- DecInt(s1, 4);
    var (rank, s3) :- DecInt(s2, 4);
    Ok(((elSize, rank), s3))
  }

  function DecArray(vt: int, s: seq<Byte>): (r: Result<(Value, seq<Byte>)>)
    ensures r.Ok? ==> |r.value.1| <= |s|
    decreases |s|, 0
  {
    var (h, s1) :- DecHeader(vt, s);
    if |h.lens| > 32 || !Indexable(h.lens, h.lbs) ||
       Product(h.lens) * UnitSize(vt, ElementMode(h.elem, h.jagged)) >= 0x8000_0000
    then Err(BadBounds)
    else
      var (items, s2) :- DecBody(h, s1);
      Ok((Arr(h.elem, h.lens, h.lbs, items), s2))
  }

  /** The elements, in memory order. */
  function DecBody(h: Header, s: seq<Byte>): (r: Result<(seq<Value>, seq<Byte>)>)
    ensures r.Ok? ==> |r.value.1| <= |s|
    decreases |s|, 4
  {
    var n := Product(h.lens);
    if n == 0 then Ok(([], s))
    else
      match ElementMode(h.elem, h.jagged)
      case Block =>
        if OffsetBytes(h.elem.vt, Block, h.lbs) then Err(InvalidCast)
        else if h.elem.vt == VT_DATE || h.elem.vt == VT_CY then Err(BlockCopyRejected)
        else DecCopied(h.elem.vt, n, h.elSize, s)
      case NoElements => Err(NotImplemented)
      case mode =>
        if EndsAtTop(mode, h.lens, h.lbs) then Err(IndexOutOfRange)
        else
          var (xs, s1) :- DecElems(mode, n, s);
          Ok((Scatter(xs, h.lens), s1))
  }

  function DecElem(mode: Mode, s: seq<Byte>): (r: Result<(Value, seq<Byte>)>)
    ensures r.Ok? ==> |r.value.1| <= |s|
    decreases |s|, 2
  {
    match mode
    case Strings =>
      var (b, s1) :- DecString(s);
      Ok((Str(b), s1))
    case Decimals => DecDecimal(s)
    case _ =>
      var (t, s1) :- DecInt(s, 2);
      Dec(t, s1)
  }

  /** `n` elements in visiting order. */
  function DecElems(mode: Mode, n: nat, s: seq<Byte>): (r: Result<(seq<Value>, seq<Byte>)>)
    ensures r.Ok? ==> |r.value.1| <= |s| && |r.value.0| == n
    decreases |s|, 3, n
  {
    if n == 0 then Ok(([], s))
    else
      var (x, s1) :- DecElem(mode, s);
      var (xs, s2) :- DecElems(mode, n - 1, s1);
      Ok(([x] + xs, s2))
  }
}
