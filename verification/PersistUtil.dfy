/** Session state as a stream of records, each with the offset of its successor. */
module PersistUtil {
  import opened Bytes
  import opened Codec
  import opened CodecRoundTrip
  import opened Streams

  type Key = seq<Byte>

  datatype Item = Item(key: Key, value: Value)

  /** Session items by upper-cased name: the collection ignores case, and an item keeps the
      spelling under which it was first stored. */
  type Collection = map<Key, Item>

  datatype Property = Property(key: Key, next: int, value: Value)

  ghost predicate GoodItems(items: seq<Item>) {
    forall i :: 0 <= i < |items| ==> |items[i].key| < 0x8000_0000 && WellFormed(items[i].value)
  }

  ghost predicate AllWritable(items: seq<Item>) {
    forall i :: 0 <= i < |items| ==> Writable(items[i].value)
  }

  ghost predicate AllReadable(items: seq<Item>) {
    forall i :: 0 <= i < |items| ==> Readable(items[i].value)
  }

  // --- The record format ---

  ghost function RecordTail(v: Value): seq<Byte>
    requires WellFormed(v)
  {
    Signed(Tag(v), 2) + Enc(v)
  }

  ghost function RecordLength(x: Item): nat
    requires WellFormed(x.value)
  {
    |EncString(x.key)| + 4 + |RecordTail(x.value)|
  }

  /** The record of `x` at absolute position `start`. */
  ghost function EncRecord(x: Item, start: nat): (r: seq<Byte>)
    requires WellFormed(x.value)
    ensures |r| == RecordLength(x)
  {
    EncString(x.key) + Signed(start + RecordLength(x), 4) + RecordTail(x.value)
  }

  ghost function EncRecords(items: seq<Item>, start: nat): seq<Byte>
    requires GoodItems(items)
  {
    if items == [] then [] else
      EncRecord(items[0], start) + EncRecords(items[1..], start + RecordLength(items[0]))
  }

  /** "Els", the name of the counting record. */
  const ELS: Key := [69, 108, 115]

  const MAX_ELEMENTS := 32767

  /** The counting record followed by the items. */
  function WithCount(items: seq<Item>): seq<Item> {
    [Item(ELS, Int(VT_I4, |items|))] + items
  }

  ghost function Contents(items: seq<Item>): seq<Byte>
    requires GoodItems(items) && |items| < 0x8000_0000
  {
    CountIsGood(items);
    EncRecords(WithCount(items), 0)
  }

  lemma CountIsGood(items: seq<Item>)
    requires GoodItems(items) && |items| < 0x8000_0000
    ensures GoodItems(WithCount(items))
  {
    Pow256Values();
  }

  function DecRecord(s: seq<Byte>): (r: Result<(Property, seq<Byte>)>)
    ensures r.Ok? ==> |r.value.1| < |s|
  {
    var (key, s1) :- DecString(s);
    var (next, s2) :- DecInt(s1, 4);
    var (t, s3) :- DecInt(s2, 2);
    var (value, s4) :- Dec(t, s3);
    Ok((Property(key, next, value), s4))
  }

  /** A record without a name is read and dropped. */
  function Store(m: Collection, key: Key, value: Value): Collection {
    if key == [] then m
    else m[Upper(key) := Item(if Upper(key) in m then m[Upper(key)].key else key, value)]
  }

  function DecRecords(n: nat, s: seq<Byte>, m: Collection): Result<Collection> {
    if n == 0 then Ok(m)
    else
      var (p, s1) :- DecRecord(s);
      DecRecords(n - 1, s1, Store(m, p.key, p.value))
  }

  function Load(s: seq<Byte>): Result<Collection> {
    var (count, s1) :- DecRecord(s);
    if count.key != ELS then Err(CorruptState)
    else if !(count.value.Int? && count.value.vt == VT_I4) then Err(InvalidCast)
    else if count.value.n < 0 || count.value.n > MAX_ELEMENTS then Err(TooManyVariables)
    else DecRecords(count.value.n, s1, map[])
  }

  /** A named record sets the value under the name regardless of case, keeps the spelling there
      was, and leaves every other item alone. */
  lemma StoreMeans(m: Collection, key: Key, value: Value)
    ensures key == [] ==> Store(m, key, value) == m
    ensures var u, m' := Upper(key), Store(m, key, value);
            key != [] ==>
              m'.Keys == m.Keys + {u} && m'[u].value == value &&
              m'[u].key == (if u in m then m[u].key else key) &&
              forall k :: k in m && k != u ==> m'[k] == m[k]
  {
    hide Upper;
  }

  // --- Round trip ---

  lemma RecordSplit(x: Item, start: nat, rest: seq<Byte>)
    requires WellFormed(x.value)
    ensures EncRecord(x, start) + rest ==
            EncString(x.key) + (Signed(start + RecordLength(x), 4) + (Signed(Tag(x.value), 2) + (Enc(x.value) + rest)))
  {
    var k, o, t, e := EncString(x.key), Signed(start + RecordLength(x), 4), Signed(Tag(x.value), 2), Enc(x.value);
    Assoc(k + o, t + e, rest);
    Assoc(k, o, (t + e) + rest);
    Assoc(t, e, rest);
  }

  /** A record is read back, and the offset found in it is the end of the record. */
  lemma RecordRound(x: Item, start: nat, rest: seq<Byte>)
    requires |x.key| < 0x8000_0000 && WellFormed(x.value) && Writable(x.value) && Readable(x.value)
    ensures DecRecord(EncRecord(x, start) + rest) ==
            Ok((Property(x.key, FromSigned(Signed(start + RecordLength(x), 4)), Norm(x.value)), rest))
  {
    var o := Signed(start + RecordLength(x), 4);
    var s3 := Enc(x.value) + rest;
    var s2 := Signed(Tag(x.value), 2) + s3;
    RecordSplit(x, start, rest);
    StringRound(x.key, o + s2);
    TakeRound(o, s2);
    TagFits(x.value);
    IntRound(Tag(x.value), 2, s3);
    RoundTrip(x.value);
  }

  /** A record is its name, the offset, a tag and what the tag makes of the rest; an error in the
      value is an error of the record. */
  lemma RecordRead(key: Key, next: int, t: int, body: seq<Byte>)
    requires |key| < 0x8000_0000 && -0x8000_0000 <= next < 0x8000_0000 && -0x8000 <= t < 0x8000
    ensures DecRecord(EncString(key) + (Signed(next, 4) + (Signed(t, 2) + body))) ==
            match Dec(t, body)
            case Ok(done) => Ok((Property(key, next, done.0), done.1))
            case Err(e) => Err(e)
  {
    hide Dec, DecInt, DecString, EncString, Signed;
    Pow256Values();
    StringRound(key, Signed(next, 4) + (Signed(t, 2) + body));
    IntRound(next, 4, Signed(t, 2) + body);
    IntRound(t, 2, body);
  }

  /** The first record that cannot be read ends the loading, however many could be. */
  lemma {:induction false} BadRecordFails(items: seq<Item>, start: nat, m: Collection, rest: seq<Byte>, n: nat)
    requires GoodItems(items) && AllWritable(items) && AllReadable(items) && n > |items|
    requires DecRecord(rest).Err?
    ensures DecRecords(n, EncRecords(items, start) + rest, m) == Err(DecRecord(rest).error)
    decreases |items|
  {
    hide DecRecord, EncRecord, Norm, Writable, Readable, WellFormed, RecordLength, Store, Upper;
    if items == [] {
      assert [] + rest == rest;
    } else {
      var more := EncRecords(items[1..], start + RecordLength(items[0]));
      Assoc(EncRecord(items[0], start), more, rest);
      RecordRound(items[0], start, more + rest);
      BadRecordFails(items[1..], start + RecordLength(items[0]), Store(m, items[0].key, Norm(items[0].value)), rest, n - 1);
    }
  }

  /** What loading the items in turn leaves in the collection. */
  ghost function Stored(items: seq<Item>, m: Collection): Collection {
    if items == [] then m else Stored(items[1..], Store(m, items[0].key, Norm(items[0].value)))
  }

  lemma {:induction false} RecordsRound(items: seq<Item>, start: nat, m: Collection)
    requires GoodItems(items) && AllWritable(items) && AllReadable(items)
    ensures DecRecords(|items|, EncRecords(items, start), m) == Ok(Stored(items, m))
    decreases |items|
  {
    hide DecRecord, EncRecord, Norm, Writable, Readable, WellFormed, RecordLength, Store, Upper;
    if items != [] {
      var rest := EncRecords(items[1..], start + RecordLength(items[0]));
      RecordRound(items[0], start, rest);
      RecordsRound(items[1..], start + RecordLength(items[0]), Store(m, items[0].key, Norm(items[0].value)));
    }
  }

  /** No two items have names that differ in case only. */
  ghost predicate DistinctNames(items: seq<Item>) {
    forall i, j :: 0 <= i < j < |items| ==> Upper(items[i].key) != Upper(items[j].key)
  }

  ghost predicate Named(items: seq<Item>, u: Key) {
    exists i :: 0 <= i < |items| && Upper(items[i].key) == u
  }

  lemma {:induction false} StoredValue(items: seq<Item>, m: Collection, u: Key)
    requires DistinctNames(items) && u != []
    ensures Named(items, u) && u !in m ==> u in Stored(items, m)
    ensures u !in m ==> forall i :: 0 <= i < |items| && Upper(items[i].key) == u ==>
                          u in Stored(items, m) && Stored(items, m)[u] == Item(items[i].key, Norm(items[i].value))
    ensures !Named(items, u) ==> (u in Stored(items, m) <==> u in m)
    ensures !Named(items, u) && u in m ==> Stored(items, m)[u] == m[u]
    decreases |items|
  {
    hide Norm, Upper;
    if items != [] {
      var tail := items[1..];
      forall j | 0 <= j < |tail| ensures tail[j] == items[j + 1] {
      }
      var m' := Store(m, items[0].key, Norm(items[0].value));
      StoredValue(tail, m', u);
      if Upper(items[0].key) == u {
        UpperEmpty(items[0].key);
        assert !Named(tail, u);
      } else {
        UpperEmpty(items[0].key);
        assert (u in m' <==> u in m) && (u in m ==> m'[u] == m[u]);
        assert Named(items, u) <==> Named(tail, u) by {
          if i :| 0 <= i < |items| && Upper(items[i].key) == u {
            assert tail[i - 1] == items[i];
          }
          if i :| 0 <= i < |tail| && Upper(tail[i].key) == u {
            assert items[i + 1] == tail[i];
          }
        }
      }
    }
  }

  lemma UpperEmpty(key: Key)
    ensures Upper(key) == [] <==> key == []
  {
    assert |Upper(key)| == |key|;
  }

  /** Nothing is stored without a name. */
  lemma {:induction false} StoredNameless(items: seq<Item>, m: Collection)
    ensures [] in Stored(items, m) <==> [] in m
    decreases |items|
  {
    hide Norm, Upper;
    if items != [] {
      UpperEmpty(items[0].key);
      StoredNameless(items[1..], Store(m, items[0].key, Norm(items[0].value)));
    }
  }

  /** The items of a collection, in the order in which its names are listed. */
  function Listed(m: Collection, order: seq<Key>): seq<Item>
    requires forall i :: 0 <= i < |order| ==> order[i] in m
  {
    seq(|order|, i requires 0 <= i < |order| => m[order[i]])
  }

  /** `order` lists every name in `m` once; the original uses the descending order. */
  predicate Lists(order: seq<Key>, m: Collection) {
    (forall i :: 0 <= i < |order| ==> order[i] in m) &&
    (forall i, j :: 0 <= i < j < |order| ==> order[i] != order[j]) &&
    (forall k :: k in m ==> k in order)
  }

  /** What the collection is after a round trip: an item without a name is lost. */
  ghost function NormMap(m: Collection): Collection {
    map u | u in m && u != [] :: Item(m[u].key, Norm(m[u].value))
  }

  ghost predicate GoodMap(m: Collection) {
    forall u :: u in m ==> Upper(m[u].key) == u && |m[u].key| < 0x8000_0000 && WellFormed(m[u].value)
  }

  ghost predicate Storable(m: Collection) {
    forall u :: u in m ==> Writable(m[u].value) && Readable(m[u].value)
  }

  lemma ListedStored(m: Collection, order: seq<Key>)
    requires Lists(order, m) && GoodMap(m)
    ensures Stored(Listed(m, order), map[]) == NormMap(m)
  {
    hide Norm, Upper, WellFormed, Stored;
    var items := Listed(m, order);
    var r := Stored(items, map[]);
    assert forall i :: 0 <= i < |items| ==> Upper(items[i].key) == order[i];
    StoredNameless(items, map[]);
    forall u | u != [] ensures (u in r <==> u in NormMap(m)) && (u in r ==> r[u] == NormMap(m)[u]) {
      StoredValue(items, map[], u);
      if u in m {
        var i :| 0 <= i < |order| && order[i] == u;
        assert items[i] == m[u];
      }
    }
  }

  /** Loading what was stored gives the collection back, whatever the key order, if and
      only if there are at most 32767 items. */
  lemma LoadAfterContents(m: Collection, order: seq<Key>)
    requires GoodMap(m) && Storable(m) && Lists(order, m) && |order| < 0x8000_0000
    ensures GoodItems(Listed(m, order))
    ensures Load(Contents(Listed(m, order))) ==
            if |order| <= MAX_ELEMENTS then Ok(NormMap(m)) else Err(TooManyVariables)
  {
    hide DecRecord, EncRecord, DecRecords, Stored, Norm, Writable, Readable, WellFormed;
    var items := Listed(m, order);
    var count := Item(ELS, Int(VT_I4, |items|));
    ListedFacts(m, order);
    CountFacts(items);
    RecordRound(count, 0, EncRecords(items, RecordLength(count)));
    RecordsRound(items, RecordLength(count), map[]);
    ListedStored(m, order);
  }

  /** What comes first must be the counting record: with another name, a count that is no 32-bit
      integer, or one out of range, nothing is loaded. */
  lemma LoadRefuses(x: Item, start: nat, rest: seq<Byte>)
    requires |x.key| < 0x8000_0000 && WellFormed(x.value) && Writable(x.value) && Readable(x.value)
    ensures var r, v := Load(EncRecord(x, start) + rest), Norm(x.value);
            if x.key != ['E' as int, 'l' as int, 's' as int] then r == Err(CorruptState)
            else if !v.Int? || v.vt != 3 then r == Err(InvalidCast)
            else if v.n < 0 || v.n > 32767 then r == Err(TooManyVariables)
            else r == DecRecords(v.n, rest, map[])
  {
    hide DecRecord, EncRecord, Norm, Writable, Readable, WellFormed;
    RecordRound(x, start, rest);
  }

  lemma ListedFacts(m: Collection, order: seq<Key>)
    requires GoodMap(m) && Storable(m) && Lists(order, m)
    ensures var items := Listed(m, order);
            |items| == |order| && GoodItems(items) && AllWritable(items) && AllReadable(items)
  {
  }

  lemma CountFacts(items: seq<Item>)
    requires GoodItems(items) && |items| < 0x8000_0000
    ensures var count := Item(ELS, Int(VT_I4, |items|));
            WithCount(items)[0] == count && WithCount(items)[1..] == items && GoodItems(WithCount(items)) &&
            WellFormed(count.value) && Writable(count.value) && Readable(count.value) && Norm(count.value) == count.value
  {
    CountIsGood(items);
  }

  // --- Following the offsets ---

  /** The offset stored in the record at `pos`, if there is one. */
  function NextOffset(s: seq<Byte>, pos: nat): Result<int>
    requires pos <= |s|
  {
    var (_, s1) :- DecString(s[pos..]);
    var (next, _) :- DecInt(s1, 4);
    Ok(next)
  }

  /** The positions reached by following `n` offsets from `pos`. */
  function Follow(s: seq<Byte>, pos: int, n: nat): seq<int>
    decreases n
  {
    if n == 0 || !(0 <= pos <= |s|) || NextOffset(s, pos).Err? then [pos]
    else [pos] + Follow(s, NextOffset(s, pos).value, n - 1)
  }

  /** Where the records begin, and where the last one ends. */
  ghost function Starts(items: seq<Item>, start: nat): (r: seq<int>)
    requires GoodItems(items)
    ensures |r| == |items| + 1
  {
    if items == [] then [start] else [start] + Starts(items[1..], start + RecordLength(items[0]))
  }

  /** Below 2 GB, following the back-patched offsets visits exactly the record starts. */
  lemma {:induction false} FollowVisitsStarts(prefix: seq<Byte>, items: seq<Item>)
    requires GoodItems(items) && |prefix + EncRecords(items, |prefix|)| < 0x8000_0000
    ensures Follow(prefix + EncRecords(items, |prefix|), |prefix|, |items|) == Starts(items, |prefix|)
    decreases |items|
  {
    hide EncRecord, RecordLength, NextOffset, WellFormed;
    if items != [] {
      var r := EncRecord(items[0], |prefix|);
      var rest := EncRecords(items[1..], |prefix| + RecordLength(items[0]));
      Assoc(prefix, r, rest);
      OffsetAt(prefix, items[0], rest);
      FollowVisitsStarts(prefix + r, items[1..]);
    }
  }

  lemma OffsetAt(prefix: seq<Byte>, x: Item, rest: seq<Byte>)
    requires |x.key| < 0x8000_0000 && WellFormed(x.value) && |prefix| + RecordLength(x) < 0x8000_0000
    ensures NextOffset(prefix + (EncRecord(x, |prefix|) + rest), |prefix|) == Ok(|prefix| + RecordLength(x))
  {
    hide EncRecord, RecordLength, WellFormed;
    var record := EncRecord(x, |prefix|) + rest;
    assert (prefix + record)[|prefix|..] == record && record[0..] == record;
    RecordOffset(x, |prefix|, rest);
  }

  /** The last of them is the end of the stream. */
  lemma {:induction false} StartsEnd(items: seq<Item>, start: nat)
    requires GoodItems(items)
    ensures Starts(items, start)[|items|] == start + |EncRecords(items, start)|
    decreases |items|
  {
    hide EncRecord, RecordLength, WellFormed;
    if items != [] {
      StartsEnd(items[1..], start + RecordLength(items[0]));
    }
  }

  /** A saved map, below 2 GB: from the counting record on, the offsets lead from record to
      record and the last one to the end. */
  lemma ContentsOffsets(items: seq<Item>)
    requires GoodItems(items) && |items| < 0x8000_0000 && |Contents(items)| < 0x8000_0000
    ensures GoodItems(WithCount(items))
    ensures Follow(Contents(items), 0, |items| + 1) == Starts(WithCount(items), 0)
    ensures Starts(WithCount(items), 0)[|WithCount(items)|] == |Contents(items)|
  {
    hide EncRecords, Follow, Starts;
    CountIsGood(items);
    assert [] + Contents(items) == Contents(items);
    FollowVisitsStarts([], WithCount(items));
    StartsEnd(WithCount(items), 0);
  }

  lemma RecordOffset(x: Item, start: nat, rest: seq<Byte>)
    requires |x.key| < 0x8000_0000 && WellFormed(x.value) && start + RecordLength(x) < 0x8000_0000
    ensures NextOffset(EncRecord(x, start) + rest, 0) == Ok(start + RecordLength(x))
  {
    hide EncRecord, RecordLength, WellFormed, Enc, Signed, DecInt, DecString, EncString, Pow256;
    var o := Signed(start + RecordLength(x), 4);
    var s2 := Signed(Tag(x.value), 2) + (Enc(x.value) + rest);
    RecordSplit(x, start, rest);
    assert (EncRecord(x, start) + rest)[0..] == EncRecord(x, start) + rest;
    StringRound(x.key, o + s2);
    Pow256Values();
    IntRound(start + RecordLength(x), 4, s2);
  }

  // --- The code ---

  lemma SplicePatch(d: seq<Byte>, p: nat, a: seq<Byte>, b: seq<Byte>, c: seq<Byte>, patch: seq<Byte>)
    requires p <= |d| && |patch| == |b|
    ensures |Splice(d, p, a + b + c)| >= p + |a + b + c|
    ensures Splice(Splice(d, p, a + b + c), p + |a|, patch) == Splice(d, p, a + patch + c)
  {
    var w, tail := a + b + c, if p + |a + b + c| < |d| then d[p + |a + b + c|..] else [];
    assert Splice(d, p, w) == d[..p] + w + tail == (d[..p] + a) + b + (c + tail);
    PatchMiddle(d[..p] + a, b, c + tail, patch);
    assert (d[..p] + a) + patch + (c + tail) == d[..p] + (a + patch + c) + tail;
  }

  lemma PatchMiddle(x: seq<Byte>, b: seq<Byte>, y: seq<Byte>, patch: seq<Byte>)
    requires |patch| == |b|
    ensures Splice(x + b + y, |x|, patch) == x + patch + y
  {
    var s := x + b + y;
    assert s[..|x|] == x && s[|x| + |b|..] == y;
  }

  /** Writes one record: the offset is reserved first and patched once the end is known. */
  method WriteProperty(str: StreamManager, x: Item) returns (ok: bool)
    requires str.Valid() && WellFormed(x.value)
    modifies str
    ensures str.Valid() && (ok <==> Writable(x.value))
    ensures ok ==> str.Wrote(EncRecord(x, old(str.position)))
  {
    hide WellFormed, Writable, Enc, Splice;
    ghost var d, p := str.data, str.position;
    str.WriteString(x.key);
    var keepPointer := str.position;
    str.Write(Signed(keepPointer, 4));
    ghost var k, o, t := EncString(x.key), Signed(keepPointer, 4), Signed(Tag(x.value), 2);
    SpliceMore(d, p, k, o);
    str.Write(Signed(Tag(x.value), 2));
    SpliceMore(d, p, k + o, t);
    ok := str.WriteValue(x.value);
    if !ok {
      return;
    }
    SpliceMore(d, p, k + o + t, Enc(x.value));
    Assoc(k + o, t, Enc(x.value));
    var curPos := str.position;
    SplicePatch(d, p, k, o, RecordTail(x.value), Signed(curPos, 4));
    str.position := keepPointer;
    str.Write(Signed(curPos, 4));
    str.position := curPos;
  }

  method ReadProperty(str: StreamManager) returns (r: Result<Property>)
    requires str.Valid()
    modifies str
    ensures str.ReadAs(old(str.data), r, DecRecord(old(str.Rest())))
  {
    var key :- str.ReadString();
    var next :- str.ReadInt(4);
    var t :- str.ReadInt(2);
    var value :- str.ReadValue(t);
    r := Ok(Property(key, next, value));
  }

  /** Record `i` of `all` at the end of the stream: the same bytes are to be completed. */
  method AppendProperty(str: StreamManager, x: Item, ghost all: seq<Item>, ghost i: nat) returns (ok: bool)
    requires str.Valid() && str.position == |str.data| && GoodItems(all) && i < |all| && all[i] == x
    modifies str
    ensures str.Valid() && (ok <==> Writable(x.value))
    ensures ok ==> str.position == |str.data|
    ensures ok ==> str.data + EncRecords(all[i + 1..], |str.data|) ==
                   old(str.data) + EncRecords(all[i..], |old(str.data)|)
  {
    hide Writable, EncRecord, RecordLength, Splice, EncRecords;
    AppendRecord(all, i, str.data);
    ok := WriteProperty(str, x);
  }

  /** Stores the whole collection; it fails exactly if some value is not Writable. */
  method LocalContents(m: Collection, order: seq<Key>) returns (ok: bool, bytes: seq<Byte>)
    requires GoodMap(m) && Lists(order, m) && |order| < 0x8000_0000
    ensures ok <==> forall u :: u in m ==> Writable(m[u].value)
    ensures GoodItems(Listed(m, order)) && (ok ==> bytes == Contents(Listed(m, order)))
  {
    hide Writable, EncRecord, WellFormed, RecordLength, Splice, EncRecords;
    ghost var items := Listed(m, order);
    ListedGood(m, order);
    CountFacts(items);
    ghost var all := WithCount(items);
    bytes := [];
    var str := new StreamManager([]);
    ok := AppendProperty(str, Item(ELS, Int(VT_I4, |order|)), all, 0);
    ghost var contents := Contents(items);
    assert all[0..] == all && [] + contents == contents;
    for i := 0 to |order|
      invariant fresh(str) && str.Valid() && str.position == |str.data|
      invariant str.data + EncRecords(all[i + 1..], |str.data|) == contents
      invariant forall j :: 0 <= j < i ==> Writable(m[order[j]].value)
    {
      ok := AppendProperty(str, m[order[i]], all, i + 1);
      if !ok {
        return;
      }
    }
    NoRecords(all, |str.data|);
    ok, bytes := true, str.data;
  }

  lemma NoRecords(all: seq<Item>, start: nat)
    requires GoodItems(all)
    ensures EncRecords(all[|all|..], start) == []
  {
  }

  lemma ListedGood(m: Collection, order: seq<Key>)
    requires GoodMap(m) && Lists(order, m)
    ensures GoodItems(Listed(m, order)) && |Listed(m, order)| == |order|
  {
  }

  /** Appending record `i` to the stream leaves the same stream to be completed. */
  lemma AppendRecord(all: seq<Item>, i: nat, d: seq<Byte>)
    requires GoodItems(all) && i < |all|
    ensures Splice(d, |d|, EncRecord(all[i], |d|)) == d + EncRecord(all[i], |d|)
    ensures d + EncRecords(all[i..], |d|) ==
            (d + EncRecord(all[i], |d|)) + EncRecords(all[i + 1..], |d + EncRecord(all[i], |d|)|)
  {
    hide EncRecord, WellFormed, RecordLength;
    assert all[i..][1..] == all[i + 1..];
    Assoc(d, EncRecord(all[i], |d|), EncRecords(all[i + 1..], |d + EncRecord(all[i], |d|)|));
  }

  method LocalLoad(bytes: seq<Byte>) returns (r: Result<Collection>)
    ensures r == Load(bytes)
  {
    hide DecRecord;
    var str := new StreamManager(bytes);
    assert str.Rest() == bytes;
    var count :- ReadProperty(str);
    if count.key != ELS {
      return Err(CorruptState);
    }
    if !(count.value.Int? && count.value.vt == VT_I4) {
      return Err(InvalidCast);
    }
    var elements := count.value.n;
    if elements < 0 || elements > MAX_ELEMENTS {
      return Err(TooManyVariables);
    }
    var retVal: Collection := map[];
    var cx := elements - 1;
    while cx >= 0
      invariant -1 <= cx < elements && fresh(str) && str.Valid() && str.data == bytes
      invariant Load(bytes) == DecRecords(cx + 1, str.Rest(), retVal)
    {
      var p :- ReadProperty(str);
      if p.key != [] {
        retVal := Store(retVal, p.key, p.value);
      }
      cx := cx - 1;
    }
    r := Ok(retVal);
  }
}
