/** The application cache: a dictionary whose keys ignore case, with flags that say what a
    save has to write, and the list of removed keys. */
module AppCache {
  import opened Bytes

  type Key = seq<Byte>

  /** A value as the bytes it is serialized to; a fresh element is empty. */
  type Blob = seq<Byte>

  const EMPTY: Blob := []

  datatype HResult = Ok | InvalidArgument | Pointer | NoInterface | Fault

  /** A value handed to put_Value; an object is asked for its default property, which may
      fail without an error. */
  datatype Variant = Data(b: Blob) | NullObject | Object(property: Property)
  datatype Property = NoProperty | Default(value: Variant)

  /** A reference handed to putref_Value: its type tag, and what its pointer leads to. */
  datatype Reference = Reference(tag: nat, target: Target)

  /** The pointer of a value that is no object is whatever its bits make of it. */
  datatype Target = Persistable(b: Blob) | NotPersistable | NullPointer | NoObject

  /** The test of the tag against VT_DISPATCH (9) or VT_UNKNOWN (13): bits 0 and 3 are set. */
  predicate TakenForObject(tag: nat) {
    tag % 2 == 1 && tag / 8 % 2 == 1
  }

  /** Among the plain types it lets through VT_BOOL (11) as well, and the unused 15. */
  lemma TagsTaken(tag: nat)
    requires tag < 24
    ensures TakenForObject(tag) <==> tag == 9 || tag == 11 || tag == 13 || tag == 15
  {
  }

  datatype Element = Element(key: Key, val: Blob, isNew: bool, isDirty: bool, expireAt: int)

  type Dictionary = map<Key, Element>

  /** The dictionary, by upper-cased key, and the removed keys as they were spelled. */
  datatype Cache = Cache(dictionary: Dictionary, removed: seq<Key>)

  function UpperSet(keys: seq<Key>): set<Key> {
    set i | 0 <= i < |keys| :: Upper(keys[i])
  }

  lemma UpperSetPush(keys: seq<Key>, k: Key)
    ensures UpperSet(keys + [k]) == UpperSet(keys) + {Upper(k)}
  {
    var all := keys + [k];
    forall u ensures u in UpperSet(all) <==> u in UpperSet(keys) + {Upper(k)} {
      if u in UpperSet(keys) {
        var i :| 0 <= i < |keys| && Upper(keys[i]) == u;
        assert all[i] == keys[i];
      }
      if u == Upper(k) {
        assert all[|keys|] == k;
      }
    }
  }

  // --- The operations ---

  /** What is stored in the end, if anything. */
  function Resolve(v: Variant): (r: Property)
    ensures r.NoProperty? || r.value.Data?
  {
    match v
    case Data(_) => Default(v)
    case NullObject => NoProperty
    case Object(NoProperty) => NoProperty
    case Object(Default(w)) => Resolve(w)
  }

  /** Some default property along the way is a null object. */
  predicate EndsInNull(v: Variant) {
    match v
    case Data(_) => false
    case NullObject => true
    case Object(NoProperty) => false
    case Object(Default(w)) => EndsInNull(w)
  }

  /** A put leaves an element whatever becomes of the value; one that is not new is dirty. */
  function Touched(d: Dictionary, key: Key): Dictionary {
    var k := Upper(key);
    if k !in d then d[k := Element(key, EMPTY, true, false, 0)]
    else if !d[k].isNew then d[k := d[k].(isDirty := true)]
    else d
  }

  function Put(c: Cache, key: Key, v: Variant): Cache {
    if key == [] then c
    else
      var d := Touched(c.dictionary, key);
      var k := Upper(key);
      match Resolve(v)
      case NoProperty => c.(dictionary := d)
      case Default(w) => c.(dictionary := d[k := d[k].(val := w.b)])
  }

  /** Here a new element becomes dirty as well. */
  function PutRef(c: Cache, key: Key, v: Reference): Cache {
    if key == [] || !TakenForObject(v.tag) then c
    else
      var k := Upper(key);
      var e := if k in c.dictionary then c.dictionary[k].(isDirty := true) else Element(key, EMPTY, true, false, 0);
      c.(dictionary := c.dictionary[k := if v.target.Persistable? then e.(val := v.target.b) else e])
  }

  function Pushed(removed: seq<Key>, key: Key): seq<Key> {
    if key in removed then removed else removed + [key]
  }

  function Without(c: Cache, key: Key): Cache {
    if key == [] || Upper(key) !in c.dictionary then c
    else Cache(c.dictionary - {Upper(key)}, Pushed(c.removed, key))
  }

  function ExpiringAt(c: Cache, key: Key, ms: int): Cache {
    var k := Upper(key);
    if k in c.dictionary then c.(dictionary := c.dictionary[k := c.dictionary[k].(expireAt := ms)]) else c
  }

  // --- What they do, key by key ---

  /** An object whose default property is one whose default property is ... `v`. */
  function Wrapped(n: nat, v: Variant): Variant {
    if n == 0 then v else Object(Default(Wrapped(n - 1, v)))
  }

  lemma {:induction false} ResolveMeans(n: nat, v: Variant)
    ensures Resolve(Wrapped(n, v)) == Resolve(v) && EndsInNull(Wrapped(n, v)) == EndsInNull(v)
    ensures v.Data? ==> Resolve(v) == Default(v) && !EndsInNull(v)
    ensures v.NullObject? ==> Resolve(v) == NoProperty && EndsInNull(v)
    ensures v == Object(NoProperty) ==> Resolve(v) == NoProperty && !EndsInNull(v)
  {
    if n > 0 {
      ResolveMeans(n - 1, v);
    }
  }

  /** Data, however deep behind default properties, is stored under the key. */
  lemma PutStores(c: Cache, key: Key, n: nat, b: Blob)
    requires key != []
    ensures Upper(key) in Put(c, key, Wrapped(n, Data(b))).dictionary
    ensures Put(c, key, Wrapped(n, Data(b))).dictionary[Upper(key)].val == b
  {
    ResolveMeans(n, Data(b));
  }

  /** Without data the value stays; a new element's is empty. */
  lemma PutStoresNothing(c: Cache, key: Key, n: nat, v: Variant)
    requires key != [] && (v == NullObject || v == Object(NoProperty))
    ensures Upper(key) in Put(c, key, Wrapped(n, v)).dictionary
    ensures Put(c, key, Wrapped(n, v)).dictionary[Upper(key)].val ==
            if Upper(key) in c.dictionary then c.dictionary[Upper(key)].val else []
  {
    ResolveMeans(n, v);
  }

  /** An element keeps spelling, newness and time to live, and is dirty unless new; one that
      was not there is new and has the key's spelling.  Nothing else changes. */
  lemma PutMeans(c: Cache, key: Key, v: Variant)
    ensures key == [] ==> Put(c, key, v) == c
    ensures key != [] ==> Put(c, key, v).removed == c.removed
    ensures key != [] ==> Put(c, key, v).dictionary.Keys == c.dictionary.Keys + {Upper(key)}
    ensures forall k | k in c.dictionary && k != Upper(key) ::
              k in Put(c, key, v).dictionary && Put(c, key, v).dictionary[k] == c.dictionary[k]
    ensures var k := Upper(key);
            key != [] ==>
              var e := Put(c, key, v).dictionary[k];
              if k !in c.dictionary then e.key == key && e.isNew && !e.isDirty && e.expireAt == 0
              else
                var was := c.dictionary[k];
                e.key == was.key && e.isNew == was.isNew && e.expireAt == was.expireAt &&
                (e.isDirty <==> was.isDirty || !was.isNew)
  {
    hide Upper, Resolve;
  }

  /** The same for references: a persistable object is stored, and an element that was there
      is dirty even if it is new. */
  lemma PutRefMeans(c: Cache, key: Key, v: Reference)
    ensures key == [] || !TakenForObject(v.tag) ==> PutRef(c, key, v) == c
    ensures PutRef(c, key, v).removed == c.removed
    ensures forall k | k in c.dictionary && k != Upper(key) ::
              k in PutRef(c, key, v).dictionary && PutRef(c, key, v).dictionary[k] == c.dictionary[k]
    ensures forall k :: k in PutRef(c, key, v).dictionary ==> k in c.dictionary || k == Upper(key)
    ensures var k := Upper(key);
            key != [] && TakenForObject(v.tag) ==>
              k in PutRef(c, key, v).dictionary &&
              var e := PutRef(c, key, v).dictionary[k];
              (v.target.Persistable? ==> e.val == v.target.b) &&
              if k !in c.dictionary
              then e.key == key && e.isNew && !e.isDirty && e.expireAt == 0 && (!v.target.Persistable? ==> e.val == [])
              else
                var was := c.dictionary[k];
                e.key == was.key && e.isNew == was.isNew && e.expireAt == was.expireAt && e.isDirty &&
                (!v.target.Persistable? ==> e.val == was.val)
  {
    hide Upper;
  }

  /** A removal takes the element away and lists the key as it is spelled, unless that
      spelling is listed already. */
  lemma WithoutMeans(c: Cache, key: Key)
    ensures var c' := Without(c, key);
            if key == [] || Upper(key) !in c.dictionary then c' == c
            else
              c'.removed == (if key in c.removed then c.removed else c.removed + [key]) &&
              c'.dictionary.Keys == c.dictionary.Keys - {Upper(key)} &&
              forall k :: k in c'.dictionary ==> c'.dictionary[k] == c.dictionary[k]
  {
    hide Upper;
  }

  /** Only that time to live changes, and only of an element that is there. */
  lemma ExpiringMeans(c: Cache, key: Key, ms: int)
    ensures var c' := ExpiringAt(c, key, ms);
            c'.removed == c.removed && c'.dictionary.Keys == c.dictionary.Keys &&
            forall k :: k in c.dictionary ==>
              var e, was := c'.dictionary[k], c.dictionary[k];
              e.key == was.key && e.val == was.val && e.isNew == was.isNew && e.isDirty == was.isDirty &&
              e.expireAt == if k == Upper(key) then ms else was.expireAt
  {
    hide Upper;
  }

  // --- What the flags mean ---

  /** A key and value as they are in the store. */
  datatype Stored = Stored(key: Key, val: Blob)

  /** The dictionary against what was loaded: an element not new was loaded, one not dirty
      is as it was loaded, a new one was not there or has been removed since, and what was
      loaded and is gone has been removed. */
  ghost predicate ElementTracks(e: Element, k: Key, loaded: map<Key, Stored>, removed: set<Key>) {
    k != [] && Upper(e.key) == k &&
    if e.isNew then k in loaded ==> k in removed
    else k in loaded && e.key == loaded[k].key && (!e.isDirty ==> e.val == loaded[k].val)
  }

  ghost predicate Tracks(c: Cache, loaded: map<Key, Stored>) {
    (forall k :: k in c.dictionary ==> ElementTracks(c.dictionary[k], k, loaded, UpperSet(c.removed))) &&
    (forall k :: k in loaded && k !in c.dictionary ==> k in UpperSet(c.removed))
  }

  /** The freshly loaded dictionary. */
  function Fresh(loaded: map<Key, Stored>): Dictionary {
    map k | k in loaded :: Element(loaded[k].key, loaded[k].val, false, false, 0)
  }

  /** Clean elements with the keys and values loaded. */
  lemma FreshMeans(loaded: map<Key, Stored>)
    ensures Fresh(loaded).Keys == loaded.Keys
    ensures forall k :: k in loaded ==>
              var e := Fresh(loaded)[k];
              e.key == loaded[k].key && e.val == loaded[k].val && !e.isNew && !e.isDirty && e.expireAt == 0
  {
  }

  ghost predicate WellKeyed(loaded: map<Key, Stored>) {
    forall k :: k in loaded ==> k != [] && Upper(loaded[k].key) == k
  }

  lemma FreshTracks(loaded: map<Key, Stored>)
    requires WellKeyed(loaded)
    ensures Tracks(Cache(Fresh(loaded), []), loaded)
  {
  }

  lemma UpperNonempty(key: Key)
    requires key != []
    ensures Upper(key) != []
  {
    assert |Upper(key)| == |key|;
  }

  lemma PutTracks(c: Cache, key: Key, v: Variant, loaded: map<Key, Stored>)
    requires Tracks(c, loaded)
    ensures Tracks(Put(c, key, v), loaded)
  {
    hide Resolve, Upper, UpperSet;
    if key != [] {
      UpperNonempty(key);
    }
  }

  lemma PutRefTracks(c: Cache, key: Key, v: Reference, loaded: map<Key, Stored>)
    requires Tracks(c, loaded)
    ensures Tracks(PutRef(c, key, v), loaded)
  {
    hide Upper, UpperSet;
    if key != [] {
      UpperNonempty(key);
    }
  }

  lemma PushedSet(removed: seq<Key>, key: Key)
    ensures UpperSet(Pushed(removed, key)) == UpperSet(removed) + {Upper(key)}
  {
    if key in removed {
      assert Upper(key) in UpperSet(removed);
    } else {
      UpperSetPush(removed, key);
    }
  }

  lemma RemoveTracks(c: Cache, key: Key, loaded: map<Key, Stored>)
    requires Tracks(c, loaded)
    ensures Tracks(Without(c, key), loaded)
  {
    hide Upper, UpperSet, Pushed;
    PushedSet(c.removed, key);
  }

  lemma ExpireTracks(c: Cache, key: Key, ms: int, loaded: map<Key, Stored>)
    requires Tracks(c, loaded)
    ensures Tracks(ExpiringAt(c, key, ms), loaded)
  {
    hide Upper, UpperSet;
  }

  // --- Runs ---

  datatype Operation =
    | PutValue(key: Key, v: Variant)
    | PutRefValue(key: Key, ref: Reference)
    | RemoveKey(key: Key)
    | RemoveAllKeys(order: seq<Key>)
    | Expire(key: Key, ms: int)

  /** Every key removed one by one, in whatever order the dictionary lists them. */
  function RemoveEach(c: Cache, order: seq<Key>): Cache
    decreases |order|
  {
    if order == [] then c else RemoveEach(Without(c, order[0]), order[1..])
  }

  function ApplyOp(c: Cache, op: Operation): Cache {
    match op
    case PutValue(key, v) => Put(c, key, v)
    case PutRefValue(key, ref) => PutRef(c, key, ref)
    case RemoveKey(key) => Without(c, key)
    case RemoveAllKeys(order) => RemoveEach(c, order)
    case Expire(key, ms) => ExpiringAt(c, key, ms)
  }

  function ApplyAll(c: Cache, ops: seq<Operation>): Cache
    decreases |ops|
  {
    if ops == [] then c else ApplyAll(ApplyOp(c, ops[0]), ops[1..])
  }

  /** No key is put while it is among the removed ones. */
  predicate NotReput(c: Cache, op: Operation) {
    match op
    case PutValue(key, _) => Upper(key) !in UpperSet(c.removed)
    case PutRefValue(key, _) => Upper(key) !in UpperSet(c.removed)
    case _ => true
  }

  predicate NoneReput(c: Cache, ops: seq<Operation>)
    decreases |ops|
  {
    ops == [] || (NotReput(c, ops[0]) && NoneReput(ApplyOp(c, ops[0]), ops[1..]))
  }

  lemma {:induction false} RemoveEachTracks(c: Cache, order: seq<Key>, loaded: map<Key, Stored>)
    requires Tracks(c, loaded)
    ensures Tracks(RemoveEach(c, order), loaded)
    decreases |order|
  {
    hide Tracks, Without;
    if order != [] {
      RemoveTracks(c, order[0], loaded);
      RemoveEachTracks(Without(c, order[0]), order[1..], loaded);
    }
  }

  /** Whatever is done to a freshly loaded cache, its flags say what changed. */
  lemma {:induction false} RunTracks(c: Cache, ops: seq<Operation>, loaded: map<Key, Stored>)
    requires Tracks(c, loaded)
    ensures Tracks(ApplyAll(c, ops), loaded)
    decreases |ops|
  {
    hide Tracks, Put, PutRef, Without, ExpiringAt, RemoveEach;
    if ops != [] {
      match ops[0] {
        case PutValue(key, v) => PutTracks(c, key, v, loaded);
        case PutRefValue(key, ref) => PutRefTracks(c, key, ref, loaded);
        case RemoveKey(key) => RemoveTracks(c, key, loaded);
        case RemoveAllKeys(order) => RemoveEachTracks(c, order, loaded);
        case Expire(key, ms) => ExpireTracks(c, key, ms, loaded);
      }
      RunTracks(ApplyOp(c, ops[0]), ops[1..], loaded);
    }
  }

  lemma {:induction false} RunConcat(c: Cache, a: seq<Operation>, b: seq<Operation>)
    ensures ApplyAll(c, a + b) == ApplyAll(ApplyAll(c, a), b)
    decreases |a|
  {
    hide ApplyOp;
    if a == [] {
      assert a + b == b;
    } else {
      RunConcat(ApplyOp(c, a[0]), a[1..], b);
      assert (a + b)[1..] == a[1..] + b;
    }
  }

  /** The operation neither puts nor removes what is under `k`. */
  predicate Spares(op: Operation, k: Key) {
    match op
    case PutValue(key, _) => Upper(key) != k
    case PutRefValue(key, _) => Upper(key) != k
    case RemoveKey(key) => Upper(key) != k
    case RemoveAllKeys(order) => forall i :: 0 <= i < |order| ==> Upper(order[i]) != k
    case Expire(_, _) => true
  }

  predicate SameValueAt(c: Cache, c': Cache, k: Key) {
    k in c.dictionary ==> k in c'.dictionary && c'.dictionary[k].val == c.dictionary[k].val
  }

  lemma {:induction false} RemovalsSpare(c: Cache, order: seq<Key>, k: Key)
    requires forall i :: 0 <= i < |order| ==> Upper(order[i]) != k
    ensures SameValueAt(c, RemoveEach(c, order), k)
    decreases |order|
  {
    hide Upper, Pushed;
    if order != [] {
      RemovalsSpare(Without(c, order[0]), order[1..], k);
    }
  }

  lemma {:induction false} RunSpares(c: Cache, ops: seq<Operation>, k: Key)
    requires forall i :: 0 <= i < |ops| ==> Spares(ops[i], k)
    ensures SameValueAt(c, ApplyAll(c, ops), k)
    decreases |ops|
  {
    hide Upper, Resolve, RemoveEach, Without;
    if ops != [] {
      match ops[0] {
        case RemoveKey(key) => WithoutMeans(c, key);
        case RemoveAllKeys(order) => RemovalsSpare(c, order, k);
        case _ =>
      }
      assert SameValueAt(c, ApplyOp(c, ops[0]), k);
      RunSpares(ApplyOp(c, ops[0]), ops[1..], k);
    }
  }

  /** Whatever else is done, the value put last under a key is the one that is there. */
  lemma LastPutStays(c: Cache, before: seq<Operation>, key: Key, n: nat, b: Blob, after: seq<Operation>)
    requires key != [] && forall i :: 0 <= i < |after| ==> Spares(after[i], Upper(key))
    ensures var c' := ApplyAll(c, before + [PutValue(key, Wrapped(n, Data(b)))] + after);
            Upper(key) in c'.dictionary && c'.dictionary[Upper(key)].val == b
  {
    hide Upper, Put, Resolve;
    var put := PutValue(key, Wrapped(n, Data(b)));
    var c1 := ApplyAll(c, before);
    RunConcat(c, before + [put], after);
    RunConcat(c, before, [put]);
    PutStores(c1, key, n, b);
    assert ApplyAll(c1, [put]) == Put(c1, key, Wrapped(n, Data(b)));
    RunSpares(ApplyAll(c1, [put]), after, Upper(key));
  }

  /** No key of the dictionary is among the removed ones. */
  predicate Separate(c: Cache) {
    c.dictionary.Keys !! UpperSet(c.removed)
  }

  lemma RemoveSeparate(c: Cache, key: Key)
    requires Separate(c)
    ensures Separate(Without(c, key))
  {
    hide UpperSet, Upper, Pushed;
    PushedSet(c.removed, key);
  }

  lemma {:induction false} RemoveEachSeparate(c: Cache, order: seq<Key>)
    requires Separate(c)
    ensures Separate(RemoveEach(c, order))
    decreases |order|
  {
    hide Separate, Without;
    if order != [] {
      RemoveSeparate(c, order[0]);
      RemoveEachSeparate(Without(c, order[0]), order[1..]);
    }
  }

  lemma StepSeparate(c: Cache, op: Operation)
    requires Separate(c) && NotReput(c, op)
    ensures Separate(ApplyOp(c, op))
  {
    hide UpperSet, Upper, Resolve, RemoveEach, Without;
    match op
    case RemoveKey(key) => RemoveSeparate(c, key);
    case RemoveAllKeys(order) => RemoveEachSeparate(c, order);
    case _ =>
  }

  /** If no key is put again after it was removed, the two stay apart. */
  lemma {:induction false} RunSeparate(c: Cache, ops: seq<Operation>)
    requires Separate(c) && NoneReput(c, ops)
    ensures Separate(ApplyAll(c, ops))
    decreases |ops|
  {
    hide Separate, NotReput, ApplyOp;
    if ops != [] {
      StepSeparate(c, ops[0]);
      RunSeparate(ApplyOp(c, ops[0]), ops[1..]);
    }
  }

  // --- The cache object ---

  /** Which keys are in what state. */
  datatype KeyStates = KeyStates(changed: seq<Key>, added: seq<Key>, other: seq<Key>,
                                 expiring: seq<(Key, int)>, removed: seq<Key>)

  predicate IsChanged(e: Element) {
    !e.isNew && e.isDirty
  }

  /** The keys listed are those in `ks`, as the dictionary spells them. */
  ghost predicate Lists(keys: seq<Key>, d: Dictionary, ks: set<Key>) {
    UpperSet(keys) == ks && ks <= d.Keys &&
    forall i :: 0 <= i < |keys| ==> Upper(keys[i]) in d && d[Upper(keys[i])].key == keys[i]
  }

  lemma ListsNothing(d: Dictionary)
    ensures Lists([], d, {})
  {
  }

  lemma ListsMore(keys: seq<Key>, d: Dictionary, ks: set<Key>, k: Key)
    requires Lists(keys, d, ks) && k in d && Upper(d[k].key) == k
    ensures Lists(keys + [d[k].key], d, ks + {k})
  {
    hide UpperSet, Upper;
    UpperSetPush(keys, d[k].key);
  }

  function Firsts(pairs: seq<(Key, int)>): seq<Key> {
    seq(|pairs|, i requires 0 <= i < |pairs| => pairs[i].0)
  }

  lemma FirstsPush(pairs: seq<(Key, int)>, key: Key, ms: int)
    ensures Firsts(pairs + [(key, ms)]) == Firsts(pairs) + [key]
  {
  }

  predicate ExpiresIn(d: Dictionary, pair: (Key, int)) {
    Upper(pair.0) in d && d[Upper(pair.0)].expireAt == pair.1 > 0
  }

  function ChangedAmong(d: Dictionary, ks: set<Key>): set<Key> {
    set k | k in ks && k in d && IsChanged(d[k])
  }

  function NewAmong(d: Dictionary, ks: set<Key>): set<Key> {
    set k | k in ks && k in d && d[k].isNew
  }

  function UnchangedAmong(d: Dictionary, ks: set<Key>): set<Key> {
    set k | k in ks && k in d && !d[k].isNew && !d[k].isDirty
  }

  function ExpiringAmong(d: Dictionary, ks: set<Key>): set<Key> {
    set k | k in ks && k in d && d[k].expireAt > 0
  }

  lemma NoneSeen(d: Dictionary)
    ensures ChangedAmong(d, {}) == NewAmong(d, {}) == UnchangedAmong(d, {}) == ExpiringAmong(d, {}) == {}
  {
  }

  lemma OneMoreSeen(d: Dictionary, ks: set<Key>, k: Key)
    requires k in d
    ensures ChangedAmong(d, ks + {k}) == ChangedAmong(d, ks) + if IsChanged(d[k]) then {k} else {}
    ensures NewAmong(d, ks + {k}) == NewAmong(d, ks) + if d[k].isNew then {k} else {}
    ensures UnchangedAmong(d, ks + {k}) == UnchangedAmong(d, ks) + if !d[k].isNew && !d[k].isDirty then {k} else {}
    ensures ExpiringAmong(d, ks + {k}) == ExpiringAmong(d, ks) + if d[k].expireAt > 0 then {k} else {}
  {
  }

  ghost predicate DescribesAmong(states: KeyStates, d: Dictionary, ks: set<Key>) {
    Lists(states.changed, d, ChangedAmong(d, ks)) && Lists(states.added, d, NewAmong(d, ks)) &&
    Lists(states.other, d, UnchangedAmong(d, ks)) && Lists(Firsts(states.expiring), d, ExpiringAmong(d, ks)) &&
    forall i :: 0 <= i < |states.expiring| ==> ExpiresIn(d, states.expiring[i])
  }

  ghost predicate Describes(states: KeyStates, c: Cache) {
    DescribesAmong(states, c.dictionary, c.dictionary.Keys) && states.removed == c.removed
  }

  /** Each list has exactly the keys that are changed, new, or have a time to live, which
      stands beside them. */
  lemma StatesMean(states: KeyStates, c: Cache, k: Key)
    requires Describes(states, c)
    ensures (exists i :: 0 <= i < |states.changed| && Upper(states.changed[i]) == k) <==>
            k in c.dictionary && !c.dictionary[k].isNew && c.dictionary[k].isDirty
    ensures (exists i :: 0 <= i < |states.added| && Upper(states.added[i]) == k) <==>
            k in c.dictionary && c.dictionary[k].isNew
    ensures (exists i :: 0 <= i < |states.other| && Upper(states.other[i]) == k) <==>
            k in c.dictionary && !c.dictionary[k].isNew && !c.dictionary[k].isDirty
    ensures (exists i :: 0 <= i < |states.expiring| && Upper(states.expiring[i].0) == k) <==>
            k in c.dictionary && c.dictionary[k].expireAt > 0
    ensures forall i | 0 <= i < |states.expiring| && Upper(states.expiring[i].0) == k ::
              k in c.dictionary && states.expiring[i].1 == c.dictionary[k].expireAt
    ensures states.removed == c.removed
  {
    hide Upper;
    var d, ex := c.dictionary, states.expiring;
    assert k in UpperSet(states.changed) <==> k in ChangedAmong(d, d.Keys);
    assert k in UpperSet(states.added) <==> k in NewAmong(d, d.Keys);
    assert k in UpperSet(states.other) <==> k in UnchangedAmong(d, d.Keys);
    assert k in UpperSet(Firsts(ex)) <==> k in ExpiringAmong(d, d.Keys);
    if i :| 0 <= i < |ex| && Upper(ex[i].0) == k {
      assert Firsts(ex)[i] == ex[i].0 && ExpiresIn(d, ex[i]);
    }
    if i :| 0 <= i < |Firsts(ex)| && Upper(Firsts(ex)[i]) == k {
      assert ex[i].0 == Firsts(ex)[i];
    }
    forall i | 0 <= i < |ex| && Upper(ex[i].0) == k ensures k in d && ex[i].1 == d[k].expireAt {
      assert ExpiresIn(d, ex[i]);
    }
  }

  lemma DescribesNothing(d: Dictionary, removed: seq<Key>)
    ensures DescribesAmong(KeyStates([], [], [], [], removed), d, {})
  {
    ListsNothing(d);
    NoneSeen(d);
    assert Firsts([]) == [];
  }

  /** The element noted under its state, and once more if it is to expire. */
  function Noted(states: KeyStates, e: Element): KeyStates {
    var s := if e.isNew then states.(added := states.added + [e.key])
             else if e.isDirty then states.(changed := states.changed + [e.key])
             else states.(other := states.other + [e.key]);
    if e.expireAt > 0 then s.(expiring := s.expiring + [(e.key, e.expireAt)]) else s
  }

  lemma NotedDescribes(states: KeyStates, d: Dictionary, ks: set<Key>, k: Key)
    requires DescribesAmong(states, d, ks) && k in d && Upper(d[k].key) == k
    ensures DescribesAmong(Noted(states, d[k]), d, ks + {k})
  {
    hide Lists, Upper, ChangedAmong, NewAmong, UnchangedAmong, ExpiringAmong, Firsts;
    var e := d[k];
    OneMoreSeen(d, ks, k);
    ListsMore(states.changed, d, ChangedAmong(d, ks), k);
    ListsMore(states.added, d, NewAmong(d, ks), k);
    ListsMore(states.other, d, UnchangedAmong(d, ks), k);
    ListsMore(Firsts(states.expiring), d, ExpiringAmong(d, ks), k);
    FirstsPush(states.expiring, e.key, e.expireAt);
    var none: set<Key> := {};
    assert ChangedAmong(d, ks) + none == ChangedAmong(d, ks) && NewAmong(d, ks) + none == NewAmong(d, ks);
    assert ExpiringAmong(d, ks) + none == ExpiringAmong(d, ks) && UnchangedAmong(d, ks) + none == UnchangedAmong(d, ks);
  }

  class Application {
    var dictionary: Dictionary
    var removed: seq<Key>
    ghost var loaded: map<Key, Stored>

    function State(): Cache
      reads this
    {
      Cache(dictionary, removed)
    }

    ghost predicate Valid()
      reads this
    {
      Tracks(State(), loaded)
    }

    constructor ()
      ensures State() == Cache(map[], []) && loaded == map[] && Valid()
    {
      dictionary, removed, loaded := map[], [], map[];
    }

    /** One loaded element, under its own spelling; one already there takes the value only. */
    method Deserialize(stored: Stored)
      modifies this`dictionary
      ensures var k := Upper(stored.key);
              dictionary == old(dictionary)[k :=
                if k in old(dictionary) then old(dictionary)[k].(val := stored.val)
                else Element(stored.key, stored.val, false, false, 0)]
    {
      var k := Upper(stored.key);
      if k !in dictionary {
        dictionary := dictionary[k := Element(stored.key, EMPTY, false, false, 0)];
      }
      ghost var d := dictionary;
      dictionary := dictionary[k := dictionary[k].(val := stored.val)];
      assert dictionary == old(dictionary)[k := d[k].(val := stored.val)];
    }

    ghost method SetLoaded(found: map<Key, Stored>)
      modifies this`loaded
      ensures loaded == found
    {
      loaded := found;
    }

    method PutValue(key: Key, newVal: Variant) returns (hr: HResult)
      requires Valid()
      modifies this`dictionary
      ensures Valid() && State() == Put(old(State()), key, newVal)
      ensures hr == if key == [] then InvalidArgument else if EndsInNull(newVal) then Pointer else Ok
      decreases newVal
    {
      hide Tracks, Upper;
      PutTracks(State(), key, newVal, loaded);
      PutTracks(State(), key, NullObject, loaded);
      if key == [] {
        return InvalidArgument;
      }
      hr := Ok;
      var k := Upper(key);
      if k !in dictionary {
        dictionary := dictionary[k := Element(key, EMPTY, true, false, 0)];
      } else if !dictionary[k].isNew {
        dictionary := dictionary[k := dictionary[k].(isDirty := true)];
      }
      match newVal {
        case NullObject => hr := Pointer;
        case Object(property) =>
          if property.Default? {
            PutAgain(old(State()), key, newVal, property.value);
            hr := PutValue(key, property.value);
          }
        case Data(b) => dictionary := dictionary[k := dictionary[k].(val := b)];
      }
    }

    method PutRefValue(key: Key, newVal: Reference) returns (hr: HResult)
      requires Valid()
      modifies this`dictionary
      ensures Valid() && State() == PutRef(old(State()), key, newVal)
      ensures hr == if key == [] || !TakenForObject(newVal.tag) then InvalidArgument
                    else match newVal.target
                         case Persistable(_) => Ok
                         case NoObject => Fault
                         case _ => NoInterface
    {
      hide Tracks, Upper;
      PutRefTracks(State(), key, newVal, loaded);
      if key == [] {
        return InvalidArgument;
      }
      if !TakenForObject(newVal.tag) {
        return InvalidArgument;
      }
      var k := Upper(key);
      if k !in dictionary {
        dictionary := dictionary[k := Element(key, EMPTY, true, false, 0)];
      } else {
        dictionary := dictionary[k := dictionary[k].(isDirty := true)];
      }
      match newVal.target {
        case NullPointer => return NoInterface;
        case NotPersistable => return NoInterface;
        case NoObject => return Fault;  // asked for an interface nevertheless
        case Persistable(b) =>
          ghost var d := dictionary;
          dictionary := dictionary[k := dictionary[k].(val := b)];
          assert dictionary == old(dictionary)[k := d[k].(val := b)];
          hr := Ok;
      }
    }

    method Remove(key: Key) returns (hr: HResult)
      requires Valid()
      modifies this`dictionary, this`removed
      ensures Valid() && State() == Without(old(State()), key)
      ensures hr == if key == [] then InvalidArgument else Ok
    {
      hide Tracks, Upper;
      RemoveTracks(State(), key, loaded);
      if key == [] {
        return InvalidArgument;
      }
      if Upper(key) in dictionary {
        dictionary := dictionary - {Upper(key)};
        if key !in removed {
          removed := removed + [key];
        }
      }
      hr := Ok;
    }

    /** Erases the elements one by one and lists each key once. */
    method RemoveAll() returns (ghost order: seq<Key>)
      requires Valid()
      modifies this`dictionary, this`removed
      ensures Valid() && dictionary == map[] && State() == RemoveEach(old(State()), order)
      ensures UpperSet(removed) == UpperSet(old(removed)) + old(dictionary).Keys
    {
      hide Upper, UpperSet, RemoveEach, Tracks;
      order := [];
      RemoveNone(State());
      while dictionary != map[]
        invariant State() == RemoveEach(old(State()), order)
        invariant Valid() && dictionary.Keys <= old(dictionary).Keys
        invariant UpperSet(removed) == UpperSet(old(removed)) + (old(dictionary).Keys - dictionary.Keys)
        decreases |dictionary|
      {
        var k :| k in dictionary.Keys;
        var key := dictionary[k].key;
        KeyFolds(State(), loaded, k);
        RemoveTracks(State(), key, loaded);
        PushedSet(removed, key);
        RemoveOneMore(old(State()), order, key);
        order := order + [key];
        if key !in removed {
          removed := removed + [key];
        }
        dictionary := dictionary - {k};
      }
    }

    method ExpireKeyAt(key: Key, ms: int)
      requires Valid()
      modifies this`dictionary
      ensures Valid() && State() == ExpiringAt(old(State()), key, ms)
    {
      hide Tracks, Upper;
      ExpireTracks(State(), key, ms, loaded);
      if Upper(key) in dictionary {
        dictionary := dictionary[Upper(key) := dictionary[Upper(key)].(expireAt := ms)];
      }
    }

    /** Whether a save would send anything. */
    method IsDirty() returns (dirty: bool)
      ensures dirty <==> Changed(State())
      ensures dirty <==> |removed| > 0 || exists k ::
                k in dictionary && (dictionary[k].isNew || dictionary[k].isDirty || dictionary[k].expireAt > 0)
    {
      dirty := false;
      if |removed| > 0 {
        return true;
      }
      var rest := dictionary.Keys;
      while rest != {}
        invariant rest <= dictionary.Keys
        invariant forall k :: k in dictionary && k !in rest ==> !NeedsSave(dictionary[k])
        decreases |rest|
      {
        var k :| k in rest;
        if dictionary[k].isDirty || dictionary[k].isNew || dictionary[k].expireAt > 0 {
          return true;
        }
        rest := rest - {k};
      }
    }

    /** Every key under its state, in the order the dictionary lists them. */
    method GetKeyStates() returns (states: KeyStates)
      requires Valid()
      ensures Describes(states, State())
    {
      hide Tracks, Upper, DescribesAmong;
      states := KeyStates([], [], [], [], removed);
      var rest := dictionary.Keys;
      ghost var seen: set<Key> := {};
      DescribesNothing(dictionary, removed);
      while rest != {}
        invariant seen !! rest && seen + rest == dictionary.Keys
        invariant DescribesAmong(states, dictionary, seen) && states.removed == removed
        decreases |rest|
      {
        var k :| k in rest;
        KeyFolds(State(), loaded, k);
        NotedDescribes(states, dictionary, seen, k);
        var e := dictionary[k];
        if |e.key| > 0 {
          if e.isNew {
            states := states.(added := states.added + [e.key]);
          } else if e.isDirty {
            states := states.(changed := states.changed + [e.key]);
          } else {
            states := states.(other := states.other + [e.key]);
          }
          if e.expireAt > 0 {
            states := states.(expiring := states.expiring + [(e.key, e.expireAt)]);
          }
        }
        rest := rest - {k};
        seen := seen + {k};
      }
      assert seen == dictionary.Keys;
    }
  }

  lemma RemoveNone(c: Cache)
    ensures RemoveEach(c, []) == c
  {
  }

  lemma {:induction false} RemoveOneMore(c: Cache, order: seq<Key>, key: Key)
    ensures RemoveEach(c, order + [key]) == Without(RemoveEach(c, order), key)
    decreases |order|
  {
    hide Without;
    if order == [] {
      assert [key][1..] == [];
      assert [] + [key] == [key];
    } else {
      RemoveOneMore(Without(c, order[0]), order[1..], key);
      assert (order + [key])[1..] == order[1..] + [key];
    }
  }

  predicate NeedsSave(e: Element) {
    e.isDirty || e.isNew || e.expireAt > 0
  }

  predicate Changed(c: Cache) {
    c.removed != [] || exists k :: k in c.dictionary && NeedsSave(c.dictionary[k])
  }

  lemma KeyFolds(c: Cache, loaded: map<Key, Stored>, k: Key)
    requires Tracks(c, loaded) && k in c.dictionary
    ensures c.dictionary[k].key != [] && Upper(c.dictionary[k].key) == k
  {
    assert ElementTracks(c.dictionary[k], k, loaded, UpperSet(c.removed));
    assert |Upper(c.dictionary[k].key)| == |c.dictionary[k].key|;
  }

  /** Putting the default property of an object into the element it has just touched. */
  lemma PutAgain(c: Cache, key: Key, v: Variant, w: Variant)
    requires key != [] && v == Object(Default(w))
    ensures Put(c.(dictionary := Touched(c.dictionary, key)), key, w) == Put(c, key, v)
  {
  }
}
