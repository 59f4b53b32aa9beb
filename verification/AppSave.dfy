/** Saving the cache to Redis as one transaction of differences, and loading it back through
    the index set. */
module AppSave {
  import opened Bytes
  import opened AppCache

  datatype Expiry = Never | At(time: int)

  datatype Entry = Entry(stored: Stored, expiry: Expiry)

  /** What Redis holds for one application: the index set and the key-value pairs, by
      upper-cased key. */
  datatype Store = Store(index: set<Key>, kv: map<Key, Entry>)

  predicate Live(e: Entry, now: int) {
    e.expiry.Never? || now < e.expiry.time
  }

  // --- The commands ---

  datatype Command =
    | SAdd(keys: seq<Key>)
    | Del(keys: seq<Key>)
    | SRem(keys: seq<Key>)
    | MSet(pairs: seq<(Key, Stored)>)
    | PExpire(key: Key, ms: int)

  function ToSet(keys: seq<Key>): set<Key> {
    set i | 0 <= i < |keys| :: keys[i]
  }

  /** MSET writes pair by pair; a key written loses its expiry. */
  function Written(kv: map<Key, Entry>, pairs: seq<(Key, Stored)>): map<Key, Entry>
    decreases |pairs|
  {
    if pairs == [] then kv
    else
      var n := |pairs| - 1;
      Written(kv, pairs[..n])[pairs[n].0 := Entry(pairs[n].1, Never)]
  }

  /** A key that is there and has not expired. */
  function Timed(kv: map<Key, Entry>, key: Key, ms: int, now: int): map<Key, Entry> {
    if key in kv && Live(kv[key], now) then kv[key := kv[key].(expiry := At(now + ms))] else kv
  }

  function RunCommand(st: Store, c: Command, now: int): Store {
    match c
    case SAdd(keys) => st.(index := st.index + ToSet(keys))
    case Del(keys) => st.(kv := st.kv - ToSet(keys))
    case SRem(keys) => st.(index := st.index - ToSet(keys))
    case MSet(pairs) => st.(kv := Written(st.kv, pairs))
    case PExpire(key, ms) => st.(kv := Timed(st.kv, key, ms, now))
  }

  /** EXEC: all commands, at one moment. */
  function RunAll(st: Store, cs: seq<Command>, now: int): Store
    decreases |cs|
  {
    if cs == [] then st else RunCommand(RunAll(st, cs[..|cs| - 1], now), cs[|cs| - 1], now)
  }

  function UpperAll(keys: seq<Key>): (r: seq<Key>)
    ensures |r| == |keys|
  {
    seq(|keys|, i requires 0 <= i < |keys| => Upper(keys[i]))
  }

  function PairOf(d: Dictionary, key: Key): (Key, Stored) {
    var k := Upper(key);
    (k, if k in d then Stored(key, d[k].val) else Stored(key, EMPTY))
  }

  function Pairs(d: Dictionary, keys: seq<Key>): (r: seq<(Key, Stored)>)
    ensures |r| == |keys|
  {
    seq(|keys|, i requires 0 <= i < |keys| => PairOf(d, keys[i]))
  }

  function Timers(expiring: seq<(Key, int)>): (r: seq<Command>)
    ensures |r| == |expiring|
  {
    seq(|expiring|, i requires 0 <= i < |expiring| => PExpire(Upper(expiring[i].0), expiring[i].1))
  }

  /** The transaction, in the order the commands are queued. */
  function Transaction(states: KeyStates, d: Dictionary): seq<Command> {
    (if states.added == [] then [] else [SAdd(UpperAll(states.added))]) +
    (if states.removed == [] then [] else [Del(UpperAll(states.removed)), SRem(UpperAll(states.removed))]) +
    (if states.added == [] && states.changed == [] then []
     else [MSet(Pairs(d, states.added) + Pairs(d, states.changed))]) +
    Timers(states.expiring)
  }

  // --- What the transaction amounts to ---

  function EntriesFor(d: Dictionary, ks: set<Key>): map<Key, Entry> {
    map k | k in ks && k in d :: Entry(Stored(d[k].key, d[k].val), Never)
  }

  function Expiring(kv: map<Key, Entry>, d: Dictionary, ks: set<Key>, now: int): map<Key, Entry> {
    map k | k in kv :: if k in ks && k in d && Live(kv[k], now) then kv[k].(expiry := At(now + d[k].expireAt)) else kv[k]
  }

  /** New and changed elements. */
  function ToWrite(d: Dictionary): set<Key> {
    NewAmong(d, d.Keys) + ChangedAmong(d, d.Keys)
  }

  function AfterSave(st: Store, c: Cache, now: int): Store {
    var d, gone := c.dictionary, UpperSet(c.removed);
    Store((st.index + NewAmong(d, d.Keys)) - gone,
          Expiring((st.kv - gone) + EntriesFor(d, ToWrite(d)), d, ExpiringAmong(d, d.Keys), now))
  }

  lemma {:induction false} RunConcat(st: Store, a: seq<Command>, b: seq<Command>, now: int)
    ensures RunAll(st, a + b, now) == RunAll(RunAll(st, a, now), b, now)
    decreases |b|
  {
    hide RunCommand;
    if b == [] {
      assert a + b == a;
    } else {
      var n := |b| - 1;
      RunConcat(st, a, b[..n], now);
      assert (a + b)[..|a + b| - 1] == a + b[..n];
    }
  }

  lemma UpperAllSet(keys: seq<Key>)
    ensures ToSet(UpperAll(keys)) == UpperSet(keys)
  {
    var us := UpperAll(keys);
    forall u ensures u in ToSet(us) <==> u in UpperSet(keys) {
      if u in ToSet(us) {
        var i :| 0 <= i < |us| && us[i] == u;
        assert Upper(keys[i]) == u;
      }
      if u in UpperSet(keys) {
        var i :| 0 <= i < |keys| && Upper(keys[i]) == u;
        assert us[i] == u;
      }
    }
  }

  lemma UpperSetConcat(a: seq<Key>, b: seq<Key>)
    ensures UpperSet(a + b) == UpperSet(a) + UpperSet(b)
  {
    var all := a + b;
    forall u ensures u in UpperSet(all) <==> u in UpperSet(a) + UpperSet(b) {
      if u in UpperSet(a) {
        var i :| 0 <= i < |a| && Upper(a[i]) == u;
        assert all[i] == a[i];
      }
      if u in UpperSet(b) {
        var i :| 0 <= i < |b| && Upper(b[i]) == u;
        assert all[|a| + i] == b[i];
      }
    }
  }

  /** The keys are spelled as the dictionary spells them. */
  ghost predicate Spelled(d: Dictionary, keys: seq<Key>) {
    forall i :: 0 <= i < |keys| ==> Upper(keys[i]) in d && d[Upper(keys[i])].key == keys[i]
  }

  lemma {:induction false} WrittenIsMerge(kv: map<Key, Entry>, d: Dictionary, keys: seq<Key>)
    requires Spelled(d, keys)
    ensures Written(kv, Pairs(d, keys)) == kv + EntriesFor(d, UpperSet(keys))
    decreases |keys|
  {
    hide UpperSet, Upper, EntriesFor, PairOf;
    if keys == [] {
      EmptyUpper(keys);
      NoEntries(kv, d);
    } else {
      var n := |keys| - 1;
      WrittenIsMerge(kv, d, keys[..n]);
      assert Pairs(d, keys)[..n] == Pairs(d, keys[..n]);
      UpperSetPush(keys[..n], keys[n]);
      assert keys[..n] + [keys[n]] == keys;
      OneMoreEntry(kv, d, UpperSet(keys[..n]), keys[n]);
    }
  }

  lemma NoEntries(kv: map<Key, Entry>, d: Dictionary)
    ensures kv + EntriesFor(d, {}) == kv
  {
  }

  lemma OneMoreEntry(kv: map<Key, Entry>, d: Dictionary, ks: set<Key>, key: Key)
    requires Upper(key) in d && d[Upper(key)].key == key
    ensures (kv + EntriesFor(d, ks))[PairOf(d, key).0 := Entry(PairOf(d, key).1, Never)] ==
            kv + EntriesFor(d, ks + {Upper(key)})
  {
    hide Upper;
  }

  lemma {:induction false} TimersExpire(st: Store, d: Dictionary, expiring: seq<(Key, int)>, now: int)
    requires forall i :: 0 <= i < |expiring| ==> ExpiresIn(d, expiring[i])
    ensures RunAll(st, Timers(expiring), now) == st.(kv := Expiring(st.kv, d, UpperSet(Firsts(expiring)), now))
    decreases |expiring|
  {
    hide UpperSet, Upper;
    if expiring == [] {
      EmptyUpper(Firsts(expiring));
      assert Expiring(st.kv, d, {}, now) == st.kv;
    } else {
      var n := |expiring| - 1;
      var (key, ms) := expiring[n];
      assert ExpiresIn(d, expiring[n]);
      TimersExpire(st, d, expiring[..n], now);
      assert Timers(expiring)[..n] == Timers(expiring[..n]);
      assert Firsts(expiring) == Firsts(expiring[..n]) + [key];
      UpperSetPush(Firsts(expiring[..n]), key);
      OneMoreTimer(st.kv, d, UpperSet(Firsts(expiring[..n])), Upper(key), ms, now);
    }
  }

  lemma OneMoreTimer(kv: map<Key, Entry>, d: Dictionary, ks: set<Key>, k: Key, ms: int, now: int)
    requires k in d && d[k].expireAt == ms > 0
    ensures Timed(Expiring(kv, d, ks, now), k, ms, now) == Expiring(kv, d, ks + {k}, now)
  {
  }

  lemma SpelledBy(keys: seq<Key>, d: Dictionary, ks: set<Key>)
    requires Lists(keys, d, ks)
    ensures Spelled(d, keys) && UpperSet(keys) == ks && (keys == [] ==> ks == {})
  {
  }

  lemma SpelledConcat(d: Dictionary, a: seq<Key>, b: seq<Key>)
    requires Spelled(d, a) && Spelled(d, b)
    ensures Spelled(d, a + b) && Pairs(d, a) + Pairs(d, b) == Pairs(d, a + b)
  {
    forall i | 0 <= i < |a + b| ensures Upper((a + b)[i]) in d && d[Upper((a + b)[i])].key == (a + b)[i] {
      assert (a + b)[i] == if i < |a| then a[i] else b[i - |a|];
    }
  }

  /** SADD: the index gains the new keys. */
  lemma AddStage(st: Store, keys: seq<Key>, now: int)
    ensures RunAll(st, if keys == [] then [] else [SAdd(UpperAll(keys))], now) == st.(index := st.index + UpperSet(keys))
  {
    UpperAllSet(keys);
    if keys == [] {
      assert st.index + UpperSet(keys) == st.index;
    }
  }

  /** DEL and SREM: the removed keys leave the pairs and the index. */
  lemma RemoveStage(st: Store, keys: seq<Key>, now: int)
    ensures RunAll(st, if keys == [] then [] else [Del(UpperAll(keys)), SRem(UpperAll(keys))], now)
         == Store(st.index - UpperSet(keys), st.kv - UpperSet(keys))
  {
    UpperAllSet(keys);
    if keys == [] {
      assert st.index - UpperSet(keys) == st.index && st.kv - UpperSet(keys) == st.kv;
    } else {
      var us := UpperAll(keys);
      assert [Del(us), SRem(us)][..1] == [Del(us)];
      assert RunAll(st, [Del(us)], now) == RunCommand(st, Del(us), now);
    }
  }

  lemma NothingWritten(kv: map<Key, Entry>, d: Dictionary)
    ensures Written(kv, Pairs(d, [])) == kv
  {
  }

  /** MSET: the new and the changed elements are written. */
  lemma WriteStage(st: Store, d: Dictionary, added: seq<Key>, changed: seq<Key>, now: int)
    requires Spelled(d, added) && Spelled(d, changed)
    ensures RunAll(st, if added == [] && changed == [] then [] else [MSet(Pairs(d, added) + Pairs(d, changed))], now)
         == st.(kv := st.kv + EntriesFor(d, UpperSet(added) + UpperSet(changed)))
  {
    hide Upper, Written, EntriesFor, Pairs;
    SpelledConcat(d, added, changed);
    UpperSetConcat(added, changed);
    WrittenIsMerge(st.kv, d, added + changed);
    if added == [] && changed == [] {
      NothingWritten(st.kv, d);
      assert added + changed == [];
    }
  }

  /** The four stages one after the other are the closed form. */
  lemma TransactionEffect(st: Store, states: KeyStates, c: Cache, now: int)
    requires Describes(states, c)
    ensures RunAll(st, Transaction(states, c.dictionary), now) == AfterSave(st, c, now)
  {
    hide RunAll, UpperSet, Upper, EntriesFor, Expiring, Pairs, Timers, NewAmong, ChangedAmong, ExpiringAmong, Lists, Firsts;
    var d := c.dictionary;
    SpelledBy(states.added, d, NewAmong(d, d.Keys));
    SpelledBy(states.changed, d, ChangedAmong(d, d.Keys));
    SpelledBy(Firsts(states.expiring), d, ExpiringAmong(d, d.Keys));
    var a := if states.added == [] then [] else [SAdd(UpperAll(states.added))];
    var r := if states.removed == [] then [] else [Del(UpperAll(states.removed)), SRem(UpperAll(states.removed))];
    var w := if states.added == [] && states.changed == [] then []
             else [MSet(Pairs(d, states.added) + Pairs(d, states.changed))];
    RunConcat(st, a + r + w, Timers(states.expiring), now);
    RunConcat(st, a + r, w, now);
    RunConcat(st, a, r, now);
    AddStage(st, states.added, now);
    var st1 := RunAll(st, a, now);
    RemoveStage(st1, states.removed, now);
    var st2 := RunAll(st1, r, now);
    WriteStage(st2, d, states.added, states.changed, now);
    TimersExpire(RunAll(st2, w, now), d, states.expiring, now);
  }

  /** Nothing to save: no command is sent, and the store stays as it is. */
  lemma NothingToSave(st: Store, states: KeyStates, c: Cache, now: int)
    requires Describes(states, c)
    ensures Transaction(states, c.dictionary) == [] <==> !Changed(c)
  {
    hide Upper;
    var d := c.dictionary;
    SpelledBy(states.added, d, NewAmong(d, d.Keys));
    SpelledBy(states.changed, d, ChangedAmong(d, d.Keys));
    SpelledBy(Firsts(states.expiring), d, ExpiringAmong(d, d.Keys));
    EmptyUpper(states.added);
    EmptyUpper(states.changed);
    EmptyUpper(Firsts(states.expiring));
    if Changed(c) && c.removed == [] {
      var k :| k in d && NeedsSave(d[k]);
      assert k in NewAmong(d, d.Keys) || k in ChangedAmong(d, d.Keys) || k in ExpiringAmong(d, d.Keys);
    } else if !Changed(c) {
      assert NewAmong(d, d.Keys) == {} && ChangedAmong(d, d.Keys) == {} && ExpiringAmong(d, d.Keys) == {};
    }
  }

  lemma EmptyUpper(keys: seq<Key>)
    ensures UpperSet(keys) == {} <==> keys == []
  {
    if keys != [] {
      assert Upper(keys[0]) in UpperSet(keys);
    }
  }

  // --- Save and load against each other ---

  /** What loading finds: indexed keys that are there and have not expired. */
  function Loaded(st: Store, now: int): map<Key, Stored> {
    map k | k in st.index && k in st.kv && Live(st.kv[k], now) :: st.kv[k].stored
  }

  function Contents(d: Dictionary): map<Key, Stored> {
    map k | k in d :: Stored(d[k].key, d[k].val)
  }

  /** The store still holds what was loaded, and the index nothing else. */
  ghost predicate Holds(st: Store, loaded: map<Key, Stored>) {
    st.index == loaded.Keys && forall k :: k in loaded ==> k in st.kv && st.kv[k].stored == loaded[k]
  }

  /** No element of the dictionary has run out. */
  ghost predicate Unexpired(st: Store, d: Dictionary, now: int) {
    forall k :: k in d && k in st.kv ==> Live(st.kv[k], now)
  }

  /** Loading after a save gives the dictionary without the removed keys, whatever was done
      to the cache since it was loaded. */
  lemma SaveThenLoad(st: Store, c: Cache, loaded: map<Key, Stored>, now: int, later: int)
    requires Tracks(c, loaded) && Holds(st, loaded) && Unexpired(AfterSave(st, c, now), c.dictionary, later)
    ensures Loaded(AfterSave(st, c, now), later) == Contents(c.dictionary) - UpperSet(c.removed)
  {
    hide UpperSet, Upper, AfterSave, Tracks;
    var d, saved, gone := c.dictionary, AfterSave(st, c, now), UpperSet(c.removed);
    var found := Loaded(saved, later);
    forall k ensures k in found <==> k in d && k !in gone {
      SavedAt(st, c, loaded, now, later, k);
    }
    forall k | k in d && k !in gone ensures found[k] == Stored(d[k].key, d[k].val) {
      SavedAt(st, c, loaded, now, later, k);
    }
    assert found == Contents(d) - gone;
  }

  /** One key in the saved store. */
  lemma SavedAt(st: Store, c: Cache, loaded: map<Key, Stored>, now: int, later: int, k: Key)
    requires Tracks(c, loaded) && Holds(st, loaded) && Unexpired(AfterSave(st, c, now), c.dictionary, later)
    ensures var saved, d := AfterSave(st, c, now), c.dictionary;
            if k in d && k !in UpperSet(c.removed)
            then k in saved.index && k in saved.kv && Live(saved.kv[k], later) &&
                 saved.kv[k].stored == Stored(d[k].key, d[k].val)
            else k !in saved.index
  {
    hide UpperSet, Upper;
    if k in c.dictionary {
      assert ElementTracks(c.dictionary[k], k, loaded, UpperSet(c.removed));
    }
  }

  /** The load gives exactly the dictionary when no key of it is among the removed ones, and
      only then: a key put again after its removal is lost. */
  lemma SaveThenLoadIff(st: Store, c: Cache, loaded: map<Key, Stored>, now: int, later: int)
    requires Tracks(c, loaded) && Holds(st, loaded) && Unexpired(AfterSave(st, c, now), c.dictionary, later)
    ensures Loaded(AfterSave(st, c, now), later) == Contents(c.dictionary) <==> Separate(c)
  {
    hide UpperSet, AfterSave, Tracks, Loaded;
    SaveThenLoad(st, c, loaded, now, later);
    var m, gone := Contents(c.dictionary), UpperSet(c.removed);
    if Separate(c) {
      assert m - gone == m;
    } else {
      var k :| k in c.dictionary.Keys && k in gone;
      assert k in m && k !in m - gone;
    }
  }

  /** From load to load, over any run in which no key is put again after its removal. */
  lemma RunSaveLoad(st: Store, loaded: map<Key, Stored>, ops: seq<Operation>, now: int, later: int)
    requires WellKeyed(loaded) && Holds(st, loaded)
    requires var c := Cache(Fresh(loaded), []); NoneReput(c, ops)
    requires var c := ApplyAll(Cache(Fresh(loaded), []), ops); Unexpired(AfterSave(st, c, now), c.dictionary, later)
    ensures var c := ApplyAll(Cache(Fresh(loaded), []), ops);
            Loaded(AfterSave(st, c, now), later) == Contents(c.dictionary)
  {
    hide ApplyAll, AfterSave, Tracks, Loaded, NoneReput;
    var c0 := Cache(Fresh(loaded), []);
    FreshTracks(loaded);
    RunTracks(c0, ops, loaded);
    RunSeparate(c0, ops);
    SaveThenLoadIff(st, ApplyAll(c0, ops), loaded, now, later);
  }

  /** The value put last under a key is what the next load finds there. */
  lemma LastPutFound(st: Store, loaded: map<Key, Stored>, before: seq<Operation>, key: Key, n: nat, b: Blob,
                     after: seq<Operation>, now: int, later: int)
    requires WellKeyed(loaded) && Holds(st, loaded) && key != []
    requires forall i :: 0 <= i < |after| ==> Spares(after[i], Upper(key))
    requires NoneReput(Cache(Fresh(loaded), []), before + [PutValue(key, Wrapped(n, Data(b)))] + after)
    requires var c := ApplyAll(Cache(Fresh(loaded), []), before + [PutValue(key, Wrapped(n, Data(b)))] + after);
             Unexpired(AfterSave(st, c, now), c.dictionary, later)
    ensures var c := ApplyAll(Cache(Fresh(loaded), []), before + [PutValue(key, Wrapped(n, Data(b)))] + after);
            var found := Loaded(AfterSave(st, c, now), later);
            Upper(key) in found && found[Upper(key)].val == b
  {
    hide ApplyAll, AfterSave, Tracks, Loaded, NoneReput, Upper, Unexpired;
    LastPutStays(Cache(Fresh(loaded), []), before, key, n, b, after);
    RunSaveLoad(st, loaded, before + [PutValue(key, Wrapped(n, Data(b)))] + after, now, later);
  }

  /** One key after a save: removed keys leave the index and the pairs, new ones join the index,
      new and changed elements are written without expiry, a time to live starts now. */
  lemma AfterSaveAt(st: Store, c: Cache, now: int, k: Key)
    ensures var d, saved := c.dictionary, AfterSave(st, c, now);
            var gone := exists i :: 0 <= i < |c.removed| && Upper(c.removed[i]) == k;
            var written := k in d && (d[k].isNew || d[k].isDirty);
            (k in saved.index <==> !gone && (k in st.index || (k in d && d[k].isNew))) &&
            (k in saved.kv <==> written || (k in st.kv && !gone)) &&
            (written ==>
               saved.kv[k].stored == Stored(d[k].key, d[k].val) &&
               saved.kv[k].expiry == if d[k].expireAt > 0 then At(now + d[k].expireAt) else Never) &&
            (k in st.kv && !gone && !written ==>
               saved.kv[k].stored == st.kv[k].stored &&
               saved.kv[k].expiry ==
                 if k in d && d[k].expireAt > 0 && (st.kv[k].expiry == Never || now < st.kv[k].expiry.time)
                 then At(now + d[k].expireAt) else st.kv[k].expiry)
  {
    hide Upper;
    assert k in UpperSet(c.removed) <==> exists i :: 0 <= i < |c.removed| && Upper(c.removed[i]) == k;
  }

  /** A load finds the indexed pairs that have not run out. */
  lemma LoadedMeans(st: Store, now: int, k: Key)
    ensures k in Loaded(st, now) <==>
            k in st.index && k in st.kv && (st.kv[k].expiry == Never || now < st.kv[k].expiry.time)
    ensures k in Loaded(st, now) ==> Loaded(st, now)[k] == st.kv[k].stored
  {
  }

  // --- Concurrent requests ---

  /** The keys a save touches. */
  function Touches(c: Cache): set<Key> {
    ToWrite(c.dictionary) + UpperSet(c.removed) + ExpiringAmong(c.dictionary, c.dictionary.Keys)
  }

  predicate SameAt(a: Store, b: Store, k: Key) {
    (k in a.index <==> k in b.index) && (k in a.kv <==> k in b.kv) && (k in a.kv ==> a.kv[k] == b.kv[k])
  }

  lemma SameEverywhere(a: Store, b: Store)
    requires forall k :: SameAt(a, b, k)
    ensures a == b
  {
    forall k ensures (k in a.index <==> k in b.index) && (k in a.kv <==> k in b.kv) && (k in a.kv ==> a.kv[k] == b.kv[k]) {
      assert SameAt(a, b, k);
    }
    assert a.index == b.index && a.kv.Keys == b.kv.Keys;
    assert a.kv == b.kv;
  }

  /** A save leaves every other key alone. */
  lemma SaveElsewhere(st: Store, c: Cache, now: int, k: Key)
    requires k !in Touches(c)
    ensures SameAt(AfterSave(st, c, now), st, k)
  {
    hide UpperSet;
  }

  /** What a save makes of a key depends on nothing but what the store had at that key. */
  lemma SaveLocal(a: Store, b: Store, c: Cache, now: int, k: Key)
    requires SameAt(a, b, k)
    ensures SameAt(AfterSave(a, c, now), AfterSave(b, c, now), k)
  {
    hide UpperSet;
  }

  /** Two requests that touch different keys: either order of their transactions gives the
      same store, and each key is as the request that touches it left it. */
  lemma SavesCommute(st: Store, c1: Cache, c2: Cache, t1: int, t2: int)
    requires Touches(c1) !! Touches(c2)
    ensures AfterSave(AfterSave(st, c1, t1), c2, t2) == AfterSave(AfterSave(st, c2, t2), c1, t1)
    ensures forall k :: k in Touches(c1) ==> SameAt(AfterSave(AfterSave(st, c1, t1), c2, t2), AfterSave(st, c1, t1), k)
    ensures forall k :: k in Touches(c2) ==> SameAt(AfterSave(AfterSave(st, c1, t1), c2, t2), AfterSave(st, c2, t2), k)
  {
    hide AfterSave, Touches;
    var s1, s2 := AfterSave(st, c1, t1), AfterSave(st, c2, t2);
    var s12, s21 := AfterSave(s1, c2, t2), AfterSave(s2, c1, t1);
    forall k ensures SameAt(s12, s21, k) && (k in Touches(c1) ==> SameAt(s12, s1, k)) && (k in Touches(c2) ==> SameAt(s12, s2, k)) {
      if k in Touches(c1) {
        SaveElsewhere(s1, c2, t2, k);
        SaveElsewhere(st, c2, t2, k);
        SaveLocal(s2, st, c1, t1, k);
      } else {
        SaveElsewhere(st, c1, t1, k);
        SaveElsewhere(s2, c1, t1, k);
        SaveLocal(s1, st, c2, t2, k);
      }
    }
    SameEverywhere(s12, s21);
  }

  /** A key put again after its removal: DEL and SREM are queued behind SADD but MSET behind
      them, so its pair is written and no index leads to it. */
  lemma ReputLost(st: Store, c: Cache, now: int, later: int, k: Key)
    requires k in c.dictionary && c.dictionary[k].isNew && k in UpperSet(c.removed)
    ensures k !in Loaded(AfterSave(st, c, now), later)
    ensures k in AfterSave(st, c, now).kv
    ensures AfterSave(st, c, now).kv[k].stored == Stored(c.dictionary[k].key, c.dictionary[k].val)
  {
    hide UpperSet;
  }

  // --- The data layer ---

  /** Every pair is stored under its own key, upper-cased. */
  ghost predicate Keyed(st: Store) {
    forall k :: k in st.kv ==> k != [] && Upper(st.kv[k].stored.key) == k
  }

  lemma SaveKeepsKeyed(st: Store, c: Cache, loaded: map<Key, Stored>, now: int)
    requires Keyed(st) && Tracks(c, loaded)
    ensures Keyed(AfterSave(st, c, now))
  {
    hide Upper, UpperSet;
    var saved := AfterSave(st, c, now);
    forall k | k in saved.kv ensures k != [] && Upper(saved.kv[k].stored.key) == k {
      if k in c.dictionary {
        assert ElementTracks(c.dictionary[k], k, loaded, UpperSet(c.removed));
      }
    }
  }

  datatype Reply = Nil | Value(stored: Stored)

  class Redis {
    var st: Store

    constructor (initial: Store)
      ensures st == initial
    {
      st := initial;
    }

    /** The queued commands at one moment. */
    method Exec(queue: seq<Command>, now: int)
      modifies this
      ensures st == RunAll(old(st), queue, now)
    {
      hide RunCommand;
      for i := 0 to |queue|
        invariant st == RunAll(old(st), queue[..i], now)
      {
        assert queue[..i + 1][..i] == queue[..i];
        st := RunCommand(st, queue[i], now);
      }
      assert queue[..|queue|] == queue;
    }

    /** MGET: the values in the order of the keys, nil for one that is missing or has run out. */
    method MGet(keys: seq<Key>, now: int) returns (replies: seq<Reply>)
      ensures |replies| == |keys|
      ensures forall i :: 0 <= i < |keys| ==> replies[i] == ReplyFor(keys[i], now)
    {
      replies := [];
      for i := 0 to |keys|
        invariant |replies| == i && forall j :: 0 <= j < i ==> replies[j] == ReplyFor(keys[j], now)
      {
        replies := replies + [ReplyFor(keys[i], now)];
      }
    }

    function ReplyFor(key: Key, now: int): Reply
      reads this
    {
      if key in st.kv && Live(st.kv[key], now) then Value(st.kv[key].stored) else Nil
    }

    /** SMEMBERS, in no particular order. */
    method SMembers() returns (keys: seq<Key>)
      ensures ToSet(keys) == st.index
    {
      keys := [];
      var rest := st.index;
      while rest != {}
        invariant rest <= st.index && ToSet(keys) == st.index - rest
        decreases |rest|
      {
        var k :| k in rest;
        ToSetPush(keys, k);
        keys := keys + [k];
        rest := rest - {k};
      }
    }
  }

  function Among(m: map<Key, Stored>, ks: set<Key>): map<Key, Stored> {
    map k | k in m && k in ks :: m[k]
  }

  lemma ToSetPush(keys: seq<Key>, k: Key)
    ensures ToSet(keys + [k]) == ToSet(keys) + {k}
  {
    var all := keys + [k];
    forall u ensures u in ToSet(all) <==> u in ToSet(keys) + {k} {
      if u in ToSet(keys) {
        var i :| 0 <= i < |keys| && keys[i] == u;
        assert all[i] == u;
      }
      if u == k {
        assert all[|keys|] == k;
      }
    }
  }

  method FoldKeys(keys: seq<Key>) returns (folded: seq<Key>)
    ensures folded == UpperAll(keys)
  {
    folded := [];
    for i := 0 to |keys|
      invariant folded == UpperAll(keys)[..i]
    {
      folded := folded + [Upper(keys[i])];
    }
  }

  method SerializeKeys(app: Application, keys: seq<Key>, args: seq<(Key, Stored)>) returns (pairs: seq<(Key, Stored)>)
    ensures pairs == args + Pairs(app.dictionary, keys)
  {
    pairs := args;
    for i := 0 to |keys|
      invariant pairs == args + Pairs(app.dictionary, keys)[..i]
    {
      pairs := pairs + [PairOf(app.dictionary, keys[i])];
    }
  }

  /** The arguments of MSET: the new elements and then the changed ones. */
  method SetArguments(app: Application, states: KeyStates) returns (multipleSet: seq<(Key, Stored)>)
    ensures multipleSet == Pairs(app.dictionary, states.added) + Pairs(app.dictionary, states.changed)
  {
    multipleSet := [];
    if |states.added| > 0 {
      multipleSet := SerializeKeys(app, states.added, multipleSet);
    }
    if |states.changed| > 0 {
      multipleSet := SerializeKeys(app, states.changed, multipleSet);
    }
  }

  method QueueTimers(expiring: seq<(Key, int)>) returns (queue: seq<Command>)
    ensures queue == Timers(expiring)
  {
    queue := [];
    for i := 0 to |expiring|
      invariant queue == Timers(expiring)[..i]
    {
      queue := queue + [PExpire(Upper(expiring[i].0), expiring[i].1)];
    }
  }

  method Queue(app: Application, states: KeyStates) returns (queue: seq<Command>)
    ensures queue == Transaction(states, app.dictionary)
  {
    hide Pairs, Timers, UpperAll;
    var add: seq<Command>, remove: seq<Command>, write: seq<Command> := [], [], [];
    if |states.added| > 0 {
      var folded := FoldKeys(states.added);
      add := [SAdd(folded)];
    }
    if |states.removed| > 0 {
      var folded := FoldKeys(states.removed);
      remove := [Del(folded), SRem(folded)];
    }
    var multipleSet := SetArguments(app, states);
    if |states.changed| > 0 || |states.added| > 0 {
      write := [MSet(multipleSet)];
    }
    var timers := QueueTimers(states.expiring);
    queue := add + remove + write + timers;
  }

  /** The differences as one transaction; a cache without any sends nothing. */
  method ApplicationSave(redis: Redis, app: Application, now: int)
    requires app.Valid()
    modifies redis
    ensures redis.st == AfterSave(old(redis.st), app.State(), now)
    ensures !Changed(app.State()) ==> redis.st == old(redis.st)
    ensures old(Keyed(redis.st)) ==> Keyed(redis.st)
  {
    hide Tracks, AfterSave, Changed, Keyed, RunAll, Lists, Transaction;
    var states := app.GetKeyStates();
    TransactionEffect(redis.st, states, app.State(), now);
    NothingToSave(redis.st, states, app.State(), now);
    if Keyed(redis.st) {
      SaveKeepsKeyed(redis.st, app.State(), app.loaded, now);
    }
    NothingQueued(redis.st, states, app.dictionary, now);
    if |states.added| > 0 || |states.changed| > 0 || |states.removed| > 0 || |states.expiring| > 0 {
      var queue := Queue(app, states);
      redis.Exec(queue, now);
    }
  }

  lemma NothingQueued(st: Store, states: KeyStates, d: Dictionary, now: int)
    ensures RunAll(st, [], now) == st
    ensures Transaction(states, d) == [] <==>
            states.added == [] && states.changed == [] && states.removed == [] && states.expiring == []
  {
  }

  lemma RunOne(st: Store, c: Command, now: int)
    ensures RunAll(st, [c], now) == RunCommand(st, c, now)
  {
  }

  /** Loading through the index; members without a value, which have run out, are taken off
      the index. */
  method ApplicationGet(redis: Redis, now: int) returns (app: Application)
    requires Keyed(redis.st)
    modifies redis
    ensures fresh(app) && app.Valid() && app.loaded == Loaded(old(redis.st), now)
    ensures app.State() == Cache(Fresh(app.loaded), [])
    ensures redis.st == old(redis.st).(index := app.loaded.Keys) && Holds(redis.st, app.loaded)
    ensures Contents(app.dictionary) == app.loaded
  {
    hide Upper;
    var keys := redis.SMembers();
    var replies := redis.MGet(keys, now);
    app := new Application();
    var ghostKeys: seq<Key> := [];
    ghost var found := Loaded(redis.st, now);
    for i := 0 to |keys|
      invariant redis.st == old(redis.st) && app.removed == []
      invariant app.dictionary == Fresh(Among(found, ToSet(keys[..i])))
      invariant ToSet(ghostKeys) == ToSet(keys[..i]) - found.Keys
    {
      assert keys[..i + 1] == keys[..i] + [keys[i]];
      ToSetPush(keys[..i], keys[i]);
      assert keys[i] in ToSet(keys);
      if replies[i].Nil? {
        ToSetPush(ghostKeys, keys[i]);
        ghostKeys := ghostKeys + [keys[i]];
      } else {
        app.Deserialize(replies[i].stored);
      }
    }
    assert keys[..|keys|] == keys;
    assert redis.st.index - ToSet(ghostKeys) == found.Keys;
    RunOne(redis.st, SRem(ghostKeys), now);
    if |ghostKeys| > 0 {
      redis.Exec([SRem(ghostKeys)], now);
    }
    app.SetLoaded(found);
  }
}
