/** Mutual exclusion of the quorum lock over whole runs, and exactly where it stops. */
module RedlockSafety {
  import opened Bytes
  import opened RedlockProtocol

  // --- Every reachable state satisfies the invariant ---

  lemma {:induction false} RunKeepsInv(run: seq<State>, i: nat)
    requires IsRun(run) && i < |run|
    ensures Inv(run[i]) && |run[i].servers| == |run[0].servers| && run[i].quorum == run[0].quorum
    ensures run[0].now <= run[i].now
  {
    if i > 0 {
      RunKeepsInv(run, i - 1);
      assert Next(run[i - 1], run[i - 1 + 1]);
      var step :| Enabled(run[i - 1], step) && Apply(run[i - 1], step) == run[i];
      StepKeepsInv(run[i - 1], step);
    }
  }

  // --- Majorities intersect ---

  lemma {:induction false} BoundedCard(s: set<nat>, n: nat)
    requires forall x :: x in s ==> x < n
    ensures |s| <= n
  {
    if n == 0 {
      assert s == {};
    } else {
      BoundedCard(s - {n - 1}, n - 1);
    }
  }

  lemma QuorumsIntersect(a: set<nat>, b: set<nat>, n: nat) returns (common: nat)
    requires forall x :: x in a ==> x < n
    requires forall x :: x in b ==> x < n
    requires |a| + |b| > n
    ensures common in a && common in b
  {
    BoundedCard(a + b, n);
    assert |a * b| == |a| + |b| - |a + b|;
    common :| common in a * b;
  }

  // --- Mutual exclusion ---

  /** Two calls on one resource, each inside its window and each window ending no
      later than the earliest drop of its own entries, are the same call. */
  lemma ExclusionInState(st: State, v: LockId, w: LockId)
    requires Inv(st) && 2 * st.quorum > |st.servers|
    requires InWindow(st, v) && InWindow(st, w) && st.calls[v].resource == st.calls[w].resource
    requires Until(st.calls[v]) <= EarliestDrop(st.calls[v])
    requires Until(st.calls[w]) <= EarliestDrop(st.calls[w])
    ensures v == w
  {
    assert CallInv(st, v, st.calls[v]) && CallInv(st, w, st.calls[w]);
    var s := QuorumsIntersect(st.calls[v].phase.winners, st.calls[w].phase.winners, |st.servers|);
    assert Backed(st, v, st.calls[v], st.calls[v].phase.since, s);
    assert Backed(st, w, st.calls[w], st.calls[w].phase.since, s);
  }

  /** With a millisecond clock the window is exactly start + ttl - drift. */
  lemma MillisWindow(call: Call)
    requires call.phase.Held? && 0 <= call.phase.since && 0 <= call.phase.decided && call.clock.Millis?
    ensures Until(call) == EarliestDrop(call)
  {
  }

  // --- The clock truncated to seconds ---

  lemma ToInt32Shift(x: int, k: int)
    ensures ToInt32(x + k * 0x1_0000_0000) == ToInt32(x)
  {
    var y := x + 0x8000_0000;
    assert (y + k * 0x1_0000_0000) % 0x1_0000_0000 == y % 0x1_0000_0000;
  }

  lemma ToInt32Congruent(x: int) returns (k: int)
    ensures ToInt32(x) == x + k * 0x1_0000_0000
  {
    k := -((x + 0x8000_0000) / 0x1_0000_0000);
  }

  /** The 32-bit wrap-around of the second clock cancels out of every difference. */
  lemma SecondsDifference(start: nat, at: nat)
    ensures ToInt32(SecondClock(at) - SecondClock(start)) == ToInt32(at / 1000 * 1000 - start / 1000 * 1000)
  {
    var ka := ToInt32Congruent(at / 1000);
    var ja := ToInt32Congruent(ToInt32(at / 1000) * 1000);
    var ks := ToInt32Congruent(start / 1000);
    var js := ToInt32Congruent(ToInt32(start / 1000) * 1000);
    ToInt32Shift(at / 1000 * 1000 - start / 1000 * 1000, ka * 1000 + ja - ks * 1000 - js);
  }

  /** What the truncated clock makes of the validity, for attempts shorter than 2^31 ms:
      it is off by the difference of the two sub-second parts, so it never exceeds
      ttl - drift and overstates the remaining time by strictly less than a second. */
  lemma SecondsValidity(ttl: int, start: nat, at: nat)
    requires 0 <= ttl < 0x8000_0000 && start <= at && at - start < 0x7FFF_FC00
    ensures Validity(Seconds, ttl, start, at) ==
            ttl - (at - start) - Drift(ttl) + (at % 1000 - start % 1000)
    ensures Validity(Seconds, ttl, start, at) <= ttl - Drift(ttl)
    ensures Validity(Seconds, ttl, start, at) < Validity(Millis, ttl, start, at) + 1000
  {
    SecondsDifference(start, at);
    var elapsed := at / 1000 * 1000 - start / 1000 * 1000;
    assert elapsed == at - start - (at % 1000 - start % 1000);
    assert start / 1000 <= at / 1000;
    assert ToInt32(elapsed) == elapsed;
  }

  /** The window granted from the truncated clock is safe exactly when the deciding
      instant lies no later within its second than the starting instant did. */
  lemma SecondsWindowSafeIff(call: Call)
    requires call.phase.Held? && call.clock.Seconds? && 0 <= call.ttl < 0x8000_0000
    requires 0 <= call.phase.since <= call.phase.decided < call.phase.since + 0x7FFF_FC00
    ensures Until(call) <= EarliestDrop(call) <==> call.phase.decided % 1000 <= call.phase.since % 1000
  {
    SecondsValidity(call.ttl, call.phase.since, call.phase.decided);
  }

  /** Checked at the deciding instant: no later within its second than the start. */
  predicate SecondsSafe(call: Call) {
    call.phase.Held? && call.clock.Seconds? && 0 <= call.ttl < 0x8000_0000 &&
    0 <= call.phase.decided < call.phase.since + 0x7FFF_FC00 &&
    call.phase.decided % 1000 <= call.phase.since % 1000
  }

  /** The window ends before any of the call's entries can expire: always with a
      millisecond clock, and with the truncated one under the condition above. */
  predicate WindowSafe(call: Call) {
    call.clock.Millis? || SecondsSafe(call)
  }

  /** Mutual exclusion over every run of any number of clients, whichever clocks they use,
      renewals included. */
  lemma MutualExclusion(run: seq<State>)
    requires IsRun(run) && 2 * run[0].quorum > |run[0].servers|
    ensures forall i, v, w | 0 <= i < |run| && InWindow(run[i], v) && InWindow(run[i], w) &&
                             run[i].calls[v].resource == run[i].calls[w].resource &&
                             WindowSafe(run[i].calls[v]) && WindowSafe(run[i].calls[w]) :: v == w
  {
    forall i, v, w | 0 <= i < |run| && InWindow(run[i], v) && InWindow(run[i], w) &&
                     run[i].calls[v].resource == run[i].calls[w].resource &&
                     WindowSafe(run[i].calls[v]) && WindowSafe(run[i].calls[w])
      ensures v == w
    {
      RunKeepsInv(run, i);
      SafeUntil(run[i], v);
      SafeUntil(run[i], w);
      ExclusionInState(run[i], v, w);
    }
  }

  lemma SafeUntil(st: State, v: LockId)
    requires Inv(st) && InWindow(st, v) && WindowSafe(st.calls[v])
    ensures Until(st.calls[v]) <= EarliestDrop(st.calls[v])
  {
    assert CallInv(st, v, st.calls[v]);
    if st.calls[v].clock.Seconds? {
      SecondsWindowSafeIff(st.calls[v]);
    }
  }

  // --- Runs built step by step ---

  ghost predicate Reaches(a: State, b: State) {
    exists path :: IsPath(path) && path[0] == a && path[|path| - 1] == b
  }

  lemma ReachesSelf(a: State)
    ensures Reaches(a, a)
  {
    assert IsPath([a]);
  }

  lemma ReachesStep(a: State, b: State, step: Step)
    requires Reaches(a, b) && Enabled(b, step)
    ensures Reaches(a, Apply(b, step))
  {
    var path :| IsPath(path) && path[0] == a && path[|path| - 1] == b;
    var path' := path + [Apply(b, step)];
    forall i | 0 <= i < |path'| - 1 ensures Next(path'[i], path'[i + 1]) {
      if i < |path| - 1 {
        assert Next(path[i], path[i + 1]);
      } else {
        assert path'[i] == b;
      }
    }
    assert IsPath(path');
  }

  /** Two callers inside their windows for one resource. */
  ghost predicate Clash(st: State) {
    exists v, w :: v != w && InWindow(st, v) && InWindow(st, w) && st.calls[v].resource == st.calls[w].resource
  }

  // --- What a call can reach on its own: locking, releasing, and the need for a majority ---

  /** Every server in `wanted` from `from` on is free of the resource and the call is an ordinary one. */
  ghost predicate CanWin(st: State, id: LockId, from: nat, wanted: set<nat>) {
    id in st.calls && st.calls[id].mode.Plain? && st.calls[id].ttl > 0 &&
    forall s :: s in wanted ==>
      s < |st.servers| && (s >= from ==> st.calls[id].resource !in st.servers[s])
  }

  /** Servers after `id` has set its entry on exactly the servers in `wanted` from `k` on. */
  function WithEntries(servers: seq<Server>, k: nat, wanted: set<nat>, key: Resource, e: Entry): seq<Server> {
    seq(|servers|, s requires 0 <= s < |servers| => if s >= k && s in wanted then servers[s][key := e] else servers[s])
  }

  /** The state once the server loop has reached exactly the servers in `wanted`. */
  ghost function AfterAsking(b: State, id: LockId, wanted: set<nat>): State
    requires id in b.calls && b.calls[id].phase.Acquiring?
  {
    var c := b.calls[id];
    var Acquiring(start, next, won) := c.phase;
    b.(servers := WithEntries(b.servers, next, wanted, c.resource, Entry(id, b.now, c.ttl)),
       calls := b.calls[id := c.(phase := Acquiring(start, |b.servers|, won + set s | s in wanted && s >= next))])
  }

  /** Asking the next server brings the loop one server closer to the same end. */
  lemma AskingOne(b: State, id: LockId, wanted: set<nat>, step: Step)
    requires id in b.calls && b.calls[id].phase.Acquiring? && b.calls[id].phase.next < |b.servers|
    requires CanWin(b, id, b.calls[id].phase.next, wanted)
    requires step == AskServer(id, if b.calls[id].phase.next in wanted then Acknowledged else Lost)
    ensures Apply(b, step).calls[id].phase == b.calls[id].phase.(next := b.calls[id].phase.next + 1,
              won := Apply(b, step).calls[id].phase.won)
    ensures CanWin(Apply(b, step), id, b.calls[id].phase.next + 1, wanted)
    ensures AfterAsking(Apply(b, step), id, wanted) == AfterAsking(b, id, wanted)
  {
    var c := b.calls[id];
    var Acquiring(start, next, won) := c.phase;
    var b1 := Apply(b, step);
    var e := Entry(id, b.now, c.ttl);
    assert WithEntries(b1.servers, next + 1, wanted, c.resource, e)
        == WithEntries(b.servers, next, wanted, c.resource, e);
    assert b1.calls[id].phase.won + (set s | s in wanted && s >= next + 1)
        == won + (set s | s in wanted && s >= next);
  }

  /** The server loop, when exactly the servers in `wanted` are reached. */
  lemma {:induction false} AskAll(a: State, b: State, id: LockId, wanted: set<nat>)
    requires Reaches(a, b) && id in b.calls && b.calls[id].phase.Acquiring?
    requires b.calls[id].phase.next <= |b.servers| && CanWin(b, id, b.calls[id].phase.next, wanted)
    ensures Reaches(a, AfterAsking(b, id, wanted))
    decreases |b.servers| - b.calls[id].phase.next
  {
    var c := b.calls[id];
    if c.phase.next == |b.servers| {
      assert c.phase.won + (set s | s in wanted && s >= c.phase.next) == c.phase.won;
      assert c.(phase := Acquiring(c.phase.start, |b.servers|, c.phase.won)) == c;
      assert WithEntries(b.servers, c.phase.next, wanted, c.resource, Entry(id, b.now, c.ttl)) == b.servers;
      assert b.calls[id := c] == b.calls;
      assert AfterAsking(b, id, wanted) == b;
    } else {
      var step := AskServer(id, if c.phase.next in wanted then Acknowledged else Lost);
      ReachesStep(a, b, step);
      AskingOne(b, id, wanted, step);
      AskAll(a, Apply(b, step), id, wanted);
    }
  }

  /** An attempt that wins `wanted` on servers free of the resource becomes a hold. */
  lemma Acquire(a: State, b: State, id: LockId, wanted: set<nat>) returns (b': State)
    requires Reaches(a, b) && CanWin(b, id, 0, wanted) && b.calls[id].phase.Waiting? && b.calls[id].tries > 0
    requires |wanted| >= b.quorum && Validity(b.calls[id].clock, b.calls[id].ttl, b.now, b.now) > 0
    ensures Reaches(a, b')
    ensures var c := b.calls[id];
            b' == b.(servers := WithEntries(b.servers, 0, wanted, c.resource, Entry(id, b.now, c.ttl)),
                     calls := b.calls[id := c.(tries := c.tries - 1, phase := Held(b.now, wanted, b.now))])
    ensures InWindow(b', id)
  {
    ReachesStep(a, b, StartAttempt(id));
    var b1 := Apply(b, StartAttempt(id));
    AskAll(a, b1, id, wanted);
    var b2 := AfterAsking(b1, id, wanted);
    assert {} + (set s | s in wanted && s >= 0) == wanted;
    ReachesStep(a, b2, Decide(id));
    b' := Apply(b2, Decide(id));
  }

  /** The compare-and-delete loop, when every server is reached. */
  lemma {:induction false} ReleaseAll(a: State, b: State, id: LockId) returns (b': State)
    requires Reaches(a, b) && id in b.calls && b.calls[id].phase.Releasing?
    requires b.calls[id].phase.cursor <= |b.servers|
    ensures Reaches(a, b')
    ensures var c := b.calls[id];
            b' == b.(servers := seq(|b.servers|, s requires 0 <= s < |b.servers| =>
                                  if s >= c.phase.cursor then CompareDelete(b.servers[s], c.resource, id)
                                  else b.servers[s]),
                     calls := b.calls[id := c.(phase := Releasing(|b.servers|))])
    decreases |b.servers| - b.calls[id].phase.cursor
  {
    var c := b.calls[id];
    if c.phase.cursor == |b.servers| {
      b' := b;
      assert b.calls[id := c] == b.calls;
    } else {
      ReachesStep(a, b, ReleaseServer(id, true));
      b' := ReleaseAll(a, Apply(b, ReleaseServer(id, true)), id);
    }
  }

  /** A lock that is granted and then released leaves every server as it was,
      entries of other clients included. */
  lemma LockThenUnlock(b: State, id: LockId) returns (held: State, released: State)
    requires id in b.calls && b.calls[id].phase.Waiting? && b.calls[id].tries > 0
    requires b.calls[id].mode.Plain? && b.calls[id].ttl > 0
    requires Validity(b.calls[id].clock, b.calls[id].ttl, b.now, b.now) > 0
    requires |set s: nat | s < |b.servers| && b.calls[id].resource !in b.servers[s]| >= b.quorum
    requires forall s :: 0 <= s < |b.servers| && b.calls[id].resource in b.servers[s] ==>
                         b.servers[s][b.calls[id].resource].holder != id
    ensures Reaches(b, held) && InWindow(held, id)
    ensures Reaches(held, released) && released.servers == b.servers
  {
    var c := b.calls[id];
    var wanted := set s: nat | s < |b.servers| && c.resource !in b.servers[s];
    hide Reaches;
    ReachesSelf(b);
    held := Acquire(b, b, id, wanted);
    ReachesSelf(held);
    ReachesStep(held, held, Unlock(id));
    var r1 := Apply(held, Unlock(id));
    var r2 := ReleaseAll(held, r1, id);
    ReachesStep(held, r2, EndRelease(id));
    released := Apply(r2, EndRelease(id));
    forall s | 0 <= s < |b.servers| ensures released.servers[s] == b.servers[s] {
      assert s in wanted <==> c.resource !in b.servers[s];
    }
  }

  /** A quorum that is not a majority is not enough, whatever the number of servers:
      two clients can win disjoint sets of servers.  With no server at all and the
      quorum still 0, as before the first AddServerUrl, this is the only case. */
  lemma MinorityClash(n: nat, q: nat) returns (a: State, b: State)
    requires 2 * q <= n
    ensures Initial(a) && |a.servers| == n && a.quorum == q && Reaches(a, b) && Clash(b) && AllMillis(b)
  {
    a := State(0, q, seq(n, _ => map[]), map[], map[]);
    ReachesSelf(a);
    ReachesStep(a, a, Begin(1, "r", 1000, Millis, 1));
    var b1 := Apply(a, Begin(1, "r", 1000, Millis, 1));
    ReachesStep(a, b1, Begin(2, "r", 1000, Millis, 1));
    var b2 := Apply(b1, Begin(2, "r", 1000, Millis, 1));
    var low, high := Range(0, q), Range(q, 2 * q);
    var b3 := Acquire(a, b2, 1, low);
    b := Acquire(a, b3, 2, high);
    assert InWindow(b, 1) && InWindow(b, 2);
  }

  // --- Exactly where the truncated clock loses exclusion ---

  /** One entry dropped by every server from `k` on, once it may expire. */
  lemma {:induction false} DropAll(a: State, b: State, key: Resource, e: Entry, k: nat) returns (b': State)
    requires Reaches(a, b) && k <= |b.servers| && b.now >= e.setAt + e.ttl - Drift(e.ttl)
    requires forall s :: 0 <= s < |b.servers| ==> b.servers[s] == if s < k then map[] else map[key := e]
    ensures Reaches(a, b') && b' == b.(servers := seq(|b.servers|, _ => map[]))
    decreases |b.servers| - k
  {
    hide Reaches;
    if k == |b.servers| {
      assert seq(|b.servers|, _ => map[]) == b.servers;
      b' := b;
    } else {
      ReachesStep(a, b, Expire(k, key));
      b' := DropAll(a, Apply(b, Expire(k, key)), key, e, k + 1);
    }
  }

  /** The latest whole-second reading below `w` ms, at its last millisecond. */
  function LastInstant(w: nat): (d: nat)
    requires w > 0
    ensures d == (w - 1) / 1000 * 1000 + 999 && w - 1 <= d < w + 999
    ensures 0 < w + d % 1000 - d
  {
    (w - 1) / 1000 * 1000 + 999
  }

  /** A client that starts at 0 and decides as late as it can still see validity left. */
  lemma LateHolder(a: State, c: Call, n: nat, q: nat, ttl: int) returns (b: State)
    requires 0 <= ttl < 0x8000_0000 && ttl - Drift(ttl) > 0 && q <= n
    requires a == State(0, q, seq(n, _ => map[]), map[], map[]) && c == Call("r", ttl, Seconds, Plain, 1, Waiting)
    ensures var d := LastInstant(ttl - Drift(ttl));
            Reaches(a, b) && b == State(d, q, seq(n, _ => map["r" := Entry(1, 0, ttl)]),
                                        map[1 := c.(tries := 0, phase := Held(0, Range(0, n), d)), 2 := c], map[])
  {
    hide Reaches, Range, LastInstant;
    var d, all := LastInstant(ttl - Drift(ttl)), Range(0, n);
    ReachesSelf(a);
    ReachesStep(a, a, Begin(1, "r", ttl, Seconds, 1));
    b := Apply(a, Begin(1, "r", ttl, Seconds, 1));
    ReachesStep(a, b, Begin(2, "r", ttl, Seconds, 1));
    b := Apply(b, Begin(2, "r", ttl, Seconds, 1));
    ReachesStep(a, b, StartAttempt(1));
    b := Apply(b, StartAttempt(1));
    AskAll(a, b, 1, all);
    b := AfterAsking(b, 1, all);
    assert {} + (set s | s in all && s >= 0) == all;
    assert b.servers == seq(n, _ => map["r" := Entry(1, 0, ttl)]);
    ReachesStep(a, b, Tick(d));
    b := Apply(b, Tick(d));
    SecondsValidity(ttl, 0, d);
    ReachesStep(a, b, Decide(1));
    b := Apply(b, Decide(1));
    assert b.calls == map[1 := c.(tries := 0, phase := Held(0, all, d)), 2 := c];
  }

  ghost predicate AllSeconds(st: State, ttl: int) {
    forall id :: id in st.calls ==> st.calls[id].clock.Seconds? && st.calls[id].ttl == ttl
  }

  /** Attempts shorter than 2^31 ms. */
  ghost predicate ShortAttempts(st: State) {
    forall id :: id in st.calls && st.calls[id].phase.Held? ==>
      st.calls[id].phase.decided < st.calls[id].phase.since + 0x7FFF_FC00
  }

  /** With any quorum that can be won and any ttl that leaves some validity, two native
      clients come to hold one lock: the first decides at the end of a second, its
      entries run out, and the second wins every server. */
  lemma SecondsClashes(n: nat, q: nat, ttl: int) returns (a: State, b: State)
    requires 0 <= ttl < 0x8000_0000 && ttl - Drift(ttl) > 0 && q <= n
    ensures Initial(a) && |a.servers| == n && a.quorum == q && Reaches(a, b) && Clash(b)
    ensures AllSeconds(b, ttl) && ShortAttempts(b)
  {
    hide Reaches, LastInstant, Clash, AllSeconds, ShortAttempts, HoldersAt, InWindow;
    var c := Call("r", ttl, Seconds, Plain, 1, Waiting);
    a := State(0, q, seq(n, _ => map[]), map[], map[]);
    b := LateHolder(a, c, n, q, ttl);
    b := Overtaken(a, b, c, n, ttl);
    StillInside(b, c, Range(0, n), ttl);
  }

  lemma StillInside(b: State, c: Call, all: set<nat>, ttl: int)
    requires 0 <= ttl < 0x8000_0000 && ttl - Drift(ttl) > 0
    requires c == Call("r", ttl, Seconds, Plain, 1, Waiting) && HoldersAt(b, c, all, ttl) && InWindow(b, 2)
    ensures Clash(b) && AllSeconds(b, ttl) && ShortAttempts(b)
  {
    SecondsValidity(ttl, 0, LastInstant(ttl - Drift(ttl)));
    assert InWindow(b, 1);
  }

  /** The first holder since 0, the second one since the entries of the first ran out. */
  ghost predicate HoldersAt(b: State, c: Call, all: set<nat>, ttl: int)
    requires ttl - Drift(ttl) > 0
  {
    var w, d := ttl - Drift(ttl), LastInstant(ttl - Drift(ttl));
    b.now == (if d < w then w else d) &&
    b.calls == map[1 := c.(tries := 0, phase := Held(0, all, d)), 2 := c.(tries := 0, phase := Held(b.now, all, b.now))]
  }

  /** The entries of the first holder run out and a second client takes every server. */
  lemma Overtaken(a: State, b: State, c: Call, n: nat, ttl: int) returns (b': State)
    requires 0 <= ttl < 0x8000_0000 && ttl - Drift(ttl) > 0 && b.quorum <= n
    requires c == Call("r", ttl, Seconds, Plain, 1, Waiting) && Reaches(a, b)
    requires b.now == LastInstant(ttl - Drift(ttl))
    requires b.calls == map[1 := c.(tries := 0, phase := Held(0, Range(0, n), b.now)), 2 := c]
    requires b.servers == seq(n, _ => map["r" := Entry(1, 0, ttl)])
    ensures Reaches(a, b') && InWindow(b', 2) && HoldersAt(b', c, Range(0, n), ttl)
  {
    hide Reaches, LastInstant, Range, Clash;
    var w, d := ttl - Drift(ttl), b.now;
    var wait := Tick(if d < w then w - d else 0);
    ReachesStep(a, b, wait);
    b' := Apply(b, wait);
    b' := DropAll(a, b', "r", Entry(1, 0, ttl), 0);
    SecondsValidity(ttl, b'.now, b'.now);
    b' := Acquire(a, b', 2, Range(0, n));
  }

  /** One server, quorum one, ttl 1000 ms: a client that starts at 0 and decides at 999 ms
      is granted 988 ms more, although its entry may be gone at 988 ms. */
  lemma SecondsClash() returns (a: State, b: State)
    ensures Initial(a) && |a.servers| == 1 && a.quorum == 1
    ensures Reaches(a, b) && Clash(b)
  {
    a, b := SecondsClashes(1, 1, 1000);
  }

  /** A run of clients with truncated clocks and this ttl on `n` servers with quorum `q`. */
  ghost predicate SecondsRun(run: seq<State>, n: nat, q: nat, ttl: int) {
    IsRun(run) && |run[0].servers| == n && run[0].quorum == q &&
    AllSeconds(run[|run| - 1], ttl) && ShortAttempts(run[|run| - 1])
  }

  /** No server accepts an entry whose ttl is not positive. */
  predicate WonNothing(c: Call) {
    c.ttl <= 0 ==>
      match c.phase
      case Acquiring(_, _, won) => won == {}
      case Held(_, winners, _) => winners == {}
      case _ => true
  }

  ghost predicate NothingWon(st: State) {
    forall id :: id in st.calls ==> WonNothing(st.calls[id])
  }

  lemma StepWinsNothing(st: State, step: Step)
    requires NothingWon(st) && Enabled(st, step)
    ensures NothingWon(Apply(st, step))
  {
    var st' := Apply(st, step);
    forall id | id in st'.calls ensures WonNothing(st'.calls[id]) {
      if id in st.calls {
        assert WonNothing(st.calls[id]);
      }
      match step
      case AskServer(asked, delivery) => AskWinsNothing(st, asked, delivery, id);
      case _ =>
    }
  }

  lemma AskWinsNothing(st: State, asked: LockId, delivery: Delivery, id: LockId)
    requires Enabled(st, AskServer(asked, delivery)) && id in st.calls && WonNothing(st.calls[id])
    ensures WonNothing(Apply(st, AskServer(asked, delivery)).calls[id])
  {
  }

  lemma {:induction false} RunWinsNothing(run: seq<State>, i: nat)
    requires IsRun(run) && i < |run|
    ensures NothingWon(run[i])
  {
    hide NothingWon;
    if i == 0 {
      NothingAtFirst(run[0]);
    } else {
      RunWinsNothing(run, i - 1);
      assert Next(run[i - 1], run[i - 1 + 1]);
      var step :| Enabled(run[i - 1], step) && Apply(run[i - 1], step) == run[i];
      StepWinsNothing(run[i - 1], step);
    }
  }

  lemma NothingAtFirst(st: State)
    requires Initial(st)
    ensures NothingWon(st)
  {
  }

  /** Nobody holds a lock that cannot be won or leaves no validity. */
  lemma NobodyHolds(run: seq<State>, n: nat, q: nat, ttl: int)
    requires SecondsRun(run, n, q, ttl) && ttl < 0x8000_0000 && (ttl - Drift(ttl) <= 0 || q > n)
    requires ttl >= 0 || q > 0
    ensures !Clash(run[|run| - 1])
  {
    var st := run[|run| - 1];
    RunKeepsInv(run, |run| - 1);
    RunWinsNothing(run, |run| - 1);
    if v :| InWindow(st, v) {
      var c := st.calls[v];
      assert CallInv(st, v, c);
      BoundedCard(c.phase.winners, n);
      if ttl >= 0 {
        SecondsValidity(ttl, c.phase.since, c.phase.decided);
      }
      assert false;
    }
  }

  /** With truncated clocks two callers never share a window in any run if and only if the
      ttl leaves no validity at all or the quorum cannot be won: a majority is not enough. */
  lemma SecondsExclusionIff(n: nat, q: nat, ttl: int)
    requires ttl < 0x8000_0000 && (ttl >= 0 || q > 0)
    ensures (forall run | SecondsRun(run, n, q, ttl) :: !Clash(run[|run| - 1])) <==> ttl - Drift(ttl) <= 0 || q > n
  {
    if ttl - Drift(ttl) <= 0 || q > n {
      forall run | SecondsRun(run, n, q, ttl) ensures !Clash(run[|run| - 1]) {
        NobodyHolds(run, n, q, ttl);
      }
    } else {
      var a, b := SecondsClashes(n, q, ttl);
      var run :| IsPath(run) && run[0] == a && run[|run| - 1] == b;
      assert SecondsRun(run, n, q, ttl);
    }
  }

  function Range(lo: nat, hi: nat): (r: set<nat>)
    requires lo <= hi
    ensures forall x :: x in r <==> lo <= x < hi
    ensures |r| == hi - lo
    decreases hi
  {
    if lo == hi then {} else Range(lo, hi - 1) + {hi - 1}
  }

  ghost predicate AllMillis(st: State) {
    forall id :: id in st.calls ==> st.calls[id].clock.Millis?
  }

  /** A run of clients with millisecond clocks on `n` servers with quorum `q`. */
  ghost predicate MillisRun(run: seq<State>, n: nat, q: nat) {
    IsRun(run) && |run[0].servers| == n && run[0].quorum == q && AllMillis(run[|run| - 1])
  }

  /** Two callers never share a window in any run on n servers with quorum q
      if and only if q is a majority of n. */
  lemma ExclusionIffMajority(n: nat, q: nat)
    ensures (forall run | MillisRun(run, n, q) :: !Clash(run[|run| - 1])) <==> 2 * q > n
  {
    if 2 * q > n {
      forall run | MillisRun(run, n, q) ensures !Clash(run[|run| - 1]) {
        MutualExclusion(run);
      }
    } else {
      var a, b := MinorityClash(n, q);
      var run :| IsPath(run) && run[0] == a && run[|run| - 1] == b;
      assert MillisRun(run, n, q);
    }
  }
}
