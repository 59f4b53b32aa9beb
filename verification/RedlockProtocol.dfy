/** The quorum lock as a step system.  Any number of lock calls (each with its own
    random lock id, as every call to `Lock` draws one) run against a list of servers
    whose calls are atomic.  Time is in milliseconds.

    A call is either a plain lock (SET NX PX on every server) or a renewal (the
    renewal script: delete the entry if it still carries the displaced id, then
    SET NX PX).  A server call may be lost on the way out or on the way back, a
    server may drop an entry early by at most the drift allowance, and a failed
    attempt's compare-and-delete loop may be cut short. */
module RedlockProtocol {
  import opened Bytes

  type LockId = nat
  type Client = nat
  type Resource = string

  /** How a client reads the time: with a millisecond clock, or with a clock
      truncated to whole seconds and multiplied back in 32-bit arithmetic. */
  datatype Clock = Millis | Seconds

  datatype Entry = Entry(holder: LockId, setAt: int, ttl: int)

  type Server = map<Resource, Entry>

  datatype Mode = Plain | Renewal(client: Client, displaced: LockId)

  datatype Phase =
    | Waiting
    | Acquiring(start: int, next: nat, won: set<nat>)
    | Held(since: int, winners: set<nat>, decided: int)
    | Releasing(cursor: nat)
    | Ended

  /** One call to Lock or ContinueLock; `tries` attempts are still to come. */
  datatype Call = Call(resource: Resource, ttl: int, clock: Clock, mode: Mode, tries: nat, phase: Phase)

  datatype State = State(now: nat, quorum: int, servers: seq<Server>, calls: map<LockId, Call>,
                         renewed: map<Client, LockId>)

  datatype Delivery = Lost | Unacknowledged | Acknowledged

  datatype Step =
    | Tick(elapsed: nat)
    | Expire(server: nat, key: Resource)
    | Begin(id: LockId, resource: Resource, ttl: int, clock: Clock, tries: nat)
    | BeginRenewal(id: LockId, resource: Resource, ttl: int, clock: Clock, tries: nat, client: Client)
    | StartAttempt(id: LockId)
    | AskServer(id: LockId, delivery: Delivery)
    | Decide(id: LockId)
    | ReleaseServer(id: LockId, delivered: bool)
    | EndRelease(id: LockId)
    | Unlock(id: LockId)

  // --- Validity arithmetic ---

  /** One hundredth of the ttl, truncated toward zero, plus 2 ms. */
  function Drift(ttl: int): int {
    (if ttl >= 0 then ttl / 100 else -(-ttl / 100)) + 2
  }

  /** Whole hundreds of the ttl, counted toward zero. */
  lemma DriftRounds(ttl: int)
    ensures ttl >= 0 ==> 100 * (Drift(ttl) - 2) <= ttl < 100 * (Drift(ttl) - 1)
    ensures ttl < 0 ==> Drift(-ttl) - 2 == 2 - Drift(ttl)
  {
  }

  /** `(int)time(NULL) * 1000` at real time `t` ms. */
  function SecondClock(t: nat): int {
    ToInt32(ToInt32(t / 1000) * 1000)
  }

  /** The remaining validity a client computes at time `at` for an attempt begun at `start`. */
  function Validity(clock: Clock, ttl: int, start: int, at: int): int
    requires 0 <= start && 0 <= at
  {
    match clock
    case Millis => ttl - (at - start) - Drift(ttl)
    case Seconds => ToInt32(ttl - ToInt32(SecondClock(at) - SecondClock(start)) - Drift(ttl))
  }

  // --- Server scripts ---

  /** SET key id PX ttl NX; a server refuses a ttl that is not positive. */
  function SetNx(server: Server, key: Resource, id: LockId, now: int, ttl: int): (Server, bool) {
    if ttl <= 0 || key in server then (server, false)
    else (server[key := Entry(id, now, ttl)], true)
  }

  /** The unlock script. */
  function CompareDelete(server: Server, key: Resource, id: LockId): Server {
    if key in server && server[key].holder == id then server - {key} else server
  }

  /** What one server does for one attempt: plain SET NX, or the renewal script. */
  function AcquireOn(server: Server, call: Call, id: LockId, now: int): (Server, bool) {
    match call.mode
    case Plain => SetNx(server, call.resource, id, now, call.ttl)
    case Renewal(_, displaced) =>
      SetNx(CompareDelete(server, call.resource, displaced), call.resource, id, now, call.ttl)
  }

  /** The unlock script removes the entry that carries the id, and nothing else. */
  lemma DeletesOwn(server: Server, key: Resource, id: LockId)
    ensures var server' := CompareDelete(server, key, id);
            (forall k :: k in server' <==> k in server && (k == key ==> server[k].holder != id)) &&
            (forall k :: k in server' ==> server'[k] == server[k])
  {
  }

  /** One attempt succeeds if and only if the ttl is positive and the key is free, or held by the
      lock that is renewed; the entry is then the call's.  Other keys stay as they are, and a
      failure takes away at most the displaced entry. */
  lemma AcquireMeans(server: Server, call: Call, id: LockId, now: int)
    ensures var (server', ok) := AcquireOn(server, call, id, now);
            var displaces := call.mode.Renewal? && call.resource in server &&
                             server[call.resource].holder == call.mode.displaced;
            (ok <==> call.ttl > 0 && (call.resource !in server || displaces)) &&
            (ok ==> server' == server[call.resource := Entry(id, now, call.ttl)]) &&
            (!ok ==> server' == if displaces then server - {call.resource} else server)
  {
  }

  /** The call has returned and can never acquire again. */
  predicate Finished(call: Call) {
    call.tries == 0 && (call.phase.Ended? || call.phase.Releasing?)
  }

  /** A later ContinueLock on the same client object may replace this call's lock. */
  predicate Returned(call: Call) {
    call.phase.Held? || Finished(call)
  }

  // --- Steps ---

  predicate Enabled(st: State, step: Step) {
    match step
    case Tick(_) => true
    case Expire(s, key) =>
      s < |st.servers| && key in st.servers[s] &&
      var e := st.servers[s][key]; st.now >= e.setAt + e.ttl - Drift(e.ttl)
    case Begin(id, _, _, _, _) => id !in st.calls
    case BeginRenewal(id, _, _, _, _, client) =>
      id !in st.calls &&
      (client in st.renewed ==>
         st.renewed[client] in st.calls && Returned(st.calls[st.renewed[client]]))
    case StartAttempt(id) => id in st.calls && st.calls[id].phase.Waiting? && st.calls[id].tries > 0
    case AskServer(id, _) =>
      id in st.calls && st.calls[id].phase.Acquiring? && st.calls[id].phase.next < |st.servers|
    case Decide(id) =>
      id in st.calls && st.calls[id].phase.Acquiring? && st.calls[id].phase.next == |st.servers| &&
      st.calls[id].phase.start >= 0
    case ReleaseServer(id, _) =>
      id in st.calls && st.calls[id].phase.Releasing? && st.calls[id].phase.cursor < |st.servers|
    case EndRelease(id) => id in st.calls && st.calls[id].phase.Releasing?
    case Unlock(id) => id in st.calls && (st.calls[id].phase.Held? || st.calls[id].phase.Ended?)
  }

  function WithCall(st: State, id: LockId, call: Call): State {
    st.(calls := st.calls[id := call])
  }

  function WithServer(st: State, s: nat, server: Server): State
    requires s < |st.servers|
  {
    st.(servers := st.servers[s := server])
  }

  function Apply(st: State, step: Step): State
    requires Enabled(st, step)
  {
    match step
    case Tick(elapsed) => st.(now := st.now + elapsed)
    case Expire(s, key) => WithServer(st, s, st.servers[s] - {key})
    case Begin(id, resource, ttl, clock, tries) =>
      WithCall(st, id, Call(resource, ttl, clock, Plain, tries, if tries > 0 then Waiting else Ended))
    case BeginRenewal(id, resource, ttl, clock, tries, client) =>
      // The first renewal of a client object displaces its own fresh id.
      var displaced := if client in st.renewed then st.renewed[client] else id;
      var st1 := if displaced == id then st
                 else WithCall(st, displaced, EndHold(st.calls[displaced]));
      WithCall(st1, id, Call(resource, ttl, clock, Renewal(client, displaced), tries,
                             if tries > 0 then Waiting else Ended))
    case StartAttempt(id) =>
      var c := st.calls[id];
      WithCall(st, id, c.(tries := c.tries - 1, phase := Acquiring(st.now, 0, {})))
    case AskServer(id, delivery) =>
      var c := st.calls[id];
      var Acquiring(start, next, won) := c.phase;
      var (server, ok) := AcquireOn(st.servers[next], c, id, st.now);
      var counted := if ok && delivery.Acknowledged? then won + {next} else won;
      var st1 := if delivery.Lost? then st else WithServer(st, next, server);
      WithCall(st1, id, c.(phase := Acquiring(start, next + 1, counted)))
    case Decide(id) =>
      var c := st.calls[id];
      var Acquiring(start, _, won) := c.phase;
      var phase := if |won| >= st.quorum && Validity(c.clock, c.ttl, start, st.now) > 0
                   then Held(start, won, st.now) else Releasing(0);
      if c.mode.Plain? then WithCall(st, id, c.(phase := phase))
      else
        // The client object now remembers this id as the one to displace.
        WithCall(st, id, c.(phase := phase, mode := Renewal(c.mode.client, id)))
          .(renewed := st.renewed[c.mode.client := id])
    case ReleaseServer(id, delivered) =>
      var c := st.calls[id];
      var s := c.phase.cursor;
      var st1 := if delivered then WithServer(st, s, CompareDelete(st.servers[s], c.resource, id)) else st;
      WithCall(st1, id, c.(phase := Releasing(s + 1)))
    case EndRelease(id) =>
      var c := st.calls[id];
      WithCall(st, id, c.(phase := if c.tries > 0 then Waiting else Ended))
    case Unlock(id) => WithCall(st, id, st.calls[id].(tries := 0, phase := Releasing(0)))
  }

  /** A server that is asked counts if and only if it accepts and its acknowledgement arrives; only
      a lost request leaves it as it was, and no other server is touched. */
  lemma AskMeans(st: State, id: LockId, delivery: Delivery)
    requires Enabled(st, AskServer(id, delivery))
    ensures var c, st' := st.calls[id], Apply(st, AskServer(id, delivery));
            var s, c' := c.phase.next, st'.calls[id];
            var (server, ok) := AcquireOn(st.servers[s], c, id, st.now);
            c' == c.(phase := c'.phase) && c'.phase.Acquiring? && c'.phase.start == c.phase.start && c'.phase.next == s + 1 &&
            (forall k :: k in c'.phase.won <==> k in c.phase.won || (k == s && ok && delivery == Acknowledged)) &&
            |st'.servers| == |st.servers| && st'.servers[s] == (if delivery == Lost then st.servers[s] else server) &&
            forall k :: 0 <= k < |st.servers| && k != s ==> st'.servers[k] == st.servers[k]
  {
  }

  /** The decision: held on a quorum with validity left, from now on, or to be released.  A renewal
      makes its client object remember the lock. */
  lemma DecisionMeans(st: State, id: LockId)
    requires Enabled(st, Decide(id))
    ensures var c, st' := st.calls[id], Apply(st, Decide(id));
            var c' := st'.calls[id];
            (c'.phase.Held? <==>
               |c.phase.won| >= st.quorum && Validity(c.clock, c.ttl, c.phase.start, st.now) > 0) &&
            (c'.phase.Held? ==> c'.phase == Held(c.phase.start, c.phase.won, st.now)) &&
            (!c'.phase.Held? ==> c'.phase == Releasing(0)) &&
            c'.tries == c.tries && st'.servers == st.servers &&
            (c.mode.Renewal? ==> c'.mode == Renewal(c.mode.client, id) && st'.renewed == st.renewed[c.mode.client := id]) &&
            (c.mode.Plain? ==> c'.mode == Plain && st'.renewed == st.renewed)
  {
  }

  /** A renewal has begun: the displaced call no longer counts as holding. */
  function EndHold(call: Call): Call {
    if call.phase.Held? then call.(tries := 0, phase := Ended) else call
  }

  // --- Runs ---

  predicate Initial(st: State) {
    st.calls == map[] && st.renewed == map[]
  }

  ghost predicate Next(st: State, st': State) {
    exists step :: Enabled(st, step) && Apply(st, step) == st'
  }

  ghost predicate IsPath(path: seq<State>) {
    |path| > 0 && forall i :: 0 <= i < |path| - 1 ==> Next(path[i], path[i + 1])
  }

  ghost predicate IsRun(run: seq<State>) {
    |run| > 0 && IsPath(run) && Initial(run[0])
  }

  /** The moment up to which the caller was told it may use the lock. */
  function Until(call: Call): int
    requires call.phase.Held? && 0 <= call.phase.since && 0 <= call.phase.decided
  {
    call.phase.decided + Validity(call.clock, call.ttl, call.phase.since, call.phase.decided)
  }

  /** The earliest moment any entry of the attempt can be dropped by a server. */
  function EarliestDrop(call: Call): int
    requires call.phase.Held?
  {
    call.phase.since + call.ttl - Drift(call.ttl)
  }

  /** `id` is inside the validity window its caller was given. */
  ghost predicate InWindow(st: State, id: LockId) {
    id in st.calls && st.calls[id].phase.Held? &&
    0 <= st.calls[id].phase.since && 0 <= st.calls[id].phase.decided &&
    st.now < Until(st.calls[id])
  }

  // --- The invariant ---

  /** Server `s` still holds the entry this attempt made, unless it may already have expired. */
  ghost predicate Backed(st: State, id: LockId, call: Call, start: int, s: nat)
    requires s < |st.servers|
  {
    st.now >= start + call.ttl - Drift(call.ttl) ||
    (call.resource in st.servers[s] &&
     var e := st.servers[s][call.resource];
     e.holder == id && e.setAt >= start && e.ttl == call.ttl)
  }

  ghost predicate CallInv(st: State, id: LockId, call: Call) {
    (match call.phase
     case Acquiring(start, next, won) =>
       0 <= start <= st.now && next <= |st.servers| &&
       forall s :: s in won ==> s < next && Backed(st, id, call, start, s)
     case Held(start, won, decided) =>
       0 <= start <= decided <= st.now && |won| >= st.quorum &&
       Validity(call.clock, call.ttl, start, decided) > 0 &&
       forall s :: s in won ==> s < |st.servers| && Backed(st, id, call, start, s)
     case Ended => call.tries == 0
     case Waiting => true
     case Releasing(_) => true) &&
    (call.mode.Renewal? && call.mode.displaced != id ==>
       call.mode.displaced in st.calls && Finished(st.calls[call.mode.displaced]))
  }

  ghost predicate Inv(st: State) {
    forall id :: id in st.calls ==> CallInv(st, id, st.calls[id])
  }

  /** No server lost or replaced an entry of `id` that could not have expired. */
  ghost predicate EntriesKept(st: State, st': State, id: LockId) {
    |st'.servers| == |st.servers| && st.now <= st'.now && st'.quorum == st.quorum &&
    forall s, key :: 0 <= s < |st.servers| && key in st.servers[s] && st.servers[s][key].holder == id ==>
      var e := st.servers[s][key];
      st'.now >= e.setAt + e.ttl - Drift(e.ttl) || (key in st'.servers[s] && st'.servers[s][key] == e)
  }

  ghost predicate FinishedKept(st: State, st': State) {
    forall id :: id in st.calls && Finished(st.calls[id]) ==> id in st'.calls && Finished(st'.calls[id])
  }

  lemma BackedKept(st: State, st': State, id: LockId, call: Call, start: int, s: nat)
    requires s < |st.servers| && EntriesKept(st, st', id) && Backed(st, id, call, start, s)
    ensures Backed(st', id, call, start, s)
  {
    if st.now < start + call.ttl - Drift(call.ttl) {
      assert st.servers[s][call.resource].holder == id;
    }
  }

  /** A call untouched by a step keeps its part of the invariant. */
  lemma CallKept(st: State, st': State, id: LockId)
    requires id in st.calls && id in st'.calls && st'.calls[id] == st.calls[id]
    requires EntriesKept(st, st', id) && FinishedKept(st, st') && CallInv(st, id, st.calls[id])
    ensures CallInv(st', id, st'.calls[id])
  {
    var c := st.calls[id];
    match c.phase
    case Acquiring(start, next, won) =>
      forall s | s in won ensures s < next && Backed(st', id, c, start, s) {
        BackedKept(st, st', id, c, start, s);
      }
    case Held(start, won, _) =>
      forall s | s in won ensures s < |st'.servers| && Backed(st', id, c, start, s) {
        BackedKept(st, st', id, c, start, s);
      }
    case _ =>
  }

  /** The call a step works for, if any. */
  function Actor(step: Step): set<LockId> {
    match step
    case Tick(_) => {}
    case Expire(_, _) => {}
    case Begin(id, _, _, _, _) => {id}
    case BeginRenewal(id, _, _, _, _, _) => {id}
    case StartAttempt(id) => {id}
    case AskServer(id, _) => {id}
    case Decide(id) => {id}
    case ReleaseServer(id, _) => {id}
    case EndRelease(id) => {id}
    case Unlock(id) => {id}
  }

  /** Only the call itself, its renewal or an expiry removes the entries of `id`:
      NX and compare-and-delete never touch anybody else's. */
  lemma StepKeepsEntries(st: State, step: Step, id: LockId)
    requires Enabled(st, step) && id !in Actor(step)
    requires step.AskServer? && st.calls[step.id].mode.Renewal? ==> st.calls[step.id].mode.displaced != id
    ensures EntriesKept(st, Apply(st, step), id)
  {
  }

  lemma StepKeepsFinished(st: State, step: Step)
    requires Inv(st) && Enabled(st, step)
    ensures FinishedKept(st, Apply(st, step))
  {
    match step
    case Unlock(id) => assert CallInv(st, id, st.calls[id]);
    case _ =>
  }

  /** The call the step works for keeps its own part of the invariant. */
  lemma ActorKept(st: State, step: Step, id: LockId)
    requires Inv(st) && Enabled(st, step) && Actor(step) == {id}
    ensures CallInv(Apply(st, step), id, Apply(st, step).calls[id])
  {
    var st' := Apply(st, step);
    StepKeepsFinished(st, step);
    assert id in Actor(step);
    if id in st.calls {
      assert CallInv(st, id, st.calls[id]);
    }
    match step
    case AskServer(_, delivery) => AskKept(st, id, delivery);
    case _ =>
  }

  lemma AskKept(st: State, id: LockId, delivery: Delivery)
    requires Inv(st) && Enabled(st, AskServer(id, delivery))
    ensures CallInv(Apply(st, AskServer(id, delivery)), id, Apply(st, AskServer(id, delivery)).calls[id])
  {
    var st' := Apply(st, AskServer(id, delivery));
    var c := st.calls[id];
    assert CallInv(st, id, c);
    var Acquiring(start, next, won) := c.phase;
    StepKeepsFinished(st, AskServer(id, delivery));
    forall s | s in st'.calls[id].phase.won
      ensures s < next + 1 && Backed(st', id, c, start, s)
    {
      if s in won {
        assert st'.servers[s] == st.servers[s];
      }
    }
  }

  lemma StepKeepsInv(st: State, step: Step)
    requires Inv(st) && Enabled(st, step)
    ensures Inv(Apply(st, step))
  {
    var st' := Apply(st, step);
    StepKeepsFinished(st, step);
    forall id | id in st'.calls
      ensures CallInv(st', id, st'.calls[id])
    {
      if id in Actor(step) {
        ActorKept(st, step, id);
      } else {
        assert id in st.calls && CallInv(st, id, st.calls[id]);
        OtherKept(st, step, id);
      }
    }
  }

  lemma OtherKept(st: State, step: Step, id: LockId)
    requires Inv(st) && Enabled(st, step) && id in st.calls && id !in Actor(step)
    ensures id in Apply(st, step).calls && CallInv(Apply(st, step), id, Apply(st, step).calls[id])
  {
    var st' := Apply(st, step);
    var c := st.calls[id];
    assert CallInv(st, id, c);
    StepKeepsFinished(st, step);
    if step.AskServer? && st.calls[step.id].mode.Renewal? && st.calls[step.id].mode.displaced == id {
      // `id` was displaced, so it holds nothing any more.
      assert CallInv(st, step.id, st.calls[step.id]);
    } else {
      StepKeepsEntries(st, step, id);
      if st'.calls[id] == c {
        CallKept(st, st', id);
      }
    }
  }
}
