/** The lock clients as imperative code.  Every server call and every clock reading is
    one step of the protocol on the shared cluster, and between any two of them
    the other clients, the servers and time may take any number of steps. */
module Redlock {
  import opened RedlockProtocol
  import opened RedlockSafety

  /** What becomes of one compare-and-delete call: whether it reaches the server, and
      whether it ends in an exception for the client. */
  datatype Release = Release(delivered: bool, failed: bool)

  // --- What a stretch of a run says about one call ---

  predicate HeldAt(s: State, id: LockId) {
    id in s.calls && s.calls[id].phase.Held?
  }

  /** `id` holds nothing in the states from `lo` up to `hi`. */
  ghost predicate Unheld(run: seq<State>, lo: nat, hi: nat, id: LockId) {
    hi <= |run| && forall i :: lo <= i < hi ==> !HeldAt(run[i], id)
  }

  lemma UnheldMore(run: seq<State>, run': seq<State>, lo: nat, mid: nat, hi: nat, id: LockId)
    requires run <= run' && Unheld(run, lo, mid, id) && Unheld(run', mid, hi, id)
    ensures Unheld(run', lo, hi, id)
  {
    forall i | lo <= i < hi ensures !HeldAt(run'[i], id) {
      if i < mid {
        assert run'[i] == run[i];
      }
    }
  }

  /** An attempt of `id` is decided. */
  predicate Decided(s: State, s': State, id: LockId) {
    id in s.calls && s.calls[id].phase.Acquiring? && s.calls[id].phase.start >= 0 &&
    id in s'.calls && !s'.calls[id].phase.Acquiring?
  }

  /** Every attempt of `id` decided between `lo` and `hi` was denied, for want of a quorum
      or of validity. */
  ghost predicate Denied(run: seq<State>, lo: nat, hi: nat, id: LockId) {
    hi <= |run| && forall i :: lo < i < hi && Decided(run[i - 1], run[i], id) ==> WantsQuorumOrTime(run[i - 1], id)
  }

  predicate WantsQuorumOrTime(s: State, id: LockId)
    requires id in s.calls && s.calls[id].phase.Acquiring? && s.calls[id].phase.start >= 0
  {
    var c := s.calls[id];
    |c.phase.won| < s.quorum || Validity(c.clock, c.ttl, c.phase.start, s.now) <= 0
  }

  lemma UnheldDenied(run: seq<State>, lo: nat, hi: nat, id: LockId)
    requires IsRun(run) && Unheld(run, lo, hi, id)
    ensures Denied(run, lo, hi, id)
  {
    forall i | lo < i < hi && Decided(run[i - 1], run[i], id) ensures WantsQuorumOrTime(run[i - 1], id) {
      assert Next(run[i - 1], run[i - 1 + 1]);
      var step :| Enabled(run[i - 1], step) && Apply(run[i - 1], step) == run[i];
      DecisionEndsAttempt(run[i - 1], step, id);
      assert !HeldAt(run[i], id);
    }
  }

  lemma DecisionEndsAttempt(s: State, step: Step, id: LockId)
    requires Enabled(s, step) && Decided(s, Apply(s, step), id)
    ensures step == Decide(id)
  {
  }

  predicate TriedAt(run: seq<State>, i: int, id: LockId, tries: nat) {
    0 < i < |run| && Decided(run[i - 1], run[i], id) && run[i - 1].calls[id].tries == tries
  }

  /** The attempt of `id` after which `tries` are left was decided between `lo` and `hi`. */
  ghost predicate Tried(run: seq<State>, lo: nat, hi: nat, id: LockId, tries: nat) {
    exists i :: lo < i < hi && TriedAt(run, i, id, tries)
  }

  lemma TriedMore(run: seq<State>, run': seq<State>, lo: nat, hi: nat, lo': nat, hi': nat, id: LockId, tries: nat)
    requires run <= run' && lo' <= lo && hi <= hi' <= |run'| && Tried(run, lo, hi, id, tries)
    ensures Tried(run', lo', hi', id, tries)
  {
    var i :| lo < i < hi && TriedAt(run, i, id, tries);
    assert TriedAt(run', i, id, tries);
  }

  /** One server was asked to delete the entry of `id`. */
  predicate Releases(s: State, s': State, id: LockId) {
    id in s.calls && id in s'.calls && s.calls[id].phase.Releasing? &&
    s'.calls[id].phase == Releasing(s.calls[id].phase.cursor + 1)
  }

  /** `id` leaves its releasing loop. */
  predicate Leaves(s: State, s': State, id: LockId) {
    id in s.calls && id in s'.calls && s.calls[id].phase.Releasing? && !s'.calls[id].phase.Releasing?
  }

  predicate FailedAt(run: seq<State>, i: int, id: LockId, releases: nat -> Release) {
    0 < i < |run| && Releases(run[i - 1], run[i], id) && releases(i).failed
  }

  /** The releasing loop is left after the last server or at a failure, and at every failure. */
  predicate OrderlyAt(run: seq<State>, i: nat, id: LockId, releases: nat -> Release)
    requires i < |run|
  {
    i > 0 ==>
      (Leaves(run[i - 1], run[i], id) ==>
         run[i - 1].calls[id].phase.cursor == |run[i - 1].servers| || FailedAt(run, i - 1, id, releases)) &&
      (FailedAt(run, i - 1, id, releases) ==> Leaves(run[i - 1], run[i], id))
  }

  ghost predicate Orderly(run: seq<State>, lo: nat, id: LockId, releases: nat -> Release) {
    forall i :: lo <= i < |run| ==> OrderlyAt(run, i, id, releases)
  }

  lemma OrderlyMore(run: seq<State>, run': seq<State>, lo: nat, id: LockId, releases: nat -> Release)
    requires run <= run' && Orderly(run, lo, id, releases) && Orderly(run', |run|, id, releases)
    ensures Orderly(run', lo, id, releases)
  {
    forall i | lo <= i < |run'| ensures OrderlyAt(run', i, id, releases) {
      if i < |run| {
        assert OrderlyAt(run, i, id, releases);
        assert run'[i] == run[i] && (i > 0 ==> run'[i - 1] == run[i - 1]) && (i > 1 ==> run'[i - 2] == run[i - 2]);
      }
    }
  }

  /** From `lo` on, `id` is not in its releasing loop; nor was it just before. */
  ghost predicate OutOfRelease(run: seq<State>, lo: nat, id: LockId) {
    0 < lo <= |run| && forall i :: lo - 1 <= i < |run| ==> id in run[i].calls && !run[i].calls[id].phase.Releasing?
  }

  lemma OutOfReleaseOrderly(run: seq<State>, lo: nat, id: LockId, releases: nat -> Release)
    requires OutOfRelease(run, lo, id)
    ensures Orderly(run, lo, id, releases)
  {
  }

  /** The states from `lo` on have call `id` as it is in `c`. */
  ghost predicate Idle(run: seq<State>, lo: nat, id: LockId, c: Call) {
    lo <= |run| && forall i :: lo <= i < |run| ==> id in run[i].calls && run[i].calls[id] == c
  }

  predicate HasEntry(server: Server, key: Resource, id: LockId) {
    key in server && server[key].holder == id
  }

  /** No server has an entry of `id` that it did not have before. */
  ghost predicate NoNewEntries(s: State, s': State, id: LockId) {
    |s'.servers| == |s.servers| &&
    forall k, key :: 0 <= k < |s.servers| && HasEntry(s'.servers[k], key, id) ==> HasEntry(s.servers[k], key, id)
  }

  /** Only the call itself makes entries that carry its id. */
  lemma OthersMakeNoEntries(s: State, step: Step, id: LockId)
    requires Enabled(s, step) && id in s.calls && id in Apply(s, step).calls && Apply(s, step).calls[id] == s.calls[id]
    ensures NoNewEntries(s, Apply(s, step), id)
  {
  }

  /** Since `lo`, every server that a compare-and-delete call of `id` has reached is left
      without its entry. */
  ghost predicate Cleared(run: seq<State>, lo: nat, id: LockId, releases: nat -> Release, s: State) {
    0 < lo && forall i :: lo <= i < |run| && Releases(run[i - 1], run[i], id) && releases(i).delivered ==>
      var c := run[i - 1].calls[id];
      c.phase.cursor < |s.servers| ==> !HasEntry(s.servers[c.phase.cursor], c.resource, id)
  }

  lemma ClearedKept(run: seq<State>, lo: nat, id: LockId, releases: nat -> Release, s: State, s': State)
    requires Cleared(run, lo, id, releases, s) && NoNewEntries(s, s', id)
    ensures Cleared(run, lo, id, releases, s')
  {
  }

  /** Nothing happens to `id`: no loop is left, no release made, nothing held. */
  lemma IdleKeeps(run: seq<State>, lo: nat, id: LockId, c: Call, releases: nat -> Release)
    requires 0 < lo <= |run| && Idle(run, lo - 1, id, c) && !FailedAt(run, lo - 1, id, releases)
    ensures Orderly(run, lo, id, releases) && !FailedAt(run, |run| - 1, id, releases)
    ensures !c.phase.Held? ==> Unheld(run, lo, |run|, id)
  {
  }

  lemma ClearedIdle(run: seq<State>, run': seq<State>, lo: nat, id: LockId, releases: nat -> Release,
                    s: State, s': State, c: Call)
    requires 0 < lo <= |run| && run <= run' && Cleared(run, lo, id, releases, s)
    requires NoNewEntries(s, s', id) && Idle(run', |run| - 1, id, c)
    ensures Cleared(run', lo, id, releases, s')
  {
    forall i | lo <= i < |run'| && Releases(run'[i - 1], run'[i], id) && releases(i).delivered
      ensures var c := run'[i - 1].calls[id];
              c.phase.cursor < |s'.servers| ==> !HasEntry(s'.servers[c.phase.cursor], c.resource, id)
    {
      if i < |run| {
        assert run'[i] == run[i] && run'[i - 1] == run[i - 1];
      }
    }
  }

  lemma ClearedByRelease(run: seq<State>, s': State, lo: nat, id: LockId, releases: nat -> Release, s: State)
    requires 0 < lo <= |run| && s == run[|run| - 1] && Cleared(run, lo, id, releases, s) && NoNewEntries(s, s', id)
    requires Releases(s, s', id) && s.calls[id].phase.cursor < |s.servers|
    requires releases(|run|).delivered ==>
               !HasEntry(s'.servers[s.calls[id].phase.cursor], s.calls[id].resource, id)
    ensures Cleared(run + [s'], lo, id, releases, s')
  {
    var run' := run + [s'];
    forall i | lo <= i < |run'| && Releases(run'[i - 1], run'[i], id) && releases(i).delivered
      ensures var c := run'[i - 1].calls[id];
              c.phase.cursor < |s'.servers| ==> !HasEntry(s'.servers[c.phase.cursor], c.resource, id)
    {
      if i < |run| {
        assert run'[i] == run[i] && run'[i - 1] == run[i - 1];
      }
    }
  }

  /** Before the first server nothing is released. */
  lemma StartOfLoop(run: seq<State>, id: LockId, releases: nat -> Release, s: State)
    requires |run| > 0 && id in run[|run| - 1].calls && run[|run| - 1].calls[id].phase == Releasing(0)
    ensures Unheld(run, |run|, |run|, id) && Orderly(run, |run|, id, releases) && Cleared(run, |run|, id, releases, s)
    ensures !FailedAt(run, |run| - 1, id, releases)
  {
  }

  lemma ClearedEnd(run: seq<State>, s': State, lo: nat, id: LockId, releases: nat -> Release)
    requires 0 < lo <= |run| && Cleared(run, lo, id, releases, run[|run| - 1])
    requires s'.servers == run[|run| - 1].servers && !Releases(run[|run| - 1], s', id)
    ensures Cleared(run + [s'], lo, id, releases, s')
  {
    var run' := run + [s'];
    forall i | lo <= i < |run'| && Releases(run'[i - 1], run'[i], id) && releases(i).delivered
      ensures var c := run'[i - 1].calls[id];
              c.phase.cursor < |s'.servers| ==> !HasEntry(s'.servers[c.phase.cursor], c.resource, id)
    {
      assert i < |run|;
      assert run'[i] == run[i] && run'[i - 1] == run[i - 1];
    }
  }

  /** One more state of a releasing loop. */
  lemma OneMore(run: seq<State>, s': State, lo: nat, id: LockId, releases: nat -> Release)
    requires 0 < lo <= |run| && Orderly(run, lo, id, releases) && Unheld(run, lo, |run|, id)
    requires OrderlyAt(run + [s'], |run|, id, releases) && !HeldAt(s', id)
    ensures Orderly(run + [s'], lo, id, releases) && Unheld(run + [s'], lo, |run| + 1, id)
  {
    OrderlyMore(run, run + [s'], lo, id, releases);
  }

  /** What one compare-and-delete call does. */
  ghost predicate Released(s: State, s': State, id: LockId, delivered: bool) {
    id in s.calls && s.calls[id].phase.Releasing? && s.calls[id].phase.cursor < |s.servers| &&
    NoNewEntries(s, s', id) &&
    id in s'.calls && s'.calls[id] == s.calls[id].(phase := Releasing(s.calls[id].phase.cursor + 1)) &&
    (delivered ==> !HasEntry(s'.servers[s.calls[id].phase.cursor], s.calls[id].resource, id))
  }

  lemma ReleaseMade(run: seq<State>, s': State, lo: nat, id: LockId, releases: nat -> Release, s: State)
    requires 0 < lo <= |run| && s == run[|run| - 1] && Released(s, s', id, releases(|run|).delivered)
    requires Orderly(run, lo, id, releases) && Unheld(run, lo, |run|, id) && Cleared(run, lo, id, releases, s)
    requires !FailedAt(run, |run| - 1, id, releases)
    ensures Orderly(run + [s'], lo, id, releases) && Unheld(run + [s'], lo, |run| + 1, id)
    ensures Cleared(run + [s'], lo, id, releases, s')
    ensures FailedAt(run + [s'], |run|, id, releases) <==> releases(|run|).failed
  {
    hide Cleared, Orderly, Unheld;
    OneMore(run, s', lo, id, releases);
    ClearedByRelease(run, s', lo, id, releases, s);
  }

  predicate InAttempt(s: State, id: LockId) {
    id in s.calls && s.calls[id].phase.Acquiring?
  }

  predicate Preparing(s: State, id: LockId) {
    id in s.calls && (s.calls[id].phase.Waiting? || s.calls[id].phase.Acquiring?)
  }

  /** An attempt from before its start up to its decision. */
  lemma AttemptDecided(run: seq<State>, asked: seq<State>, decided: seq<State>, id: LockId, releases: nat -> Release)
    requires 0 < |run| < |asked| < |decided| && run <= asked && decided == asked + [decided[|asked|]]
    requires forall k :: |run| - 1 <= k < |asked| ==> Preparing(asked[k], id)
    requires Decided(asked[|asked| - 1], decided[|asked|], id)
    ensures Orderly(decided, |run|, id, releases)
    ensures Unheld(decided, |run|, |asked|, id)
    ensures !HeldAt(decided[|asked|], id) ==> Unheld(decided, |run|, |decided|, id)
    ensures Tried(decided, |run|, |decided|, id, asked[|asked| - 1].calls[id].tries)
  {
    assert forall k :: 0 <= k < |asked| ==> decided[k] == asked[k];
    assert TriedAt(decided, |asked|, id, asked[|asked| - 1].calls[id].tries);
  }

  /** Since `lo`: no hold before the end, every try from `count` down to `left` decided,
      orderly releases. */
  ghost predicate StoryOf(run: seq<State>, lo: nat, id: LockId, releases: nat -> Release,
                          successful: bool, count: nat, left: nat)
  {
    0 < lo <= |run| && (successful ==> lo < |run|) && Unheld(run, lo, if successful then |run| - 1 else |run|, id) &&
    Orderly(run, lo, id, releases) && forall t :: left <= t < count ==> Tried(run, lo, |run|, id, t)
  }

  lemma StoryMore(run: seq<State>, run': seq<State>, lo: nat, id: LockId, releases: nat -> Release,
                  granted: bool, count: nat, left: nat, left': nat)
    requires run <= run' && |run| < |run'| && StoryOf(run, lo, id, releases, false, count, left) && left' == left - 1
    requires Unheld(run', |run|, if granted then |run'| - 1 else |run'|, id) && Orderly(run', |run|, id, releases)
    requires Tried(run', |run|, |run'|, id, left')
    ensures StoryOf(run', lo, id, releases, granted, count, left')
  {
    OrderlyMore(run, run', lo, id, releases);
    UnheldMore(run, run', lo, |run|, if granted then |run'| - 1 else |run'|, id);
    forall t | left' <= t < count ensures Tried(run', lo, |run'|, id, t) {
      if t > left' {
        TriedMore(run, run', lo, |run|, lo, |run'|, id, t);
      } else {
        TriedMore(run', run', |run|, |run'|, lo, |run'|, id, t);
      }
    }
  }

  lemma StoryIdle(run: seq<State>, run': seq<State>, lo: nat, id: LockId, releases: nat -> Release, count: nat, c: Call)
    requires run <= run' && 0 < |run| && StoryOf(run, lo, id, releases, false, count, c.tries)
    requires Idle(run', |run| - 1, id, c) && !c.phase.Held? && !c.phase.Releasing?
    ensures StoryOf(run', lo, id, releases, false, count, c.tries)
  {
    OutOfReleaseOrderly(run', |run|, id, releases);
    OrderlyMore(run, run', lo, id, releases);
    UnheldMore(run, run', lo, |run|, |run'|, id);
    forall t | c.tries <= t < count ensures Tried(run', lo, |run'|, id, t) {
      TriedMore(run, run', lo, |run|, lo, |run'|, id, t);
    }
  }

  /** The step that began the call belongs to its story. */
  lemma StoryBegun(run: seq<State>, lo: nat, id: LockId, releases: nat -> Release, successful: bool, count: nat, left: nat)
    requires 0 < lo && StoryOf(run, lo + 1, id, releases, successful, count, left)
    requires id !in run[lo - 1].calls && !HeldAt(run[lo], id)
    ensures StoryOf(run, lo, id, releases, successful, count, left)
  {
    forall t | left <= t < count ensures Tried(run, lo, |run|, id, t) {
      TriedMore(run, run, lo + 1, |run|, lo, |run|, id, t);
    }
    assert OrderlyAt(run, lo, id, releases);
    forall i | lo <= i < |run| ensures OrderlyAt(run, i, id, releases) {
    }
  }

  /** The step that begins an unlock belongs to it. */
  lemma UnlockSeen(begun: seq<State>, run: seq<State>, id: LockId, releases: nat -> Release, s: State)
    requires |begun| > 1 && begun <= run && Unheld(run, |begun|, |run|, id) && Orderly(run, |begun|, id, releases)
    requires Cleared(run, |begun|, id, releases, s)
    requires HeldAt(begun[|begun| - 2], id) && !HeldAt(begun[|begun| - 1], id)
    ensures Unheld(run, |begun| - 1, |run|, id) && Orderly(run, |begun| - 1, id, releases)
    ensures Cleared(run, |begun| - 1, id, releases, s)
  {
    assert run[|begun| - 2] == begun[|begun| - 2] && run[|begun| - 1] == begun[|begun| - 1];
    assert OrderlyAt(run, |begun| - 1, id, releases);
  }

  // --- The servers and the clients' calls to them ---

  /** The step from `s` to `s'`, if it is a call to a server, went as the network had it. */
  ghost predicate Went(s: State, s': State, answer: Delivery, release: Release) {
    exists step :: Enabled(s, step) && Apply(s, step) == s' && Agrees(step, answer, release)
  }

  predicate Agrees(step: Step, answer: Delivery, release: Release) {
    (step.AskServer? ==> step.delivery == answer) && (step.ReleaseServer? ==> step.delivered == release.delivered)
  }

  ghost predicate OverNetwork(run: seq<State>, answers: nat -> Delivery, releases: nat -> Release) {
    forall i :: 0 < i < |run| ==> Went(run[i - 1], run[i], answers(i), releases(i))
  }

  lemma StepMonotone(s: State, step: Step)
    requires Enabled(s, step)
    ensures |Apply(s, step).servers| == |s.servers| && Apply(s, step).quorum == s.quorum && s.now <= Apply(s, step).now
  {
  }

  lemma RunGrows(run: seq<State>, s': State, step: Step, answers: nat -> Delivery, releases: nat -> Release)
    requires IsRun(run) && OverNetwork(run, answers, releases) && Enabled(run[|run| - 1], step)
    requires Apply(run[|run| - 1], step) == s' && Agrees(step, answers(|run|), releases(|run|))
    ensures IsRun(run + [s']) && OverNetwork(run + [s'], answers, releases)
  {
    hide Enabled, Apply, Agrees;
    var run' := run + [s'];
    forall i | 0 <= i < |run'| - 1 ensures Next(run'[i], run'[i + 1]) {
      if i < |run'| - 2 {
        assert Next(run[i], run[i + 1]);
      }
    }
    forall i | 0 < i < |run'| ensures Went(run'[i - 1], run'[i], answers(i), releases(i)) {
      if i < |run'| - 1 {
        assert run'[i - 1] == run[i - 1] && run'[i] == run[i];
      }
    }
  }

  /** What becomes of a call to a server is settled by the network alone: for the step that
      leads to state `i` of the run it is `answers(i)` or `releases(i)`. */
  class Cluster {
    var st: State
    ghost var run: seq<State>  // every state so far
    var steps: nat             // how many there are
    const answers: nat -> Delivery
    const releases: nat -> Release

    ghost predicate Valid()
      reads this
    {
      IsRun(run) && st == run[|run| - 1] && steps == |run| && OverNetwork(run, answers, releases)
    }

    /** The run has only grown, servers and quorum are the ones it began with, and
        calls that were finished still are. */
    twostate predicate Advanced()
      reads this
    {
      old(run) <= run && |old(st).servers| == |st.servers| && old(st).quorum == st.quorum &&
      old(st).now <= st.now && FinishedKept(old(st), st)
    }

    /** No lock call yet; the quorum of a client is the smallest majority of the servers it lists. */
    constructor (servers: seq<Server>, answers: nat -> Delivery, releases: nat -> Release)
      ensures Valid() && st.calls == map[] && st.servers == servers
      ensures 2 * (st.quorum - 1) <= |servers| < 2 * st.quorum
      ensures this.answers == answers && this.releases == releases
    {
      st := State(0, |servers| / 2 + 1, servers, map[], map[]);
      run := [State(0, |servers| / 2 + 1, servers, map[], map[])];
      steps := 1;
      this.answers, this.releases := answers, releases;
    }

    method Do(step: Step)
      requires Valid() && Enabled(st, step) && Agrees(step, answers(steps), releases(steps))
      modifies this
      ensures Valid() && st == Apply(old(st), step) && run == old(run) + [st] && Advanced()
    {
      hide OverNetwork, IsPath, Apply, Enabled, Agrees, Inv, FinishedKept;
      RunKeepsInv(run, |run| - 1);
      StepKeepsFinished(st, step);
      StepMonotone(st, step);
      RunGrows(run, Apply(st, step), step, answers, releases);
      st, steps := Apply(st, step), steps + 1;
      run := run + [st];
    }

    /** Anything the rest of the world may do that leaves call `id` itself alone. */
    method Environment(id: LockId)
      requires Valid() && id in st.calls
      modifies this
      ensures Valid() && Advanced() && id in st.calls && st.calls[id] == old(st.calls[id])
      ensures Idle(run, |old(run)| - 1, id, old(st.calls[id])) && NoNewEntries(old(st), st, id)
    {
      var count: nat :| true;
      for i := 0 to count
        invariant Valid() && Advanced() && id in st.calls && st.calls[id] == old(st.calls[id])
        invariant Idle(run, |old(run)| - 1, id, old(st.calls[id])) && NoNewEntries(old(st), st, id)
      {
        var step: Step := *;
        if Enabled(st, step) && Agrees(step, answers(steps), releases(steps)) &&
           id in Apply(st, step).calls && Apply(st, step).calls[id] == st.calls[id] {
          OthersMakeNoEntries(st, step, id);
          Do(step);
        }
      }
    }

    /** One server of the acquiring loop; an error or a lost reply counts as failure. */
    method LockInstance(id: LockId) returns (succeeded: bool)
      requires Valid() && Enabled(st, AskServer(id, Lost))
      modifies this
      ensures Valid() && Advanced() && run == old(run) + [st]
      ensures st == Apply(old(st), AskServer(id, answers(|old(run)|)))
      ensures var c := old(st).calls[id];
              succeeded <==> answers(|old(run)|).Acknowledged? &&
                             AcquireOn(old(st).servers[c.phase.next], c, id, old(st).now).1
    {
      var answer := answers(steps);
      succeeded := AcquireOn(st.servers[st.calls[id].phase.next], st.calls[id], id, st.now).1 && answer.Acknowledged?;
      Do(AskServer(id, answer));
    }

    /** One server of the releasing loop. */
    method UnlockInstance(id: LockId) returns (failed: bool)
      requires Valid() && id in st.calls && Enabled(st, ReleaseServer(id, true))
      modifies this
      ensures Valid() && Advanced() && run == old(run) + [st]
      ensures st == Apply(old(st), ReleaseServer(id, releases(|old(run)|).delivered))
      ensures failed == releases(|old(run)|).failed
      ensures Released(old(st), st, id, releases(|old(run)|).delivered)
    {
      var release := releases(steps);
      Do(ReleaseServer(id, release.delivered));
      failed := release.failed;
    }

    /** In the releasing loop since `lo`, before server `i`. */
    ghost predicate AtServer(i: nat, id: LockId, c: Call, lo: nat)
      reads this
    {
      id in st.calls && st.calls[id] == c.(phase := Releasing(i)) && 0 < lo <= |run| &&
      Unheld(run, lo, |run|, id) && Orderly(run, lo, id, releases) && Cleared(run, lo, id, releases, st)
    }

    /** The compare-and-delete loop; an exception from a server ends it early.  No server that
        a call has reached keeps an entry. */
    method ReleaseAllInstances(id: LockId)
      requires Valid() && id in st.calls && st.calls[id].phase == Releasing(0)
      modifies this
      ensures Valid() && Advanced() && id in st.calls
      ensures var c := old(st).calls[id]; st.calls[id] == c.(phase := if c.tries > 0 then Waiting else Ended)
      ensures Unheld(run, |old(run)|, |run|, id) && Orderly(run, |old(run)|, id, releases)
      ensures Cleared(run, |old(run)|, id, releases, st)
    {
      hide OverNetwork, IsPath, Finished, Cleared, Orderly, Unheld, FailedAt;
      var c := st.calls[id];
      StartOfLoop(run, id, releases, st);
      var failed := false;
      var i := 0;
      while i < |st.servers| && !failed
        invariant i <= |st.servers| && Valid() && Advanced() && AtServer(i, id, c, |old(run)|)
        invariant failed <==> FailedAt(run, |run| - 1, id, releases)
        decreases |st.servers| - i
      {
        failed := ReleaseNext(id, c, i, |old(run)|);
        i := i + 1;
      }
      LeaveLoop(id, c, i, |old(run)|);
    }

    method LeaveLoop(id: LockId, c: Call, i: nat, ghost lo: nat)
      requires Valid() && AtServer(i, id, c, lo) && (i == |st.servers| || FailedAt(run, |run| - 1, id, releases))
      modifies this
      ensures Valid() && Advanced() && id in st.calls
      ensures st.calls[id] == c.(phase := if c.tries > 0 then Waiting else Ended)
      ensures Unheld(run, lo, |run|, id) && Orderly(run, lo, id, releases) && Cleared(run, lo, id, releases, st)
    {
      hide OverNetwork, IsPath, Finished, Cleared, Orderly, Unheld;
      ghost var before := run;
      Do(EndRelease(id));
      OneMore(before, st, lo, id, releases);
      ClearedEnd(before, st, lo, id, releases);
    }

    /** One turn of the releasing loop. */
    method ReleaseNext(id: LockId, c: Call, i: nat, ghost lo: nat) returns (failed: bool)
      requires Valid() && AtServer(i, id, c, lo) && i < |st.servers| && !FailedAt(run, |run| - 1, id, releases)
      modifies this
      ensures Valid() && Advanced() && AtServer(i + 1, id, c, lo)
      ensures failed <==> FailedAt(run, |run| - 1, id, releases)
    {
      hide OverNetwork, IsPath, Finished, Cleared, Orderly, Unheld, NoNewEntries, Apply, FailedAt;
      Meanwhile(id, c, i, lo);
      ghost var before, s := run, st;
      failed := UnlockInstance(id);
      ReleaseMade(before, st, lo, id, releases, s);
    }

    /** What the others do between two calls. */
    method Meanwhile(id: LockId, c: Call, i: nat, ghost lo: nat)
      requires Valid() && AtServer(i, id, c, lo) && !FailedAt(run, |run| - 1, id, releases)
      modifies this
      ensures Valid() && Advanced() && AtServer(i, id, c, lo) && !FailedAt(run, |run| - 1, id, releases)
    {
      hide OverNetwork, IsPath, Finished, Cleared, Orderly, Unheld, NoNewEntries, Idle, Releases;
      Environment(id);
      IdleKeeps(run, |old(run)|, id, old(st.calls[id]), releases);
      OrderlyMore(old(run), run, lo, id, releases);
      UnheldMore(old(run), run, lo, |old(run)|, |run|, id);
      ClearedIdle(old(run), run, lo, id, releases, old(st), st, old(st.calls[id]));
    }

    /** Since `lo` the acquiring loop of `c`, begun at `start`, has asked the first `i` servers
        and counted `n` of them. */
    ghost predicate Asking(i: nat, n: nat, id: LockId, c: Call, start: int, lo: nat)
      reads this
    {
      id in st.calls && st.calls[id].phase.Acquiring? && st.calls[id] == c.(phase := st.calls[id].phase) &&
      st.calls[id].phase.start == start && st.calls[id].phase.next == i && |st.calls[id].phase.won| == n &&
      (forall s :: s in st.calls[id].phase.won ==> s < i) &&
      0 < lo <= |run| && forall k :: lo - 1 <= k < |run| ==> InAttempt(run[k], id)
    }

    /** The acquiring loop: `n` counts the servers that acknowledged the entry. */
    method LockEveryInstance(id: LockId) returns (n: nat)
      requires Valid() && id in st.calls && st.calls[id].phase.Acquiring?
      requires st.calls[id].phase.next == 0 && st.calls[id].phase.won == {}
      modifies this
      ensures Valid() && Advanced()
      ensures Asking(|st.servers|, n, id, old(st).calls[id], old(st).calls[id].phase.start, |old(run)|)
    {
      var c := st.calls[id];
      n := 0;
      for i := 0 to |st.servers|
        invariant Valid() && Advanced() && Asking(i, n, id, c, c.phase.start, |old(run)|)
      {
        Environment(id);
        var succeeded := LockInstance(id);
        if succeeded {
          n := n + 1;
        }
      }
    }

    /** The decision: a quorum of entries and validity left. */
    method Conclude(id: LockId, n: nat, startTime: nat) returns (granted: bool)
      requires Valid() && id in st.calls && st.calls[id].phase.Acquiring?
      requires st.calls[id].phase.next == |st.servers| && |st.calls[id].phase.won| == n
      requires st.calls[id].phase.start == startTime <= st.now
      modifies this
      ensures Valid() && Advanced() && id in st.calls && run == old(run) + [st]
      ensures SameCall(st.calls[id], old(st.calls[id])) && st.calls[id].tries == old(st.calls[id]).tries
      ensures granted ==> InWindow(st, id) && st.calls[id].phase.decided == st.now
      ensures granted ==> |st.calls[id].phase.winners| >= st.quorum
      ensures !granted ==> st.calls[id].phase == Releasing(0)
      ensures granted <==> n >= st.quorum && Validity(st.calls[id].clock, st.calls[id].ttl, startTime, old(st).now) > 0
    {
      var validity := Validity(st.calls[id].clock, st.calls[id].ttl, startTime, st.now);
      Do(Decide(id));
      granted := n >= st.quorum && validity > 0;
    }

    /** One attempt: ask every server, and keep the lock only on a quorum with validity
        left; otherwise take the entries back. */
    method Attempt(id: LockId) returns (granted: bool)
      requires Valid() && id in st.calls && st.calls[id].phase.Waiting? && st.calls[id].tries > 0
      modifies this
      ensures Valid() && Advanced() && id in st.calls
      ensures SameCall(st.calls[id], old(st.calls[id])) && st.calls[id].tries == old(st.calls[id]).tries - 1
      ensures granted ==> InWindow(st, id) && st.calls[id].phase.decided == st.now
      ensures granted ==> |st.calls[id].phase.winners| >= st.quorum
      ensures !granted ==> st.calls[id].phase == if st.calls[id].tries > 0 then Waiting else Ended
      ensures |old(run)| < |run| && Unheld(run, |old(run)|, if granted then |run| - 1 else |run|, id)
      ensures Orderly(run, |old(run)|, id, releases)
      ensures Tried(run, |old(run)|, |run|, id, st.calls[id].tries)
    {
      hide OverNetwork, IsPath, Finished, Cleared, Orderly, Unheld, Tried, Validity, InWindow;
      var n, startTime := Ask(id);
      ghost var asked := run;
      granted := Conclude(id, n, startTime);
      ghost var decided := run;
      AttemptDecided(old(run), asked, decided, id, releases);
      if !granted {
        ReleaseAllInstances(id);
        OrderlyMore(decided, run, |old(run)|, id, releases);
        UnheldMore(decided, run, |old(run)|, |decided|, |run|, id);
        TriedMore(decided, run, |old(run)|, |decided|, |old(run)|, |run|, id, st.calls[id].tries);
      }
    }

    /** An attempt up to its decision. */
    method Ask(id: LockId) returns (n: nat, startTime: nat)
      requires Valid() && id in st.calls && st.calls[id].phase.Waiting? && st.calls[id].tries > 0
      modifies this
      ensures Valid() && Advanced() && id in st.calls && |old(run)| < |run|
      ensures SameCall(st.calls[id], old(st.calls[id])) && st.calls[id].tries == old(st.calls[id]).tries - 1
      ensures st.calls[id].phase.Acquiring? && st.calls[id].phase.start == startTime <= st.now
      ensures st.calls[id].phase.next == |st.servers| && |st.calls[id].phase.won| == n
      ensures forall k :: |old(run)| - 1 <= k < |run| ==> Preparing(run[k], id)
    {
      Environment(id);
      startTime := st.now;
      Do(StartAttempt(id));
      ghost var started := run;
      n := LockEveryInstance(id);
      ghost var asked := run;
      Environment(id);
      forall k | |old(run)| - 1 <= k < |run| ensures Preparing(run[k], id) {
        if k < |started| {
          assert run[k] == started[k];
        } else if k < |asked| {
          assert run[k] == asked[k] && InAttempt(asked[k], id);
        }
      }
    }

    /** Attempts with one lock id until one is granted or none is left, with a random sleep
        after each failure; every attempt takes one of the call's tries. */
    method Retry(id: LockId, retryCount: nat) returns (successful: bool)
      requires Valid() && id in st.calls && st.calls[id].tries == retryCount
      requires st.calls[id].phase == if retryCount > 0 then Waiting else Ended
      modifies this
      ensures Valid() && Advanced() && id in st.calls && SameCall(st.calls[id], old(st.calls[id]))
      ensures successful ==> InWindow(st, id) && |st.calls[id].phase.winners| >= st.quorum
      ensures !successful ==> st.calls[id].phase.Ended?
      ensures if successful then st.calls[id].tries < retryCount else st.calls[id].tries == 0
      ensures History(|old(run)|, id, successful, retryCount)
    {
      var currentRetry := 0;
      successful := false;
      while currentRetry < retryCount && !successful
        invariant Valid() && Advanced() && id in st.calls && currentRetry <= retryCount
        invariant st.calls[id].tries == retryCount - currentRetry
        invariant SameCall(st.calls[id], old(st.calls[id]))
        invariant successful ==> InWindow(st, id) && |st.calls[id].phase.winners| >= st.quorum && currentRetry > 0
        invariant !successful ==> st.calls[id].phase == if currentRetry < retryCount then Waiting else Ended
        invariant Story(|old(run)|, id, successful, retryCount)
      {
        currentRetry := currentRetry + 1;
        successful := Turn(id, |old(run)|, retryCount);
      }
      UnheldDenied(run, |old(run)|, if successful then |run| - 1 else |run|, id);
    }

    /** One turn of the retry loop. */
    method Turn(id: LockId, ghost lo: nat, ghost count: nat) returns (granted: bool)
      requires Valid() && id in st.calls && st.calls[id].phase.Waiting? && st.calls[id].tries > 0
      requires Story(lo, id, false, count)
      modifies this
      ensures Valid() && Advanced() && id in st.calls
      ensures SameCall(st.calls[id], old(st.calls[id])) && st.calls[id].tries == old(st.calls[id]).tries - 1
      ensures granted ==> InWindow(st, id) && |st.calls[id].phase.winners| >= st.quorum
      ensures !granted ==> st.calls[id].phase == if st.calls[id].tries > 0 then Waiting else Ended
      ensures Story(lo, id, granted, count)
    {
      granted := Attempt(id);
      ghost var attempted := run;
      StoryMore(old(run), run, lo, id, releases, granted, count, old(st.calls[id]).tries, st.calls[id].tries);
      if !granted {
        ghost var c := st.calls[id];
        Environment(id);
        StoryIdle(attempted, run, lo, id, releases, count, c);
      }
    }

    ghost predicate Story(lo: nat, id: LockId, successful: bool, count: nat)
      reads this
    {
      id in st.calls && StoryOf(run, lo, id, releases, successful, count, st.calls[id].tries)
    }

    /** What has become of `id` since `lo`: it held nothing before the end, every attempt but
        a successful one was denied, each of the tries used up was decided, and every
        releasing loop went on to its last server or a failure. */
    ghost predicate History(lo: nat, id: LockId, successful: bool, count: nat)
      reads this
    {
      Story(lo, id, successful, count) && Denied(run, lo, if successful then |run| - 1 else |run|, id)
    }

    /** What a caller of `id` gets: a quorum, its window and, with a majority, being the only
        one inside a safe window; or nothing, after all `count` attempts. */
    ghost predicate Outcome(id: LockId, successful: bool, count: nat)
      reads this
    {
      id in st.calls &&
      if !successful then st.calls[id].phase.Ended? && st.calls[id].tries == 0
      else
        InWindow(st, id) && |st.calls[id].phase.winners| >= st.quorum && st.calls[id].tries < count &&
        (2 * st.quorum > |st.servers| && WindowSafe(st.calls[id]) ==>
           forall other | InWindow(st, other) && st.calls[other].resource == st.calls[id].resource &&
                          WindowSafe(st.calls[other]) :: other == id)
    }

    lemma OnlyHolder(id: LockId)
      requires Valid() && InWindow(st, id) && WindowSafe(st.calls[id]) && 2 * st.quorum > |st.servers|
      ensures forall other | InWindow(st, other) && st.calls[other].resource == st.calls[id].resource &&
                             WindowSafe(st.calls[other]) :: other == id
    {
      RunKeepsInv(run, |run| - 1);
      MutualExclusion(run);
    }

    /** The first step was the call as given, with all its tries. */
    ghost predicate Begun(lo: nat, id: LockId, call: Call)
      reads this
    {
      lo < |run| && id in run[lo].calls && run[lo].calls[id] == call.(phase := run[lo].calls[id].phase)
    }

    /** Lock of the managed client, whose window is always safe. */
    method Lock(id: LockId, resource: Resource, ttl: int, retryCount: nat) returns (successful: bool)
      requires Valid() && id !in st.calls
      modifies this
      ensures Valid() && Advanced() && Outcome(id, successful, retryCount)
      ensures st.calls[id].resource == resource && st.calls[id].ttl == ttl && WindowSafe(st.calls[id])
      ensures Begun(|old(run)|, id, Call(resource, ttl, Millis, Plain, retryCount, Waiting))
      ensures History(|old(run)|, id, successful, retryCount)
    {
      Do(Begin(id, resource, ttl, Millis, retryCount));
      successful := RetryBegun(id, retryCount, |old(run)|);
      if successful && 2 * st.quorum > |st.servers| {
        OnlyHolder(id);
      }
    }

    /** The attempts of a call just begun, as seen from before. */
    method RetryBegun(id: LockId, retryCount: nat, ghost lo: nat) returns (successful: bool)
      requires Valid() && id in st.calls && st.calls[id].tries == retryCount && |run| == lo + 1 && lo > 0
      requires st.calls[id].phase == if retryCount > 0 then Waiting else Ended
      requires id !in run[lo - 1].calls
      modifies this
      ensures Valid() && Advanced() && id in st.calls && SameCall(st.calls[id], old(st.calls[id]))
      ensures successful ==> InWindow(st, id) && |st.calls[id].phase.winners| >= st.quorum
      ensures !successful ==> st.calls[id].phase.Ended?
      ensures if successful then st.calls[id].tries < retryCount else st.calls[id].tries == 0
      ensures Begun(lo, id, old(st).calls[id]) && History(lo, id, successful, retryCount)
    {
      successful := Retry(id, retryCount);
      StoryBegun(run, lo, id, releases, successful, retryCount, st.calls[id].tries);
      UnheldDenied(run, lo, if successful then |run| - 1 else |run|, id);
    }

    /** Lock of the native client: its loop condition comes last, so there is at
        least one attempt; and its clock counts seconds. */
    method NativeLock(id: LockId, resource: Resource, ttl: int, retryCount: int) returns (successful: bool)
      requires Valid() && id !in st.calls
      modifies this
      ensures Valid() && Advanced() && Outcome(id, successful, AtLeastOne(retryCount))
      ensures st.calls[id].resource == resource && st.calls[id].ttl == ttl
      ensures Begun(|old(run)|, id, Call(resource, ttl, Seconds, Plain, AtLeastOne(retryCount), Waiting))
      ensures History(|old(run)|, id, successful, AtLeastOne(retryCount))
    {
      Do(Begin(id, resource, ttl, Seconds, AtLeastOne(retryCount)));
      successful := RetryBegun(id, AtLeastOne(retryCount), |old(run)|);
      if successful && 2 * st.quorum > |st.servers| && WindowSafe(st.calls[id]) {
        OnlyHolder(id);
      }
    }

    /** ContinueLock of the native client object `client`: from its start the lock the object
        renewed last no longer counts as held. */
    method ContinueLock(client: Client, id: LockId, resource: Resource, ttl: int, retryCount: int)
      returns (successful: bool)
      requires Valid() && Enabled(st, BeginRenewal(id, resource, ttl, Seconds, 1, client))
      modifies this
      ensures Valid() && Advanced() && Outcome(id, successful, AtLeastOne(retryCount))
      ensures st.calls[id].resource == resource && st.calls[id].ttl == ttl && st.calls[id].mode.Renewal?
      ensures client in old(st).renewed ==>
                old(st).renewed[client] in st.calls && Finished(st.calls[old(st).renewed[client]])
      ensures var displaced := if client in old(st).renewed then old(st).renewed[client] else id;
              Begun(|old(run)|, id, Call(resource, ttl, Seconds, Renewal(client, displaced), AtLeastOne(retryCount), Waiting))
      ensures History(|old(run)|, id, successful, AtLeastOne(retryCount))
    {
      hide OverNetwork, IsPath, StoryOf, Denied, Validity;
      Do(BeginRenewal(id, resource, ttl, Seconds, AtLeastOne(retryCount), client));
      successful := RetryBegun(id, AtLeastOne(retryCount), |old(run)|);
      if successful && 2 * st.quorum > |st.servers| && WindowSafe(st.calls[id]) {
        OnlyHolder(id);
      }
    }

    /** Unlock of a lock that was granted: finished, out of its window, and off every server
        the release has reached. */
    method Unlock(id: LockId)
      requires Valid() && id in st.calls && st.calls[id].phase.Held?
      modifies this
      ensures Valid() && Advanced() && id in st.calls && Finished(st.calls[id]) && !InWindow(st, id)
      ensures Unheld(run, |old(run)|, |run|, id) && Orderly(run, |old(run)|, id, releases)
      ensures Cleared(run, |old(run)|, id, releases, st) && st.calls[id].resource == old(st).calls[id].resource
    {
      Do(RedlockProtocol.Step.Unlock(id));
      ghost var begun := run;
      ReleaseAllInstances(id);
      UnlockSeen(begun, run, id, releases, st);
    }
  }

  /** The attempts of a loop whose condition comes last. */
  function AtLeastOne(retryCount: int): (tries: nat)
    ensures tries >= 1 && tries >= retryCount && (retryCount >= 1 ==> tries == retryCount)
  {
    if retryCount > 0 then retryCount else 1
  }

  /** Same lock request, whatever has become of it. */
  predicate SameCall(c: Call, d: Call) {
    c.resource == d.resource && c.ttl == d.ttl && c.clock == d.clock && c.mode.Plain? == d.mode.Plain?
  }

  /** The native client's server list. */
  class ServerList {
    var connected: nat
    var quorum: int

    constructor ()
      ensures connected == 0 && quorum == 0
    {
      connected, quorum := 0, 0;
    }

    /** Whether or not the connection was made, the quorum is a majority from now on. */
    method AddServerUrl(reachable: bool)
      modifies this
      ensures connected == old(connected) + (if reachable then 1 else 0)
      ensures 2 * (quorum - 1) <= connected < 2 * quorum
    {
      if reachable {
        connected := connected + 1;
      }
      quorum := connected / 2 + 1;
    }
  }
}
