/** Wide strings edited in place: search, replace, split and join. */
module Bstr {
  import opened Bytes
  import opened Splitting

  type WChar = c: nat | c < 0x1_0000

  datatype Outcome = InvalidArgument | Ok | Fault

  /** A string argument, or a null pointer. */
  datatype Text = Null | Chars(s: seq<WChar>)

  // --- What Replace leaves behind ---

  function Repeat(s: seq<WChar>, n: nat): (r: seq<WChar>)
    ensures |r| == n * |s|
    decreases n
  {
    if n == 0 then [] else s + Repeat(s, n - 1)
  }

  /** The characters each shrinking step leaves behind its moved tail. */
  function Stale(s: seq<WChar>, find: seq<WChar>, rep: seq<WChar>): seq<WChar>
    requires |rep| <= |find| <= |s|
  {
    s[|s| - (|find| - |rep|)..]
  }

  /** The token is never found in what lies behind the last replacement. */
  ghost predicate NoStaleMatch(s: seq<WChar>, find: seq<WChar>, rep: seq<WChar>)
    requires find != [] && |rep| <= |find| <= |s|
  {
    var tokens := SplitFrom(s, find, 0, 0);
    Free(tokens[|tokens| - 1] + Repeat(Stale(s, find, rep), |tokens| - 1), find)
  }

  /** Every leftmost, non-overlapping token replaced. */
  function Replaced(s: seq<WChar>, find: seq<WChar>, rep: seq<WChar>): seq<WChar>
    requires find != []
  {
    Join(SplitFrom(s, find, 0, 0), rep)
  }

  /** `r` is `s` with each token of its leftmost cut replaced. */
  ghost predicate ReplacedIn(s: seq<WChar>, find: seq<WChar>, rep: seq<WChar>, r: seq<WChar>) {
    exists tokens :: Leftmost(tokens, find) && s == Join(tokens, find) && r == Join(tokens, rep)
  }

  lemma ReplacedIsIn(s: seq<WChar>, find: seq<WChar>, rep: seq<WChar>)
    requires find != []
    ensures ReplacedIn(s, find, rep, Replaced(s, find, rep))
  {
    SplitFromFacts(s, find, 0, 0);
    assert s[0..] == s;
  }

  /** The leftmost tokens of a string that is longer than the token. */
  ghost function TokensIn(s: seq<WChar>, find: seq<WChar>): nat {
    if Untouched(s, find) then 0 else |SplitFrom(s, find, 0, 0)| - 1
  }

  /** There are as many as the leftmost cut makes. */
  lemma TokensCut(tokens: seq<seq<WChar>>, find: seq<WChar>)
    requires 0 < |find| < |Join(tokens, find)| && Leftmost(tokens, find)
    ensures TokensIn(Join(tokens, find), find) == |tokens| - 1
  {
    SplitFromOfJoin([], tokens, find);
    assert [] + Join(tokens, find) == Join(tokens, find);
  }

  /** No token is looked for. */
  predicate Untouched(s: seq<WChar>, find: seq<WChar>) {
    find == [] || |find| >= |s|
  }

  /** The string between two replacements: x characters are done, those up to `oldLen` are
      still to be searched and hold the tokens `ts`, and `all` is what it will become. */
  ghost predicate Progress(b: seq<WChar>, x: nat, oldLen: nat, ts: seq<seq<WChar>>,
                           find: seq<WChar>, rep: seq<WChar>, all: seq<WChar>) {
    x <= oldLen <= |b| && Leftmost(ts, find) &&
    b[x..oldLen] == Join(ts, find) && b[..x] + Join(ts, rep) == all
  }

  function Moved(b: seq<WChar>, dst: nat, src: nat, count: nat): (r: seq<WChar>)
    requires dst + count <= |b| && src + count <= |b|
    ensures |r| == |b|
  {
    b[..dst] + b[src..src + count] + b[dst + count..]
  }

  function Merged(b: seq<WChar>, x: nat, value: seq<WChar>): (r: seq<WChar>)
    requires x + |value| <= |b|
    ensures |r| == |b|
  {
    b[..x] + value + b[x + |value|..]
  }

  lemma NothingMoved(b: seq<WChar>, at: nat, count: nat)
    requires at + count <= |b|
    ensures Moved(b, at, at, count) == b
  {
  }

  lemma NothingMerged(b: seq<WChar>, x: nat)
    requires x <= |b|
    ensures Merged(b, x, []) == b
  {
  }

  /** What fits of `value` written at `x`. */
  function MergedWithin(b: seq<WChar>, x: nat, value: Text): (r: seq<WChar>)
    ensures |r| == |b|
  {
    if x > |b| || value.Null? then b
    else if x + |value.s| > |b| then Merged(b, x, value.s[..|b| - x])
    else Merged(b, x, value.s)
  }

  /** Where the next token is, and that nothing behind `oldLen` is found before it. */
  lemma NextFound(b: seq<WChar>, x: nat, oldLen: nat, ts: seq<seq<WChar>>,
                  find: seq<WChar>, rep: seq<WChar>, all: seq<WChar>)
    requires Progress(b, x, oldLen, ts, find, rep, all) && |ts| > 1
    ensures x + |ts[0]| + |find| <= oldLen
    ensures NoneIn(b, find, x, x + |ts[0]|) && MatchesAt(b, find, x + |ts[0]|)
  {
    hide Leftmost, EndsFirst, NoneIn, Join, MatchesAt;
    LeftmostTail(ts, find);
    JoinAfter([], ts, find);
    assert [] + ts[0] == ts[0] && [] + Join(ts, find) == Join(ts, find);
    var t, more := ts[0], Join(ts[1..], find);
    assert b[x..oldLen] == t + find + more;
    var rest := more + b[oldLen..];
    assert b[x..] == b[x..oldLen] + b[oldLen..] == t + find + rest;
    FirstSeparator(t, find, rest);
    NoneInSuffix(b, find, x, |t|);
    SuffixMatch(b, find, x, |t|);
  }

  /** One replacement: the tail moved by the difference in length, the new text written. */
  function Turned(b: seq<WChar>, y: nat, oldLen: nat, find: seq<WChar>, rep: seq<WChar>): (r: seq<WChar>)
    requires y + |find| <= oldLen <= |b| && oldLen + |rep| - |find| <= |b|
    ensures |r| == |b|
  {
    Merged(Moved(b, y + |rep|, y + |find|, oldLen - (y + |find|)), y, rep)
  }

  lemma TurnedParts(b: seq<WChar>, y: nat, oldLen: nat, find: seq<WChar>, rep: seq<WChar>)
    requires y + |find| <= oldLen <= |b| && oldLen + |rep| - |find| <= |b|
    ensures var r, d := Turned(b, y, oldLen, find, rep), |rep| - |find|;
            r[..y + |rep|] == b[..y] + rep && r[y + |rep|..oldLen + d] == b[y + |find|..oldLen] &&
            r[oldLen + d..] == b[oldLen + d..]
  {
    var dst, src, count := y + |rep|, y + |find|, oldLen - (y + |find|);
    var m := Moved(b, dst, src, count);
    var r := Merged(m, y, rep);
    assert m[..y] == b[..y];
    var before, after := b[src..src + count], r[dst..dst + count];
    forall i | 0 <= i < count ensures before[i] == after[i] {
      assert r[dst + i] == m[dst + i] == before[i];
    }
    assert m[dst + count..] == b[dst + count..];
  }

  lemma PartsOfSlice(b: seq<WChar>, x: nat, o: nat, t: seq<WChar>, f: seq<WChar>, more: seq<WChar>)
    requires x <= o <= |b| && b[x..o] == t + f + more
    ensures x + |t| + |f| <= o
    ensures b[x..x + |t|] == t && b[x + |t| + |f|..o] == more
  {
    assert b[x..o][..|t|] == t && b[x..o][|t| + |f|..] == more;
  }

  lemma TurnKeepsProgress(b: seq<WChar>, x: nat, oldLen: nat, ts: seq<seq<WChar>>,
                          find: seq<WChar>, rep: seq<WChar>, all: seq<WChar>)
    requires Progress(b, x, oldLen, ts, find, rep, all) && |ts| > 1
    requires x + |ts[0]| + |find| <= oldLen && oldLen + |rep| - |find| <= |b|
    ensures Progress(Turned(b, x + |ts[0]|, oldLen, find, rep), x + |ts[0]| + |rep|,
                     oldLen + |rep| - |find|, ts[1..], find, rep, all)
  {
    hide Leftmost, Turned;
    LeftmostTail(ts, find);
    var y := x + |ts[0]|;
    TurnedParts(b, y, oldLen, find, rep);
    assert b[x..oldLen] == ts[0] + find + Join(ts[1..], find);
    PartsOfSlice(b, x, oldLen, ts[0], find, Join(ts[1..], find));
    assert b[..y] == b[..x] + ts[0];
    JoinAfter(b[..x], ts, rep);
  }

  /** A match in `b` that lies in b[x..o] is a match there. */
  lemma MatchInside(b: seq<WChar>, find: seq<WChar>, x: nat, o: nat, r: nat)
    requires x <= r && r + |find| <= o <= |b| && MatchesAt(b, find, r)
    ensures MatchesAt(b[x..o], find, r - x)
  {
    forall i | 0 <= i < |find| ensures b[x..o][r - x..r - x + |find|][i] == find[i] {
      assert b[x..o][r - x + i] == b[r + i] == b[r..r + |find|][i];
    }
  }

  /** Once only the last token is left, a match would have to reach beyond `oldLen`. */
  lemma LastTurn(b: seq<WChar>, x: nat, oldLen: nat, ts: seq<seq<WChar>>,
                 find: seq<WChar>, rep: seq<WChar>, all: seq<WChar>)
    requires Progress(b, x, oldLen, ts, find, rep, all) && |ts| <= 1
    ensures b[..oldLen] == all && |ts| == 1
    ensures forall r :: x <= r && MatchesAt(b, find, r) ==> r + |find| > oldLen
    ensures NoneIn(b, find, x, |b| + 1) <==> Free(ts[0] + b[oldLen..], find)
  {
    LeftmostOne(ts, find);
    var t := ts[0];
    assert b[..oldLen] == b[..x] + b[x..oldLen];
    forall r | x <= r && MatchesAt(b, find, r) ensures r + |find| > oldLen {
      if r + |find| <= oldLen {
        MatchInside(b, find, x, oldLen, r);
      }
    }
    assert b[x..] == t + b[oldLen..];
    NoneInSuffixIff(b, find, x);
  }

  lemma NoneInSuffixIff(b: seq<WChar>, find: seq<WChar>, x: nat)
    requires x <= |b|
    ensures NoneIn(b, find, x, |b| + 1) <==> Free(b[x..], find)
  {
    forall k | 0 <= k < |b| - x + 1 ensures MatchesAt(b[x..], find, k) <==> MatchesAt(b, find, x + k) {
      SuffixMatch(b, find, x, k);
    }
    if Free(b[x..], find) {
      NoneInSuffix(b, find, x, |b| - x + 1);
    }
  }

  /** What a shrinking replacement leaves behind `oldLen` while the tokens `ts` are left. */
  ghost predicate Leaves(b: seq<WChar>, oldLen: nat, ts: seq<seq<WChar>>, s: seq<WChar>,
                         find: seq<WChar>, rep: seq<WChar>, done: nat)
    requires |rep| <= |find| <= |s|
  {
    oldLen <= |b| && b[oldLen..] == Repeat(Stale(s, find, rep), done) &&
    |Join(ts, find)| <= |s| && s[|s| - |Join(ts, find)|..] == Join(ts, find)
  }

  lemma TurnKeepsLeaves(b: seq<WChar>, x: nat, oldLen: nat, ts: seq<seq<WChar>>, s: seq<WChar>,
                        find: seq<WChar>, rep: seq<WChar>, all: seq<WChar>, done: nat)
    requires |rep| <= |find| <= |s| && Leaves(b, oldLen, ts, s, find, rep, done)
    requires Progress(b, x, oldLen, ts, find, rep, all) && |ts| > 1 && x + |ts[0]| + |find| <= oldLen
    ensures Leaves(Turned(b, x + |ts[0]|, oldLen, find, rep), oldLen + |rep| - |find|, ts[1..], s, find, rep, done + 1)
  {
    hide Leftmost, Turned;
    var y, d := x + |ts[0]|, |find| - |rep|;
    TurnedParts(b, y, oldLen, find, rep);
    var whole, rest := Join(ts, find), Join(ts[1..], find);
    assert whole == ts[0] + find + rest;
    assert s[|s| - |rest|..] == rest by {
      assert whole[|whole| - |rest|..] == rest;
      assert s[|s| - |whole|..][|whole| - |rest|..] == s[|s| - |rest|..];
    }
    assert b[oldLen - d..oldLen] == Stale(s, find, rep) by {
      assert b[x..oldLen][oldLen - x - d..] == b[oldLen - d..oldLen];
      assert s[|s| - |whole|..][|whole| - d..] == s[|s| - d..];
    }
    assert b[oldLen - d..] == b[oldLen - d..oldLen] + b[oldLen..];
  }

  // --- Counting tokens by searching ---

  /** `r` is the first match from `from` on, or -1 when there is none. */
  ghost predicate FirstMatch(s: seq<WChar>, find: seq<WChar>, from: nat, r: int) {
    if r < 0 then r == -1 && NoneIn(s, find, from, |s| + 1)
    else from <= r && NoneIn(s, find, from, r) && MatchesAt(s, find, r)
  }

  lemma FoundNext(s: seq<WChar>, find: seq<WChar>, x: nat, y: nat)
    requires find != [] && FirstMatch(s, find, x, y)
    ensures x <= y && y + |find| <= |s|
    ensures |SplitFrom(s, find, x, x)| == 1 + |SplitFrom(s, find, y + |find|, y + |find|)|
    ensures SplitFrom(s, find, x, x) == [s[x..y]] + SplitFrom(s, find, y + |find|, y + |find|)
  {
    SkipTo(s, find, x, x, y);
  }

  lemma FoundNone(s: seq<WChar>, find: seq<WChar>, x: nat)
    requires find != [] && x <= |s| && FirstMatch(s, find, x, -1)
    ensures SplitFrom(s, find, x, x) == [s[x..]]
  {
    if x + |find| <= |s| {
      SkipTo(s, find, x, x, |s| + 1 - |find|);
    }
  }

  /** Between two turns of the replacing loop on what was `s`. */
  ghost predicate Replacing(b: seq<WChar>, x: nat, oldLen: nat, ts: seq<seq<WChar>>,
                            s: seq<WChar>, find: seq<WChar>, rep: seq<WChar>)
    requires find != []
  {
    var tokens := SplitFrom(s, find, 0, 0);
    var newLen := |s| + (|tokens| - 1) * (|rep| - |find|);
    |find| < |s| && 0 < |ts| <= |tokens| && ts == tokens[|tokens| - |ts|..] &&
    oldLen + (|ts| - 1) * (|rep| - |find|) == newLen &&
    |b| == (if |rep| > |find| then newLen else |s|) &&
    Progress(b, x, oldLen, ts, find, rep, Replaced(s, find, rep)) &&
    (|rep| < |find| ==> Leaves(b, oldLen, ts, s, find, rep, |tokens| - |ts|))
  }

  lemma ReplacingStart(b: seq<WChar>, s: seq<WChar>, find: seq<WChar>, rep: seq<WChar>)
    requires find != [] && |find| < |s| && s <= b
    requires |b| == if |rep| > |find| then |s| + (|SplitFrom(s, find, 0, 0)| - 1) * (|rep| - |find|) else |s|
    ensures Replacing(b, 0, |s|, SplitFrom(s, find, 0, 0), s, find, rep)
  {
    hide SplitFrom, Leftmost, Join;
    SplitFromFacts(s, find, 0, 0);
    assert s[0..] == s && b[0..|s|] == s;
    assert b[..0] + Replaced(s, find, rep) == Replaced(s, find, rep);
  }

  lemma ReplacingTurn(b: seq<WChar>, x: nat, oldLen: nat, ts: seq<seq<WChar>>,
                      s: seq<WChar>, find: seq<WChar>, rep: seq<WChar>, r: nat)
    requires find != [] && Replacing(b, x, oldLen, ts, s, find, rep) && |ts| > 1 && FirstMatch(b, find, x, r)
    ensures r + |find| <= oldLen <= |b| && 0 <= oldLen + |rep| - |find| <= |b|
    ensures Replacing(Turned(b, r, oldLen, find, rep), r + |rep|, oldLen + |rep| - |find|, ts[1..], s, find, rep)
  {
    hide SplitFrom, Leftmost, Join, Turned, Progress, Leaves, Replaced, NoneIn, MatchesAt, FirstMatch;
    var all := Replaced(s, find, rep);
    ProgressBounds(b, x, oldLen, ts, find, rep, all);
    NextFound(b, x, oldLen, ts, find, rep, all);
    SameMatch(b, find, x, x + |ts[0]|, r);
    StepDown(|ts| - 1, |rep| - |find|);
    TurnKeepsProgress(b, x, oldLen, ts, find, rep, all);
    if |rep| < |find| {
      TurnKeepsLeaves(b, x, oldLen, ts, s, find, rep, all, |SplitFrom(s, find, 0, 0)| - |ts|);
    }
  }

  lemma SameMatch(b: seq<WChar>, find: seq<WChar>, x: nat, y: nat, r: nat)
    requires x <= y && NoneIn(b, find, x, y) && MatchesAt(b, find, y) && FirstMatch(b, find, x, r)
    ensures r == y
  {
  }

  lemma StepDown(n: nat, d: int)
    requires n > 0
    ensures n * d == (n - 1) * d + d && (d > 0 ==> (n - 1) * d >= 0)
  {
  }

  lemma ProgressBounds(b: seq<WChar>, x: nat, oldLen: nat, ts: seq<seq<WChar>>,
                       find: seq<WChar>, rep: seq<WChar>, all: seq<WChar>)
    requires Progress(b, x, oldLen, ts, find, rep, all)
    ensures x <= oldLen <= |b|
  {
  }

  /** The last token is reached: nothing more is found in a string that has not become
      shorter, and otherwise what is found lies beyond `oldLen`. */
  lemma ReplacingEnd(b: seq<WChar>, x: nat, oldLen: nat, ts: seq<seq<WChar>>,
                     s: seq<WChar>, find: seq<WChar>, rep: seq<WChar>, r: int)
    requires find != [] && Replacing(b, x, oldLen, ts, s, find, rep) && |ts| == 1 && FirstMatch(b, find, x, r)
    ensures oldLen == |s| + (|SplitFrom(s, find, 0, 0)| - 1) * (|rep| - |find|) <= |b|
    ensures b[..oldLen] == Replaced(s, find, rep)
    ensures r >= 0 ==> |rep| < |find| && r + |find| > oldLen
    ensures r < 0 <==> |rep| >= |find| || NoStaleMatch(s, find, rep)
  {
    hide SplitFrom, Leftmost, Join, Repeat, Stale, Free, Replaced;
    var tokens := SplitFrom(s, find, 0, 0);
    LastTurn(b, x, oldLen, ts, find, rep, Replaced(s, find, rep));
    assert ts[0] == tokens[|tokens| - 1];
    assert r >= 0 ==> MatchesAt(b, find, r);
    assert |rep| >= |find| ==> oldLen == |b|;
  }

  /** The search that ends the loop. */
  lemma ReplacingNone(b: seq<WChar>, x: nat, oldLen: nat, ts: seq<seq<WChar>>,
                      s: seq<WChar>, find: seq<WChar>, rep: seq<WChar>)
    requires find != [] && Replacing(b, x, oldLen, ts, s, find, rep) && FirstMatch(b, find, x, -1)
    ensures oldLen == |s| + (|SplitFrom(s, find, 0, 0)| - 1) * (|rep| - |find|) <= |b|
    ensures b[..oldLen] == Replaced(s, find, rep) && (|rep| >= |find| || NoStaleMatch(s, find, rep))
  {
    if |ts| > 1 {
      NextFound(b, x, oldLen, ts, find, rep, Replaced(s, find, rep));
      assert false;
    }
    ReplacingEnd(b, x, oldLen, ts, s, find, rep, -1);
  }

  /** Nothing is replaced when no token is looked for or none is found. */
  lemma UntouchedTokens(s: seq<WChar>, find: seq<WChar>, rep: seq<WChar>)
    requires !Untouched(s, find)
    ensures |SplitFrom(s, find, 0, 0)| == 1 ==> Replaced(s, find, rep) == s
    ensures |SplitFrom(s, find, 0, 0)| == 1 && |rep| <= |find| ==> NoStaleMatch(s, find, rep)
  {
    var tokens := SplitFrom(s, find, 0, 0);
    SplitFromFacts(s, find, 0, 0);
    if |tokens| == 1 {
      LeftmostOne(tokens, find);
      assert s[0..] == s;
      assert tokens[0] + [] == tokens[0];
    }
  }

  /** The new length is that of the replaced string, so it is not negative. */
  lemma ReplacedLength(s: seq<WChar>, find: seq<WChar>, rep: seq<WChar>)
    requires find != []
    ensures |Replaced(s, find, rep)| == |s| + (|SplitFrom(s, find, 0, 0)| - 1) * (|rep| - |find|)
  {
    SplitFromFacts(s, find, 0, 0);
    var tokens := SplitFrom(s, find, 0, 0);
    JoinLength(tokens, find);
    JoinLength(tokens, rep);
    var n := |tokens| - 1;
    assert n * (|rep| - |find|) == n * |rep| - n * |find|;
    assert s[0..] == s;
  }

  function TotalLength(parts: seq<seq<WChar>>): nat {
    if parts == [] then 0 else |parts[0]| + TotalLength(parts[1..])
  }

  lemma {:induction false} JoinLength(parts: seq<seq<WChar>>, sep: seq<WChar>)
    requires parts != []
    ensures |Join(parts, sep)| == TotalLength(parts) + (|parts| - 1) * |sep|
    decreases |parts|
  {
    if |parts| == 1 {
      assert parts[1..] == [];
    } else {
      JoinLength(parts[1..], sep);
      assert (|parts| - 1) * |sep| == |sep| + (|parts| - 2) * |sep|;
    }
  }

  /** Replace succeeds, except that a shorter replacement can find a token made of what it
      left behind. */
  ghost function ReplaceOutcome(str: Text, find: Text, rep: Text): Outcome {
    if str.Null? || find.Null? || rep.Null? then InvalidArgument
    else if Untouched(str.s, find.s) || |rep.s| >= |find.s| || NoStaleMatch(str.s, find.s, rep.s) then Ok
    else Fault
  }

  function AfterReplace(str: Text, find: Text, rep: Text): Text {
    if str.Null? || find.Null? || rep.Null? || Untouched(str.s, find.s) then str
    else Chars(Replaced(str.s, find.s, rep.s))
  }

  // --- When Replace does what it says ---

  /** What `Replaced` means: whichever way the string is cut at its leftmost tokens. */
  lemma ReplacedMeans(tokens: seq<seq<WChar>>, find: seq<WChar>, rep: seq<WChar>)
    requires find != [] && Leftmost(tokens, find)
    ensures Replaced(Join(tokens, find), find, rep) == Join(tokens, rep)
  {
    SplitFromOfJoin([], tokens, find);
    assert [] + Join(tokens, find) == Join(tokens, find);
  }

  lemma WholeReplaced(s: seq<WChar>, find: seq<WChar>, rep: seq<WChar>)
    requires find != []
    ensures |find| > |s| ==> Replaced(s, find, rep) == s
    ensures find == s ==> Replaced(s, find, rep) == rep
  {
    assert s[0..] == s;
    if find == s {
      assert s[0..0 + |s|] == s && s[|s|..] == [];
      assert SplitFrom(s, s, |s|, |s|) == [[]];
      assert SplitFrom(s, s, 0, 0) == [[], []];
      assert Join([[], []], rep) == [] + rep + [];
    }
  }

  /** Every leftmost token is replaced exactly when the string is not itself the token and
      a shortening replacement meets no token in the stale characters. */
  lemma ReplaceMeetsIff(s: seq<WChar>, find: seq<WChar>, rep: seq<WChar>)
    requires find != []
    ensures ReplaceOutcome(Chars(s), Chars(find), Chars(rep)) == Ok &&
            AfterReplace(Chars(s), Chars(find), Chars(rep)) == Chars(Replaced(s, find, rep)) <==>
            (find == s ==> rep == s) &&
            (|rep| < |find| < |s| ==> NoStaleMatch(s, find, rep))
  {
    WholeReplaced(s, find, rep);
    if |find| == |s| && find != s {
      assert s[0..0 + |s|] == s;
      assert SplitFrom(s, find, 0, 1) == [s];
    }
  }

  /** No stale character occurs in the token: then Replace cannot fail. */
  lemma StaleCharactersHarmless(s: seq<WChar>, find: seq<WChar>, rep: seq<WChar>)
    requires find != [] && |rep| < |find| < |s|
    requires forall c :: c in Stale(s, find, rep) ==> c !in find
    ensures NoStaleMatch(s, find, rep)
  {
    hide SplitFrom, Stale, Repeat;
    var tokens := SplitFrom(s, find, 0, 0);
    SplitFromFacts(s, find, 0, 0);
    var last, tail := tokens[|tokens| - 1], Repeat(Stale(s, find, rep), |tokens| - 1);
    RepeatIn(Stale(s, find, rep), |tokens| - 1);
    var b := last + tail;
    forall k | 0 <= k < |b| + 1 ensures !MatchesAt(b, find, k) {
      if MatchesAt(b, find, k) {
        MatchReachesTail(last, tail, find, k);
      }
    }
  }

  lemma MatchReachesTail(last: seq<WChar>, tail: seq<WChar>, find: seq<WChar>, k: nat)
    requires find != [] && MatchesAt(last + tail, find, k)
    ensures if k + |find| <= |last| then MatchesAt(last, find, k)
            else find[|find| - 1] in find && find[|find| - 1] in tail
  {
    var b := last + tail;
    if k + |find| <= |last| {
      assert last[k..k + |find|] == b[k..k + |find|];
    } else {
      var i := k + |find| - 1;
      assert b[i] == tail[i - |last|] && b[i] == b[k..k + |find|][|find| - 1];
    }
  }

  lemma {:induction false} RepeatIn(s: seq<WChar>, n: nat)
    ensures forall c :: c in Repeat(s, n) ==> c in s
    decreases n
  {
    if n > 0 {
      RepeatIn(s, n - 1);
    }
  }

  /** Deleting the token a longer string ends with always fails. */
  lemma DeletingSuffixFaults(s: seq<WChar>, find: seq<WChar>)
    requires find != [] && |find| < |s| && s[|s| - |find|..] == find
    ensures ReplaceOutcome(Chars(s), Chars(find), Chars([])) == Fault
  {
    hide SplitFrom, Stale, Repeat, Leftmost, Free, Join;
    var tokens := SplitFrom(s, find, 0, 0);
    SplitFromFacts(s, find, 0, 0);
    if |tokens| == 1 {
      LeftmostOne(tokens, find);
      JoinedOne(tokens[0], find);
      assert s[0..] == s;
      EndsWithToken(s, find);
      assert false;
    }
    StaleOfSuffix(s, find, |tokens| - 1);
    var rest := Repeat(find, |tokens| - 2);
    MatchBetween(tokens[|tokens| - 1], find, rest);
  }

  lemma JoinedOne(t: seq<WChar>, sep: seq<WChar>)
    ensures Join([t], sep) == t
  {
  }

  lemma EndsWithToken(s: seq<WChar>, find: seq<WChar>)
    requires |find| <= |s| && s[|s| - |find|..] == find
    ensures !Free(s, find)
  {
    assert MatchesAt(s, find, |s| - |find|);
  }

  lemma StaleOfSuffix(s: seq<WChar>, find: seq<WChar>, n: nat)
    requires |find| <= |s| && s[|s| - |find|..] == find && n > 0
    ensures Repeat(Stale(s, find, []), n) == find + Repeat(find, n - 1)
  {
  }

  lemma MatchBetween(a: seq<WChar>, find: seq<WChar>, rest: seq<WChar>)
    ensures !Free(a + (find + rest), find)
  {
    assert (a + (find + rest))[|a|..|a| + |find|] == find;
    assert MatchesAt(a + (find + rest), find, |a|);
  }

  const NUL: WChar := 0

  /** The length wcslen sees. */
  function WcsLen(s: seq<WChar>): (n: nat)
    ensures n <= |s| && (NUL !in s ==> n == |s|)
  {
    if s == [] || s[0] == NUL then 0 else 1 + WcsLen(s[1..])
  }

  class WideString {
    var str: array?<WChar>

    function Value(): Text
      reads this, str
    {
      if str == null then Null else Chars(str[..])
    }

    /** Resized in place: what does not fit is cut off, what is new is not initialized. */
    method SetLength(length: nat)
      requires str != null
      modifies this
      ensures str != null && fresh(str) && str.Length == length
      ensures forall i :: 0 <= i < length && i < old(str).Length ==> str[i] == old(str)[i]
    {
      var copy := new WChar[length];
      forall i | 0 <= i < length && i < str.Length {
        copy[i] := str[i];
      }
      str := copy;
    }

    /** The first match at or after `startIndex`. */
    method IndexOf(src: seq<WChar>, startIndex: nat) returns (result: int)
      requires NUL !in src
      ensures result >= -1
      ensures if str == null || src == [] then result == -1 else FirstMatch(str[..], src, startIndex, result)
    {
      result := -1;
      if str != null {
        var maxLen, compLen := str.Length, WcsLen(src);
        if compLen <= maxLen && compLen > 0 {
          var x := startIndex;
          while x + compLen <= maxLen
            invariant x >= startIndex && NoneIn(str[..], src, startIndex, x)
            decreases maxLen - x
          {
            if str[x] == src[0] && str[x..x + compLen] == src {
              assert str[..][x..x + compLen] == src;
              return x;
            }
            assert str[..][x..x + compLen] == str[x..x + compLen];
            x := x + 1;
          }
        }
      }
    }

    method TokenCount(find: seq<WChar>) returns (tokenCount: nat)
      requires str != null && NUL !in find
      ensures tokenCount == TokensIn(str[..], find)
      ensures find == [] || |find| >= str.Length ==> tokenCount == 0
    {
      tokenCount := 0;
      if find != [] && |find| < str.Length {
        tokenCount := CountTokens(find);
      }
    }

    method CountTokens(find: seq<WChar>) returns (tokenCount: nat)
      requires str != null && NUL !in find && find != []
      ensures tokenCount == |SplitFrom(str[..], find, 0, 0)| - 1
    {
      hide SplitFrom, FirstMatch;
      ghost var s, from := str[..], 0;
      tokenCount := 0;
      var x := IndexOf(find, 0);
      while x >= 0
        invariant 0 <= from <= |s| && -1 <= x && FirstMatch(s, find, from, x)
        invariant tokenCount + |SplitFrom(s, find, from, from)| == |SplitFrom(s, find, 0, 0)|
        decreases |s| - from
      {
        FoundNext(s, find, from, x);
        x := x + |find|;
        from := x;
        tokenCount := tokenCount + 1;
        x := IndexOf(find, x);
      }
      FoundNone(s, find, from);
    }

    /** memmove within the buffer. */
    method Move(dst: nat, src: nat, count: nat)
      requires str != null && dst + count <= str.Length && src + count <= str.Length
      modifies str
      ensures str[..] == Moved(old(str[..]), dst, src, count)
    {
      ghost var b := str[..];
      var chars := str[src..src + count];
      forall i | 0 <= i < count {
        str[dst + i] := chars[i];
      }
      assert str[..] == Moved(b, dst, src, count) by {
        assert str[dst..dst + count] == chars;
        assert str[..dst] == b[..dst] && str[dst + count..] == b[dst + count..];
      }
    }

    /** Overwrites in place; never makes the string longer. */
    method MergeString(startIndex: nat, value: Text)
      modifies str
      ensures str != null ==> str[..] == MergedWithin(old(str[..]), startIndex, value)
      ensures str != null ==>
                forall i | 0 <= i < str.Length ::
                  str[i] == if value.Chars? && startIndex <= i < startIndex + |value.s| then value.s[i - startIndex] else old(str[i])
    {
      var maxIdx := if str == null then 0 else str.Length;
      if startIndex > maxIdx || value.Null? {
        return;
      }
      if str != null {
        ghost var b := str[..];
        var mergeLen := |value.s|;
        if mergeLen + startIndex > maxIdx {
          mergeLen := maxIdx - startIndex;
        }
        forall i | 0 <= i < mergeLen {
          str[startIndex + i] := value.s[i];
        }
        assert str[startIndex..startIndex + mergeLen] == value.s[..mergeLen];
        assert str[..startIndex] == b[..startIndex] && str[startIndex + mergeLen..] == b[startIndex + mergeLen..];
      }
    }

    /** One turn of the replacing loop, for a token found at `x` and ending by `oldLen`. */
    method ReplaceAt(x: nat, oldLen: nat, find: seq<WChar>, rep: seq<WChar>)
      requires str != null && x + |find| <= oldLen <= str.Length && oldLen + |rep| - |find| <= str.Length
      modifies str
      ensures str[..] == Turned(old(str[..]), x, oldLen, find, rep)
    {
      hide Moved, Merged;
      var offset, lengthDiff := x + |find|, |rep| - |find|;
      NothingMoved(str[..], offset, oldLen - offset);
      if lengthDiff != 0 {
        Move(offset + lengthDiff, offset, oldLen - offset);
      }
      NothingMerged(str[..], x);
      if |rep| > 0 {
        MergeString(x, Chars(rep));
      }
    }

    /** The replacing loop.  A token found beyond `oldLen`, in what earlier moves left
        behind, would be moved by a negative count. */
    method ReplaceLoop(find: seq<WChar>, rep: seq<WChar>, ghost s: seq<WChar>, startLen: nat, newLen: nat)
      returns (hr: Outcome)
      requires str != null && find != [] && NUL !in find && |find| < |s| && s <= str[..] && startLen == |s|
      requires newLen == |s| + (|SplitFrom(s, find, 0, 0)| - 1) * (|rep| - |find|)
      requires str.Length == if |rep| > |find| then newLen else |s|
      modifies str
      ensures hr == if |rep| >= |find| || NoStaleMatch(s, find, rep) then Ok else Fault
      ensures hr == Ok ==> newLen <= str.Length && str[..newLen] == Replaced(s, find, rep)
    {
      hide Replacing, Turned, SplitFrom, FirstMatch, NoStaleMatch, Replaced;
      ghost var ts := SplitFrom(s, find, 0, 0);
      var oldLen, lengthDiff := startLen, |rep| - |find|;
      ReplacingStart(str[..], s, find, rep);
      var x := IndexOf(find, 0);
      ghost var from := 0;
      while x >= 0
        invariant -1 <= x && 0 <= from && 0 <= oldLen && ts != []
        invariant Replacing(str[..], from, oldLen, ts, s, find, rep)
        invariant FirstMatch(str[..], find, from, x)
        decreases |ts|
      {
        if |ts| == 1 {
          ReplacingEnd(str[..], from, oldLen, ts, s, find, rep, x);
        } else {
          ReplacingTurn(str[..], from, oldLen, ts, s, find, rep, x);
        }
        var offset := x + |find|;
        if lengthDiff != 0 && offset > oldLen {
          return Fault;
        }
        ReplaceAt(x, oldLen, find, rep);
        oldLen := oldLen + lengthDiff;
        x := x + |rep|;
        from, ts := x, ts[1..];
        x := IndexOf(find, x);
      }
      ReplacingNone(str[..], from, oldLen, ts, s, find, rep);
      return Ok;
    }

    method Replace(find: Text, rep: Text) returns (hr: Outcome)
      requires find.Chars? ==> NUL !in find.s
      modifies this, str
      ensures hr == ReplaceOutcome(old(Value()), find, rep)
      ensures hr != Fault ==> Value() == AfterReplace(old(Value()), find, rep)
      ensures hr == InvalidArgument <==> old(Value()).Null? || find.Null? || rep.Null?
      ensures hr == InvalidArgument || |find.s| == 0 || |find.s| >= |old(Value()).s| ==> Value() == old(Value())
      ensures hr == Ok && 0 < |find.s| < |old(Value()).s| ==>
                Value().Chars? && ReplacedIn(old(Value()).s, find.s, rep.s, Value().s)
    {
      hide SplitFrom, NoStaleMatch;
      if str == null || find.Null? || rep.Null? {
        return InvalidArgument;
      }
      ghost var s := str[..];
      var countTokens := TokenCount(find.s);
      if !Untouched(s, find.s) {
        UntouchedTokens(s, find.s, rep.s);
        ReplacedIsIn(s, find.s, rep.s);
      }
      if countTokens == 0 {
        return Ok;
      }
      var lengthDiff, oldLen := |rep.s| - |find.s|, str.Length;
      var newLen := oldLen + countTokens * lengthDiff;
      assert lengthDiff > 0 ==> newLen >= oldLen by {
        if lengthDiff > 0 {
          assert countTokens * lengthDiff >= 0;
        }
      }
      if lengthDiff > 0 {
        SetLength(newLen);
      }
      assert str[..oldLen] == s;
      ReplacedLength(s, find.s, rep.s);
      hr := ReplaceLoop(find.s, rep.s, s, oldLen, newLen);
      if hr == Ok && lengthDiff < 0 {
        ghost var b := str[..];
        SetLength(newLen);
        assert str[..] == b[..newLen];
      }
    }

    method Substring(startIndex: nat, length: nat) returns (r: Text)
      ensures r == if str == null || startIndex > str.Length then Null
                   else Chars(str[startIndex..if startIndex + length > str.Length then str.Length else startIndex + length])
    {
      var maxIdx := if str == null then 0 else str.Length;
      var len: int := if startIndex + length > maxIdx then maxIdx - startIndex else length;
      if str != null && startIndex <= maxIdx {
        return Chars(str[startIndex..startIndex + len]);
      }
      return Null;
    }

    /** The pieces between tokens: counted first, then cut out into an array of that size.
        They are the leftmost cut, none of them holds the expression, joining them gives the
        string back, and there is one more of them than TokenCount counts. */
    method Split(expression: seq<WChar>) returns (retval: array<seq<WChar>>)
      requires str != null && NUL !in expression
      ensures fresh(retval)
      ensures str.Length == 0 ==> retval[..] == []
      ensures str.Length > 0 && expression == [] ==> retval[..] == [str[..]]
      ensures Join(retval[..], expression) == str[..]
      ensures str.Length > 0 && expression != [] ==> Leftmost(retval[..], expression)
      ensures expression != [] ==> forall i, k :: 0 <= i < retval.Length && k >= 0 ==> !MatchesAt(retval[i], expression, k)
      ensures 0 < |expression| < str.Length ==> retval.Length == TokensIn(str[..], expression) + 1
    {
      if str.Length == 0 {
        return new seq<WChar>[0];
      }
      assert str[0..str.Length] == str[..];
      if expression == [] {
        retval := new seq<WChar>[1];
        retval[0] := str[0..str.Length];
        return;
      }
      retval := SplitTokens(expression);
      PiecesFacts(str[..], expression);
    }

    method SplitTokens(expression: seq<WChar>) returns (retval: array<seq<WChar>>)
      requires str != null && NUL !in expression && expression != []
      ensures fresh(retval) && retval[..] == SplitFrom(str[..], expression, 0, 0)
    {
      hide SplitFrom, FirstMatch;
      ghost var s := str[..];
      ghost var all := SplitFrom(s, expression, 0, 0);
      var found := CountTokens(expression);
      retval := new seq<WChar>[found + 1];
      var x, prevPos := 0, 0;
      for curEl := 0 to found + 1
        invariant curEl <= found ==> 0 <= x <= |s| && x == prevPos && all[curEl..] == SplitFrom(s, expression, x, x)
        invariant retval[..curEl] == all[..curEl]
      {
        x := IndexOf(expression, x);
        if x < 0 {
          FoundNone(s, expression, prevPos);
        } else {
          FoundNext(s, expression, prevPos, x);
        }
        var piece := Substring(prevPos, if x < 0 then str.Length - prevPos else x - prevPos);
        assert piece.s == all[curEl..][0] == all[curEl];
        assert curEl < found ==> x >= 0 && all[curEl + 1..] == all[curEl..][1..];
        Store(retval, curEl, piece.s);
        x := x + |expression|;
        prevPos := x;
      }
    }
  }

  lemma PiecesFacts(s: seq<WChar>, expression: seq<WChar>)
    requires s != [] && expression != []
    ensures var pieces := SplitFrom(s, expression, 0, 0);
            Leftmost(pieces, expression) && Join(pieces, expression) == s &&
            forall i, k :: 0 <= i < |pieces| && k >= 0 ==> !MatchesAt(pieces[i], expression, k)
  {
    hide SplitFrom, Leftmost, Join;
    SplitFacts(s, expression);
    assert Splitting.Split(s, expression) == SplitFrom(s, expression, 0, 0);
    forall i, k | 0 <= i < |SplitFrom(s, expression, 0, 0)| && k >= 0
      ensures !MatchesAt(SplitFrom(s, expression, 0, 0)[i], expression, k)
    {
      TokensFree(s, expression, i);
    }
  }

  /** There is only one leftmost cut of a string. */
  lemma PiecesUnique(pieces: seq<seq<WChar>>, other: seq<seq<WChar>>, expression: seq<WChar>)
    requires expression != [] && Leftmost(pieces, expression) && Leftmost(other, expression)
    requires Join(pieces, expression) == Join(other, expression)
    ensures pieces == other
  {
    SplitFromOfJoin([], pieces, expression);
    SplitFromOfJoin([], other, expression);
  }

  /** The strings of a vector; null ones are empty. */
  function Strings(parts: seq<Text>): (r: seq<seq<WChar>>)
    ensures |r| == |parts|
  {
    seq(|parts|, i requires 0 <= i < |parts| => OrEmpty(parts[i]))
  }

  function OrEmpty(t: Text): seq<WChar> {
    if t.Null? then [] else t.s
  }

  method Append(a: array<WChar>, at: nat, chars: seq<WChar>)
    requires at + |chars| <= a.Length
    modifies a
    ensures a[..at + |chars|] == old(a[..at]) + chars
  {
    forall i | 0 <= i < |chars| {
      a[at + i] := chars[i];
    }
  }

  /** The characters of a joined vector, counted from its end. */
  method CountJoined(parts: seq<Text>, delLen: nat) returns (totalLen: nat)
    ensures totalLen == TotalLength(Strings(parts)) + if parts == [] then 0 else (|parts| - 1) * delLen
  {
    ghost var strs := Strings(parts);
    var els := |parts|;
    totalLen := 0;
    assert strs[0..] == strs && strs[els..] == [];
    while els != 0
      invariant 0 <= els <= |parts|
      invariant totalLen == TotalLength(strs[els..]) + (if els == 0 < |parts| then |parts| - 1 else |parts| - els) * delLen
    {
      els := els - 1;
      assert strs[els..][1..] == strs[els + 1..];
      assert (|parts| - els) * delLen == (|parts| - els - 1) * delLen + delLen;
      if parts[els].Chars? {
        totalLen := totalLen + |parts[els].s|;
      }
      if els != 0 {
        totalLen := totalLen + delLen;
      }
    }
  }

  /** One part and what separates it from the next. */
  method AppendPart(a: array<WChar>, at: nat, part: seq<WChar>, gap: seq<WChar>, ghost more: seq<WChar>,
                    ghost all: seq<WChar>, ghost before: seq<WChar>, ghost strs: seq<seq<WChar>>, ghost j: nat,
                    ghost sep: seq<WChar>) returns (end: nat)
    requires at <= a.Length == |all| && a[..at] == before && j < |strs| && part == strs[j]
    requires gap == (if j == |strs| - 1 then [] else sep) && more == Join(strs[j + 1..], sep)
    requires before + Join(strs[j..], sep) == all
    modifies a
    ensures at <= end <= a.Length && a[..end] + more == all
  {
    hide Join;
    JoinFrom(before, strs, j, sep);
    assert |before + part + gap + more| == |all|;
    Append(a, at, part);
    Append(a, at + |part|, gap);
    end := at + |part| + |gap|;
  }

  /** Counted first, then copied into a string of that length, never beyond its end. */
  method JoinVector(parts: seq<Text>, delimiter: Text) returns (retval: array<WChar>)
    ensures fresh(retval) && retval[..] == Join(Strings(parts), OrEmpty(delimiter))
  {
    hide Join, Strings, TotalLength, OrEmpty;
    var sep := OrEmpty(delimiter);
    ghost var strs := Strings(parts);
    ghost var all := Join(strs, sep);
    var totalLen := CountJoined(parts, |sep|);
    JoinedLength(strs, sep);
    retval := new WChar[totalLen];
    totalLen := 0;
    assert strs[0..] == strs;
    for curel := 0 to |parts|
      invariant 0 <= totalLen <= retval.Length && retval[..totalLen] + Join(strs[curel..], sep) == all
    {
      ghost var before := retval[..totalLen];
      StringAt(parts, curel);
      totalLen := AppendPart(retval, totalLen, OrEmpty(parts[curel]), if curel + 1 < |parts| then sep else [],
                             Join(strs[curel + 1..], sep), all, before, strs, curel, sep);
    }
    assert strs[|parts|..] == [];
    JoinedLength([], sep);
    assert retval[..totalLen] == retval[..];
  }

  lemma StringAt(parts: seq<Text>, i: nat)
    requires i < |parts|
    ensures Strings(parts)[i] == OrEmpty(parts[i]) == if parts[i].Null? then [] else parts[i].s
  {
  }

  lemma JoinedLength(parts: seq<seq<WChar>>, sep: seq<WChar>)
    ensures |Join(parts, sep)| == TotalLength(parts) + if parts == [] then 0 else (|parts| - 1) * |sep|
    ensures parts == [] ==> Join(parts, sep) == []
  {
    if parts != [] {
      JoinLength(parts, sep);
    }
  }
}
