/** Leftmost, non-overlapping splitting at a separator, and joining, on any sequences. */
module Splitting {

  predicate MatchesAt<T(==)>(s: seq<T>, sep: seq<T>, j: nat) {
    j + |sep| <= |s| && s[j..j + |sep|] == sep
  }

  /** The tokens of s[start..], when no separator begins between `start` and `j`. */
  function SplitFrom<T(==)>(s: seq<T>, sep: seq<T>, start: nat, j: nat): (tokens: seq<seq<T>>)
    requires sep != [] && start <= j && start <= |s|
    ensures tokens != []
    decreases |s| - j
  {
    if j + |sep| > |s| then [s[start..]]
    else if s[j..j + |sep|] == sep then [s[start..j]] + SplitFrom(s, sep, j + |sep|, j + |sep|)
    else SplitFrom(s, sep, start, j + 1)
  }

  /** The empty string has no tokens. */
  function Split<T(==)>(s: seq<T>, sep: seq<T>): seq<seq<T>>
    requires sep != []
  {
    if s == [] then [] else SplitFrom(s, sep, 0, 0)
  }

  function Join<T>(parts: seq<seq<T>>, sep: seq<T>): seq<T> {
    if parts == [] then [] else if |parts| == 1 then parts[0]
    else parts[0] + sep + Join(parts[1..], sep)
  }

  ghost predicate NoneIn<T>(s: seq<T>, sep: seq<T>, lo: nat, hi: nat) {
    forall k :: lo <= k < hi ==> !MatchesAt(s, sep, k)
  }

  /** No separator anywhere in `s`. */
  ghost predicate Free<T>(s: seq<T>, sep: seq<T>) {
    NoneIn(s, sep, 0, |s| + 1)
  }

  /** The first separator in `t + sep` is the final one. */
  ghost predicate EndsFirst<T>(t: seq<T>, sep: seq<T>) {
    NoneIn(t + sep, sep, 0, |t|)
  }

  /** What makes a list of tokens the leftmost split: the separator after each token but
      the last is the first one there, and there is none in the last. */
  ghost predicate Leftmost<T>(tokens: seq<seq<T>>, sep: seq<T>) {
    tokens != [] &&
    (forall i :: 0 <= i < |tokens| - 1 ==> EndsFirst(tokens[i], sep)) &&
    Free(tokens[|tokens| - 1], sep)
  }

  lemma JoinCons<T>(t: seq<T>, ts: seq<seq<T>>, sep: seq<T>)
    requires ts != []
    ensures Join([t] + ts, sep) == t + sep + Join(ts, sep)
  {
    assert ([t] + ts)[1..] == ts;
  }

  lemma LeftmostCons<T>(t: seq<T>, ts: seq<seq<T>>, sep: seq<T>)
    requires Leftmost(ts, sep) && EndsFirst(t, sep)
    ensures Leftmost([t] + ts, sep)
  {
  }

  /** Where a match lies in s[a..b] it lies in `s`, shifted by `a`. */
  lemma MatchInSlice<T>(s: seq<T>, sep: seq<T>, a: nat, b: nat, k: nat)
    requires a <= b <= |s| && MatchesAt(s[a..b], sep, k)
    ensures MatchesAt(s, sep, a + k)
  {
    var n := |sep|;
    assert a + k + n <= b;
    forall i | 0 <= i < n ensures s[a + k..a + k + n][i] == sep[i] {
      assert s[a..b][k..k + n][i] == s[a..b][k + i] == s[a + k + i];
    }
    assert s[a + k..a + k + n] == sep;
  }

  lemma NoneInSlice<T>(s: seq<T>, sep: seq<T>, a: nat, b: nat, hi: nat)
    requires a <= b <= |s| && NoneIn(s, sep, a, a + hi)
    ensures NoneIn(s[a..b], sep, 0, hi)
  {
    forall k | 0 <= k < hi ensures !MatchesAt(s[a..b], sep, k) {
      if MatchesAt(s[a..b], sep, k) {
        MatchInSlice(s, sep, a, b, k);
      }
    }
  }

  lemma {:induction false} SplitFromFacts<T>(s: seq<T>, sep: seq<T>, start: nat, j: nat)
    requires sep != [] && start <= j && start <= |s| && NoneIn(s, sep, start, j)
    ensures Join(SplitFrom(s, sep, start, j), sep) == s[start..]
    ensures Leftmost(SplitFrom(s, sep, start, j), sep)
    decreases |s| - j
  {
    hide Join, Leftmost, EndsFirst, Free;
    if j + |sep| > |s| {
      LastToken(s, sep, start, j);
    } else if s[j..j + |sep|] == sep {
      SplitFromFacts(s, sep, j + |sep|, j + |sep|);
      TokenBefore(s, sep, start, j, SplitFrom(s, sep, j + |sep|, j + |sep|));
    } else {
      SplitFromFacts(s, sep, start, j + 1);
    }
  }

  lemma LastToken<T>(s: seq<T>, sep: seq<T>, start: nat, j: nat)
    requires sep != [] && start <= j && start <= |s| < j + |sep| && NoneIn(s, sep, start, j)
    ensures Join([s[start..]], sep) == s[start..] && Leftmost([s[start..]], sep)
  {
    assert NoneIn(s, sep, start, start + (|s| - start + 1));
    NoneInSlice(s, sep, start, |s|, |s| - start + 1);
    assert s[start..|s|] == s[start..];
  }

  lemma TokenBefore<T>(s: seq<T>, sep: seq<T>, start: nat, j: nat, ts: seq<seq<T>>)
    requires start <= j && j + |sep| <= |s| && s[j..j + |sep|] == sep && NoneIn(s, sep, start, j)
    requires Join(ts, sep) == s[j + |sep|..] && Leftmost(ts, sep)
    ensures Join([s[start..j]] + ts, sep) == s[start..] && Leftmost([s[start..j]] + ts, sep)
  {
    hide Join, Leftmost;
    var t := s[start..j];
    assert t + sep == s[start..j + |sep|];
    NoneInSlice(s, sep, start, j + |sep|, j - start);
    assert ts != [] by {
      LeftmostNonempty(ts, sep);
    }
    JoinCons(t, ts, sep);
    LeftmostCons(t, ts, sep);
    assert s[start..j + |sep|] + s[j + |sep|..] == s[start..];
  }

  lemma LeftmostNonempty<T>(ts: seq<seq<T>>, sep: seq<T>)
    requires Leftmost(ts, sep)
    ensures ts != []
  {
  }

  /** Joining the tokens gives the string back, and the tokens are the leftmost ones. */
  lemma SplitFacts<T>(s: seq<T>, sep: seq<T>)
    requires sep != []
    ensures Join(Split(s, sep), sep) == s
    ensures s != [] ==> Leftmost(Split(s, sep), sep)
  {
    if s != [] {
      SplitFromFacts(s, sep, 0, 0);
    }
  }

  /** No token contains the separator. */
  lemma TokensFree<T>(s: seq<T>, sep: seq<T>, i: nat)
    requires sep != [] && i < |Split(s, sep)|
    ensures Free(Split(s, sep)[i], sep)
  {
    SplitFacts(s, sep);
    var t := Split(s, sep)[i];
    if i < |Split(s, sep)| - 1 {
      forall k | 0 <= k < |t| + 1 ensures !MatchesAt(t, sep, k) {
        if MatchesAt(t, sep, k) {
          assert (t + sep)[k..k + |sep|] == t[k..k + |sep|];
          assert MatchesAt(t + sep, sep, k);
        }
      }
    }
  }

  /** Appending anything after the separator does not change which separator comes first. */
  lemma FirstSeparator<T>(t: seq<T>, sep: seq<T>, rest: seq<T>)
    requires EndsFirst(t, sep)
    ensures NoneIn(t + sep + rest, sep, 0, |t|) && MatchesAt(t + sep + rest, sep, |t|)
  {
    var s := t + sep + rest;
    assert s[..|t| + |sep|] == t + sep;
    forall k | 0 <= k < |t| ensures !MatchesAt(s, sep, k) {
      if MatchesAt(s, sep, k) {
        assert (t + sep)[k..k + |sep|] == s[k..k + |sep|];
        assert MatchesAt(t + sep, sep, k);
      }
    }
  }

  /** Scanning forward over a stretch without separators changes nothing. */
  lemma {:induction false} SkipTo<T>(s: seq<T>, sep: seq<T>, start: nat, j: nat, hit: nat)
    requires sep != [] && start <= j <= hit && start <= |s| && NoneIn(s, sep, j, hit)
    requires hit + |sep| <= |s| + 1
    ensures SplitFrom(s, sep, start, j) == SplitFrom(s, sep, start, hit)
    decreases hit - j
  {
    if j < hit {
      assert !MatchesAt(s, sep, j);
      SkipTo(s, sep, start, j + 1, hit);
    }
  }

  /** Where a match lies in s[a..] it lies in `s`, shifted by `a`, and conversely. */
  lemma NoneInSuffix<T>(s: seq<T>, sep: seq<T>, a: nat, hi: nat)
    requires a <= |s| && NoneIn(s[a..], sep, 0, hi)
    ensures NoneIn(s, sep, a, a + hi)
  {
    forall k | a <= k < a + hi ensures !MatchesAt(s, sep, k) {
      if MatchesAt(s, sep, k) {
        SuffixMatch(s, sep, a, k - a);
      }
    }
  }

  lemma SuffixMatch<T>(s: seq<T>, sep: seq<T>, a: nat, k: nat)
    requires a <= |s|
    ensures MatchesAt(s[a..], sep, k) <==> MatchesAt(s, sep, a + k)
  {
    if a + k + |sep| <= |s| {
      assert s[a..][k..k + |sep|] == s[a + k..a + k + |sep|];
    }
  }

  lemma LeftmostTail<T>(tokens: seq<seq<T>>, sep: seq<T>)
    requires Leftmost(tokens, sep) && |tokens| > 1
    ensures EndsFirst(tokens[0], sep) && Leftmost(tokens[1..], sep)
  {
    hide EndsFirst, Free;
    assert forall i :: 0 <= i < |tokens| - 1 ==> tokens[1..][i] == tokens[i + 1];
  }

  lemma LeftmostOne<T>(tokens: seq<seq<T>>, sep: seq<T>)
    requires Leftmost(tokens, sep) && |tokens| <= 1
    ensures |tokens| == 1 && tokens == [tokens[0]] && Free(tokens[0], sep)
  {
  }

  lemma JoinAfter<T>(prefix: seq<T>, tokens: seq<seq<T>>, sep: seq<T>)
    requires |tokens| > 1
    ensures prefix + Join(tokens, sep) == prefix + tokens[0] + sep + Join(tokens[1..], sep)
  {
  }

  lemma {:induction false} SplitFromOfJoin<T>(prefix: seq<T>, tokens: seq<seq<T>>, sep: seq<T>)
    requires sep != [] && Leftmost(tokens, sep)
    ensures SplitFrom(prefix + Join(tokens, sep), sep, |prefix|, |prefix|) == tokens
    decreases |tokens|
  {
    hide SplitFrom, Leftmost, EndsFirst, Free;
    if |tokens| <= 1 {
      LeftmostOne(tokens, sep);
      SplitLast(prefix, tokens[0], sep);
    } else {
      hide Join;
      LeftmostTail(tokens, sep);
      SplitFromOfJoin(prefix + tokens[0] + sep, tokens[1..], sep);
      JoinAfter(prefix, tokens, sep);
      SplitOne(prefix, tokens[0], sep, Join(tokens[1..], sep));
      assert [tokens[0]] + tokens[1..] == tokens;
    }
  }

  lemma SplitLast<T>(prefix: seq<T>, t: seq<T>, sep: seq<T>)
    requires sep != [] && Free(t, sep)
    ensures SplitFrom(prefix + t, sep, |prefix|, |prefix|) == [t]
  {
    var s, p := prefix + t, |prefix|;
    assert s[p..] == t;
    NoneInSuffix(s, sep, p, |t| + 1);
    if |t| + 1 >= |sep| {
      SkipTo(s, sep, p, p, |s| + 1 - |sep|);
    }
  }

  lemma SplitHit<T>(s: seq<T>, sep: seq<T>, start: nat, j: nat)
    requires sep != [] && start <= j && MatchesAt(s, sep, j)
    ensures SplitFrom(s, sep, start, j) == [s[start..j]] + SplitFrom(s, sep, j + |sep|, j + |sep|)
  {
  }

  /** The first token is split off, up to the first separator. */
  lemma SplitOne<T>(prefix: seq<T>, t: seq<T>, sep: seq<T>, rest: seq<T>)
    requires sep != [] && EndsFirst(t, sep)
    ensures SplitFrom(prefix + t + sep + rest, sep, |prefix|, |prefix|) ==
            [t] + SplitFrom(prefix + t + sep + rest, sep, |prefix + t + sep|, |prefix + t + sep|)
  {
    hide SplitFrom, EndsFirst, NoneIn, MatchesAt;
    var s, p := prefix + t + sep + rest, |prefix|;
    assert s[p..] == t + sep + rest;
    FirstSeparator(t, sep, rest);
    NoneInSuffix(s, sep, p, |t|);
    SkipTo(s, sep, p, p, p + |t|);
    SuffixMatch(s, sep, p, |t|);
    SplitHit(s, sep, p, p + |t|);
    assert s[..p + |t|] == prefix + t && (prefix + t)[p..] == t;
    assert s[p..p + |t|] == s[..p + |t|][p..];
  }

  /** Splitting undoes joining exactly for the lists that are leftmost; the list of one
      empty string, which joins to the empty string, is lost. */
  lemma SplitOfJoinIff<T>(tokens: seq<seq<T>>, sep: seq<T>)
    requires sep != []
    ensures Split(Join(tokens, sep), sep) == tokens <==>
            tokens == [] || (Leftmost(tokens, sep) && tokens != [[]])
  {
    if tokens != [] {
      var s := Join(tokens, sep);
      if Leftmost(tokens, sep) && tokens != [[]] {
        if |tokens| == 1 {
          assert tokens == [tokens[0]];
        }
        SplitFromOfJoin([], tokens, sep);
        assert [] + s == s;
      }
      SplitFacts(s, sep);
    }
  }

  /** The next token put into an array of them. */
  method Store<T>(tokens: array<seq<T>>, i: nat, token: seq<T>)
    requires i < tokens.Length
    modifies tokens
    ensures tokens[..i + 1] == old(tokens[..i]) + [token]
  {
    tokens[i] := token;
  }

  /** One part more of a join from left to right. */
  lemma JoinFrom<T>(now: seq<T>, parts: seq<seq<T>>, j: nat, sep: seq<T>)
    requires j < |parts|
    ensures now + Join(parts[j..], sep) ==
            now + parts[j] + (if j == |parts| - 1 then [] else sep) + Join(parts[j + 1..], sep)
  {
    assert parts[j..][1..] == parts[j + 1..];
  }
}
