/** The hand-written odometer that walks the index tuples of a multi-dimensional array,
    and the mixed-radix arithmetic behind it.  Dimension 0 turns fastest. */
module Odometer {
  import opened Bytes

  /** The number of index tuples. */
  function Product(lens: seq<nat>): nat {
    if lens == [] then 1 else lens[0] * Product(lens[1..])
  }

  predicate AllPositive(lens: seq<nat>) {
    forall i :: 0 <= i < |lens| ==> lens[i] > 0
  }

  predicate InRange(d: seq<nat>, lens: seq<nat>) {
    |d| == |lens| && forall i :: 0 <= i < |lens| ==> d[i] < lens[i]
  }

  /** The number a digit sequence stands for, dimension 0 least significant. */
  function Rank(d: seq<nat>, lens: seq<nat>): nat
    requires |d| == |lens|
  {
    if lens == [] then 0 else d[0] + lens[0] * Rank(d[1..], lens[1..])
  }

  lemma MulAbove(d: nat, a: nat, r: nat, p: nat)
    requires d < a && r < p
    ensures d + a * r < a * p
  {
    assert a * r + a == a * (r + 1) <= a * p;
  }

  /** In range, the number is below the number of tuples, and it determines the digits. */
  lemma {:induction false} RankInjective(d: seq<nat>, e: seq<nat>, lens: seq<nat>)
    requires InRange(d, lens) && InRange(e, lens)
    ensures Rank(d, lens) < Product(lens)
    ensures Rank(d, lens) == Rank(e, lens) ==> d == e
  {
    if lens != [] {
      RankInjective(d[1..], e[1..], lens[1..]);
      var r, s := Rank(d[1..], lens[1..]), Rank(e[1..], lens[1..]);
      MulAbove(d[0], lens[0], r, Product(lens[1..]));
      if r < s {
        MulAbove(d[0], lens[0], r, s);
      } else if s < r {
        MulAbove(e[0], lens[0], s, r);
      }
      assert d == [d[0]] + d[1..] && e == [e[0]] + e[1..];
    }
  }

  // --- The carry ---

  /** The first dimension that is not at its last index. */
  function CarryPosition(d: seq<nat>, lens: seq<nat>): (z: nat)
    requires |d| == |lens|
    ensures z <= |lens|
    ensures forall i :: 0 <= i < z ==> d[i] + 1 >= lens[i]
    ensures z < |lens| ==> d[z] + 1 < lens[z]
  {
    if lens == [] then 0
    else if d[0] + 1 < lens[0] then 0
    else 1 + CarryPosition(d[1..], lens[1..])
  }

  /** `d` with dimension `z` turned by one and all before it reset. */
  function Turned(d: seq<nat>, z: nat): (t: seq<nat>)
    requires z < |d|
    ensures |t| == |d|
    ensures forall i :: 0 <= i < |d| ==> t[i] == if i < z then 0 else if i == z then d[i] + 1 else d[i]
  {
    if z == 0 then [d[0] + 1] + d[1..] else [0] + Turned(d[1..], z - 1)
  }

  /** The same, dimension by dimension: the digits after `d`, or nothing after the last. */
  function Advance(d: seq<nat>, lens: seq<nat>): seq<seq<nat>>
    requires |d| == |lens|
  {
    if lens == [] then []
    else if d[0] + 1 < lens[0] then [[d[0] + 1] + d[1..]]
    else
      var next := Advance(d[1..], lens[1..]);
      if next == [] then [] else [[0] + next[0]]
  }

  lemma {:induction false} AdvanceIsTurn(d: seq<nat>, lens: seq<nat>)
    requires |d| == |lens|
    ensures var z := CarryPosition(d, lens); Advance(d, lens) == if z < |d| then [Turned(d, z)] else []
  {
    if lens != [] && d[0] + 1 >= lens[0] {
      AdvanceIsTurn(d[1..], lens[1..]);
    }
  }

  lemma RankCons(x: nat, d: seq<nat>, lens: seq<nat>)
    requires |lens| == 1 + |d|
    ensures Rank([x] + d, lens) == x + lens[0] * Rank(d, lens[1..])
    ensures x < lens[0] && InRange(d, lens[1..]) ==> InRange([x] + d, lens)
  {
    assert ([x] + d)[1..] == d;
  }

  lemma MulNext(a: nat, r: nat)
    ensures a * (r + 1) == a * r + a
  {
  }

  lemma {:induction false} AdvanceCounts(d: seq<nat>, lens: seq<nat>)
    requires InRange(d, lens)
    ensures Advance(d, lens) == [] ==> Rank(d, lens) + 1 == Product(lens)
    ensures Advance(d, lens) != [] ==>
              InRange(Advance(d, lens)[0], lens) && Rank(Advance(d, lens)[0], lens) == Rank(d, lens) + 1
  {
    if lens != [] {
      if d[0] + 1 < lens[0] {
        RankCons(d[0] + 1, d[1..], lens);
      } else {
        var next := Advance(d[1..], lens[1..]);
        AdvanceCounts(d[1..], lens[1..]);
        MulNext(lens[0], Rank(d[1..], lens[1..]));
        if next != [] {
          RankCons(0, next[0], lens);
        }
      }
    }
  }

  /** Turning the first dimension that can still turn counts on by one; when none can,
      the digits were the last ones. */
  lemma TurnCounts(d: seq<nat>, lens: seq<nat>)
    requires InRange(d, lens)
    ensures CarryPosition(d, lens) < |lens| ==>
              InRange(Turned(d, CarryPosition(d, lens)), lens) &&
              Rank(Turned(d, CarryPosition(d, lens)), lens) == Rank(d, lens) + 1
    ensures CarryPosition(d, lens) == |lens| ==> Rank(d, lens) + 1 == Product(lens)
  {
    AdvanceIsTurn(d, lens);
    AdvanceCounts(d, lens);
  }

  lemma {:induction false} ZerosRank(lens: seq<nat>)
    requires AllPositive(lens)
    ensures InRange(Zeros(|lens|), lens) && Rank(Zeros(|lens|), lens) == 0
  {
    if lens != [] {
      ZerosRank(lens[1..]);
      assert Zeros(|lens|)[1..] == Zeros(|lens| - 1);
    }
  }

  function Zeros(n: nat): seq<nat> {
    seq(n, _ => 0)
  }

  /** The `k`-th digits of the odometer, and what they are: the mixed-radix expansion of `k`. */
  function Digits(k: nat, lens: seq<nat>): (d: seq<nat>)
    requires k < Product(lens)
    ensures InRange(d, lens) && Rank(d, lens) == k
    decreases k
  {
    ProductPositive(lens);
    ZerosRank(lens);
    if k == 0 then Zeros(|lens|) else
      var d := Digits(k - 1, lens);
      TurnCounts(d, lens);
      Turned(d, CarryPosition(d, lens))
  }

  lemma {:induction false} ProductPositive(lens: seq<nat>)
    ensures Product(lens) > 0 <==> AllPositive(lens)
  {
    if lens != [] {
      ProductPositive(lens[1..]);
      if AllPositive(lens) {
        assert lens[0] * Product(lens[1..]) > 0;
      } else if AllPositive(lens[1..]) {
        assert lens[0] == 0;
        forall i | 0 <= i < |lens| - 1 ensures lens[1..][i] == lens[i + 1] {
        }
      }
    }
  }

  // --- Row-major position: the last dimension turns fastest (memory of a managed array) ---

  /** Integer division by repeated subtraction: `k / a` and `k % a`. */
  function Quotient(k: nat, a: nat): nat
    requires a > 0
  {
    if k < a then 0 else 1 + Quotient(k - a, a)
  }

  function Remainder(k: nat, a: nat): (r: nat)
    requires a > 0
    ensures r < a
  {
    if k < a then k else Remainder(k - a, a)
  }

  lemma {:induction false} Division(k: nat, a: nat)
    requires a > 0
    ensures k == a * Quotient(k, a) + Remainder(k, a)
  {
    if k >= a {
      Division(k - a, a);
      assert a * (1 + Quotient(k - a, a)) == a + a * Quotient(k - a, a);
    }
  }

  lemma {:induction false} DivisionUnique(d: nat, a: nat, q: nat)
    requires d < a
    ensures Quotient(d + a * q, a) == q && Remainder(d + a * q, a) == d
  {
    if q > 0 {
      assert d + a * q == d + a * (q - 1) + a;
      DivisionUnique(d, a, q - 1);
    }
  }

  lemma {:induction false} QuotientBelow(k: nat, a: nat, p: nat)
    requires a > 0 && k < a * p
    ensures Quotient(k, a) < p
  {
    if k >= a {
      assert a * p == a * (p - 1) + a;
      QuotientBelow(k - a, a, p - 1);
    }
  }

  function RowRank(d: seq<nat>, lens: seq<nat>): nat
    requires |d| == |lens|
  {
    if lens == [] then 0 else d[0] * Product(lens[1..]) + RowRank(d[1..], lens[1..])
  }

  /** The index in dimension 0 of row-major position `j`, and the position left within it. */
  function RowSplit(j: nat, first: nat, rest: nat): (split: (nat, nat))
    requires j < first * rest
    ensures split.0 < first && split.1 < rest && j == split.0 * rest + split.1
  {
    assert rest > 0;
    Division(j, rest);
    QuotientBelow(j, rest, first);
    (Quotient(j, rest), Remainder(j, rest))
  }

  function RowDigits(j: nat, lens: seq<nat>): (d: seq<nat>)
    requires j < Product(lens)
    ensures InRange(d, lens)
    decreases lens
  {
    if lens == [] then [] else
      var split := RowSplit(j, lens[0], Product(lens[1..]));
      [split.0] + RowDigits(split.1, lens[1..])
  }

  lemma {:induction false} RowRankInverse(d: seq<nat>, lens: seq<nat>)
    requires InRange(d, lens)
    ensures RowRank(d, lens) < Product(lens) && RowDigits(RowRank(d, lens), lens) == d
  {
    if lens != [] {
      RowRankInverse(d[1..], lens[1..]);
      var p, r := Product(lens[1..]), RowRank(d[1..], lens[1..]);
      MulAbove(r, p, d[0], lens[0]);
      DivisionUnique(r, p, d[0]);
      assert d == [d[0]] + d[1..];
    }
  }

  lemma {:induction false} RowDigitsInverse(j: nat, lens: seq<nat>)
    requires j < Product(lens)
    ensures RowRank(RowDigits(j, lens), lens) == j
    decreases lens
  {
    if lens != [] {
      RowDigitsInverse(RowSplit(j, lens[0], Product(lens[1..])).1, lens[1..]);
    }
  }

  // --- Column-major position with explicit strides (memory of a SAFEARRAY) ---

  /** The stride of dimension `i` is the product of the lengths before it. */
  function ColumnOffset(d: seq<nat>, lens: seq<nat>, i: nat): nat
    requires |d| == |lens| && i <= |lens|
    decreases |lens| - i
  {
    if i == |lens| then 0 else d[i] * Product(lens[..i]) + ColumnOffset(d, lens, i + 1)
  }

  lemma {:induction false} ProductSnoc(lens: seq<nat>, i: nat)
    requires i < |lens|
    ensures Product(lens[..i + 1]) == Product(lens[..i]) * lens[i]
  {
    if i == 0 {
      assert lens[..1] == [lens[0]] + [];
    } else {
      ProductSnoc(lens[1..], i - 1);
      assert lens[..i + 1][1..] == lens[1..][..i] && lens[..i][1..] == lens[1..][..i - 1];
      var a, b, c := lens[0], Product(lens[1..][..i - 1]), lens[i];
      assert a * (b * c) == (a * b) * c;
    }
  }

  lemma {:induction false} ColumnOffsetIsRankFrom(d: seq<nat>, lens: seq<nat>, i: nat)
    requires |d| == |lens| && i <= |lens|
    ensures ColumnOffset(d, lens, i) == Product(lens[..i]) * Rank(d[i..], lens[i..])
    decreases |lens| - i
  {
    if i < |lens| {
      ColumnOffsetIsRankFrom(d, lens, i + 1);
      ProductSnoc(lens, i);
      assert d[i..][1..] == d[i + 1..] && lens[i..][1..] == lens[i + 1..];
      var p, r := Product(lens[..i]), Rank(d[i + 1..], lens[i + 1..]);
      Distribute(p, d[i], lens[i], r);
    }
  }

  lemma Distribute(p: nat, x: nat, a: nat, r: nat)
    ensures p * (x + a * r) == x * p + (p * a) * r
  {
  }

  /** The `k`-th tuple of the odometer lies at linear position `k` of a column-major array:
      scanning such an array linearly and walking it by odometer visit the same elements
      in the same order. */
  lemma LinearScanIsOdometer(k: nat, lens: seq<nat>)
    requires k < Product(lens)
    ensures ColumnOffset(Digits(k, lens), lens, 0) == k
  {
    var d := Digits(k, lens);
    ColumnOffsetIsRankFrom(d, lens, 0);
    assert d[0..] == d && lens[0..] == lens && lens[..0] == [];
  }

  // --- Row-major against column-major memory ---

  predicate AtMostOneLong(lens: seq<nat>) {
    forall i, j :: 0 <= i < j < |lens| ==> lens[i] <= 1 || lens[j] <= 1
  }

  /** Where all lengths are 1 there is one element, at position 0. */
  lemma {:induction false} AllOnes(d: seq<nat>, lens: seq<nat>)
    requires InRange(d, lens) && forall i :: 0 <= i < |lens| ==> lens[i] <= 1
    ensures Product(lens) == 1 && Rank(d, lens) == 0 && RowRank(d, lens) == 0
  {
    if lens != [] {
      AllOnes(d[1..], lens[1..]);
    }
  }

  lemma {:induction false} LayoutsAgree(d: seq<nat>, lens: seq<nat>)
    requires InRange(d, lens) && AtMostOneLong(lens)
    ensures RowRank(d, lens) == Rank(d, lens)
  {
    if lens != [] {
      if lens[0] <= 1 {
        LayoutsAgree(d[1..], lens[1..]);
      } else {
        AllOnes(d[1..], lens[1..]);
      }
    }
  }

  lemma MulAtLeast(a: nat, b: nat)
    requires a > 0 && b > 0
    ensures a * b >= a && a * b >= b
  {
    assert a * b == a * (b - 1) + a && a * b == (a - 1) * b + b;
  }

  lemma {:induction false} ProductAtLeast(lens: seq<nat>, j: nat)
    requires j < |lens| && AllPositive(lens)
    ensures Product(lens) >= lens[j]
  {
    ProductPositive(lens[1..]);
    MulAtLeast(lens[0], Product(lens[1..]));
    if j > 0 {
      ProductAtLeast(lens[1..], j - 1);
    }
  }

  /** With two long dimensions some element has different positions in the two layouts. */
  lemma {:induction false} LayoutsDiffer(lens: seq<nat>) returns (d: seq<nat>)
    requires AllPositive(lens) && !AtMostOneLong(lens)
    ensures InRange(d, lens) && RowRank(d, lens) != Rank(d, lens)
  {
    var i, j :| 0 <= i < j < |lens| && lens[i] > 1 && lens[j] > 1;
    var tail := lens[1..];
    if lens[0] > 1 {
      d := UnitDiffers(lens, j);
    } else {
      assert tail[i - 1] > 1 && tail[j - 1] > 1;
      var e := LayoutsDiffer(tail);
      d := [0] + e;
      assert d[1..] == e;
    }
  }

  lemma UnitDiffers(lens: seq<nat>, j: nat) returns (d: seq<nat>)
    requires AllPositive(lens) && 0 < j < |lens| && lens[0] > 1 && lens[j] > 1
    ensures InRange(d, lens) && RowRank(d, lens) != Rank(d, lens)
  {
    var tail := lens[1..];
    ProductAtLeast(tail, j - 1);
    ZerosRank(tail);
    ZerosRowRank(tail);
    d := [1] + Zeros(|tail|);
    assert d[1..] == Zeros(|tail|);
  }

  lemma {:induction false} ZerosRowRank(lens: seq<nat>)
    ensures RowRank(Zeros(|lens|), lens) == 0
  {
    if lens != [] {
      assert Zeros(|lens|)[1..] == Zeros(|lens[1..]|);
      ZerosRowRank(lens[1..]);
    }
  }

  /** A row-major and a column-major array of these lengths keep every element at the same
      position if and only if the arrays are empty or at most one dimension has more than
      one index. */
  lemma LayoutsAgreeIff(lens: seq<nat>)
    ensures (forall d | InRange(d, lens) :: RowRank(d, lens) == ColumnOffset(d, lens, 0)) <==>
            Product(lens) == 0 || AtMostOneLong(lens)
  {
    if Product(lens) == 0 || AtMostOneLong(lens) {
      forall d | InRange(d, lens) ensures RowRank(d, lens) == ColumnOffset(d, lens, 0) {
        RankInjective(d, d, lens);
        LayoutsAgree(d, lens);
        OffsetIsRank(d, lens);
      }
    } else {
      ProductPositive(lens);
      var d := LayoutsDiffer(lens);
      OffsetIsRank(d, lens);
    }
  }

  lemma OffsetIsRank(d: seq<nat>, lens: seq<nat>)
    requires |d| == |lens|
    ensures ColumnOffset(d, lens, 0) == Rank(d, lens)
  {
    ColumnOffsetIsRankFrom(d, lens, 0);
    assert d[0..] == d && lens[0..] == lens;
  }

  // --- The loop ---

  /** The index tuple that digits `d` stand for in an array with the given lower bounds. */
  function Shift(d: seq<nat>, lbs: seq<int>): (t: seq<int>)
    requires |d| == |lbs|
  {
    seq(|d|, i requires 0 <= i < |d| => d[i] + lbs[i])
  }

  /** The `k`-th index tuple of the walk. */
  function Tuple(k: nat, lens: seq<nat>, lbs: seq<int>): (t: seq<int>)
    requires k < Product(lens) && |lbs| == |lens|
    ensures |t| == |lens|
  {
    Shift(Digits(k, lens), lbs)
  }

  predicate InBounds(t: seq<int>, lens: seq<nat>, lbs: seq<int>) {
    |t| == |lens| == |lbs| && forall i :: 0 <= i < |lens| ==> lbs[i] <= t[i] < lbs[i] + lens[i]
  }

  /** The first `n` index tuples in order. */
  function Tuples(n: nat, lens: seq<nat>, lbs: seq<int>): (ts: seq<seq<int>>)
    requires n <= Product(lens) && |lbs| == |lens|
    ensures |ts| == n && forall k :: 0 <= k < n ==> ts[k] == Tuple(k, lens, lbs)
  {
    if n == 0 then [] else Tuples(n - 1, lens, lbs) + [Tuple(n - 1, lens, lbs)]
  }

  /** The digits of an index tuple. */
  function Unshift(t: seq<int>, lens: seq<nat>, lbs: seq<int>): (d: seq<nat>)
    requires InBounds(t, lens, lbs)
    ensures |d| == |t|
  {
    seq(|t|, i requires 0 <= i < |t| => t[i] - lbs[i])
  }

  /** The indices one past tuple `t` in dimension 0, as after `rgIndices[0]++`. */
  function Bump(t: seq<int>): seq<int>
    requires |t| > 0
  {
    t[0 := t[0] + 1]
  }

  /** The dimension that turns after tuple `t`; there is none after the last tuple. */
  function TurnAfter(t: seq<int>, lens: seq<nat>, lbs: seq<int>): (z: nat)
    requires InBounds(t, lens, lbs)
    ensures z <= |t|
  {
    CarryPosition(Unshift(t, lens, lbs), lens)
  }

  function After(t: seq<int>, lens: seq<nat>, lbs: seq<int>): seq<int>
    requires InBounds(t, lens, lbs) && TurnAfter(t, lens, lbs) < |t|
  {
    Shift(Turned(Unshift(t, lens, lbs), TurnAfter(t, lens, lbs)), lbs)
  }

  /** `ts` starts at the lower bounds and each tuple follows its predecessor. */
  ghost predicate IsWalk(ts: seq<seq<int>>, lens: seq<nat>, lbs: seq<int>) {
    |lens| == |lbs| > 0 && |ts| > 0 && ts[0] == lbs &&
    (forall k :: 0 <= k < |ts| ==> InBounds(ts[k], lens, lbs)) &&
    (forall k :: 0 <= k < |ts| - 1 ==> Follows(ts[k], ts[k + 1], lens, lbs))
  }

  ghost predicate Follows(t: seq<int>, u: seq<int>, lens: seq<nat>, lbs: seq<int>) {
    InBounds(t, lens, lbs) && TurnAfter(t, lens, lbs) < |t| && u == After(t, lens, lbs)
  }

  lemma WalkSnoc(ts: seq<seq<int>>, u: seq<int>, lens: seq<nat>, lbs: seq<int>)
    requires IsWalk(ts, lens, lbs) && Follows(ts[|ts| - 1], u, lens, lbs) && InBounds(u, lens, lbs)
    ensures IsWalk(ts + [u], lens, lbs)
  {
    var us := ts + [u];
    forall k | 0 <= k < |us| - 1 ensures Follows(us[k], us[k + 1], lens, lbs) {
      if k < |ts| - 1 {
        assert Follows(ts[k], ts[k + 1], lens, lbs);
      }
    }
  }

  /** The mixed-radix expansions of 0, 1, 2, ... follow each other that way. */
  lemma {:induction false} TuplesAreWalk(n: nat, lens: seq<nat>, lbs: seq<int>)
    requires |lens| == |lbs| > 0 && 0 < n <= Product(lens)
    ensures IsWalk(Tuples(n, lens, lbs), lens, lbs)
  {
    TupleInBounds(n - 1, lens, lbs);
    if n == 1 {
      FirstTuple(lens, lbs);
      assert Tuples(0, lens, lbs) == [];
    } else {
      TuplesAreWalk(n - 1, lens, lbs);
      TupleAfter(n - 2, lens, lbs);
      WalkSnoc(Tuples(n - 1, lens, lbs), Tuple(n - 1, lens, lbs), lens, lbs);
    }
  }

  lemma TupleInBounds(k: nat, lens: seq<nat>, lbs: seq<int>)
    requires |lens| == |lbs| && k < Product(lens)
    ensures InBounds(Tuple(k, lens, lbs), lens, lbs)
  {
    UnshiftShift(Digits(k, lens), lens, lbs);
  }

  lemma TupleAfter(k: nat, lens: seq<nat>, lbs: seq<int>)
    requires |lens| == |lbs| > 0 && k + 1 < Product(lens)
    ensures Follows(Tuple(k, lens, lbs), Tuple(k + 1, lens, lbs), lens, lbs)
  {
    TurnCounts(Digits(k, lens), lens);
    UnshiftShift(Digits(k, lens), lens, lbs);
  }

  lemma UnshiftShift(d: seq<nat>, lens: seq<nat>, lbs: seq<int>)
    requires InRange(d, lens) && |lens| == |lbs|
    ensures InBounds(Shift(d, lbs), lens, lbs) && Unshift(Shift(d, lbs), lens, lbs) == d
  {
  }

  /** What the loop finds at its head before the `k`-th element. */
  ghost predicate AtHead(rg: seq<int>, k: nat, ts: seq<seq<int>>)
    requires k < |ts|
  {
    rg == ts[k] || (k > 0 && |ts[k - 1]| > 0 && rg == Bump(ts[k - 1]))
  }

  /** Without a carry, one past a tuple is the next tuple. */
  lemma NoCarryNeeded(rg: seq<int>, k: nat, ts: seq<seq<int>>, lens: seq<nat>, lbs: seq<int>)
    requires IsWalk(ts, lens, lbs) && k < |ts| && AtHead(rg, k, ts) && rg[0] < lens[0] + lbs[0]
    ensures rg == ts[k]
  {
    if k > 0 {
      assert Follows(ts[k - 1], ts[k - 1 + 1], lens, lbs);
    }
  }

  lemma CarryNeeded(rg: seq<int>, k: nat, ts: seq<seq<int>>, lens: seq<nat>, lbs: seq<int>)
    requires IsWalk(ts, lens, lbs) && k < |ts| && AtHead(rg, k, ts) && rg[0] >= lens[0] + lbs[0]
    ensures k > 0 && rg == Bump(ts[k - 1]) && Follows(ts[k - 1], ts[k], lens, lbs)
  {
    assert InBounds(ts[k], lens, lbs);
    assert Follows(ts[k - 1], ts[k - 1 + 1], lens, lbs);
  }

  /** Dimensions before the turning one are at their lower bounds, those behind unchanged. */
  lemma AfterParts(t: seq<int>, lens: seq<nat>, lbs: seq<int>)
    requires InBounds(t, lens, lbs) && TurnAfter(t, lens, lbs) < |t|
    ensures var z := TurnAfter(t, lens, lbs); After(t, lens, lbs) == lbs[..z] + [t[z] + 1] + t[z + 1..]
  {
  }

  /** The digits above dimension 0, and what turning them means for the whole tuple. */
  lemma TurnAbove(t: seq<int>, lens: seq<nat>, lbs: seq<int>)
    requires InBounds(t, lens, lbs) && |lens| > 0 && t[0] + 1 >= lens[0] + lbs[0]
    ensures InBounds(t[1..], lens[1..], lbs[1..])
    ensures TurnAfter(t, lens, lbs) == 1 + TurnAfter(t[1..], lens[1..], lbs[1..])
    ensures TurnAfter(t, lens, lbs) < |t| ==>
              After(t, lens, lbs) == [lbs[0]] + After(t[1..], lens[1..], lbs[1..])
  {
    hide After;
    var d := Unshift(t, lens, lbs);
    assert d[1..] == Unshift(t[1..], lens[1..], lbs[1..]);
    assert CarryPosition(d, lens) == 1 + CarryPosition(d[1..], lens[1..]);
    if TurnAfter(t, lens, lbs) < |t| {
      AfterAbove(t, lens, lbs);
    }
  }

  lemma AfterAbove(t: seq<int>, lens: seq<nat>, lbs: seq<int>)
    requires InBounds(t, lens, lbs) && |t| > 0 && InBounds(t[1..], lens[1..], lbs[1..])
    requires TurnAfter(t, lens, lbs) == 1 + TurnAfter(t[1..], lens[1..], lbs[1..]) < |t|
    ensures After(t, lens, lbs) == [lbs[0]] + After(t[1..], lens[1..], lbs[1..])
  {
    hide After, TurnAfter;
    var z := TurnAfter(t[1..], lens[1..], lbs[1..]);
    AfterParts(t, lens, lbs);
    AfterParts(t[1..], lens[1..], lbs[1..]);
    assert lbs[..1 + z] == [lbs[0]] + lbs[1..][..z] && t[1..][z + 1..] == t[z + 2..];
  }

  /** The scan goes on while `dimPointer <= cDims`, to the first dimension above 0 that can
      turn; when there is none, the index it reads next lies behind the vector. */
  method Scan(rg: array<int>, lens: seq<nat>, lbs: seq<int>) returns (dimPointer: nat)
    requires rg.Length == |lens| == |lbs| > 0 && InBounds(rg[1..], lens[1..], lbs[1..])
    ensures dimPointer == 1 + TurnAfter(rg[1..], lens[1..], lbs[1..])
  {
    ghost var t := rg[1..];
    ghost var d := Unshift(t, lens[1..], lbs[1..]);
    var cDims := |lens|;
    dimPointer := 1;
    while dimPointer <= cDims
      invariant 1 <= dimPointer <= 1 + CarryPosition(d, lens[1..]) <= cDims
      decreases cDims - dimPointer
    {
      if dimPointer == cDims {
        return;
      }
      assert d[dimPointer - 1] == rg[dimPointer] - lbs[dimPointer];
      if rg[dimPointer] < lens[dimPointer] + lbs[dimPointer] - 1 {
        return;
      }
      dimPointer := dimPointer + 1;
    }
  }

  /** The carry branch: false when the scan has left the vector. */
  method TurnHigher(rg: array<int>, lens: seq<nat>, lbs: seq<int>) returns (ok: bool)
    requires rg.Length == |lens| == |lbs| > 0 && InBounds(rg[1..], lens[1..], lbs[1..])
    modifies rg
    ensures ok <==> TurnAfter(old(rg[1..]), lens[1..], lbs[1..]) < |lens| - 1
    ensures ok ==> rg[..] == [lbs[0]] + After(old(rg[1..]), lens[1..], lbs[1..])
  {
    hide After, TurnAfter;
    ghost var before := rg[..];
    assert before[1..] == rg[1..];
    var p := Scan(rg, lens, lbs);
    if p == |lens| {
      return false;
    }
    AfterParts(rg[1..], lens[1..], lbs[1..]);
    assert lbs[..p] == [lbs[0]] + lbs[1..][..p - 1];
    rg[p] := rg[p] + 1;
    assert rg[p..] == [before[p] + 1] + before[p + 1..];
    Reset(rg, lbs, p);
    ok := true;
  }

  /** Every dimension before `p` back at its lower bound. */
  method Reset(rg: array<int>, lbs: seq<int>, p: nat)
    requires p <= rg.Length == |lbs|
    modifies rg
    ensures rg[..] == lbs[..p] + old(rg[p..])
  {
    ghost var behind := rg[p..];
    for z := 0 to p
      invariant rg[..z] == lbs[..z] && rg[p..] == behind
    {
      rg[z] := lbs[z];
    }
  }

  /** One past a tuple that is not the last, the scan stops at a dimension of the array. */
  method Carry(rg: array<int>, lens: seq<nat>, lbs: seq<int>, ghost t: seq<int>)
    requires InBounds(t, lens, lbs) && rg.Length == |lens| > 0
    requires rg[..] == Bump(t) && rg[0] >= lens[0] + lbs[0]
    requires TurnAfter(t, lens, lbs) < |lens|
    modifies rg
    ensures rg[..] == After(t, lens, lbs)
  {
    TurnAbove(t, lens, lbs);
    assert rg[1..] == rg[..][1..] == t[1..];
    var ok := TurnHigher(rg, lens, lbs);
  }

  /** The index vector at the lower bounds. */
  method FirstIndices(lens: seq<nat>, lbs: seq<int>, ghost ts: seq<seq<int>>) returns (rg: array<int>)
    requires IsWalk(ts, lens, lbs)
    ensures fresh(rg) && rg.Length == |lens| && AtHead(rg[..], 0, ts) && rg[0] >= lbs[0]
  {
    rg := new int[|lens|](i requires 0 <= i < |lens| => lbs[i]);
    assert rg[..] == lbs;
  }

  /** `rgIndices[0]++` after the `k`-th element. */
  method Increment(rg: array<int>, lbs: seq<int>, ghost k: nat, ghost ts: seq<seq<int>>)
    requires k < |ts| && rg.Length > 0 && rg[..] == ts[k] && |lbs| > 0 && rg[0] >= lbs[0]
    modifies rg
    ensures k + 1 < |ts| ==> AtHead(rg[..], k + 1, ts)
    ensures rg[0] >= lbs[0]
  {
    rg[0] := rg[0] + 1;
    assert rg[..] == Bump(ts[k]);
  }

  /** The carry, one past the last tuple before the `k`-th. */
  method CarryTo(rg: array<int>, lens: seq<nat>, lbs: seq<int>, ghost k: nat, ghost ts: seq<seq<int>>)
    requires IsWalk(ts, lens, lbs) && rg.Length == |lens| && k < |ts| && AtHead(rg[..], k, ts)
    requires rg[0] >= lens[0] + lbs[0]
    modifies rg
    ensures AtHead(rg[..], k, ts) && lbs[0] <= rg[0] < lens[0] + lbs[0]
  {
    CarryNeeded(rg[..], k, ts, lens, lbs);
    Carry(rg, lens, lbs, ts[k - 1]);
    assert rg[..] == ts[k] && InBounds(ts[k], lens, lbs);
  }

  const INT_MAX := 0x7FFF_FFFF

  /** The indices of an array are 32-bit integers. */
  predicate Indexable(lens: seq<nat>, lbs: seq<int>) {
    |lens| == |lbs| &&
    forall i :: 0 <= i < |lens| ==> -INT_MAX - 1 <= lbs[i] && lbs[i] + lens[i] - 1 <= INT_MAX
  }

  /** One past the last index of dimension 0, added up in 32 bits. */
  function IndexEnd(lens: seq<nat>, lbs: seq<int>): (e: int)
    requires |lens| == |lbs| > 0 && Indexable(lens, lbs)
    ensures e == if lens[0] + lbs[0] <= INT_MAX then lens[0] + lbs[0] else -INT_MAX - 1
  {
    ToInt32(lens[0] + lbs[0])
  }

  /** The loop, against any sequence of tuples that follow each other. */
  method WalkAlong(lens: seq<nat>, lbs: seq<int>, lElements: nat, ghost ts: seq<seq<int>>)
    returns (visited: seq<seq<int>>)
    requires IsWalk(ts, lens, lbs) && |ts| == lElements && Indexable(lens, lbs) && lens[0] + lbs[0] <= INT_MAX
    ensures visited == ts
  {
    hide Indexable, IndexEnd, Follows, InBounds;
    var rgIndices := FirstIndices(lens, lbs, ts);
    var findEl := 0;
    visited := [];
    while true
      invariant findEl < lElements && visited == ts[..findEl]
      invariant AtHead(rgIndices[..], findEl, ts) && rgIndices[0] >= lbs[0]
      decreases lElements - findEl, rgIndices[0] - lbs[0]
    {
      if rgIndices[0] < IndexEnd(lens, lbs) {
        NoCarryNeeded(rgIndices[..], findEl, ts, lens, lbs);
        visited := visited + [rgIndices[..]];
        Increment(rgIndices, lbs, findEl, ts);
        findEl := findEl + 1;
        if findEl == lElements {
          break;
        }
      } else {
        CarryTo(rgIndices, lens, lbs, findEl, ts);
      }
    }
  }

  /** The loop over an array whose dimension 0 ends at the largest integer: the end wraps
      around, no index is below it, and the carry goes on until it leaves the vector. */
  method WalkNowhere(lens: seq<nat>, lbs: seq<int>) returns (carries: nat)
    requires |lens| > 0 && AllPositive(lens) && Indexable(lens, lbs) && lens[0] + lbs[0] > INT_MAX
    ensures carries + 1 == Product(lens[1..])
  {
    var rgIndices := new int[|lens|](i requires 0 <= i < |lens| => lbs[i]);
    assert rgIndices[..] == lbs && rgIndices[1..] == lbs[1..];
    assert Unshift(lbs[1..], lens[1..], lbs[1..]) == Zeros(|lens| - 1);
    ZerosRank(lens[1..]);
    carries := 0;
    while true
      invariant InBounds(rgIndices[1..], lens[1..], lbs[1..]) && rgIndices[0] == lbs[0]
      invariant carries == Rank(Unshift(rgIndices[1..], lens[1..], lbs[1..]), lens[1..])
      decreases Product(lens[1..]) - Rank(Unshift(rgIndices[1..], lens[1..], lbs[1..]), lens[1..])
    {
      assert !(rgIndices[0] < IndexEnd(lens, lbs));
      HigherTurns(rgIndices[1..], lens[1..], lbs[1..]);
      var ok := TurnHigher(rgIndices, lens, lbs);
      if !ok {
        return;
      }
      assert rgIndices[1..] == rgIndices[..][1..];
      carries := carries + 1;
    }
  }

  /** Every turn counts on by one, below the number of tuples. */
  lemma HigherTurns(t: seq<int>, lens: seq<nat>, lbs: seq<int>)
    requires InBounds(t, lens, lbs)
    ensures Rank(Unshift(t, lens, lbs), lens) < Product(lens)
    ensures TurnAfter(t, lens, lbs) == |t| ==> Rank(Unshift(t, lens, lbs), lens) + 1 == Product(lens)
    ensures TurnAfter(t, lens, lbs) < |t| ==>
              InBounds(After(t, lens, lbs), lens, lbs) &&
              Rank(Unshift(After(t, lens, lbs), lens, lbs), lens) == Rank(Unshift(t, lens, lbs), lens) + 1
  {
    var d := Unshift(t, lens, lbs);
    RankInjective(d, d, lens);
    TurnCounts(d, lens);
    if TurnAfter(t, lens, lbs) < |t| {
      UnshiftShift(Turned(d, TurnAfter(t, lens, lbs)), lens, lbs);
    }
  }

  /** The tuples visited, or an index out of range after some carries. */
  datatype Walked = Visited(tuples: seq<seq<int>>) | OutOfRange(carries: nat)

  /** The whole walk over a non-empty array.  Unless dimension 0 ends at the largest integer,
      it ends after exactly as many elements as there are index tuples, and the `k`-th one
      visited is the mixed-radix expansion of `k`; otherwise it visits none and fails once
      the dimensions above have gone round. */
  method Walk(lens: seq<nat>, lbs: seq<int>) returns (r: Walked)
    requires |lens| > 0 && AllPositive(lens) && Indexable(lens, lbs)
    ensures r.Visited? <==> lens[0] + lbs[0] <= INT_MAX
    ensures r.OutOfRange? ==> r.carries + 1 == Product(lens[1..])
    ensures r.Visited? ==> |r.tuples| == Product(lens)
    ensures r.Visited? ==> forall k :: 0 <= k < |r.tuples| ==> r.tuples[k] == Tuple(k, lens, lbs)
  {
    ProductPositive(lens);
    TuplesAreWalk(Product(lens), lens, lbs);
    if lens[0] + lbs[0] <= INT_MAX {
      var visited := WalkAlong(lens, lbs, Product(lens), Tuples(Product(lens), lens, lbs));
      r := Visited(visited);
    } else {
      var carries := WalkNowhere(lens, lbs);
      r := OutOfRange(carries);
    }
  }

  lemma FirstTuple(lens: seq<nat>, lbs: seq<int>)
    requires 0 < Product(lens) && |lbs| == |lens|
    ensures Tuple(0, lens, lbs) == lbs
  {
  }

  /** Every index tuple within the bounds is visited, and only once. */
  lemma VisitedExactlyOnce(t: seq<int>, lens: seq<nat>, lbs: seq<int>) returns (k: nat)
    requires |lens| == |lbs| > 0 && InBounds(t, lens, lbs)
    ensures k < Product(lens) && Tuple(k, lens, lbs) == t
    ensures forall j :: 0 <= j < Product(lens) && Tuple(j, lens, lbs) == t ==> j == k
  {
    var d := Unshift(t, lens, lbs);
    assert InRange(d, lens);
    k := Rank(d, lens);
    RankInjective(d, d, lens);
    RankInjective(d, Digits(k, lens), lens);
    forall j | 0 <= j < Product(lens) && Tuple(j, lens, lbs) == t ensures j == k {
      UnshiftShift(Digits(j, lens), lens, lbs);
    }
  }
}
