/** Quoting, parsing, splitting and joining of byte strings. */
module SdsText {
  import opened Bytes
  import opened Sds
  import opened Splitting

  // --- Characters, in the C locale ---

  const NUL: Byte := 0
  const BACKSLASH: Byte := 92
  const QUOTE: Byte := 34
  const APOSTROPHE: Byte := 39
  const SPACE: Byte := 32
  const LOWER_X: Byte := 120

  predicate IsSpace(c: Byte) {
    c == SPACE || 9 <= c <= 13
  }

  predicate IsPrint(c: Byte) {
    32 <= c < 127
  }

  predicate IsHexDigit(c: Byte) {
    48 <= c <= 57 || 97 <= c <= 102 || 65 <= c <= 70
  }

  function HexDigitToInt(c: Byte): (n: nat)
    ensures n < 16
  {
    if 48 <= c <= 57 then c - 48
    else if 97 <= c <= 102 then c - 87
    else if 65 <= c <= 70 then c - 55
    else 0
  }

  /** One lower-case digit of %02x. */
  function HexDigit(n: nat): (c: Byte)
    requires n < 16
    ensures IsHexDigit(c) && HexDigitToInt(c) == n
  {
    if n < 10 then 48 + n else 87 + n
  }

  // --- Printing ---

  function Escape(c: Byte): seq<Byte> {
    if c == BACKSLASH || c == QUOTE then [BACKSLASH, c]
    else if c == 10 then [BACKSLASH, 110]
    else if c == 13 then [BACKSLASH, 114]
    else if c == 9 then [BACKSLASH, 116]
    else if c == 7 then [BACKSLASH, 97]
    else if c == 8 then [BACKSLASH, 98]
    else if IsPrint(c) then [c]
    else [BACKSLASH, LOWER_X, HexDigit(c / 16), HexDigit(c % 16)]
  }

  function EscapeAll(s: seq<Byte>): seq<Byte> {
    if s == [] then [] else Escape(s[0]) + EscapeAll(s[1..])
  }

  function Repr(s: seq<Byte>): seq<Byte> {
    [QUOTE] + EscapeAll(s) + [QUOTE]
  }

  method CatEscaped(s: SdsString, c: Byte)
    requires s.Valid()
    modifies s, s.buf
    ensures s.Valid() && (s.buf == old(s.buf) || fresh(s.buf))
    ensures s.Contents() == old(s.Contents()) + Escape(c)
  {
    if c == BACKSLASH || c == QUOTE {
      s.CatLen([BACKSLASH, c]);
    } else if c == 10 {
      s.CatLen([BACKSLASH, 110]);
    } else if c == 13 {
      s.CatLen([BACKSLASH, 114]);
    } else if c == 9 {
      s.CatLen([BACKSLASH, 116]);
    } else if c == 7 {
      s.CatLen([BACKSLASH, 97]);
    } else if c == 8 {
      s.CatLen([BACKSLASH, 98]);
    } else if IsPrint(c) {
      s.CatLen([c]);
    } else {
      s.CatLen([BACKSLASH, LOWER_X, HexDigit(c / 16), HexDigit(c % 16)]);
    }
  }

  method CatRepr(s: SdsString, p: seq<Byte>)
    requires s.Valid()
    modifies s, s.buf
    ensures s.Valid() && (s.buf == old(s.buf) || fresh(s.buf))
    ensures s.Contents() == old(s.Contents()) + Repr(p)
  {
    hide Escape;
    ghost var before := s.Contents();
    s.CatLen([QUOTE]);
    for i := 0 to |p|
      invariant s.Valid() && (s.buf == old(s.buf) || fresh(s.buf))
      invariant s.Contents() + EscapeAll(p[i..]) == before + [QUOTE] + EscapeAll(p)
    {
      assert p[i..][1..] == p[i + 1..];
      Assoc(s.Contents(), Escape(p[i]), EscapeAll(p[i + 1..]));
      CatEscaped(s, p[i]);
    }
    assert p[|p|..] == [];
    Assoc(before, [QUOTE], EscapeAll(p));
    Assoc(before, [QUOTE] + EscapeAll(p), [QUOTE]);
    s.CatLen([QUOTE]);
  }

  // --- Parsing ---

  /** A C string from some position on: it ends with its terminator. */
  predicate CString(s: seq<Byte>) {
    s != [] && s[|s| - 1] == NUL
  }

  datatype Option<+T> = None | Some(value: T)

  datatype Quoting = Bare | Quoted | SingleQuoted

  function SkipBlanks(s: seq<Byte>): (r: seq<Byte>)
    requires CString(s)
    ensures CString(r) && |r| <= |s| && (r[0] == NUL || !IsSpace(r[0]))
  {
    if s[0] != NUL && IsSpace(s[0]) then SkipBlanks(s[1..]) else s
  }

  /** What a backslash and `c` stand for inside double quotes. */
  function Unescape(c: Byte): Byte {
    if c == 110 then 10 else if c == 114 then 13 else if c == 116 then 9
    else if c == 98 then 8 else if c == 97 then 7 else c
  }

  /** Nothing or a blank follows. */
  predicate AtGap(s: seq<Byte>)
    requires s != []
  {
    s[0] == NUL || IsSpace(s[0])
  }

  /** Characters consumed by one turn of the token loop inside double quotes. */
  predicate HexEscape(s: seq<Byte>)
    requires CString(s)
  {
    s[0] == BACKSLASH && s[1] == LOWER_X && IsHexDigit(s[2]) && IsHexDigit(s[3])
  }

  /** The rest of a token from `s` on, with `cur` already collected: the token and what
      follows it, or nothing if the quotes are unbalanced. */
  function Token(s: seq<Byte>, q: Quoting, cur: seq<Byte>): (r: Option<(seq<Byte>, seq<Byte>)>)
    requires CString(s)
    ensures r.Some? ==> CString(r.value.1) && |r.value.1| <= |s|
    ensures r.Some? && s[0] != NUL ==> |r.value.1| < |s|
    decreases |s|
  {
    match q
    case Quoted =>
      if HexEscape(s) then
        Token(s[4..], Quoted, cur + [HexDigitToInt(s[2]) * 16 + HexDigitToInt(s[3])])
      else if s[0] == BACKSLASH && s[1] != NUL then Token(s[2..], Quoted, cur + [Unescape(s[1])])
      else if s[0] == QUOTE then
        if AtGap(s[1..]) then Some((cur, s[1..])) else None
      else if s[0] == NUL then None
      else Token(s[1..], Quoted, cur + [s[0]])
    case SingleQuoted =>
      if s[0] == BACKSLASH && s[1] == APOSTROPHE then Token(s[2..], SingleQuoted, cur + [APOSTROPHE])
      else if s[0] == APOSTROPHE then
        if AtGap(s[1..]) then Some((cur, s[1..])) else None
      else if s[0] == NUL then None
      else Token(s[1..], SingleQuoted, cur + [s[0]])
    case Bare =>
      if s[0] == NUL then Some((cur, s))
      else if s[0] == SPACE || s[0] == 10 || s[0] == 13 || s[0] == 9 then Some((cur, s[1..]))
      else if s[0] == QUOTE then Token(s[1..], Quoted, cur)
      else if s[0] == APOSTROPHE then Token(s[1..], SingleQuoted, cur)
      else Token(s[1..], Bare, cur + [s[0]])
  }

  function Args(s: seq<Byte>): Option<seq<seq<Byte>>>
    requires CString(s)
    decreases |s|
  {
    var t := SkipBlanks(s);
    if t[0] == NUL then Some([])
    else
      match Token(t, Bare, [])
      case None => None
      case Some((token, rest)) =>
        match Args(rest)
        case None => None
        case Some(more) => Some([token] + more)
  }

  /** The parser.  No read of the line goes beyond its terminator. */
  method SplitArgs(line: seq<Byte>) returns (r: Option<seq<seq<Byte>>>)
    requires CString(line)
    ensures r == Args(line)
  {
    hide Token;
    var p := 0;
    var vector: seq<seq<Byte>> := [];
    assert line[0..] == line;
    PrefixedNone(Args(line));
    while true
      invariant p < |line|
      invariant Args(line) == Prefixed(vector, Args(line[p..]))
      decreases |line| - p
    {
      ghost var from := p;
      while line[p] != NUL && IsSpace(line[p])
        invariant from <= p < |line| && SkipBlanks(line[from..]) == SkipBlanks(line[p..])
        decreases |line| - p
      {
        assert line[p..][1..] == line[p + 1..];
        p := p + 1;
      }
      if line[p] == NUL {
        assert vector + [] == vector;
        return Some(vector);
      }
      var token: Option<seq<Byte>>;
      token, p := NextToken(line, p);
      if token.None? {
        return None;
      }
      PrefixedMore(vector, token.value, Args(line[p..]));
      vector := vector + [token.value];
    }
  }

  /** Tokens found so far in front of what the rest of the line gives. */
  ghost function Prefixed(xs: seq<seq<Byte>>, r: Option<seq<seq<Byte>>>): Option<seq<seq<Byte>>> {
    match r case None => None case Some(ys) => Some(xs + ys)
  }

  lemma PrefixedNone(r: Option<seq<seq<Byte>>>)
    ensures Prefixed([], r) == r
  {
    if r.Some? {
      assert [] + r.value == r.value;
    }
  }

  lemma PrefixedMore(xs: seq<seq<Byte>>, x: seq<Byte>, r: Option<seq<seq<Byte>>>)
    ensures Prefixed(xs, Prefixed([x], r)) == Prefixed(xs + [x], r)
  {
    if r.Some? {
      assert xs + ([x] + r.value) == (xs + [x]) + r.value;
    }
  }

  /** Where one turn of the token loop leaves the parser. */
  datatype Turn = Failed | Done(p: nat, current: seq<Byte>) | Going(p: nat, q: Quoting, current: seq<Byte>)

  /** The turn agrees with the grammar of tokens. */
  ghost predicate TurnIs(line: seq<Byte>, p: nat, q: Quoting, current: seq<Byte>, turn: Turn)
    requires CString(line) && p < |line|
  {
    match turn
    case Failed => Token(line[p..], q, current) == None
    case Done(p', c) => p <= p' < |line| && (line[p] != NUL ==> p < p') && Token(line[p..], q, current) == Some((c, line[p'..]))
    case Going(p', q', c) => p < p' < |line| && Token(line[p..], q, current) == Token(line[p'..], q', c)
  }

  lemma Suffixes(line: seq<Byte>, p: nat)
    requires p < |line|
    ensures forall i :: 0 <= i < |line| - p ==> line[p..][i] == line[p + i]
    ensures forall i :: 0 <= i <= |line| - p ==> line[p..][i..] == line[p + i..]
  {
  }

  method QuotedTurn(line: seq<Byte>, p: nat, current: seq<Byte>) returns (turn: Turn)
    requires CString(line) && p < |line|
    ensures TurnIs(line, p, Quoted, current, turn)
  {
    Suffixes(line, p);
    if line[p] == BACKSLASH && line[p + 1] == LOWER_X && IsHexDigit(line[p + 2]) && IsHexDigit(line[p + 3]) {
      turn := Going(p + 4, Quoted, current + [HexDigitToInt(line[p + 2]) * 16 + HexDigitToInt(line[p + 3])]);
    } else if line[p] == BACKSLASH && line[p + 1] != NUL {
      turn := Going(p + 2, Quoted, current + [Unescape(line[p + 1])]);
    } else if line[p] == QUOTE {
      turn := if line[p + 1] != NUL && !IsSpace(line[p + 1]) then Failed else Done(p + 1, current);
    } else if line[p] == NUL {
      turn := Failed;
    } else {
      turn := Going(p + 1, Quoted, current + [line[p]]);
    }
  }

  method SingleQuotedTurn(line: seq<Byte>, p: nat, current: seq<Byte>) returns (turn: Turn)
    requires CString(line) && p < |line|
    ensures TurnIs(line, p, SingleQuoted, current, turn)
  {
    Suffixes(line, p);
    if line[p] == BACKSLASH && line[p + 1] == APOSTROPHE {
      turn := Going(p + 2, SingleQuoted, current + [APOSTROPHE]);
    } else if line[p] == APOSTROPHE {
      turn := if line[p + 1] != NUL && !IsSpace(line[p + 1]) then Failed else Done(p + 1, current);
    } else if line[p] == NUL {
      turn := Failed;
    } else {
      turn := Going(p + 1, SingleQuoted, current + [line[p]]);
    }
  }

  method BareTurn(line: seq<Byte>, p: nat, current: seq<Byte>) returns (turn: Turn)
    requires CString(line) && p < |line|
    ensures TurnIs(line, p, Bare, current, turn)
  {
    Suffixes(line, p);
    if line[p] == NUL {
      turn := Done(p, current);
    } else if line[p] == SPACE || line[p] == 10 || line[p] == 13 || line[p] == 9 {
      turn := Done(p + 1, current);
    } else if line[p] == QUOTE {
      turn := Going(p + 1, Quoted, current);
    } else if line[p] == APOSTROPHE {
      turn := Going(p + 1, SingleQuoted, current);
    } else {
      turn := Going(p + 1, Bare, current + [line[p]]);
    }
  }

  /** The token loop: `p` advances under the flags inq, insq and done. */
  method NextToken(line: seq<Byte>, start: nat) returns (token: Option<seq<Byte>>, p: nat)
    requires CString(line) && start < |line| && line[start] != NUL
    ensures match Token(line[start..], Bare, [])
            case None => token == None
            case Some((t, rest)) => token == Some(t) && start < p < |line| && line[p..] == rest
  {
    hide Token;
    var current: seq<Byte> := [];
    var inq, insq, done := false, false, false;
    p := start;
    while !done
      invariant start <= p < |line|
      invariant !done ==> Token(line[start..], Bare, []) ==
                          Token(line[p..], if inq then Quoted else if insq then SingleQuoted else Bare, current)
      invariant done ==> Token(line[start..], Bare, []) == Some((current, line[p..])) && start < p
      decreases |line| - p, !done
    {
      var turn: Turn;
      if inq {
        turn := QuotedTurn(line, p, current);
      } else if insq {
        turn := SingleQuotedTurn(line, p, current);
      } else {
        turn := BareTurn(line, p, current);
      }
      match turn
      case Failed => return None, p;
      case Done(next, collected) =>
        p, current, done := next, collected, true;
      case Going(next, q, collected) =>
        p, current := next, collected;
        inq, insq := q == Quoted, q == SingleQuoted;
    }
    token := Some(current);
  }

  // --- Splitting and joining ---

  /** The array of tokens, doubled whenever it could not take the next token and the last
      one.  Each token is the contents of the string made for it. */
  method SplitLen(s: seq<Byte>, sep: seq<Byte>) returns (r: Option<seq<seq<Byte>>>)
    ensures sep == [] ==> r == None
    ensures sep != [] ==> r == Some(Split(s, sep))
  {
    if |sep| < 1 {
      return None;
    }
    hide Split, SoFar;
    var elements: nat, slots: nat, start: nat, j: nat := 0, 5, 0, 0;
    var tokens := new seq<Byte>[slots];
    SplitStart(s, sep);
    if |s| == 0 {
      return Some([]);
    }
    while j < |s| - (|sep| - 1)
      invariant fresh(tokens) && tokens.Length == slots && elements < slots && slots >= 5
      invariant start <= j && start <= |s|
      invariant SoFar(s, sep, start, j, tokens[..elements])
      decreases |s| - j
    {
      tokens, slots := Grown(tokens, elements, slots);
      SplitTurn(s, sep, start, j, tokens[..elements]);
      if (|sep| == 1 && s[j] == sep[0]) || s[j..j + |sep|] == sep {
        Store(tokens, elements, s[start..j]);
        elements := elements + 1;
        start := j + |sep|;
        j := j + |sep| - 1;
      }
      j := j + 1;
    }
    SplitTurn(s, sep, start, j, tokens[..elements]);
    Store(tokens, elements, s[start..]);
    elements := elements + 1;
    return Some(tokens[..elements]);
  }

  /** Doubled when there are fewer than two free slots. */
  method Grown(tokens: array<seq<Byte>>, elements: nat, slots: nat) returns (r: array<seq<Byte>>, more: nat)
    requires tokens.Length == slots && elements < slots && slots >= 5
    ensures (r == tokens || fresh(r)) && r.Length == more && more >= 5 && elements + 1 < more
    ensures more == if slots < elements + 2 then 2 * slots else slots
    ensures r[..elements] == tokens[..elements]
  {
    r, more := tokens, slots;
    if slots < elements + 2 {
      more := slots * 2;
      r := Reallocated(tokens, more);
    }
  }

  method Reallocated(tokens: array<seq<Byte>>, slots: nat) returns (r: array<seq<Byte>>)
    requires tokens.Length <= slots
    ensures fresh(r) && r.Length == slots && r[..tokens.Length] == tokens[..]
  {
    r := new seq<Byte>[slots](i requires 0 <= i < slots reads tokens => if i < tokens.Length then tokens[i] else []);
  }

  /** The tokens found when the scan has come to `j`. */
  ghost predicate SoFar(s: seq<Byte>, sep: seq<Byte>, start: nat, j: nat, found: seq<seq<Byte>>)
    requires sep != [] && start <= j && start <= |s|
  {
    Split(s, sep) == found + SplitFrom(s, sep, start, j)
  }

  lemma SplitStart(s: seq<Byte>, sep: seq<Byte>)
    requires sep != []
    ensures if s == [] then Split(s, sep) == [] else SoFar(s, sep, 0, 0, [])
  {
    assert [] + SplitFrom(s, sep, 0, 0) == SplitFrom(s, sep, 0, 0);
  }

  lemma SplitTurn(s: seq<Byte>, sep: seq<Byte>, start: nat, j: nat, found: seq<seq<Byte>>)
    requires sep != [] && start <= j && start <= |s| && SoFar(s, sep, start, j, found)
    ensures if j + |sep| > |s| then Split(s, sep) == found + [s[start..]]
            else if (|sep| == 1 && s[j] == sep[0]) || s[j..j + |sep|] == sep
            then SoFar(s, sep, j + |sep|, j + |sep|, found + [s[start..j]])
            else SoFar(s, sep, start, j + 1, found)
  {
    hide Split;
    if j + |sep| <= |s| && s[j..j + |sep|] == sep {
      Assoc(found, [s[start..j]], SplitFrom(s, sep, j + |sep|, j + |sep|));
    }
  }

  method JoinSds(argv: seq<seq<Byte>>, sep: seq<Byte>) returns (join: SdsString)
    ensures fresh(join) && fresh(join.buf) && join.Valid() && join.Contents() == Join(argv, sep)
  {
    join := new SdsString.NewLen([]);
    assert argv[0..] == argv;
    ghost var all := Join(argv, sep);
    assert Join([], sep) == [];
    hide Join;
    for j := 0 to |argv|
      invariant fresh(join) && fresh(join.buf) && join.Valid()
      invariant join.Contents() + Join(argv[j..], sep) == all
    {
      JoinFrom(join.Contents(), argv, j, sep);
      join.CatLen(argv[j]);
      if j != |argv| - 1 {
        join.CatLen(sep);
      }
    }
    assert argv[|argv|..] == [];
  }

  // --- Printed strings parse back ---

  lemma ClosingQuote(cur: seq<Byte>, rest: seq<Byte>)
    requires CString(rest) && AtGap(rest)
    ensures Token([QUOTE] + rest, Quoted, cur) == Some((cur, rest))
  {
    assert ([QUOTE] + rest)[1..] == rest;
  }

  lemma EscapeRoundTrip(c: Byte, cur: seq<Byte>, tail: seq<Byte>)
    requires CString(tail)
    ensures CString(Escape(c) + tail)
    ensures Token(Escape(c) + tail, Quoted, cur) == Token(tail, Quoted, cur + [c])
  {
    var s := Escape(c) + tail;
    var n := |Escape(c)|;
    assert s[n..] == tail;
    if n == 4 {
      assert HexEscape(s) && c / 16 * 16 + c % 16 == c;
    }
  }

  /** A string printed inside quotes is read back character by character. */
  lemma {:induction false} QuotedRoundTrip(x: seq<Byte>, cur: seq<Byte>, rest: seq<Byte>)
    requires CString(rest) && AtGap(rest)
    ensures Token(EscapeAll(x) + ([QUOTE] + rest), Quoted, cur) == Some((cur + x, rest))
    decreases |x|
  {
    hide Token, Escape;
    if x == [] {
      assert EscapeAll(x) + ([QUOTE] + rest) == [QUOTE] + rest && cur + x == cur;
      ClosingQuote(cur, rest);
    } else {
      Assoc(Escape(x[0]), EscapeAll(x[1..]), [QUOTE] + rest);
      EscapeRoundTrip(x[0], cur, EscapeAll(x[1..]) + ([QUOTE] + rest));
      QuotedRoundTrip(x[1..], cur + [x[0]], rest);
      Assoc(cur, [x[0]], x[1..]);
      assert [x[0]] + x[1..] == x;
    }
  }

  function ReprAll(xs: seq<seq<Byte>>): seq<seq<Byte>> {
    if xs == [] then [] else [Repr(xs[0])] + ReprAll(xs[1..])
  }

  /** One printed string and whatever follows it after a gap. */
  lemma ReprToken(x: seq<Byte>, rest: seq<Byte>)
    requires CString(rest) && AtGap(rest)
    ensures CString(Repr(x) + rest) && SkipBlanks(Repr(x) + rest) == Repr(x) + rest
    ensures (Repr(x) + rest)[0] != NUL && Token(Repr(x) + rest, Bare, []) == Some((x, rest))
  {
    hide EscapeAll;
    Assoc([QUOTE] + EscapeAll(x), [QUOTE], rest);
    Assoc([QUOTE], EscapeAll(x), [QUOTE] + rest);
    var s := EscapeAll(x) + ([QUOTE] + rest);
    assert ([QUOTE] + s)[1..] == s;
    QuotedRoundTrip(x, [], rest);
    assert [] + x == x;
  }

  /** A blank in front of a line changes nothing. */
  lemma LeadingBlank(s: seq<Byte>)
    requires CString(s)
    ensures CString([SPACE] + s) && Args([SPACE] + s) == Args(s)
  {
    assert ([SPACE] + s)[1..] == s;
  }

  /** Printing every string, joining with one space and parsing gives the list back, for
      all byte strings whatsoever. */
  lemma {:induction false} ReprRoundTrip(xs: seq<seq<Byte>>)
    ensures CString(Join(ReprAll(xs), [SPACE]) + [NUL])
    ensures Args(Join(ReprAll(xs), [SPACE]) + [NUL]) == Some(xs)
    decreases |xs|
  {
    hide Token, Repr, SkipBlanks;
    if xs == [] {
      NothingToParse();
    } else {
      var more := Join(ReprAll(xs[1..]), [SPACE]) + [NUL];
      ReprRoundTrip(xs[1..]);
      LeadingBlank(more);
      if |xs| == 1 {
        NothingToParse();
        ReprToken(xs[0], [NUL]);
      } else {
        Assoc(Repr(xs[0]), [SPACE], Join(ReprAll(xs[1..]), [SPACE]));
        Assoc(Repr(xs[0]), [SPACE] + Join(ReprAll(xs[1..]), [SPACE]), [NUL]);
        Assoc([SPACE], Join(ReprAll(xs[1..]), [SPACE]), [NUL]);
        ReprToken(xs[0], [SPACE] + more);
      }
      assert xs == [xs[0]] + xs[1..];
    }
  }

  lemma NothingToParse()
    ensures Args([NUL]) == Some([])
  {
  }

  /** A printed string never contains a NUL, so the line is one C string. */
  lemma {:induction false} ReprHasNoNul(s: seq<Byte>)
    ensures NUL !in EscapeAll(s) && NUL !in Repr(s)
    decreases |s|
  {
    if s != [] {
      ReprHasNoNul(s[1..]);
    }
  }
}
