/** The language of argument lines, and that the parser reads exactly it. */
module SdsGrammar {
  import opened Bytes
  import opened Splitting
  import opened SdsText

  // --- Words ---

  /** One unit of text between double quotes. */
  datatype Piece = Plain(c: Byte) | Escaped(c: Byte) | Hex(high: Byte, low: Byte)

  /** How a word ends: as it is, or in a part between quotes. */
  datatype Ending = Unquoted | InDouble(pieces: seq<Piece>) | InSingle(chars: seq<Byte>)

  datatype Word = Word(bare: seq<Byte>, ending: Ending)

  function PieceText(p: Piece): seq<Byte> {
    match p
    case Plain(c) => [c]
    case Escaped(c) => ['\\' as int, c]
    case Hex(h, l) => ['\\' as int, 'x' as int, h, l]
  }

  /** The value of a hexadecimal digit, of either case. */
  function DigitValue(c: Byte): int {
    if '0' as int <= c <= '9' as int then c - '0' as int
    else if 'a' as int <= c <= 'f' as int then 10 + (c - 'a' as int)
    else 10 + (c - 'A' as int)
  }

  function PieceMeaning(p: Piece): Byte
    requires p.Hex? ==> HexChar(p.high) && HexChar(p.low)
  {
    match p
    case Plain(c) => c
    case Escaped(c) =>
      if c == 'n' as int then 10
      else if c == 'r' as int then 13
      else if c == 't' as int then 9
      else if c == 'b' as int then 8
      else if c == 'a' as int then 7
      else c
    case Hex(h, l) => 16 * DigitValue(h) + DigitValue(l)
  }

  function PiecesText(ps: seq<Piece>): seq<Byte> {
    if ps == [] then [] else PieceText(ps[0]) + PiecesText(ps[1..])
  }

  predicate HexChar(c: Byte) {
    '0' as int <= c <= '9' as int || 'a' as int <= c <= 'f' as int || 'A' as int <= c <= 'F' as int
  }

  /** Space, tab, line feed, vertical tab, form feed, carriage return. */
  predicate Blank(c: Byte) {
    c in {32, 9, 10, 11, 12, 13}
  }

  predicate TwoHexDigits(t: seq<Byte>) {
    |t| >= 2 && HexChar(t[0]) && HexChar(t[1])
  }

  /** A backslash may stand before anything; before an x and two digits it makes a Hex. */
  predicate GoodPieces(ps: seq<Piece>) {
    ps != [] ==>
      GoodPieces(ps[1..]) &&
      match ps[0]
      case Plain(c) => c != NUL && c != '\\' as int && c != '"' as int
      case Escaped(c) => c != NUL && (c == 'x' as int ==> !TwoHexDigits(PiecesText(ps[1..])))
      case Hex(h, l) => HexChar(h) && HexChar(l)
  }

  function PiecesMeaning(ps: seq<Piece>): seq<Byte>
    requires GoodPieces(ps)
  {
    if ps == [] then [] else [PieceMeaning(ps[0])] + PiecesMeaning(ps[1..])
  }

  /** Between single quotes only the single quote itself is escaped. */
  function SingleText(chars: seq<Byte>): seq<Byte> {
    if chars == [] then []
    else (if chars[0] == '\'' as int then ['\\' as int, '\'' as int] else [chars[0]]) + SingleText(chars[1..])
  }

  predicate BareChar(c: Byte) {
    c != NUL && c != ' ' as int && c != '\n' as int && c != '\r' as int && c != '\t' as int &&
    c != '"' as int && c != '\'' as int
  }

  /** Something, of characters that need no quotes; a word does not begin with a blank, and
      a single-quoted part does not end in a backslash. */
  predicate GoodWord(w: Word) {
    (w.bare == [] ==> !w.ending.Unquoted?) && (w.bare != [] ==> !Blank(w.bare[0])) &&
    (forall i :: 0 <= i < |w.bare| ==> BareChar(w.bare[i])) && GoodEnding(w.ending)
  }

  predicate GoodEnding(e: Ending) {
    match e
    case Unquoted => true
    case InDouble(ps) => GoodPieces(ps)
    case InSingle(chars) => NUL !in chars && (chars != [] ==> chars[|chars| - 1] != '\\' as int)
  }

  function EndingText(e: Ending): seq<Byte> {
    match e
    case Unquoted => []
    case InDouble(ps) => ['"' as int] + PiecesText(ps) + ['"' as int]
    case InSingle(chars) => ['\'' as int] + SingleText(chars) + ['\'' as int]
  }

  function WordText(w: Word): seq<Byte> {
    w.bare + EndingText(w.ending)
  }

  function EndingMeaning(e: Ending): seq<Byte>
    requires GoodEnding(e)
  {
    match e
    case Unquoted => []
    case InDouble(ps) => PiecesMeaning(ps)
    case InSingle(chars) => chars
  }

  function Meaning(w: Word): seq<Byte>
    requires GoodWord(w)
  {
    w.bare + EndingMeaning(w.ending)
  }

  // --- Lines ---

  predicate Blanks(s: seq<Byte>) {
    forall i :: 0 <= i < |s| ==> Blank(s[i])
  }

  /** A word and the blanks behind it; only a space, tab or line end separates after a word
      without quotes. */
  datatype Item = Item(word: Word, gap: seq<Byte>)

  predicate GoodItem(item: Item, last: bool) {
    GoodWord(item.word) && Blanks(item.gap) &&
    if item.gap == [] then last else item.word.ending.Unquoted? ==> item.gap[0] in {32, 10, 13, 9}
  }

  predicate GoodItems(items: seq<Item>) {
    forall i :: 0 <= i < |items| ==> GoodItem(items[i], i == |items| - 1)
  }

  function ItemsText(items: seq<Item>): seq<Byte> {
    if items == [] then [] else WordText(items[0].word) + (items[0].gap + ItemsText(items[1..]))
  }

  function Meanings(items: seq<Item>): seq<seq<Byte>>
    requires GoodItems(items)
  {
    seq(|items|, i requires 0 <= i < |items| => Meaning(items[i].word))
  }

  /** `s` is a line: blanks, words and gaps, up to the first NUL. */
  ghost predicate IsLine(s: seq<Byte>, blanks: seq<Byte>, items: seq<Item>, tail: seq<Byte>) {
    CString(tail) && tail[0] == NUL && Blanks(blanks) && GoodItems(items) && s == blanks + (ItemsText(items) + tail)
  }

  // --- The parser reads every line ---

  lemma {:induction false} BlanksSkipped(blanks: seq<Byte>, s: seq<Byte>)
    requires Blanks(blanks) && CString(s)
    ensures CString(blanks + s) && SkipBlanks(blanks + s) == SkipBlanks(s)
  {
    if blanks == [] {
      assert blanks + s == s;
    } else {
      BlanksSkipped(blanks[1..], s);
      assert (blanks + s)[1..] == blanks[1..] + s;
    }
  }

  lemma {:induction false} BareRead(bare: seq<Byte>, s: seq<Byte>, cur: seq<Byte>)
    requires CString(s) && forall i :: 0 <= i < |bare| ==> BareChar(bare[i])
    ensures CString(bare + s) && Token(bare + s, Bare, cur) == Token(s, Bare, cur + bare)
    decreases |bare|
  {
    if bare == [] {
      assert bare + s == s && cur + bare == cur;
    } else {
      BareRead(bare[1..], s, cur + [bare[0]]);
      assert (bare + s)[1..] == bare[1..] + s;
      assert cur + [bare[0]] + bare[1..] == cur + bare;
    }
  }

  lemma PieceRead(p: Piece, s: seq<Byte>, cur: seq<Byte>)
    requires CString(s)
    requires match p
             case Plain(c) => c != NUL && c != '\\' as int && c != '"' as int
             case Escaped(c) => c != NUL && (c == 'x' as int ==> !TwoHexDigits(s))
             case Hex(h, l) => HexChar(h) && HexChar(l)
    ensures CString(PieceText(p) + s)
    ensures Token(PieceText(p) + s, Quoted, cur) == Token(s, Quoted, cur + [PieceMeaning(p)])
  {
    var t := PieceText(p) + s;
    assert t[|PieceText(p)|..] == s;
  }

  /** What stands between double quotes is read piece by piece; behind the closing quote
      there must be a gap. */
  lemma {:induction false} DoubleRead(ps: seq<Piece>, rest: seq<Byte>, cur: seq<Byte>)
    requires CString(rest) && GoodPieces(ps)
    ensures CString(PiecesText(ps) + ([QUOTE] + rest))
    ensures Token(PiecesText(ps) + ([QUOTE] + rest), Quoted, cur) ==
            if AtGap(rest) then Some((cur + PiecesMeaning(ps), rest)) else None
    decreases |ps|
  {
    if ps == [] {
      assert ([QUOTE] + rest)[1..] == rest && PiecesText(ps) + ([QUOTE] + rest) == [QUOTE] + rest;
      assert cur + PiecesMeaning(ps) == cur;
    } else {
      hide Token, PieceMeaning;
      var s := PiecesText(ps[1..]) + ([QUOTE] + rest);
      DoubleRead(ps[1..], rest, cur + [PieceMeaning(ps[0])]);
      Assoc(PieceText(ps[0]), PiecesText(ps[1..]), [QUOTE] + rest);
      assert !TwoHexDigits(PiecesText(ps[1..])) ==> !TwoHexDigits(s);
      PieceRead(ps[0], s, cur);
      Assoc(cur, [PieceMeaning(ps[0])], PiecesMeaning(ps[1..]));
    }
  }

  lemma {:induction false} SingleRead(chars: seq<Byte>, rest: seq<Byte>, cur: seq<Byte>)
    requires CString(rest) && NUL !in chars && (chars != [] ==> chars[|chars| - 1] != BACKSLASH)
    ensures CString(SingleText(chars) + ([APOSTROPHE] + rest))
    ensures Token(SingleText(chars) + ([APOSTROPHE] + rest), SingleQuoted, cur) ==
            if AtGap(rest) then Some((cur + chars, rest)) else None
    decreases |chars|
  {
    var s := SingleText(chars) + ([APOSTROPHE] + rest);
    if chars == [] {
      assert s == [APOSTROPHE] + rest && s[1..] == rest && cur + chars == cur;
    } else {
      var more := SingleText(chars[1..]) + ([APOSTROPHE] + rest);
      SingleRead(chars[1..], rest, cur + [chars[0]]);
      assert cur + [chars[0]] + chars[1..] == cur + chars;
      if chars[0] == APOSTROPHE {
        assert s[2..] == more;
      } else {
        assert s[1..] == more;
        SingleStart(chars[1..], rest);
      }
    }
  }

  /** Behind a raw character there is no single quote before the closing one. */
  lemma SingleStart(chars: seq<Byte>, rest: seq<Byte>)
    ensures chars != [] ==> (SingleText(chars) + ([APOSTROPHE] + rest))[0] != APOSTROPHE
  {
  }

  /** A word is read up to its end: without quotes the separator goes with it. */
  lemma WordRead(w: Word, rest: seq<Byte>)
    requires GoodWord(w) && CString(rest)
    requires w.ending.Unquoted? ==> rest[0] in {NUL, 32, 10, 13, 9}
    ensures CString(WordText(w) + rest) && SkipBlanks(WordText(w) + rest) == WordText(w) + rest
    ensures (WordText(w) + rest)[0] != NUL
    ensures Token(WordText(w) + rest, Bare, []) ==
            if w.ending.Unquoted? then Some((Meaning(w), if rest[0] == NUL then rest else rest[1..]))
            else if AtGap(rest) then Some((Meaning(w), rest))
            else None
  {
    hide Token;
    FirstIsNoBlank(w);
    assert [] + w.bare == w.bare && w.bare + [] == w.bare;
    EndingRead(w.ending, rest, w.bare);
    BareRead(w.bare, EndingText(w.ending) + rest, []);
    Assoc(w.bare, EndingText(w.ending), rest);
  }

  lemma EndingRead(e: Ending, rest: seq<Byte>, cur: seq<Byte>)
    requires GoodEnding(e) && CString(rest) && (e.Unquoted? ==> rest[0] in {NUL, 32, 10, 13, 9})
    ensures CString(EndingText(e) + rest)
    ensures Token(EndingText(e) + rest, Bare, cur) ==
            if e.Unquoted? then Some((cur, if rest[0] == NUL then rest else rest[1..]))
            else if AtGap(rest) then Some((cur + EndingMeaning(e), rest))
            else None
  {
    hide Token, PiecesText, PiecesMeaning, SingleText;
    match e
    case Unquoted => {
      assert [] + rest == rest;
      AtSeparator(rest, cur);
    }
    case InDouble(ps) => {
      DoubleRead(ps, rest, cur);
      Quotes(QUOTE, PiecesText(ps), rest);
      AtQuote(QUOTE, PiecesText(ps) + ([QUOTE] + rest), cur);
    }
    case InSingle(chars) => {
      SingleRead(chars, rest, cur);
      Quotes(APOSTROPHE, SingleText(chars), rest);
      AtQuote(APOSTROPHE, SingleText(chars) + ([APOSTROPHE] + rest), cur);
    }
  }

  lemma AtSeparator(rest: seq<Byte>, cur: seq<Byte>)
    requires CString(rest) && rest[0] in {NUL, 32, 10, 13, 9}
    ensures Token(rest, Bare, cur) == Some((cur, if rest[0] == NUL then rest else rest[1..]))
  {
  }

  lemma AtQuote(q: Byte, t: seq<Byte>, cur: seq<Byte>)
    requires CString(t) && (q == QUOTE || q == APOSTROPHE)
    ensures CString([q] + t)
    ensures Token([q] + t, Bare, cur) == Token(t, if q == QUOTE then Quoted else SingleQuoted, cur)
  {
    assert ([q] + t)[1..] == t;
  }

  lemma Quotes(q: Byte, inner: seq<Byte>, rest: seq<Byte>)
    ensures ([q] + inner + [q]) + rest == [q] + (inner + ([q] + rest))
    ensures (([q] + inner + [q]) + rest)[1..] == inner + ([q] + rest)
  {
  }

  /** Every line is split into the meanings of its words. */
  lemma {:induction false} LineRead(blanks: seq<Byte>, items: seq<Item>, tail: seq<Byte>)
    requires CString(tail) && tail[0] == NUL && Blanks(blanks) && GoodItems(items)
    ensures CString(blanks + (ItemsText(items) + tail))
    ensures Args(blanks + (ItemsText(items) + tail)) == Some(Meanings(items))
    decreases |items|
  {
    hide Token, WordText, Meaning, GoodWord, Args, SkipBlanks, CString;
    var s := ItemsText(items) + tail;
    if items == [] {
      assert s == tail && Meanings(items) == [];
      NothingRead(tail);
    } else {
      var w, gap, more := items[0].word, items[0].gap, ItemsText(items[1..]) + tail;
      ItemsTail(items);
      Assoc(WordText(w), gap + ItemsText(items[1..]), tail);
      Assoc(gap, ItemsText(items[1..]), tail);
      LineRead([], items[1..], tail);
      assert [] + more == more;
      LineRead(gap, items[1..], tail);
      if gap != [] {
        LineRead(gap[1..], items[1..], tail);
      } else {
        assert items[1..] == [] && more == tail;
      }
      ItemRead(w, gap, more, Meanings(items[1..]));
      assert Meanings(items) == [Meaning(w)] + Meanings(items[1..]);
    }
    BlanksInFront(blanks, s);
  }

  lemma NothingRead(tail: seq<Byte>)
    requires CString(tail) && tail[0] == NUL
    ensures Args(tail) == Some([])
  {
  }

  lemma BlanksInFront(blanks: seq<Byte>, s: seq<Byte>)
    requires Blanks(blanks) && CString(s)
    ensures CString(blanks + s) && Args(blanks + s) == Args(s)
  {
    hide Token;
    BlanksSkipped(blanks, s);
  }

  /** A word, its gap, and the rest of the line. */
  lemma ItemRead(w: Word, gap: seq<Byte>, more: seq<Byte>, words: seq<seq<Byte>>)
    requires GoodWord(w) && Blanks(gap) && CString(more) && (gap == [] ==> more[0] == NUL)
    requires gap != [] && w.ending.Unquoted? ==> gap[0] in {32, 10, 13, 9}
    requires CString(gap + more) && Args(gap + more) == Some(words)
    requires gap != [] ==> CString(gap[1..] + more) && Args(gap[1..] + more) == Some(words)
    ensures CString(WordText(w) + (gap + more)) && Args(WordText(w) + (gap + more)) == Some([Meaning(w)] + words)
  {
    hide Token, WordText, Meaning, GoodWord, SkipBlanks, Args;
    if gap != [] {
      assert (gap + more)[1..] == gap[1..] + more;
    } else {
      assert gap + more == more;
    }
    WordRead(w, gap + more);
    OneToken(WordText(w) + (gap + more), Meaning(w),
             if w.ending.Unquoted? && gap != [] then gap[1..] + more else gap + more, words);
  }

  lemma OneToken(s: seq<Byte>, token: seq<Byte>, rest: seq<Byte>, words: seq<seq<Byte>>)
    requires CString(s) && s[0] != NUL && SkipBlanks(s) == s && Token(s, Bare, []) == Some((token, rest))
    requires CString(rest) && Args(rest) == Some(words)
    ensures Args(s) == Some([token] + words)
  {
    hide Token, SkipBlanks;
  }

  lemma ItemsTail(items: seq<Item>)
    requires GoodItems(items) && items != []
    ensures GoodItem(items[0], |items| == 1) && GoodItems(items[1..])
  {
    forall i | 0 <= i < |items[1..]| ensures GoodItem(items[1..][i], i == |items[1..]| - 1) {
      assert GoodItem(items[i + 1], i + 1 == |items| - 1);
    }
  }

  // --- The parser reads nothing else ---

  function FirstPiece(s: seq<Byte>): (p: Piece)
    requires CString(s)
    ensures p.Hex? ==> HexChar(p.high) && HexChar(p.low)
  {
    if HexEscape(s) then Hex(s[2], s[3])
    else if s[0] == BACKSLASH && s[1] != NUL then Escaped(s[1])
    else Plain(s[0])
  }

  lemma {:induction false} DoubleParsed(s: seq<Byte>, cur: seq<Byte>) returns (ps: seq<Piece>)
    requires CString(s) && Token(s, Quoted, cur).Some?
    ensures var (token, rest) := Token(s, Quoted, cur).value;
            GoodPieces(ps) && AtGap(rest) && s == PiecesText(ps) + ([QUOTE] + rest) && token == cur + PiecesMeaning(ps)
    decreases |s|
  {
    if s[0] == QUOTE {
      ps := [];
      assert s == [] + ([QUOTE] + s[1..]) && cur + [] == cur;
    } else {
      var p := FirstPiece(s);
      var n := |PieceText(p)|;
      assert s[0] != NUL;
      assert !(s[0] == BACKSLASH && s[1] == NUL);
      var more := DoubleParsed(s[n..], cur + [PieceMeaning(p)]);
      ps := [p] + more;
      PieceParsed(s, cur, p, more);
    }
  }

  lemma PieceParsed(s: seq<Byte>, cur: seq<Byte>, p: Piece, more: seq<Piece>)
    requires CString(s) && s[0] != QUOTE && s[0] != NUL && !(s[0] == BACKSLASH && s[1] == NUL)
    requires p == FirstPiece(s)
    requires Token(s[|PieceText(p)|..], Quoted, cur + [PieceMeaning(p)]).Some?
    requires var (token, rest) := Token(s[|PieceText(p)|..], Quoted, cur + [PieceMeaning(p)]).value;
             GoodPieces(more) && s[|PieceText(p)|..] == PiecesText(more) + ([QUOTE] + rest) &&
             token == cur + [PieceMeaning(p)] + PiecesMeaning(more)
    ensures Token(s, Quoted, cur) == Token(s[|PieceText(p)|..], Quoted, cur + [PieceMeaning(p)])
    ensures var (token, rest) := Token(s, Quoted, cur).value;
            GoodPieces([p] + more) && s == PiecesText([p] + more) + ([QUOTE] + rest) &&
            token == cur + PiecesMeaning([p] + more)
  {
    hide Token, PieceMeaning;
    var t := s[|PieceText(p)|..];
    var (token, rest) := Token(t, Quoted, cur + [PieceMeaning(p)]).value;
    PieceTaken(s, p);
    PieceRead(p, t, cur);
    assert ([p] + more)[1..] == more;
    Assoc(PieceText(p), PiecesText(more), [QUOTE] + rest);
    Assoc(cur, [PieceMeaning(p)], PiecesMeaning(more));
    assert !TwoHexDigits(t) ==> !TwoHexDigits(PiecesText(more));
  }

  lemma PieceTaken(s: seq<Byte>, p: Piece)
    requires CString(s) && s[0] != QUOTE && s[0] != NUL && !(s[0] == BACKSLASH && s[1] == NUL)
    requires p == FirstPiece(s)
    ensures |PieceText(p)| < |s| && s == PieceText(p) + s[|PieceText(p)|..] && CString(s[|PieceText(p)|..])
    ensures p.Escaped? && p.c == 'x' as int ==> !TwoHexDigits(s[2..])
  {
  }

  lemma {:induction false} SingleParsed(s: seq<Byte>, cur: seq<Byte>) returns (chars: seq<Byte>)
    requires CString(s) && Token(s, SingleQuoted, cur).Some?
    ensures var (token, rest) := Token(s, SingleQuoted, cur).value;
            NUL !in chars && (chars != [] ==> chars[|chars| - 1] != BACKSLASH) &&
            AtGap(rest) && s == SingleText(chars) + ([APOSTROPHE] + rest) && token == cur + chars
    decreases |s|
  {
    hide SingleText, Token;
    NoSingleText();
    SingleStep(s, cur);
    if s[0] == BACKSLASH && s[1] == APOSTROPHE {
      var more := SingleParsed(s[2..], cur + [APOSTROPHE]);
      chars := [APOSTROPHE] + more;
      SingleMore(cur, APOSTROPHE, more, Token(s, SingleQuoted, cur).value.1);
    } else if s[0] == APOSTROPHE {
      chars := [];
      assert s == [] + ([APOSTROPHE] + s[1..]) && cur + [] == cur;
    } else {
      var more := SingleParsed(s[1..], cur + [s[0]]);
      chars := [s[0]] + more;
      assert s[0] == BACKSLASH ==> more != [];
      SingleMore(cur, s[0], more, Token(s, SingleQuoted, cur).value.1);
    }
  }

  lemma SingleStep(s: seq<Byte>, cur: seq<Byte>)
    requires CString(s) && Token(s, SingleQuoted, cur).Some?
    ensures s[0] != NUL && |s| > 1
    ensures if s[0] == BACKSLASH && s[1] == APOSTROPHE then
              CString(s[2..]) && s == [BACKSLASH, APOSTROPHE] + s[2..] &&
              Token(s, SingleQuoted, cur) == Token(s[2..], SingleQuoted, cur + [APOSTROPHE])
            else if s[0] == APOSTROPHE then
              CString(s[1..]) && AtGap(s[1..]) && Token(s, SingleQuoted, cur) == Some((cur, s[1..]))
            else
              CString(s[1..]) && s == [s[0]] + s[1..] &&
              Token(s, SingleQuoted, cur) == Token(s[1..], SingleQuoted, cur + [s[0]])
  {
  }

  lemma NoSingleText()
    ensures SingleText([]) == []
  {
  }

  lemma SingleMore(cur: seq<Byte>, c: Byte, more: seq<Byte>, rest: seq<Byte>)
    requires more != [] ==> more[|more| - 1] != BACKSLASH
    ensures c != BACKSLASH || more != [] ==> ([c] + more)[|more|] != BACKSLASH
    ensures (if c == APOSTROPHE then [BACKSLASH, APOSTROPHE] else [c]) + (SingleText(more) + ([APOSTROPHE] + rest)) ==
            SingleText([c] + more) + ([APOSTROPHE] + rest)
    ensures cur + [c] + more == cur + ([c] + more)
  {
    assert ([c] + more)[1..] == more;
    Assoc(if c == APOSTROPHE then [BACKSLASH, APOSTROPHE] else [c], SingleText(more), [APOSTROPHE] + rest);
  }

  /** The word `w` and its separator are what lies between `s` and the rest of the line. */
  ghost predicate Reads(w: Word, sep: seq<Byte>, s: seq<Byte>, cur: seq<Byte>, token: seq<Byte>, rest: seq<Byte>) {
    s == WordText(w) + (sep + rest) && (forall i :: 0 <= i < |w.bare| ==> BareChar(w.bare[i])) &&
    GoodEnding(w.ending) && token == cur + (w.bare + EndingMeaning(w.ending)) && Separated(w, sep, rest) &&
    (w.bare == [] && w.ending.Unquoted? ==> s != [] && s[0] in {NUL, 32, 10, 13, 9})
  }

  predicate Separated(w: Word, sep: seq<Byte>, rest: seq<Byte>) {
    rest != [] &&
    if !w.ending.Unquoted? then sep == [] && AtGap(rest)
    else if sep == [] then rest[0] == NUL
    else |sep| == 1 && sep[0] in {32, 10, 13, 9}
  }

  /** A token that has been read is the text of a word. */
  lemma {:induction false} WordParsed(s: seq<Byte>, cur: seq<Byte>) returns (w: Word, sep: seq<Byte>)
    requires CString(s) && Token(s, Bare, cur).Some?
    ensures Reads(w, sep, s, cur, Token(s, Bare, cur).value.0, Token(s, Bare, cur).value.1)
    decreases |s|
  {
    hide PiecesText, PiecesMeaning, SingleText, GoodPieces;
    var (token, rest) := Token(s, Bare, cur).value;
    if s[0] in {NUL, 32, 10, 13, 9} {
      w, sep := Word([], Unquoted), if s[0] == NUL then [] else [s[0]];
      assert cur + ([] + []) == cur && s == [] + (sep + rest);
    } else if s[0] == QUOTE {
      var ps := DoubleParsed(s[1..], cur);
      w, sep := Word([], InDouble(ps)), [];
      QuotesRead(QUOTE, PiecesText(ps), PiecesMeaning(ps), s, rest);
    } else if s[0] == APOSTROPHE {
      var chars := SingleParsed(s[1..], cur);
      w, sep := Word([], InSingle(chars)), [];
      QuotesRead(APOSTROPHE, SingleText(chars), chars, s, rest);
    } else {
      var more;
      more, sep := WordParsed(s[1..], cur + [s[0]]);
      w := Word([s[0]] + more.bare, more.ending);
      OneMoreBare(s, cur, more, sep, token, rest);
    }
  }

  lemma QuotesRead(q: Byte, inner: seq<Byte>, meaning: seq<Byte>, s: seq<Byte>, rest: seq<Byte>)
    requires s != [] && s[0] == q && s[1..] == inner + ([q] + rest)
    ensures s == ([] + ([q] + inner + [q])) + ([] + rest) && [] + meaning == meaning
  {
    assert s == [q] + s[1..];
  }

  lemma OneMoreBare(s: seq<Byte>, cur: seq<Byte>, more: Word, sep: seq<Byte>, token: seq<Byte>, rest: seq<Byte>)
    requires CString(s) && BareChar(s[0]) && Reads(more, sep, s[1..], cur + [s[0]], token, rest)
    ensures Reads(Word([s[0]] + more.bare, more.ending), sep, s, cur, token, rest)
  {
    hide EndingText, EndingMeaning, GoodEnding;
    var w := Word([s[0]] + more.bare, more.ending);
    assert s == [s[0]] + s[1..];
    Assoc([s[0]], more.bare, EndingText(more.ending));
    Assoc([s[0]], WordText(more), sep + rest);
    Assoc(cur, [s[0]], more.bare + EndingMeaning(more.ending));
    Assoc([s[0]], more.bare, EndingMeaning(more.ending));
  }

  lemma {:induction false} BlanksParsed(s: seq<Byte>) returns (blanks: seq<Byte>)
    requires CString(s)
    ensures Blanks(blanks) && s == blanks + SkipBlanks(s)
    decreases |s|
  {
    if s[0] != NUL && Blank(s[0]) {
      var more := BlanksParsed(s[1..]);
      blanks := [s[0]] + more;
      Assoc([s[0]], more, SkipBlanks(s[1..]));
      assert s == [s[0]] + s[1..];
    } else {
      blanks := [];
      assert s == [] + s;
    }
  }

  /** Whatever has been split is a line. */
  lemma {:induction false} LineParsed(s: seq<Byte>) returns (blanks: seq<Byte>, items: seq<Item>, tail: seq<Byte>)
    requires CString(s) && Args(s).Some?
    ensures IsLine(s, blanks, items, tail) && Meanings(items) == Args(s).value
    decreases |s|
  {
    hide Token, IsLine, Meanings, Reads, Blanks;
    blanks := BlanksParsed(s);
    var t := SkipBlanks(s);
    if t[0] == NUL {
      items, tail := [], t;
      NoWords(s, blanks, t);
    } else {
      var (token, rest) := Token(t, Bare, []).value;
      var w, sep := WordParsed(t, []);
      var b, more;
      b, more, tail := LineParsed(rest);
      items := [Item(w, sep + b)] + more;
      WordIsGood(w, t, sep, token, rest);
      LineGrows(s, blanks, t, w, sep, token, rest, b, more, tail);
    }
  }

  lemma NoWords(s: seq<Byte>, blanks: seq<Byte>, tail: seq<Byte>)
    requires CString(tail) && tail[0] == NUL && Blanks(blanks) && s == blanks + tail
    ensures IsLine(s, blanks, [], tail) && Meanings([]) == []
  {
    assert [] + tail == tail;
  }

  lemma WordIsGood(w: Word, t: seq<Byte>, sep: seq<Byte>, token: seq<Byte>, rest: seq<Byte>)
    requires CString(t) && t[0] != NUL && !Blank(t[0]) && Reads(w, sep, t, [], token, rest)
    ensures GoodWord(w) && token == Meaning(w)
  {
    assert [] + Meaning(w) == Meaning(w);
    if w.bare != [] {
      assert t[0] == w.bare[0];
    }
  }

  lemma LineGrows(s: seq<Byte>, blanks: seq<Byte>, t: seq<Byte>, w: Word, sep: seq<Byte>, token: seq<Byte>,
                  rest: seq<Byte>, b: seq<Byte>, more: seq<Item>, tail: seq<Byte>)
    requires IsLine(rest, b, more, tail) && GoodWord(w) && Blanks(blanks) && s == blanks + t
    requires Reads(w, sep, t, [], token, rest)
    ensures IsLine(s, blanks, [Item(w, sep + b)] + more, tail)
    ensures Meanings([Item(w, sep + b)] + more) == [Meaning(w)] + Meanings(more)
  {
    hide WordText, GoodWord, Meaning, EndingMeaning, GoodEnding;
    var items := [Item(w, sep + b)] + more;
    assert items[1..] == more;
    if more != [] {
      assert GoodItem(more[0], |more| == 1);
      FirstIsNoBlank(more[0].word);
      assert b == [] ==> rest[0] == WordText(more[0].word)[0];
    }
    forall i | 0 <= i < |items| ensures GoodItem(items[i], i == |items| - 1) {
      if i > 0 {
        assert GoodItem(more[i - 1], i - 1 == |more| - 1);
      }
    }
    LineText(blanks, w, sep, b, more, tail);
  }

  lemma LineText(blanks: seq<Byte>, w: Word, sep: seq<Byte>, b: seq<Byte>, more: seq<Item>, tail: seq<Byte>)
    ensures blanks + (WordText(w) + (sep + (b + (ItemsText(more) + tail)))) ==
            blanks + (ItemsText([Item(w, sep + b)] + more) + tail)
  {
    hide WordText;
    assert ([Item(w, sep + b)] + more)[1..] == more;
    Assoc(sep, b, ItemsText(more) + tail);
    Assoc(sep + b, ItemsText(more), tail);
    Assoc(WordText(w), (sep + b) + ItemsText(more), tail);
  }

  lemma FirstIsNoBlank(w: Word)
    requires GoodWord(w)
    ensures WordText(w) != [] && WordText(w)[0] != NUL && !Blank(WordText(w)[0])
  {
  }

  /** The parser accepts exactly the lines, and gives the meanings of their words. */
  lemma ArgsIff(s: seq<Byte>, words: seq<seq<Byte>>)
    requires CString(s)
    ensures Args(s) == Some(words) <==>
            exists blanks, items, tail :: IsLine(s, blanks, items, tail) && Meanings(items) == words
  {
    if Args(s) == Some(words) {
      var blanks, items, tail := LineParsed(s);
    }
    forall blanks, items, tail | IsLine(s, blanks, items, tail) && Meanings(items) == words ensures Args(s) == Some(words) {
      LineRead(blanks, items, tail);
    }
  }

  // --- Words with one space between each two ---

  function Texts(words: seq<Word>): seq<seq<Byte>> {
    seq(|words|, i requires 0 <= i < |words| => WordText(words[i]))
  }

  lemma {:induction false} SpacedWords(words: seq<Word>)
    requires forall i :: 0 <= i < |words| ==> GoodWord(words[i])
    ensures CString(Join(Texts(words), [SPACE]) + [NUL])
    ensures Args(Join(Texts(words), [SPACE]) + [NUL]) ==
            Some(seq(|words|, i requires 0 <= i < |words| => Meaning(words[i])))
  {
    hide WordText, Meaning, GoodWord;
    var items := seq(|words|, i requires 0 <= i < |words| => Item(words[i], if i < |words| - 1 then [SPACE] else []));
    forall i | 0 <= i < |items| ensures GoodItem(items[i], i == |items| - 1) {
    }
    LineRead([], items, [NUL]);
    SpacedText(words, items);
    assert [] + (ItemsText(items) + [NUL]) == Join(Texts(words), [SPACE]) + [NUL];
    assert Meanings(items) == seq(|words|, i requires 0 <= i < |words| => Meaning(words[i]));
  }

  lemma {:induction false} SpacedText(words: seq<Word>, items: seq<Item>)
    requires |items| == |words|
    requires forall i :: 0 <= i < |items| ==> items[i] == Item(words[i], if i < |words| - 1 then [SPACE] else [])
    ensures ItemsText(items) == Join(Texts(words), [SPACE])
  {
    hide WordText;
    if words != [] {
      SpacedText(words[1..], items[1..]);
      assert Texts(words)[1..] == Texts(words[1..]);
      if |words| == 1 {
        assert items[1..] == [] && [] + ItemsText([]) == [];
      }
    }
  }

  /** Words without NUL, blanks and quotes come back as they are. */
  lemma PlainWords(words: seq<seq<Byte>>)
    requires forall i :: 0 <= i < |words| ==> words[i] != []
    requires forall w, c | w in words && c in w ::
               c != 0 && c != 32 && !(9 <= c <= 13) && c != '"' as int && c != '\'' as int
    ensures CString(Join(words, [SPACE]) + [NUL]) && Args(Join(words, [SPACE]) + [NUL]) == Some(words)
  {
    var ws := seq(|words|, i requires 0 <= i < |words| => Word(words[i], Unquoted));
    forall i | 0 <= i < |ws| ensures GoodWord(ws[i]) && WordText(ws[i]) == words[i] && Meaning(ws[i]) == words[i] {
      assert words[i] in words && forall j :: 0 <= j < |words[i]| ==> words[i][j] in words[i];
    }
    SpacedWords(ws);
    assert Texts(ws) == words;
    assert seq(|ws|, i requires 0 <= i < |ws| => Meaning(ws[i])) == words;
  }

  function InSingleQuotes(words: seq<seq<Byte>>): (r: seq<seq<Byte>>)
    ensures |r| == |words| && forall i :: 0 <= i < |r| ==> r[i] == ['\'' as int] + SingleText(words[i]) + ['\'' as int]
  {
    seq(|words|, i requires 0 <= i < |words| => ['\'' as int] + SingleText(words[i]) + ['\'' as int])
  }

  /** In single quotes, words of anything but NUL do, if they do not end in a backslash. */
  lemma SingleQuotedWords(words: seq<seq<Byte>>)
    requires forall i :: 0 <= i < |words| ==> GoodEnding(InSingle(words[i]))
    ensures CString(Join(InSingleQuotes(words), [SPACE]) + [NUL])
    ensures Args(Join(InSingleQuotes(words), [SPACE]) + [NUL]) == Some(words)
  {
    hide InSingleQuotes, GoodEnding, GoodWord, Meaning, WordText, Args, Join, CString;
    var ws := seq(|words|, i requires 0 <= i < |words| => Word([], InSingle(words[i])));
    forall i | 0 <= i < |ws|
      ensures GoodWord(ws[i]) && Meaning(ws[i]) == words[i] && WordText(ws[i]) == InSingleQuotes(words)[i]
    {
      QuotedWord(words[i]);
    }
    SpacedWords(ws);
    assert Texts(ws) == InSingleQuotes(words);
    assert seq(|ws|, i requires 0 <= i < |ws| => Meaning(ws[i])) == words;
  }

  lemma QuotedWord(chars: seq<Byte>)
    requires GoodEnding(InSingle(chars))
    ensures GoodWord(Word([], InSingle(chars))) && Meaning(Word([], InSingle(chars))) == chars
    ensures WordText(Word([], InSingle(chars))) == ['\'' as int] + SingleText(chars) + ['\'' as int]
  {
    assert [] + chars == chars;
  }

  // --- Printing ---

  /** What a character is printed as inside double quotes. */
  lemma EscapeForm(c: Byte)
    ensures c == '"' as int || c == '\\' as int ==> Escape(c) == ['\\' as int, c]
    ensures 32 <= c < 127 && c != '"' as int && c != '\\' as int ==> Escape(c) == [c]
    ensures Escape(10) == ['\\' as int, 'n' as int] && Escape(13) == ['\\' as int, 'r' as int]
    ensures Escape(9) == ['\\' as int, 't' as int] && Escape(8) == ['\\' as int, 'b' as int]
    ensures Escape(7) == ['\\' as int, 'a' as int]
    ensures !(32 <= c < 127) && c !in {7, 8, 9, 10, 13} ==>
              |Escape(c)| == 4 && Escape(c)[..2] == ['\\' as int, 'x' as int] &&
              LowerHex(Escape(c)[2]) && LowerHex(Escape(c)[3]) &&
              16 * DigitValue(Escape(c)[2]) + DigitValue(Escape(c)[3]) == c
  {
  }

  /** A string is printed character by character between two double quotes. */
  lemma {:induction false} ReprForm(a: seq<Byte>, c: Byte, b: seq<Byte>)
    ensures Repr(a) == ['"' as int] + EscapeAll(a) + ['"' as int]
    ensures EscapeAll([]) == [] && EscapeAll(a + [c] + b) == EscapeAll(a) + Escape(c) + EscapeAll(b)
    decreases |a|
  {
    hide Escape;
    if a == [] {
      assert (a + [c] + b)[1..] == b;
    } else {
      ReprForm(a[1..], c, b);
      assert (a + [c] + b)[1..] == a[1..] + [c] + b;
      Assoc(Escape(a[0]), EscapeAll(a[1..]), Escape(c) + EscapeAll(b));
      Assoc(EscapeAll(a[1..]), Escape(c), EscapeAll(b));
      Assoc(EscapeAll(a), Escape(c), EscapeAll(b));
    }
  }

  predicate LowerHex(c: Byte) {
    '0' as int <= c <= '9' as int || 'a' as int <= c <= 'f' as int
  }
}
