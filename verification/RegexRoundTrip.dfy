/** The regex parser recovers every tree it can produce from that tree's fully
    parenthesised text, and produces no other tree. */
module RegexRoundTrip {
  import opened CharacterRanges
  import opened RegexTree
  import opened RegexAmbiguity
  import opened RegexParser
  import opened Optional

  // ----- the trees the parser produces -----

  /** Canonical domains, at least two members in sequences and alternations, and no
      repetition that the parser would have simplified away. */
  predicate Printable(node: Node) {
    match node
    case Empty => true
    case Character(domain) => CanonicalDomain(domain)
    case Sequence(children) => |children| >= 2 && forall c | c in children :: Printable(c)
    case Alternation(branches) => |branches| >= 2 && forall b | b in branches :: Printable(b)
    case Repetition(child, minimum, maximum, variable) =>
      && Printable(child) && variable == (maximum != AtMost(minimum))
      && maximum != AtMost(0) && !(minimum == 1 && maximum == AtMost(1))
  }

  /** The tree the parser builds for the same text under case-insensitive matching. */
  function Fold(node: Node, mode: Mode): Node {
    match node
    case Empty => Empty
    case Character(domain) => Character(FoldDomain(domain, mode))
    case Sequence(children) => Sequence(FoldAll(children, mode))
    case Alternation(branches) => Alternation(FoldAll(branches, mode))
    case Repetition(child, minimum, maximum, variable) => Repetition(Fold(child, mode), minimum, maximum, variable)
  }

  function FoldAll(nodes: seq<Node>, mode: Mode): (folded: seq<Node>)
    ensures |folded| == |nodes|
  {
    if nodes == [] then [] else [Fold(nodes[0], mode)] + FoldAll(nodes[1..], mode)
  }

  /** The white-space shorthand is not folded. */
  function FoldDomain(domain: Domain, mode: Mode): Domain {
    if mode.ignoreCase && domain.OneOf? && domain.ranges != SPACE_RANGES then AddAsciiCaseVariants(domain.ranges)
    else domain
  }

  /** What a case-insensitive reading can put at a character: an unknown set, the white-space
      shorthand, or an ASCII set with both cases of its letters. */
  ghost predicate FoldedDomain(domain: Domain) {
    domain.OneOf? ==> domain.ranges == SPACE_RANGES || CaseClosed(domain.ranges)
  }

  ghost predicate Folded(node: Node) {
    match node
    case Empty => true
    case Character(domain) => FoldedDomain(domain)
    case Sequence(children) => forall c | c in children :: Folded(c)
    case Alternation(branches) => forall b | b in branches :: Folded(b)
    case Repetition(child, _, _, _) => Folded(child)
  }

  ghost predicate Buildable(node: Node, mode: Mode) {
    Printable(node) && (mode.ignoreCase ==> Folded(node))
  }

  lemma {:induction false} FoldIsIdentity(node: Node, mode: Mode)
    requires Buildable(node, mode)
    ensures Fold(node, mode) == node
    decreases node, 0
  {
    match node
    case Empty =>
    case Character(domain) =>
      if domain.OneOf? {
        CaseClosedExactly(domain.ranges);
      }
    case Sequence(children) => FoldAllIsIdentity(children, mode);
    case Alternation(branches) => FoldAllIsIdentity(branches, mode);
    case Repetition(child, _, _, _) => FoldIsIdentity(child, mode);
  }

  lemma {:induction false} FoldAllIsIdentity(nodes: seq<Node>, mode: Mode)
    requires forall n | n in nodes :: Buildable(n, mode)
    ensures FoldAll(nodes, mode) == nodes
    decreases nodes, 0
  {
    if nodes != [] {
      FoldIsIdentity(nodes[0], mode);
      FoldAllIsIdentity(nodes[1..], mode);
    }
  }

  // ----- printing -----

  const SYNTAX: set<CodeUnit> := {
    DOLLAR, LEFT_PAREN, RIGHT_PAREN, STAR, PLUS, DOT, QUESTION, LEFT_BRACKET, BACKSLASH, CARET, LEFT_BRACE, BAR,
    RIGHT_BRACE}

  /** Code points that stand for themselves in a pattern. */
  predicate Plain(c: nat) {
    c <= 0x10ffff && !IsHigh(c) && !IsLow(c) && c !in SYNTAX
  }

  function CodePointText(c: nat): Text
    requires Plain(c)
  {
    if c < 0x10000 then [c] else [0xd800 + (c - 0x10000) / 0x400, 0xdc00 + (c - 0x10000) % 0x400]
  }

  function DecimalDigits(n: nat): Text {
    if n < 10 then [ZERO + n] else DecimalDigits(n / 10) + [ZERO + n % 10]
  }

  function HexDigit(value: nat): CodeUnit
    requires value < 16
  {
    if value < 10 then ZERO + value else LOWER_A + (value - 10)
  }

  function HexDigits(n: nat): Text {
    if n < 16 then [HexDigit(n)] else HexDigits(n / 16) + [HexDigit(n % 16)]
  }

  /** A code point written as a braced hexadecimal escape. */
  function EscapeText(c: nat): Text {
    [BACKSLASH, LOWER_U, LEFT_BRACE] + HexDigits(c) + [RIGHT_BRACE]
  }

  function RangeText(range: Range): Text {
    EscapeText(range.start) + [DASH] + EscapeText(range.end)
  }

  function RangesText(ranges: seq<Range>): Text {
    if ranges == [] then [] else RangeText(ranges[0]) + RangesText(ranges[1..])
  }

  function CharacterText(domain: Domain): Text {
    if domain.AnyCharacter? then [DOT]
    else if domain.ranges == SPACE_RANGES then [BACKSLASH, LOWER_S]
    else if |domain.ranges| == 1 && domain.ranges[0].start == domain.ranges[0].end && Plain(domain.ranges[0].start)
    then CodePointText(domain.ranges[0].start)
    else if |domain.ranges| == 1 && domain.ranges[0].start == domain.ranges[0].end && domain.ranges[0].start in SYNTAX
    then [BACKSLASH, domain.ranges[0].start]
    else [LEFT_BRACKET] + RangesText(domain.ranges) + [RIGHT_BRACKET]
  }

  function QuantifierText(minimum: nat, maximum: Maximum): Text {
    if minimum == 0 && maximum.Unbounded? then [STAR]
    else if minimum == 1 && maximum.Unbounded? then [PLUS]
    else if minimum == 0 && maximum == AtMost(1) then [QUESTION]
    else if maximum == AtMost(minimum) then [LEFT_BRACE] + DecimalDigits(minimum) + [RIGHT_BRACE]
    else
      var high := if maximum.Unbounded? then [] else DecimalDigits(maximum.count);
      [LEFT_BRACE] + (DecimalDigits(minimum) + [COMMA] + high) + [RIGHT_BRACE]
  }

  function Render(node: Node): Text
    decreases node, 0
  {
    match node
    case Empty => []
    case Character(domain) => CharacterText(domain)
    case Sequence(children) => RenderAll(children)
    case Alternation(branches) => RenderBranches(branches)
    case Repetition(child, minimum, maximum, _) => RenderGroup(child) + QuantifierText(minimum, maximum)
  }

  function RenderGroup(node: Node): Text
    decreases node, 1
  {
    [LEFT_PAREN, QUESTION, COLON] + Render(node) + [RIGHT_PAREN]
  }

  function RenderAll(nodes: seq<Node>): Text
    decreases nodes, 0
  {
    if nodes == [] then [] else RenderGroup(nodes[0]) + RenderAll(nodes[1..])
  }

  function RenderBranches(nodes: seq<Node>): Text
    decreases nodes, 0
  {
    if nodes == [] then []
    else if |nodes| == 1 then RenderGroup(nodes[0])
    else RenderGroup(nodes[0]) + [BAR] + RenderBranches(nodes[1..])
  }

  // ----- text found at a position -----

  predicate Found(source: Text, index: nat, text: Text) {
    index + |text| <= |source| && forall k | 0 <= k < |text| :: text[k] == source[index + k]
  }

  lemma FoundSplit(source: Text, index: nat, left: Text, right: Text)
    requires Found(source, index, left + right)
    ensures Found(source, index, left) && Found(source, index + |left|, right)
  {
    var all := left + right;
    forall k | 0 <= k < |left| ensures left[k] == source[index + k] {
      assert all[k] == left[k];
    }
    forall k | 0 <= k < |right| ensures right[k] == source[index + |left| + k] {
      assert all[|left| + k] == right[k];
    }
  }

  lemma FoundUnit(source: Text, index: nat, unit: CodeUnit)
    requires Found(source, index, [unit])
    ensures Is(source, index, unit)
  {
    assert [unit][0] == source[index + 0];
  }

  /** The first occurrence of a closing unit after text that does not contain it. */
  lemma FoundClose(source: Text, index: nat, text: Text, unit: CodeUnit)
    requires Found(source, index, text) && Is(source, index + |text|, unit) && unit !in text
    ensures IndexOf(source, unit, index) == Some(index + |text|)
  {
    var found := IndexOf(source, unit, index);
    forall i | index <= i < index + |text| ensures source[i] != unit {
      assert text[i - index] == source[index + (i - index)];
    }
  }

  /** Nothing more of an atom or a repetition can follow here. */
  predicate Closed(source: Text, index: nat) {
    index == |source| || Is(source, index, RIGHT_PAREN)
  }

  predicate Stops(source: Text, index: nat) {
    Closed(source, index) || Is(source, index, BAR)
  }

  // ----- numbers read back -----

  predicate AllDigits(text: Text) {
    forall u | u in text :: IsDigit(u)
  }

  lemma {:induction false} DigitsAre(n: nat)
    ensures DecimalDigits(n) != [] && AllDigits(DecimalDigits(n))
  {
    if n >= 10 {
      DigitsAre(n / 10);
    }
  }

  lemma {:induction false} DecimalReadBack(source: Text, index: nat, n: nat)
    requires Found(source, index, DecimalDigits(n))
    ensures DigitsBetween(source, index, index + |DecimalDigits(n)|)
    ensures DecimalBetween(source, index, index + |DecimalDigits(n)|) == n
  {
    if n >= 10 {
      FoundSplit(source, index, DecimalDigits(n / 10), [ZERO + n % 10]);
      FoundUnit(source, index + |DecimalDigits(n / 10)|, ZERO + n % 10);
      DecimalReadBack(source, index, n / 10);
    } else {
      FoundUnit(source, index, ZERO + n);
    }
  }

  lemma {:induction false} HexDigitsAre(n: nat)
    ensures HexDigits(n) != [] && forall u | u in HexDigits(n) :: IsHexDigit(u)
  {
    if n >= 16 {
      HexDigitsAre(n / 16);
    }
  }

  lemma {:induction false} HexReadBack(source: Text, index: nat, n: nat)
    requires Found(source, index, HexDigits(n))
    ensures HexDigitsBetween(source, index, index + |HexDigits(n)|)
    ensures HexBetween(source, index, index + |HexDigits(n)|) == n
  {
    if n >= 16 {
      FoundSplit(source, index, HexDigits(n / 16), [HexDigit(n % 16)]);
      FoundUnit(source, index + |HexDigits(n / 16)|, HexDigit(n % 16));
      HexReadBack(source, index, n / 16);
    } else {
      FoundUnit(source, index, HexDigit(n));
    }
  }

  // ----- quantifiers read back -----

  lemma FoundBraces(source: Text, index: nat, body: Text)
    requires Found(source, index, [LEFT_BRACE] + body + [RIGHT_BRACE]) && RIGHT_BRACE !in body
    ensures Found(source, index + 1, body) && Is(source, index + 1 + |body|, RIGHT_BRACE)
    ensures QuantifierAt(source, index) == BracedQuantifier(source, index + 1, index + 1 + |body|)
  {
    FoundSplit(source, index, [LEFT_BRACE] + body, [RIGHT_BRACE]);
    FoundSplit(source, index, [LEFT_BRACE], body);
    FoundUnit(source, index, LEFT_BRACE);
    FoundUnit(source, index + 1 + |body|, RIGHT_BRACE);
    FoundClose(source, index + 1, body, RIGHT_BRACE);
  }

  lemma QuantifierReadBack(source: Text, index: nat, minimum: nat, maximum: Maximum)
    requires Found(source, index, QuantifierText(minimum, maximum))
    ensures QuantifierAt(source, index) ==
              Some(Quantifier(minimum, maximum, index + |QuantifierText(minimum, maximum)|))
  {
    if minimum == 0 && maximum.Unbounded? {
      FoundUnit(source, index, STAR);
    } else if minimum == 1 && maximum.Unbounded? {
      FoundUnit(source, index, PLUS);
    } else if minimum == 0 && maximum == AtMost(1) {
      FoundUnit(source, index, QUESTION);
    } else if maximum == AtMost(minimum) {
      ExactReadBack(source, index, minimum);
    } else if maximum.Unbounded? {
      IntervalReadBack(source, index, minimum, maximum, []);
    } else {
      IntervalReadBack(source, index, minimum, maximum, DecimalDigits(maximum.count));
    }
  }

  lemma ExactReadBack(source: Text, index: nat, count: nat)
    requires Found(source, index, [LEFT_BRACE] + DecimalDigits(count) + [RIGHT_BRACE])
    ensures QuantifierAt(source, index) == Some(Quantifier(count, AtMost(count), index + |DecimalDigits(count)| + 2))
  {
    var digits := DecimalDigits(count);
    DigitsAre(count);
    FoundBraces(source, index, digits);
    DecimalReadBack(source, index + 1, count);
  }

  lemma IntervalReadBack(source: Text, index: nat, minimum: nat, maximum: Maximum, high: Text)
    requires high == if maximum.Unbounded? then [] else DecimalDigits(maximum.count)
    requires Found(source, index, [LEFT_BRACE] + (DecimalDigits(minimum) + [COMMA] + high) + [RIGHT_BRACE])
    ensures QuantifierAt(source, index) ==
              Some(Quantifier(minimum, maximum, index + |DecimalDigits(minimum)| + |high| + 3))
  {
    hide DecimalDigits, DecimalBetween;
    var low := DecimalDigits(minimum);
    DigitsAre(minimum);
    if maximum.AtMost? {
      DigitsAre(maximum.count);
    }
    FoundBraces(source, index, low + [COMMA] + high);
    FoundThree(source, index + 1, low, COMMA, high);
    FoundClose(source, index + 1, low, COMMA);
    DecimalReadBack(source, index + 1, minimum);
    if maximum.AtMost? {
      DecimalReadBack(source, index + 2 + |low|, maximum.count);
    }
  }

  // ----- characters read back -----

  lemma EscapeFound(source: Text, index: nat, c: nat)
    requires Found(source, index, EscapeText(c))
    ensures Is(source, index, BACKSLASH) && Is(source, index + 1, LOWER_U) && Is(source, index + 2, LEFT_BRACE)
    ensures IndexOf(source, RIGHT_BRACE, index + 3) == Some(index + 3 + |HexDigits(c)|)
    ensures ParseHex(source, index + 3, index + 3 + |HexDigits(c)|) == Some(c)
  {
    var open, digits := [BACKSLASH, LOWER_U, LEFT_BRACE], HexDigits(c);
    HexDigitsAre(c);
    FoundSplit(source, index, open + digits, [RIGHT_BRACE]);
    FoundSplit(source, index, open, digits);
    FoundUnit(source, index + 3 + |digits|, RIGHT_BRACE);
    assert open[0] == source[index + 0] && open[1] == source[index + 1] && open[2] == source[index + 2];
    FoundClose(source, index + 3, digits, RIGHT_BRACE);
    HexReadBack(source, index + 3, c);
  }

  /** A braced escape is not the first half of a pair. */
  lemma BracedIsNotPaired(source: Text, index: nat)
    requires Is(source, index + 2, LEFT_BRACE)
    ensures !PairAt(source, index)
  {
    assert source[index + 2] == LEFT_BRACE;
  }

  lemma EscapeReadBack(source: Text, index: nat, c: nat, mode: Mode)
    requires Found(source, index, EscapeText(c)) && !mode.ignoreCase
    ensures Is(source, index, BACKSLASH)
    ensures EscapeAt(source, index, true, mode) == Escape(index + |EscapeText(c)|, false, OneOf([Range(c, c)]), Some(c))
  {
    hide PairAt, HexDigits;
    EscapeFound(source, index, c);
    BracedIsNotPaired(source, index);
  }

  lemma TokenReadBack(source: Text, index: nat, c: nat, pairs: bool)
    requires Found(source, index, EscapeText(c))
    ensures ClassTokenAt(source, index, pairs) == ClassToken(index + |EscapeText(c)|, OneOf([Range(c, c)]), Some(c))
  {
    EscapeReadBack(source, index, c, Mode(false, pairs));
  }

  /** One turn of the class loop that reads a range. */
  lemma ClassStep(source: Text, index: nat, end: nat, left: ClassToken, right: ClassToken, pairs: bool)
    requires index < left.end && left.end + 1 < end <= |source| && Is(source, left.end, DASH)
    requires ClassTokenAt(source, index, pairs) == left && ClassTokenAt(source, left.end + 1, pairs) == right
    requires left.domain.OneOf? && left.singleton.Some? && right.singleton.Some?
    requires left.singleton.value <= right.singleton.value
    ensures ClassRanges(source, index, end, pairs) ==
              Prepend([Range(left.singleton.value, right.singleton.value)], ClassRanges(source, right.end, end, pairs))
  {
    hide ClassTokenAt;
  }

  lemma RangeFound(source: Text, index: nat, range: Range)
    requires Found(source, index, RangeText(range))
    ensures Found(source, index, EscapeText(range.start))
    ensures Is(source, index + |EscapeText(range.start)|, DASH)
    ensures Found(source, index + |EscapeText(range.start)| + 1, EscapeText(range.end))
  {
    FoundThree(source, index, EscapeText(range.start), DASH, EscapeText(range.end));
  }

  lemma FoundThree(source: Text, index: nat, left: Text, unit: CodeUnit, right: Text)
    requires Found(source, index, left + [unit] + right)
    ensures Found(source, index, left) && Is(source, index + |left|, unit) && Found(source, index + |left| + 1, right)
  {
    FoundSplit(source, index, left + [unit], right);
    FoundSplit(source, index, left, [unit]);
    FoundUnit(source, index + |left|, unit);
  }

  lemma RangeReadBack(source: Text, index: nat, range: Range, end: nat, pairs: bool)
    requires range.start <= range.end && Found(source, index, RangeText(range))
    requires index + |RangeText(range)| <= end <= |source|
    ensures ClassRanges(source, index, end, pairs) ==
              Prepend([range], ClassRanges(source, index + |RangeText(range)|, end, pairs))
  {
    hide ClassTokenAt, EscapeText;
    RangeFound(source, index, range);
    TokenReadBack(source, index, range.start, pairs);
    var middle := index + |EscapeText(range.start)|;
    TokenReadBack(source, middle + 1, range.end, pairs);
    ClassStep(source, index, end, ClassTokenAt(source, index, pairs), ClassTokenAt(source, middle + 1, pairs), pairs);
  }

  lemma {:induction false} RangesReadBack(source: Text, index: nat, ranges: seq<Range>, pairs: bool)
    requires Proper(ranges) && Found(source, index, RangesText(ranges))
    ensures ClassRanges(source, index, index + |RangesText(ranges)|, pairs) == Some(ranges)
    decreases |ranges|
  {
    hide ClassTokenAt, RangeText;
    if ranges != [] {
      FoundSplit(source, index, RangeText(ranges[0]), RangesText(ranges[1..]));
      RangeReadBack(source, index, ranges[0], index + |RangesText(ranges)|, pairs);
      RangesReadBack(source, index + |RangeText(ranges[0])|, ranges[1..], pairs);
      assert ranges == [ranges[0]] + ranges[1..];
    }
  }

  predicate SafeInClass(text: Text) {
    forall u | u in text :: u != RIGHT_BRACKET && u != CARET
  }

  lemma {:induction false} RangesTextShape(ranges: seq<Range>)
    ensures SafeInClass(RangesText(ranges))
    ensures forall i | 0 <= i < |RangesText(ranges)| :: RangesText(ranges)[i] == BACKSLASH ==>
              i + 1 < |RangesText(ranges)| && RangesText(ranges)[i + 1] == LOWER_U
  {
    if ranges != [] {
      EscapeTextShape(ranges[0].start);
      EscapeTextShape(ranges[0].end);
      RangesTextShape(ranges[1..]);
    }
  }

  lemma EscapeTextShape(c: nat)
    ensures SafeInClass(EscapeText(c))
    ensures forall i | 1 <= i < |EscapeText(c)| :: EscapeText(c)[i] != BACKSLASH
    ensures EscapeText(c)[1] == LOWER_U
  {
    HexDigitsAre(c);
    var digits := HexDigits(c);
    assert forall u | u in digits :: u != RIGHT_BRACKET && u != CARET && u != BACKSLASH;
    forall i | 1 <= i < |EscapeText(c)| ensures EscapeText(c)[i] != BACKSLASH {
      if 3 <= i < 3 + |digits| {
        assert EscapeText(c)[i] == digits[i - 3] && digits[i - 3] in digits;
      }
    }
  }

  /** A class whose text has no bracket, and no escape but `\u`, ends at its bracket. */
  lemma {:induction false} ClassEndFound(source: Text, index: nat, close: nat, escaped: bool)
    requires index <= close < |source| && source[close] == RIGHT_BRACKET
    requires forall i | index <= i < close :: source[i] != RIGHT_BRACKET
    requires forall i | index <= i < close :: source[i] == BACKSLASH ==> i + 1 < close && source[i + 1] == LOWER_U
    requires escaped ==> index < close && source[index] == LOWER_U
    ensures ClassEnd(source, index, escaped) == Some(close)
    decreases close - index
  {
    if index < close {
      ClassEndFound(source, index + 1, close, !escaped && source[index] == BACKSLASH);
    }
  }

  /** A printed class ends at its own closing bracket and is not negated. */
  lemma ClassShape(source: Text, index: nat, ranges: seq<Range>)
    requires Found(source, index, [LEFT_BRACKET] + RangesText(ranges) + [RIGHT_BRACKET])
    ensures var close := index + 1 + |RangesText(ranges)|;
            && close < |source| && source[index] == LEFT_BRACKET && source[index + 1] != CARET
            && ClassEnd(source, index + 1, false) == Some(close)
            && Found(source, index + 1, RangesText(ranges)) && source[close] == RIGHT_BRACKET
  {
    hide RangesText, ClassEnd;
    var text := RangesText(ranges);
    var start, close := index + 1, index + 1 + |text|;
    FoundSplit(source, index, [LEFT_BRACKET] + text, [RIGHT_BRACKET]);
    FoundSplit(source, index, [LEFT_BRACKET], text);
    FoundUnit(source, index, LEFT_BRACKET);
    FoundUnit(source, close, RIGHT_BRACKET);
    RangesTextShape(ranges);
    forall i | start <= i < close
      ensures source[i] != RIGHT_BRACKET && source[i] != CARET
      ensures source[i] == BACKSLASH ==> i + 1 < close && source[i + 1] == LOWER_U
    {
      assert text[i - start] == source[start + (i - start)];
      assert i + 1 < close ==> text[i + 1 - start] == source[start + (i + 1 - start)];
      assert text[i - start] in text;
    }
    ClassEndFound(source, start, close, false);
  }

  lemma ClassReadBack(source: Text, index: nat, ranges: seq<Range>, mode: Mode)
    requires Canonical(ranges) && Found(source, index, [LEFT_BRACKET] + RangesText(ranges) + [RIGHT_BRACKET])
    requires ranges != SPACE_RANGES
    ensures AtomAt(source, index, mode) ==
              Step(Character(FoldDomain(OneOf(ranges), mode)), index + |RangesText(ranges)| + 2, false)
  {
    hide ClassRanges, RangesText, ClassEnd, Found, Merge, AddAsciiCaseVariants, GroupAt, EscapeAt, CodePointAt,
        LiteralDomain;
    ClassShape(source, index, ranges);
    RangesReadBack(source, index + 1, ranges, mode.pairs);
    MergeOfCanonical(ranges);
  }

  lemma PlainReadBack(source: Text, index: nat, c: nat, mode: Mode)
    requires Plain(c) && Found(source, index, CodePointText(c))
    ensures AtomAt(source, index, mode) ==
              Step(Character(LiteralDomain(c, mode.ignoreCase)), index + |CodePointText(c)|, false)
  {
    var text := CodePointText(c);
    assert text[0] == source[index + 0];
    if c >= 0x10000 {
      assert text[1] == source[index + 1];
    }
  }

  lemma SyntaxReadBack(source: Text, index: nat, c: nat, mode: Mode)
    requires c in SYNTAX && Found(source, index, [BACKSLASH, c])
    ensures AtomAt(source, index, mode) == Step(Character(LiteralDomain(c, mode.ignoreCase)), index + 2, false)
  {
    assert [BACKSLASH, c][0] == source[index + 0] && [BACKSLASH, c][1] == source[index + 1];
  }

  lemma SpaceReadBack(source: Text, index: nat, mode: Mode)
    requires Found(source, index, [BACKSLASH, LOWER_S])
    ensures AtomAt(source, index, mode) == Step(Character(OneOf(SPACE_RANGES)), index + 2, false)
  {
    assert [BACKSLASH, LOWER_S][0] == source[index + 0] && [BACKSLASH, LOWER_S][1] == source[index + 1];
  }

  lemma CharacterReadBack(source: Text, index: nat, domain: Domain, mode: Mode)
    requires CanonicalDomain(domain) && Found(source, index, CharacterText(domain))
    ensures AtomAt(source, index, mode) ==
              Step(Character(FoldDomain(domain, mode)), index + |CharacterText(domain)|, false)
  {
    if domain.AnyCharacter? {
      FoundUnit(source, index, DOT);
    } else if domain.ranges == SPACE_RANGES {
      SpaceReadBack(source, index, mode);
    } else if |domain.ranges| == 1 && domain.ranges[0].start == domain.ranges[0].end && Plain(domain.ranges[0].start) {
      var c := domain.ranges[0].start;
      assert domain.ranges == [Range(c, c)];
      PlainReadBack(source, index, c, mode);
    } else if |domain.ranges| == 1 && domain.ranges[0].start == domain.ranges[0].end
        && domain.ranges[0].start in SYNTAX {
      var c := domain.ranges[0].start;
      assert domain.ranges == [Range(c, c)];
      SyntaxReadBack(source, index, c, mode);
    } else {
      ClassReadBack(source, index, domain.ranges, mode);
    }
  }

  // ----- trees read back -----

  lemma {:induction false} TreeReadBack(source: Text, index: nat, node: Node, mode: Mode)
    requires Printable(node) && Found(source, index, Render(node)) && Closed(source, index + |Render(node)|)
    ensures AlternationAt(source, index, mode) == Step(Fold(node, mode), index + |Render(node)|, false)
    decreases node, 0
  {
    match node
    case Empty => SingleBranch(source, index, mode, []);
    case Character(domain) => OneCharacterReadBack(source, index, domain, mode);
    case Sequence(children) =>
      MembersReadBack(source, index, children, mode);
      SingleBranch(source, index, mode, FoldAll(children, mode));
    case Alternation(branches) =>
      BranchesReadBack(source, index, branches, mode);
    case Repetition(child, minimum, maximum, _) =>
      FoundSplit(source, index, RenderGroup(child), QuantifierText(minimum, maximum));
      GroupReadBack(source, index, child, mode);
      OneRepetitionReadBack(source, index, node, mode);
  }

  lemma OneCharacterReadBack(source: Text, index: nat, domain: Domain, mode: Mode)
    requires CanonicalDomain(domain) && Found(source, index, CharacterText(domain))
    requires Closed(source, index + |CharacterText(domain)|)
    ensures AlternationAt(source, index, mode) ==
              Step(Character(FoldDomain(domain, mode)), index + |CharacterText(domain)|, false)
  {
    CharacterReadBack(source, index, domain, mode);
    NoQuantifier(source, index + |CharacterText(domain)|);
    CharacterTextStart(domain);
    assert CharacterText(domain)[0] == source[index + 0];
    NotABreak(source, index, mode);
    SingleBranch(source, index, mode, [Character(FoldDomain(domain, mode))]);
  }

  lemma CharacterTextStart(domain: Domain)
    ensures CharacterText(domain) != [] && CharacterText(domain)[0] != BAR
  {
  }

  lemma OneRepetitionReadBack(source: Text, index: nat, node: Node, mode: Mode)
    requires Printable(node) && node.Repetition?
    requires Found(source, index, Render(node)) && Closed(source, index + |Render(node)|)
    requires Found(source, index + |RenderGroup(node.child)|, QuantifierText(node.minimum, node.maximum))
    requires AtomAt(source, index, mode) == Step(Fold(node.child, mode), index + |RenderGroup(node.child)|, false)
    requires Is(source, index, LEFT_PAREN)
    ensures AlternationAt(source, index, mode) == Step(Fold(node, mode), index + |Render(node)|, false)
  {
    hide QuantifierText, AtomAt;
    QuantifierReadBack(source, index + |RenderGroup(node.child)|, node.minimum, node.maximum);
    NotABreak(source, index, mode);
    SingleBranch(source, index, mode, [Fold(node, mode)]);
  }

  /** One branch made of the given items, up to a closing position. */
  lemma SingleBranch(source: Text, index: nat, mode: Mode, items: seq<Node>)
    requires index <= |source|
    requires ItemsAt(source, index, mode).nodes == items && !ItemsAt(source, index, mode).failed
    requires Closed(source, ItemsAt(source, index, mode).index)
    ensures AlternationAt(source, index, mode) == Step(SequenceOf(items), ItemsAt(source, index, mode).index, false)
  {
    var sequence := SequenceAt(source, index, mode);
    assert MoreBranchesAt(source, sequence.index, false, mode) == Steps([], sequence.index, false);
    assert BranchesAt(source, index, mode).nodes == [sequence.node] + [];
  }

  lemma NotABreak(source: Text, index: nat, mode: Mode)
    requires index < |source| && !QuantifiedAtomAt(source, index, mode).failed
    requires Stops(source, QuantifiedAtomAt(source, index, mode).index)
    ensures source[index] != RIGHT_PAREN
    ensures source[index] != BAR ==>
              ItemsAt(source, index, mode) ==
              Steps([QuantifiedAtomAt(source, index, mode).node], QuantifiedAtomAt(source, index, mode).index, false)
  {
    var atom := QuantifiedAtomAt(source, index, mode);
    assert ItemsAt(source, atom.index, mode) == Steps([], atom.index, false);
    assert [atom.node] + [] == [atom.node];
  }

  lemma NoQuantifier(source: Text, index: nat)
    requires Stops(source, index) || Is(source, index, LEFT_PAREN)
    ensures QuantifierAt(source, index).None?
  {
  }

  lemma {:induction false} GroupReadBack(source: Text, index: nat, node: Node, mode: Mode)
    requires Printable(node) && Found(source, index, RenderGroup(node))
    ensures AtomAt(source, index, mode) == Step(Fold(node, mode), index + |RenderGroup(node)|, false)
    ensures Is(source, index, LEFT_PAREN)
    decreases node, 1
  {
    hide AlternationAt, Printable, Fold, Render, EscapeAt, ClassEnd, CodePointAt, LiteralDomain;
    var open, body := [LEFT_PAREN, QUESTION, COLON], Render(node);
    FoundSplit(source, index, open + body, [RIGHT_PAREN]);
    FoundSplit(source, index, open, body);
    FoundUnit(source, index + 3 + |body|, RIGHT_PAREN);
    assert open[0] == source[index + 0] && open[1] == source[index + 1] && open[2] == source[index + 2];
    TreeReadBack(source, index + 3, node, mode);
  }

  lemma GroupFollows(source: Text, index: nat, nodes: seq<Node>)
    requires Found(source, index, RenderAll(nodes)) && Stops(source, index + |RenderAll(nodes)|)
    ensures Stops(source, index) || Is(source, index, LEFT_PAREN)
  {
    if nodes != [] {
      FoundSplit(source, index, RenderGroup(nodes[0]), RenderAll(nodes[1..]));
      assert RenderGroup(nodes[0])[0] == source[index + 0];
    }
  }

  lemma {:induction false} MembersReadBack(source: Text, index: nat, nodes: seq<Node>, mode: Mode)
    requires (forall n | n in nodes :: Printable(n)) && Found(source, index, RenderAll(nodes))
    requires Stops(source, index + |RenderAll(nodes)|)
    ensures ItemsAt(source, index, mode) == Steps(FoldAll(nodes, mode), index + |RenderAll(nodes)|, false)
    decreases nodes, 0
  {
    if nodes != [] {
      var next := index + |RenderGroup(nodes[0])|;
      FoundSplit(source, index, RenderGroup(nodes[0]), RenderAll(nodes[1..]));
      GroupReadBack(source, index, nodes[0], mode);
      MembersReadBack(source, next, nodes[1..], mode);
      GroupFollows(source, next, nodes[1..]);
      NoQuantifier(source, next);
    }
  }

  lemma {:induction false} BranchesReadBack(source: Text, index: nat, nodes: seq<Node>, mode: Mode)
    requires nodes != [] && (forall n | n in nodes :: Printable(n)) && Found(source, index, RenderBranches(nodes))
    requires Closed(source, index + |RenderBranches(nodes)|)
    ensures BranchesAt(source, index, mode) == Steps(FoldAll(nodes, mode), index + |RenderBranches(nodes)|, false)
    decreases nodes, 0
  {
    hide SequenceAt, RenderGroup, Fold, AtomAt, Found, Printable;
    var group := RenderGroup(nodes[0]);
    var next := index + |group|;
    if |nodes| > 1 {
      var rest := RenderBranches(nodes[1..]);
      FoundSplit(source, index, group + [BAR], rest);
      FoundSplit(source, index, group, [BAR]);
      FoundUnit(source, next, BAR);
      BranchesReadBack(source, next + 1, nodes[1..], mode);
    }
    GroupReadBack(source, index, nodes[0], mode);
    OneGroupBranch(source, index, Fold(nodes[0], mode), next, mode);
    assert |nodes| == 1 ==> nodes[1..] == [] && [Fold(nodes[0], mode)] + [] == FoldAll(nodes, mode);
  }

  lemma OneGroupBranch(source: Text, index: nat, node: Node, next: nat, mode: Mode)
    requires Is(source, index, LEFT_PAREN) && AtomAt(source, index, mode) == Step(node, next, false)
    requires Stops(source, next)
    ensures SequenceAt(source, index, mode) == Step(node, next, false)
  {
    NoQuantifier(source, next);
    NotABreak(source, index, mode);
  }

  /** Main result: every printable tree is read back from its text, case-folded when the
      pattern is case-insensitive. */
  lemma ParseRecoversEveryTree(node: Node, mode: Mode)
    requires Printable(node)
    ensures ParsePattern(Render(node), mode) == Some(Fold(node, mode))
  {
    var source := Render(node);
    TreeReadBack(source, 0, node, mode);
  }

  // ----- the parser's image -----

  /** A domain a reading can produce. */
  ghost predicate BuildableDomain(domain: Domain, mode: Mode) {
    CanonicalDomain(domain) && (mode.ignoreCase ==> FoldedDomain(domain))
  }

  lemma ExpansionBuildable(ranges: seq<Range>, mode: Mode)
    requires Proper(ranges)
    ensures BuildableDomain(AddAsciiCaseVariants(ranges), mode)
  {
    if AddAsciiCaseVariants(ranges).OneOf? {
      ExpansionIsCaseClosed(ranges);
    }
  }

  lemma SingletonBuildable(c: nat, mode: Mode)
    ensures BuildableDomain(LiteralDomain(c, mode.ignoreCase), mode)
  {
    ExpansionBuildable([Range(c, c)], mode);
  }

  lemma InWords(c: nat)
    ensures InRanges(WORD_RANGES, c) <==> 0x30 <= c <= 0x39 || 0x41 <= c <= 0x5a || c == 0x5f || 0x61 <= c <= 0x7a
    ensures InRanges(DIGIT_RANGES, c) <==> 0x30 <= c <= 0x39
  {
    var w := WORD_RANGES;
    assert w[0] == Range(0x30, 0x39) && w[1] == Range(0x41, 0x5a) && w[2] == Range(0x5f, 0x5f);
    assert w[3] == Range(0x61, 0x7a) && DIGIT_RANGES[0] == Range(0x30, 0x39);
  }

  lemma ShorthandBuildable(escaped: CodeUnit, mode: Mode)
    ensures Shorthand(escaped).Some? ==> BuildableDomain(OneOf(Shorthand(escaped).value), mode)
  {
    forall c: nat ensures InRanges(WORD_RANGES, c) ==> InRanges(WORD_RANGES, SwapCase(c)) {
      InWords(c);
      InWords(SwapCase(c));
    }
    forall c: nat ensures InRanges(DIGIT_RANGES, c) ==> InRanges(DIGIT_RANGES, SwapCase(c)) {
      InWords(c);
      InWords(SwapCase(c));
    }
  }

  lemma PlainEscapeBuildable(source: Text, index: nat, inClass: bool, mode: Mode)
    requires index < |source|
    ensures BuildableDomain(PlainEscapeAt(source, index, inClass, mode.ignoreCase).domain, mode)
  {
    hide DecodeEscape, EscapeEnd, LiteralDomain, Shorthand;
    if index + 1 < |source| {
      ShorthandBuildable(source[index + 1], mode);
    }
    var singleton := DecodeEscape(source, index, inClass);
    if singleton.Some? {
      SingletonBuildable(singleton.value, mode);
    }
  }

  lemma EscapeBuildable(source: Text, index: nat, inClass: bool, mode: Mode)
    requires index < |source|
    ensures BuildableDomain(EscapeAt(source, index, inClass, mode).domain, mode)
  {
    hide PlainEscapeAt, LiteralDomain, BuildableDomain;
    if mode.pairs && PairAt(source, index) {
      SingletonBuildable(EscapeAt(source, index, inClass, mode).singleton.value, mode);
    } else {
      PlainEscapeBuildable(source, index, inClass, mode);
    }
  }

  lemma TokenCanonical(source: Text, index: nat, pairs: bool)
    requires index < |source|
    ensures CanonicalDomain(ClassTokenAt(source, index, pairs).domain)
  {
    if source[index] == BACKSLASH {
      EscapeBuildable(source, index, true, Mode(false, pairs));
    }
  }

  lemma ClassTurnProper(source: Text, index: nat, end: nat, pairs: bool)
    requires index < end <= |source|
    ensures ClassTurnAt(source, index, end, pairs).Some? ==> Proper(ClassTurnAt(source, index, end, pairs).value.ranges)
  {
    hide ClassTokenAt;
    TokenCanonical(source, index, pairs);
  }

  lemma {:induction false} ClassRangesProper(source: Text, index: nat, end: nat, pairs: bool)
    requires end <= |source|
    ensures ClassRanges(source, index, end, pairs).Some? ==> Proper(ClassRanges(source, index, end, pairs).value)
    decreases end - index
  {
    hide ClassTurnAt;
    if index < end {
      ClassTurnProper(source, index, end, pairs);
      var turn := ClassTurnAt(source, index, end, pairs);
      if turn.Some? {
        ClassRangesProper(source, turn.value.next, end, pairs);
      }
    }
  }

  lemma ClassBuildable(source: Text, start: nat, end: nat, mode: Mode)
    requires start <= end < |source|
    ensures BuildableDomain(ClassDomain(source, start, end, mode), mode)
  {
    hide ClassRanges, Merge, AddAsciiCaseVariants;
    ClassRangesProper(source, start, end, mode.pairs);
    var ranges := ClassRanges(source, start, end, mode.pairs);
    if ranges.Some? {
      MergeIsExact(ranges.value);
      ExpansionBuildable(Merge(ranges.value), mode);
    }
  }

  lemma {:induction false} AlternationBuildable(source: Text, index: nat, mode: Mode)
    requires index <= |source|
    ensures !AlternationAt(source, index, mode).failed ==> Buildable(AlternationAt(source, index, mode).node, mode)
    decreases |source| - index, 6
  {
    BranchesBuildable(source, index, mode);
  }

  lemma {:induction false} BranchesBuildable(source: Text, index: nat, mode: Mode)
    requires index <= |source|
    ensures !BranchesAt(source, index, mode).failed ==>
              forall n | n in BranchesAt(source, index, mode).nodes :: Buildable(n, mode)
    decreases |source| - index, 5
  {
    ItemsBuildable(source, index, mode);
    var branch := SequenceAt(source, index, mode);
    if !branch.failed && Is(source, branch.index, BAR) {
      BranchesBuildable(source, branch.index + 1, mode);
    }
  }

  lemma {:induction false} ItemsBuildable(source: Text, index: nat, mode: Mode)
    requires index <= |source|
    ensures !ItemsAt(source, index, mode).failed ==>
              forall n | n in ItemsAt(source, index, mode).nodes :: Buildable(n, mode)
    decreases |source| - index, 3
  {
    if !Stops(source, index) {
      AtomBuildable(source, index, mode);
      var atom := QuantifiedAtomAt(source, index, mode);
      if !atom.failed {
        ItemsBuildable(source, atom.index, mode);
      }
    }
  }

  lemma {:induction false} AtomBuildable(source: Text, index: nat, mode: Mode)
    requires index < |source|
    ensures !AtomAt(source, index, mode).failed ==> Buildable(AtomAt(source, index, mode).node, mode)
    decreases |source| - index, 1
  {
    hide PlainEscapeAt, LiteralDomain, ClassDomain;
    var unit := source[index];
    if unit == LEFT_PAREN {
      AlternationBuildable(source, GroupBody(source, index), mode);
    } else if unit == LEFT_BRACKET {
      var close := ClassEnd(source, index + 1, false);
      if close.Some? {
        ClassBuildable(source, index + 1, close.value, mode);
      }
    } else if unit == BACKSLASH {
      EscapeBuildable(source, index, false, mode);
    } else {
      SingletonBuildable(CodePointAt(source, index), mode);
    }
  }

  /** Main result: the trees a reading produces are exactly the printable ones, under
      case-insensitive matching those all of whose sets are unknown, the white-space
      shorthand, or ASCII with both cases of every letter. */
  lemma ParserImageIsExact(node: Node, mode: Mode)
    ensures Printable(node) && (mode.ignoreCase ==> Folded(node)) <==>
              exists source: Text :: ParsePattern(source, mode) == Some(node)
  {
    if Buildable(node, mode) {
      ParseRecoversEveryTree(node, mode);
      FoldIsIdentity(node, mode);
      assert ParsePattern(Render(node), mode) == Some(node);
    }
    if exists source: Text :: ParsePattern(source, mode) == Some(node) {
      var source: Text :| ParsePattern(source, mode) == Some(node);
      AlternationBuildable(source, 0, mode);
    }
  }

  // ----- what the analyser's verdict on a source means -----

  /** `detectUnsafeQuantifiedGroup`: no tree, no objection. */
  function DetectUnsafe(source: Text, ignoreCase: bool): Verdict {
    var tree := ParsePattern(source, Built(ignoreCase));
    if tree.None? then Safe else Check(tree.value)
  }

  lemma {:induction false} PrintableIsProper(node: Node)
    requires Printable(node)
    ensures ProperTree(node)
  {
    match node
    case Empty =>
    case Character(_) =>
    case Sequence(children) => forall c | c in children ensures ProperTree(c) { PrintableIsProper(c); }
    case Alternation(branches) => forall b | b in branches ensures ProperTree(b) { PrintableIsProper(b); }
    case Repetition(child, _, _, _) => PrintableIsProper(child);
  }

  lemma ParsedTreesAreProper(source: Text, mode: Mode)
    requires ParsePattern(source, mode).Some?
    ensures ProperTree(ParsePattern(source, mode).value)
  {
    AlternationBuildable(source, 0, mode);
    PrintableIsProper(ParsePattern(source, mode).value);
  }
}
