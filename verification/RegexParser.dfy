/** The recursive-descent parser of the regex safety analyser, over UTF-16 code units.
    The functions say what each parsing routine reads at an index; `Parser` is the
    routine set itself, with the index and the failure flag as mutable state. */
module RegexParser {
  import opened Optional
  import opened CharacterRanges
  import opened RegexTree
  import opened RegexAmbiguity

  type CodeUnit = u: nat | u < 0x10000

  /** A JavaScript string. */
  type Text = seq<CodeUnit>

  const DOLLAR: CodeUnit := 0x24
  const LEFT_PAREN: CodeUnit := 0x28
  const RIGHT_PAREN: CodeUnit := 0x29
  const STAR: CodeUnit := 0x2a
  const PLUS: CodeUnit := 0x2b
  const COMMA: CodeUnit := 0x2c
  const DASH: CodeUnit := 0x2d
  const DOT: CodeUnit := 0x2e
  const ZERO: CodeUnit := 0x30
  const NINE: CodeUnit := 0x39
  const COLON: CodeUnit := 0x3a
  const QUESTION: CodeUnit := 0x3f
  const UPPER_A: CodeUnit := 0x41
  const UPPER_B: CodeUnit := 0x42
  const UPPER_F: CodeUnit := 0x46
  const LEFT_BRACKET: CodeUnit := 0x5b
  const BACKSLASH: CodeUnit := 0x5c
  const RIGHT_BRACKET: CodeUnit := 0x5d
  const CARET: CodeUnit := 0x5e
  const LOWER_A: CodeUnit := 0x61
  const LOWER_B: CodeUnit := 0x62
  const LOWER_C: CodeUnit := 0x63
  const LOWER_F: CodeUnit := 0x66
  const LOWER_S: CodeUnit := 0x73
  const LOWER_U: CodeUnit := 0x75
  const LOWER_X: CodeUnit := 0x78
  const LEFT_BRACE: CodeUnit := 0x7b
  const BAR: CodeUnit := 0x7c
  const RIGHT_BRACE: CodeUnit := 0x7d

  /** The letters of `dDsSwWpPkK123456789`: escapes whose characters are not decoded. */
  const UNDECODED: set<CodeUnit> :=
    {0x64, 0x44, 0x73, 0x53, 0x77, 0x57, 0x70, 0x50, 0x6b, 0x4b, 0x31, 0x32, 0x33, 0x34, 0x35, 0x36, 0x37, 0x38, 0x39}

  /** How a source is read: with or without regard to case, and whether an escaped lead
      surrogate directly before an escaped trail surrogate is one code point, as it is under
      the u flag. */
  datatype Mode = Mode(ignoreCase: bool, pairs: bool)

  /** The reading of the analyser, which takes the two escapes for two characters. */
  function Built(ignoreCase: bool): Mode { Mode(ignoreCase, false) }

  /** The reading of the compiled expression, which always has the u flag. */
  function Meant(ignoreCase: bool): Mode { Mode(ignoreCase, true) }

  // ----- text -----

  predicate Is(source: Text, index: nat, unit: CodeUnit) {
    index < |source| && source[index] == unit
  }

  predicate IsHigh(unit: nat) { 0xd800 <= unit <= 0xdbff }

  predicate IsLow(unit: nat) { 0xdc00 <= unit <= 0xdfff }

  /** `codePointAt`: a surrogate pair is read as one code point. */
  function CodePointAt(source: Text, index: nat): nat
    requires index < |source|
  {
    if IsHigh(source[index]) && index + 1 < |source| && IsLow(source[index + 1])
    then Combined(source[index], source[index + 1])
    else source[index]
  }

  function CodePointEnd(source: Text, index: nat): (end: nat)
    requires index < |source|
    ensures index < end <= |source|
  {
    if CodePointAt(source, index) > 0xffff then index + 2 else index + 1
  }

  /** `indexOf` from a position. */
  function IndexOf(source: Text, unit: CodeUnit, from: nat): (found: Option<nat>)
    ensures found.Some? ==> from <= found.value < |source| && source[found.value] == unit
    ensures forall i | from <= i < |source| && (found.Some? ==> i < found.value) :: source[i] != unit
    decreases |source| - from
  {
    if from >= |source| then None
    else if source[from] == unit then Some(from)
    else IndexOf(source, unit, from + 1)
  }

  // ----- numbers -----

  predicate IsDigit(unit: CodeUnit) { ZERO <= unit <= NINE }

  predicate DigitsBetween(source: Text, from: nat, close: nat)
    requires close <= |source|
  {
    forall i | from <= i < close :: IsDigit(source[i])
  }

  /** `Number` of the decimal digits between two positions. */
  function DecimalBetween(source: Text, from: nat, close: nat): nat
    requires from <= close <= |source| && DigitsBetween(source, from, close)
    decreases close - from
  {
    if from == close then 0
    else DecimalBetween(source, from, close - 1) * 10 + (source[close - 1] as nat - ZERO as nat)
  }

  predicate IsHexDigit(unit: CodeUnit) {
    IsDigit(unit) || UPPER_A <= unit <= UPPER_F || LOWER_A <= unit <= LOWER_F
  }

  predicate HexDigitsBetween(source: Text, from: nat, close: nat)
    requires close <= |source|
  {
    forall i | from <= i < close :: IsHexDigit(source[i])
  }

  function HexDigitValue(unit: CodeUnit): (value: nat)
    requires IsHexDigit(unit)
    ensures value < 16
  {
    if IsDigit(unit) then unit - ZERO else if unit >= LOWER_A then unit - LOWER_A + 10 else unit - UPPER_A + 10
  }

  function HexBetween(source: Text, from: nat, close: nat): nat
    requires from <= close <= |source| && HexDigitsBetween(source, from, close)
    decreases close - from
  {
    if from == close then 0 else HexBetween(source, from, close - 1) * 16 + HexDigitValue(source[close - 1])
  }

  /** `parseRegexHexEscape` of a slice; like `slice`, it stops at the end of the source. */
  function ParseHex(source: Text, from: nat, close: nat): Option<nat>
    requires from <= close
  {
    var start, end := Min(from, |source|), Min(close, |source|);
    if start < end && HexDigitsBetween(source, start, end) then Some(HexBetween(source, start, end)) else None
  }

  // ----- quantifiers -----

  datatype Quantifier = Quantifier(minimum: nat, maximum: Maximum, end: nat)

  function QuantifierAt(source: Text, index: nat): (quantifier: Option<Quantifier>)
    ensures quantifier.Some? ==> index < quantifier.value.end <= |source|
  {
    if Is(source, index, STAR) then Some(Quantifier(0, Unbounded, index + 1))
    else if Is(source, index, PLUS) then Some(Quantifier(1, Unbounded, index + 1))
    else if Is(source, index, QUESTION) then Some(Quantifier(0, AtMost(1), index + 1))
    else if !Is(source, index, LEFT_BRACE) then None
    else
      var close := IndexOf(source, RIGHT_BRACE, index + 1);
      if close.None? then None else BracedQuantifier(source, index + 1, close.value)
  }

  /** The text between braces: digits, or digits, a comma and possibly more digits. */
  function BracedQuantifier(source: Text, from: nat, close: nat): (quantifier: Option<Quantifier>)
    requires from <= close < |source|
    ensures quantifier.Some? ==> quantifier.value.end == close + 1
  {
    var comma := IndexOf(source, COMMA, from);
    if comma.None? || close <= comma.value then
      if from < close && DigitsBetween(source, from, close) then
        var count := DecimalBetween(source, from, close);
        Some(Quantifier(count, AtMost(count), close + 1))
      else None
    else
      var middle := comma.value;
      if from < middle && DigitsBetween(source, from, middle) && DigitsBetween(source, middle + 1, close) then
        var maximum := if middle + 1 == close then Unbounded else AtMost(DecimalBetween(source, middle + 1, close));
        Some(Quantifier(DecimalBetween(source, from, middle), maximum, close + 1))
      else None
  }

  // ----- escapes -----

  datatype Escape = Escape(end: nat, assertion: bool, domain: Domain, singleton: Option<nat>)

  function AtEnd(source: Text, end: nat): nat { Min(|source|, end) }

  function BraceEnd(source: Text, from: nat): nat {
    var close := IndexOf(source, RIGHT_BRACE, from);
    if close.None? then |source| else close.value + 1
  }

  function EscapeEnd(source: Text, index: nat): (end: nat)
    requires index < |source|
    ensures index < end <= |source|
  {
    if index + 1 >= |source| then |source|
    else
      var escaped := source[index + 1];
      if (escaped == 0x70 || escaped == 0x50) && Is(source, index + 2, LEFT_BRACE) then BraceEnd(source, index + 3)
      else if escaped == LOWER_U && Is(source, index + 2, LEFT_BRACE) then BraceEnd(source, index + 3)
      else if escaped == LOWER_U then AtEnd(source, index + 6)
      else if escaped == LOWER_X then AtEnd(source, index + 4)
      else if escaped == LOWER_C then AtEnd(source, index + 3)
      else AtEnd(source, index + 2)
  }

  const DIGIT_RANGES := [Range(0x30, 0x39)]

  const WORD_RANGES := [Range(0x30, 0x39), Range(0x41, 0x5a), Range(0x5f, 0x5f), Range(0x61, 0x7a)]

  const SPACE_RANGES := [
    Range(0x09, 0x0d), Range(0x20, 0x20), Range(0xa0, 0xa0), Range(0x1680, 0x1680), Range(0x2000, 0x200a),
    Range(0x2028, 0x2029), Range(0x202f, 0x202f), Range(0x205f, 0x205f), Range(0x3000, 0x3000), Range(0xfeff, 0xfeff)]

  function Shorthand(escaped: CodeUnit): Option<seq<Range>> {
    if escaped == 0x64 then Some(DIGIT_RANGES)
    else if escaped == 0x77 then Some(WORD_RANGES)
    else if escaped == LOWER_S then Some(SPACE_RANGES)
    else None
  }

  /** The single code point an escape stands for, when it is decoded. */
  function DecodeEscape(source: Text, index: nat, inClass: bool): Option<nat>
    requires index < |source|
  {
    if index + 1 >= |source| then None
    else
      var escaped := source[index + 1];
      if escaped == ZERO then Some(0x00)
      else if escaped == LOWER_B then Some(if inClass then 0x08 else 0x62)
      else if escaped == LOWER_F then Some(0x0c)
      else if escaped == 0x6e then Some(0x0a)
      else if escaped == 0x72 then Some(0x0d)
      else if escaped == 0x74 then Some(0x09)
      else if escaped == 0x76 then Some(0x0b)
      else if escaped == LOWER_X then ParseHex(source, index + 2, index + 4)
      else if escaped == LOWER_U && Is(source, index + 2, LEFT_BRACE) then
        var close := IndexOf(source, RIGHT_BRACE, index + 3);
        if close.None? then None else ParseHex(source, index + 3, close.value)
      else if escaped == LOWER_U then ParseHex(source, index + 2, index + 6)
      else if escaped == LOWER_C then
        if index + 2 < |source| then Some(CodePointAt(source, index + 2) % 32) else None
      else if escaped in UNDECODED then None
      else Some(escaped)
  }

  /** A `\u` escape of four hexadecimal digits. */
  function UnitEscapeAt(source: Text, index: nat): Option<nat> {
    if Is(source, index, BACKSLASH) && Is(source, index + 1, LOWER_U) && index + 6 <= |source|
       && HexDigitsBetween(source, index + 2, index + 6)
    then Some(HexBetween(source, index + 2, index + 6))
    else None
  }

  /** Two of them that are a lead and a trail surrogate. */
  predicate PairAt(source: Text, index: nat) {
    var lead, trail := UnitEscapeAt(source, index), UnitEscapeAt(source, index + 6);
    lead.Some? && IsHigh(lead.value) && trail.Some? && IsLow(trail.value)
  }

  function Combined(lead: nat, trail: nat): nat
    requires IsHigh(lead) && IsLow(trail)
  {
    0x10000 + (lead - 0xd800) * 0x400 + (trail - 0xdc00)
  }

  function LiteralDomain(codePoint: nat, caseInsensitive: bool): Domain {
    if caseInsensitive then AddAsciiCaseVariants([Range(codePoint, codePoint)])
    else OneOf([Range(codePoint, codePoint)])
  }

  function EscapeAt(source: Text, index: nat, inClass: bool, mode: Mode): (escape: Escape)
    requires index < |source|
    ensures index < escape.end <= |source|
  {
    if mode.pairs && PairAt(source, index) then
      var codePoint := Combined(UnitEscapeAt(source, index).value, UnitEscapeAt(source, index + 6).value);
      Escape(index + 12, false, LiteralDomain(codePoint, mode.ignoreCase), Some(codePoint))
    else PlainEscapeAt(source, index, inClass, mode.ignoreCase)
  }

  function PlainEscapeAt(source: Text, index: nat, inClass: bool, caseInsensitive: bool): (escape: Escape)
    requires index < |source|
    ensures index < escape.end <= |source|
  {
    var end := EscapeEnd(source, index);
    if !inClass && (Is(source, index + 1, LOWER_B) || Is(source, index + 1, UPPER_B))
    then Escape(end, true, OneOf([]), None)
    else if index + 1 < |source| && Shorthand(source[index + 1]).Some? then
      Escape(end, false, OneOf(Shorthand(source[index + 1]).value), None)
    else
      var singleton := DecodeEscape(source, index, inClass);
      var domain := if singleton.None? then AnyCharacter else LiteralDomain(singleton.value, caseInsensitive);
      Escape(end, false, domain, singleton)
  }

  // ----- character classes -----

  /** The index of the bracket closing a class, escapes skipped. */
  function ClassEnd(source: Text, index: nat, escaped: bool): (end: Option<nat>)
    ensures end.Some? ==> index <= end.value < |source|
    decreases |source| - index
  {
    if index >= |source| then None
    else if escaped then ClassEnd(source, index + 1, false)
    else if source[index] == BACKSLASH then ClassEnd(source, index + 1, true)
    else if source[index] == RIGHT_BRACKET then Some(index)
    else ClassEnd(source, index + 1, false)
  }

  datatype ClassToken = ClassToken(end: nat, domain: Domain, singleton: Option<nat>)

  function ClassTokenAt(source: Text, index: nat, pairs: bool): (token: ClassToken)
    requires index < |source|
    ensures index < token.end
  {
    if source[index] == BACKSLASH then
      var escape := EscapeAt(source, index, true, Mode(false, pairs));
      ClassToken(escape.end, escape.domain, escape.singleton)
    else
      var codePoint := CodePointAt(source, index);
      ClassToken(CodePointEnd(source, index), OneOf([Range(codePoint, codePoint)]), Some(codePoint))
  }

  /** What one turn of the class loop reads: some ranges, and where it goes on. */
  datatype ClassTurn = ClassTurn(ranges: seq<Range>, next: nat)

  /** A token, or two with a dash between them; `None` when the characters are not known. */
  function ClassTurnAt(source: Text, index: nat, end: nat, pairs: bool): (turn: Option<ClassTurn>)
    requires index < end <= |source|
    ensures turn.Some? ==> index < turn.value.next
  {
    var left := ClassTokenAt(source, index, pairs);
    if left.domain.AnyCharacter? then None
    else if Is(source, left.end, DASH) && left.end + 1 < end then
      var right := ClassTokenAt(source, left.end + 1, pairs);
      if left.singleton.None? || right.singleton.None? || left.singleton.value > right.singleton.value then None
      else Some(ClassTurn([Range(left.singleton.value, right.singleton.value)], right.end))
    else Some(ClassTurn(left.domain.ranges, left.end))
  }

  /** The ranges listed between two positions, or `None` when they cannot be bounded. */
  function ClassRanges(source: Text, index: nat, end: nat, pairs: bool): Option<seq<Range>>
    requires end <= |source|
    decreases end - index
  {
    if index >= end then Some([])
    else
      match ClassTurnAt(source, index, end, pairs)
      case None => None
      case Some(turn) => Prepend(turn.ranges, ClassRanges(source, turn.next, end, pairs))
  }

  function Prepend(head: seq<Range>, tail: Option<seq<Range>>): Option<seq<Range>> {
    if tail.None? then None else Some(head + tail.value)
  }

  function ClassDomain(source: Text, start: nat, end: nat, mode: Mode): Domain
    requires start <= end < |source|
  {
    if source[start] == CARET then AnyCharacter
    else
      var ranges := ClassRanges(source, start, end, mode.pairs);
      if ranges.None? then AnyCharacter
      else if mode.ignoreCase then AddAsciiCaseVariants(Merge(ranges.value))
      else OneOf(Merge(ranges.value))
  }

  // ----- the grammar -----

  /** What a routine leaves: its node, the new index and the failure flag. */
  datatype Step = Step(node: Node, index: nat, failed: bool)

  /** The same for the loops that collect nodes. */
  datatype Steps = Steps(nodes: seq<Node>, index: nat, failed: bool)

  function Extend(nodes: seq<Node>, rest: Steps): Steps {
    Steps(nodes + rest.nodes, rest.index, rest.failed)
  }

  lemma ExtendTwice(nodes: seq<Node>, node: Node, rest: Steps)
    ensures Extend(nodes, Extend([node], rest)) == Extend(nodes + [node], rest)
  {
    assert nodes + ([node] + rest.nodes) == (nodes + [node]) + rest.nodes;
  }

  ghost predicate InBounds(source: Text, from: nat, to: nat) {
    from <= to <= |source|
  }

  function AlternationAt(source: Text, index: nat, mode: Mode): (step: Step)
    requires index <= |source|
    ensures InBounds(source, index, step.index)
    decreases |source| - index, 6
  {
    var branches := BranchesAt(source, index, mode);
    Step(if |branches.nodes| == 1 then branches.nodes[0] else Alternation(branches.nodes),
         branches.index, branches.failed)
  }

  function BranchesAt(source: Text, index: nat, mode: Mode): (steps: Steps)
    requires index <= |source|
    ensures InBounds(source, index, steps.index) && steps.nodes != []
    decreases |source| - index, 5
  {
    var branch := SequenceAt(source, index, mode);
    var rest := MoreBranchesAt(source, branch.index, branch.failed, mode);
    Extend([branch.node], rest)
  }

  function MoreBranchesAt(source: Text, index: nat, failed: bool, mode: Mode): (steps: Steps)
    requires index <= |source|
    ensures InBounds(source, index, steps.index)
    decreases |source| - index, 4
  {
    if failed || !Is(source, index, BAR) then Steps([], index, failed) else BranchesAt(source, index + 1, mode)
  }

  function SequenceAt(source: Text, index: nat, mode: Mode): (step: Step)
    requires index <= |source|
    ensures InBounds(source, index, step.index)
    decreases |source| - index, 4
  {
    var items := ItemsAt(source, index, mode);
    Step(SequenceOf(items.nodes), items.index, items.failed)
  }

  function SequenceOf(children: seq<Node>): Node {
    if |children| == 0 then Empty else if |children| == 1 then children[0] else Sequence(children)
  }

  function ItemsAt(source: Text, index: nat, mode: Mode): (steps: Steps)
    requires index <= |source|
    ensures InBounds(source, index, steps.index)
    decreases |source| - index, 3
  {
    if index == |source| || source[index] == BAR || source[index] == RIGHT_PAREN then Steps([], index, false)
    else
      var atom := QuantifiedAtomAt(source, index, mode);
      if atom.failed then Steps([atom.node], atom.index, true)
      else
        var rest := ItemsAt(source, atom.index, mode);
        Extend([atom.node], rest)
  }

  function QuantifiedAtomAt(source: Text, index: nat, mode: Mode): (step: Step)
    requires index < |source|
    ensures InBounds(source, index, step.index) && (!step.failed ==> index < step.index)
    decreases |source| - index, 2
  {
    var atom := AtomAt(source, index, mode);
    if atom.failed then atom
    else
      var quantifier := QuantifierAt(source, atom.index);
      if quantifier.None? then atom
      else
        var end := quantifier.value.end;
        Step(Quantified(atom.node, quantifier.value), if Is(source, end, QUESTION) then end + 1 else end, false)
  }

  function Quantified(atom: Node, quantifier: Quantifier): Node {
    if quantifier.minimum == 1 && quantifier.maximum == AtMost(1) then atom
    else if quantifier.maximum == AtMost(0) then Empty
    else Repetition(atom, quantifier.minimum, quantifier.maximum, quantifier.maximum != AtMost(quantifier.minimum))
  }

  function AtomAt(source: Text, index: nat, mode: Mode): (step: Step)
    requires index < |source|
    ensures InBounds(source, index, step.index) && (!step.failed ==> index < step.index)
    decreases |source| - index, 1
  {
    var unit := source[index];
    if unit == LEFT_PAREN then GroupAt(source, index, mode)
    else if unit == LEFT_BRACKET then
      var close := ClassEnd(source, index + 1, false);
      if close.None? then Step(Empty, index, true)
      else Step(Character(ClassDomain(source, index + 1, close.value, mode)), close.value + 1, false)
    else if unit == BACKSLASH then
      var escape := EscapeAt(source, index, false, mode);
      Step(if escape.assertion then Empty else Character(escape.domain), escape.end, false)
    else if unit == DOT then Step(Character(AnyCharacter), index + 1, false)
    else if unit == CARET || unit == DOLLAR then Step(Empty, index + 1, false)
    else if CannotStartAtom(unit) then Step(Empty, index, true)
    else Step(Character(LiteralDomain(CodePointAt(source, index), mode.ignoreCase)), CodePointEnd(source, index), false)
  }

  predicate CannotStartAtom(unit: CodeUnit) {
    unit in {STAR, PLUS, QUESTION, LEFT_BRACE, RIGHT_BRACE, RIGHT_PAREN}
  }

  function GroupBody(source: Text, index: nat): nat {
    if Is(source, index + 1, QUESTION) && Is(source, index + 2, COLON) then index + 3 else index + 1
  }

  function GroupAt(source: Text, index: nat, mode: Mode): (step: Step)
    requires index < |source| && source[index] == LEFT_PAREN
    ensures InBounds(source, index, step.index) && (!step.failed ==> index < step.index)
    decreases |source| - index, 0
  {
    var child := AlternationAt(source, GroupBody(source, index), mode);
    if Is(source, child.index, RIGHT_PAREN) then Step(child.node, child.index + 1, child.failed)
    else Step(child.node, child.index, true)
  }

  /** `parseRegexSafetyPattern`: a tree, only when the whole source was consumed. */
  function ParsePattern(source: Text, mode: Mode): Option<Node> {
    var step := AlternationAt(source, 0, mode);
    if step.failed || step.index != |source| then None else Some(step.node)
  }

  // ----- the parser as the source runs it -----

  class Parser {
    const source: Text
    const caseInsensitive: bool
    var index: nat
    var failed: bool

    constructor (source: Text, caseInsensitive: bool)
      ensures this.source == source && this.caseInsensitive == caseInsensitive
      ensures index == 0 && !failed
    {
      this.source := source;
      this.caseInsensitive := caseInsensitive;
      index := 0;
      failed := false;
    }

    method ParseAlternation() returns (node: Node)
      requires !failed && index <= |source|
      modifies this
      ensures Step(node, index, failed) == AlternationAt(source, old(index), Built(caseInsensitive))
      decreases |source| - index, 6
    {
      var first := ParseSequence();
      var branches := [first];
      while !failed && Is(source, index, BAR)
        invariant InBounds(source, old(index), index) && branches != []
        invariant var rest := MoreBranchesAt(source, index, failed, Built(caseInsensitive));
                  Extend(branches, rest) == BranchesAt(source, old(index), Built(caseInsensitive))
        decreases |source| - index
      {
        index := index + 1;
        ghost var before := branches;
        var branch := ParseSequence();
        branches := branches + [branch];
        ExtendTwice(before, branch, MoreBranchesAt(source, index, failed, Built(caseInsensitive)));
      }
      assert branches + [] == branches;
      if |branches| == 1 {
        return branches[0];
      }
      return Alternation(branches);
    }

    method ParseSequence() returns (node: Node)
      requires !failed && index <= |source|
      modifies this
      ensures Step(node, index, failed) == SequenceAt(source, old(index), Built(caseInsensitive))
      decreases |source| - index, 4
    {
      var children: seq<Node> := [];
      while !failed && index < |source|
        invariant InBounds(source, old(index), index)
        invariant failed ==> Steps(children, index, true) == ItemsAt(source, old(index), Built(caseInsensitive))
        invariant !failed ==>
                    Extend(children, ItemsAt(source, index, Built(caseInsensitive))) ==
                    ItemsAt(source, old(index), Built(caseInsensitive))
        decreases |source| - index, !failed
      {
        var unit := source[index];
        if unit == BAR || unit == RIGHT_PAREN {
          break;
        }
        ghost var before := children;
        var child := ParseQuantifiedAtom();
        children := children + [child];
        if !failed {
          ExtendTwice(before, child, ItemsAt(source, index, Built(caseInsensitive)));
        }
      }
      assert children + [] == children;
      if |children| == 0 {
        return Empty;
      }
      if |children| == 1 {
        return children[0];
      }
      return Sequence(children);
    }

    method ParseQuantifiedAtom() returns (node: Node)
      requires !failed && index < |source|
      modifies this
      ensures Step(node, index, failed) == QuantifiedAtomAt(source, old(index), Built(caseInsensitive))
      decreases |source| - index, 2
    {
      var atom := ParseAtom();
      if failed {
        return atom;
      }
      var quantifier := QuantifierAt(source, index);
      if quantifier.None? {
        return atom;
      }
      index := quantifier.value.end;
      if Is(source, index, QUESTION) {
        index := index + 1;
      }
      return Quantified(atom, quantifier.value);
    }

    method ParseAtom() returns (node: Node)
      requires !failed && index < |source|
      modifies this
      ensures Step(node, index, failed) == AtomAt(source, old(index), Built(caseInsensitive))
      decreases |source| - index, 1
    {
      var unit := source[index];
      if unit == LEFT_PAREN {
        node := ParseGroup();
      } else if unit == LEFT_BRACKET {
        var close := ClassEnd(source, index + 1, false);
        if close.None? {
          failed := true;
          return Empty;
        }
        var domain := ReadClass(source, index + 1, close.value, caseInsensitive);
        index := close.value + 1;
        return Character(domain);
      } else if unit == BACKSLASH {
        var escape := EscapeAt(source, index, false, Built(caseInsensitive));
        index := escape.end;
        return if escape.assertion then Empty else Character(escape.domain);
      } else if unit == DOT {
        index := index + 1;
        return Character(AnyCharacter);
      } else if unit == CARET || unit == DOLLAR {
        index := index + 1;
        return Empty;
      } else if CannotStartAtom(unit) {
        failed := true;
        return Empty;
      } else {
        var codePoint := CodePointAt(source, index);
        index := CodePointEnd(source, index);
        return Character(LiteralDomain(codePoint, caseInsensitive));
      }
    }

    method ParseGroup() returns (node: Node)
      requires !failed && index < |source| && source[index] == LEFT_PAREN
      modifies this
      ensures Step(node, index, failed) == GroupAt(source, old(index), Built(caseInsensitive))
      decreases |source| - index, 0
    {
      index := GroupBody(source, index);
      node := ParseAlternation();
      if !Is(source, index, RIGHT_PAREN) {
        failed := true;
        return;
      }
      index := index + 1;
    }
  }

  /** The loop of `readRegexCharacterClassDomain`. */
  method ReadClass(source: Text, start: nat, end: nat, ci: bool) returns (domain: Domain)
    requires start <= end < |source|
    ensures domain == ClassDomain(source, start, end, Built(ci))
  {
    if source[start] == CARET {
      return AnyCharacter;
    }
    hide ClassTurnAt;
    var ranges: seq<Range> := [];
    var index := start;
    PrependNothing(ClassRanges(source, start, end, false));
    while index < end
      invariant start <= index
      invariant Prepend(ranges, ClassRanges(source, index, end, false)) == ClassRanges(source, start, end, false)
      decreases end - index
    {
      var turn := ClassTurnAt(source, index, end, false);
      if turn.None? {
        return AnyCharacter;
      }
      PrependTwice(ranges, turn.value.ranges, ClassRanges(source, turn.value.next, end, false));
      ranges := ranges + turn.value.ranges;
      index := turn.value.next;
    }
    var merged := MergeRanges(ranges);
    assert ranges + [] == ranges;
    if ci {
      domain := ComputeAsciiCaseVariants(merged);
    } else {
      domain := OneOf(merged);
    }
  }

  lemma PrependNothing(tail: Option<seq<Range>>)
    ensures Prepend([], tail) == tail
  {
    if tail.Some? {
      assert [] + tail.value == tail.value;
    }
  }

  lemma PrependTwice(first: seq<Range>, second: seq<Range>, tail: Option<seq<Range>>)
    ensures Prepend(first, Prepend(second, tail)) == Prepend(first + second, tail)
  {
    if tail.Some? {
      assert first + (second + tail.value) == (first + second) + tail.value;
    }
  }

  /** The parsing entry: a fresh state, and a tree only at the end of the source. */
  method Parse(source: Text, caseInsensitive: bool) returns (tree: Option<Node>)
    ensures tree == ParsePattern(source, Built(caseInsensitive))
  {
    var parser := new Parser(source, caseInsensitive);
    var node := parser.ParseAlternation();
    if parser.failed || parser.index != |source| {
      return None;
    }
    return Some(node);
  }
}
