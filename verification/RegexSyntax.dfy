/** What each piece of pattern syntax stands for, in particular the pieces that the printed text
    of a tree never uses: shorthand, letter, hexadecimal and control escapes, capturing groups,
    lazy marks and simplified quantifiers. */
module RegexSyntax {
  import opened Optional
  import opened CharacterRanges
  import opened RegexTree
  import opened RegexParser
  import opened RegexRoundTrip

  /** The text stands at the index. */
  predicate Reads(source: Text, index: nat, text: string) {
    index + |text| <= |source| && forall k | 0 <= k < |text| :: source[index + k] == text[k] as int
  }

  /** The set is known and holds exactly the characters given. */
  ghost predicate Exactly(domain: Domain, characters: nat -> bool) {
    domain.OneOf? && forall c: nat :: InDomain(domain, c) <==> characters(c)
  }

  /** The atom at the index has the given length and matches one character of a set. */
  ghost predicate AtomIs(source: Text, index: nat, mode: Mode, length: nat, characters: nat -> bool)
    requires index < |source|
  {
    var atom := AtomAt(source, index, mode);
    !atom.failed && atom.index == index + length && atom.node.Character? && Exactly(atom.node.domain, characters)
  }

  /** The token of a class at the index has the given length and stands for a set; it can end a
      range only if it is a single character. */
  ghost predicate TokenIs(source: Text, index: nat, pairs: bool, length: nat, characters: nat -> bool)
    requires index < |source|
  {
    var token := ClassTokenAt(source, index, pairs);
    token.end == index + length && Exactly(token.domain, characters)
  }

  ghost predicate TokenIsOne(source: Text, index: nat, pairs: bool, length: nat, c: nat)
    requires index < |source|
  {
    TokenIs(source, index, pairs, length, (d: nat) => d == c) && ClassTokenAt(source, index, pairs).singleton == Some(c)
  }

  /** One character, in both cases if it is a letter and case is ignored; beyond ASCII what case
      folding adds is not known. */
  ghost predicate AtomIsOne(source: Text, index: nat, mode: Mode, length: nat, c: nat)
    requires index < |source|
  {
    if mode.ignoreCase && c > 127 then
        AtomAt(source, index, mode) == Step(Character(AnyCharacter), index + length, false)
    else AtomIs(source, index, mode, length, (d: nat) => d == c || (mode.ignoreCase && OtherCase(c, d)))
  }

  predicate OtherCase(c: nat, d: nat) {
    || ('A' as int <= c <= 'Z' as int && d == c + 32)
    || ('a' as int <= c <= 'z' as int && d + 32 == c)
  }

  lemma LiteralIs(c: nat, ignoreCase: bool)
    ensures if ignoreCase && c > 127 then LiteralDomain(c, ignoreCase) == AnyCharacter
            else Exactly(LiteralDomain(c, ignoreCase), (d: nat) => d == c || (ignoreCase && OtherCase(c, d)))
  {
    var one := [Range(c, c)];
    assert forall d: nat :: InRanges(one, d) <==> d == c by {
      assert one[0] == Range(c, c);
    }
    CaseExpansionIsExact(one);
  }

  // ----- shorthand escapes -----

  predicate Digit(c: nat) { '0' as int <= c <= '9' as int }

  predicate WordCharacter(c: nat) {
    Digit(c) || 'A' as int <= c <= 'Z' as int || 'a' as int <= c <= 'z' as int || c == '_' as int
  }

  /** White space and line terminators, section 22.2.2.9 of ECMAScript. */
  predicate Space(c: nat) {
    || 0x9 <= c <= 0xd || c == ' ' as int || c == 0xa0 || c == 0x1680 || 0x2000 <= c <= 0x200a
    || c == 0x2028 || c == 0x2029 || c == 0x202f || c == 0x205f || c == 0x3000 || c == 0xfeff
  }

  /** Main result: in and outside classes, whatever the mode, `\d`, `\w` and `\s` stand for the
      digits, the word characters and the white space, and cannot end a range. */
  lemma ShorthandEscapes(source: Text, index: nat, mode: Mode)
    requires index < |source|
    ensures Reads(source, index, "\\d") ==>
              AtomIs(source, index, mode, 2, Digit) && TokenIs(source, index, mode.pairs, 2, Digit)
    ensures Reads(source, index, "\\w") ==>
              AtomIs(source, index, mode, 2, WordCharacter) && TokenIs(source, index, mode.pairs, 2, WordCharacter)
    ensures Reads(source, index, "\\s") ==>
              AtomIs(source, index, mode, 2, Space) && TokenIs(source, index, mode.pairs, 2, Space)
    ensures Reads(source, index, "\\d") || Reads(source, index, "\\w") || Reads(source, index, "\\s") ==>
              ClassTokenAt(source, index, mode.pairs).singleton == None
  {
    EscapedUnit(source, index);
    if Reads(source, index, "\\d") || Reads(source, index, "\\w") || Reads(source, index, "\\s") {
      var ranges := Shorthand(source[index + 1]).value;
      assert AtomAt(source, index, mode) == Step(Character(OneOf(ranges)), index + 2, false);
      assert ClassTokenAt(source, index, mode.pairs) == ClassToken(index + 2, OneOf(ranges), None);
      forall c: nat ensures Reads(source, index, "\\d") ==> (InRanges(ranges, c) <==> Digit(c))
        ensures Reads(source, index, "\\w") ==> (InRanges(ranges, c) <==> WordCharacter(c))
        ensures Reads(source, index, "\\s") ==> (InRanges(ranges, c) <==> Space(c))
      {
        InWords(c);
        InSpaceRanges(c);
      }
    }
  }

  lemma EscapedUnit(source: Text, index: nat)
    ensures forall c: char | Reads(source, index, ['\\', c]) ::
              index + 2 <= |source| && source[index] == BACKSLASH && source[index + 1] == c as int
  {
    forall c: char | Reads(source, index, ['\\', c])
      ensures index + 2 <= |source| && source[index] == BACKSLASH && source[index + 1] == c as int
    {
      assert ['\\', c][0] == '\\' && ['\\', c][1] == c;
      assert source[index + 0] == ['\\', c][0] as int && source[index + 1] == ['\\', c][1] as int;
    }
  }

  lemma InSpaceRanges(c: nat)
    ensures InRanges(SPACE_RANGES, c) <==> Space(c)
  {
    var s := SPACE_RANGES;
    assert s[0] == Range(0x9, 0xd) && s[1] == Range(0x20, 0x20) && s[2] == Range(0xa0, 0xa0);
    assert s[3] == Range(0x1680, 0x1680) && s[4] == Range(0x2000, 0x200a) && s[5] == Range(0x2028, 0x2029);
    assert s[6] == Range(0x202f, 0x202f) && s[7] == Range(0x205f, 0x205f) && s[8] == Range(0x3000, 0x3000);
    assert s[9] == Range(0xfeff, 0xfeff);
  }

  // ----- other escapes -----

  lemma OneEscape(source: Text, index: nat, mode: Mode, length: nat, c: nat)
    requires Is(source, index, BACKSLASH) && !(mode.pairs && PairAt(source, index))
    requires PlainEscapeAt(source, index, true, false) ==
             Escape(index + length, false, LiteralDomain(c, false), Some(c))
    ensures TokenIsOne(source, index, mode.pairs, length, c)
    ensures PlainEscapeAt(source, index, false, mode.ignoreCase) ==
            Escape(index + length, false, LiteralDomain(c, mode.ignoreCase), Some(c)) ==>
              AtomIsOne(source, index, mode, length, c)
  {
    LiteralIs(c, false);
    LiteralIs(c, mode.ignoreCase);
  }

  lemma NoPair(source: Text, index: nat)
    requires index + 1 < |source| && source[index + 1] != LOWER_U
    ensures !PairAt(source, index)
  {
  }

  /** The letter escapes for single control characters. */
  const CONTROL_LETTERS: string := "nrtvf0"
  const CONTROL_CODES: seq<nat> := [10, 13, 9, 11, 12, 0]

  lemma ControlEscapes(source: Text, index: nat, mode: Mode, i: nat)
    requires i < |CONTROL_LETTERS| && Reads(source, index, ['\\', CONTROL_LETTERS[i]])
    ensures AtomIsOne(source, index, mode, 2, CONTROL_CODES[i])
    ensures TokenIsOne(source, index, mode.pairs, 2, CONTROL_CODES[i])
  {
    EscapedUnit(source, index);
    NoPair(source, index);
    OneEscape(source, index, mode, 2, CONTROL_CODES[i]);
  }

  /** `\b` is an assertion outside classes and a backspace inside, `\B` an assertion outside and
      its own letter inside. */
  lemma BoundaryEscapes(source: Text, index: nat, mode: Mode)
    requires index < |source|
    ensures Reads(source, index, "\\b") ==>
              AtomAt(source, index, mode) == Step(Empty, index + 2, false)
                  && TokenIsOne(source, index, mode.pairs, 2, 8)
    ensures Reads(source, index, "\\B") ==>
              AtomAt(source, index, mode) == Step(Empty, index + 2, false) &&
              TokenIsOne(source, index, mode.pairs, 2, 'B' as int)
  {
    EscapedUnit(source, index);
    if Reads(source, index, "\\b") {
      NoPair(source, index);
      OneEscape(source, index, mode, 2, 8);
    }
    if Reads(source, index, "\\B") {
      NoPair(source, index);
      OneEscape(source, index, mode, 2, 'B' as int);
    }
  }

  const LOWER_HEX: string := "0123456789abcdef"
  const UPPER_HEX: string := "0123456789ABCDEF"

  /** The unit is the hexadecimal digit of the value, in either case. */
  predicate HexOf(source: Text, index: nat, value: nat) {
    && index < |source| && value < 16
    && (source[index] == LOWER_HEX[value] as int || source[index] == UPPER_HEX[value] as int)
  }

  lemma HexOfIs(source: Text, index: nat, value: nat)
    requires HexOf(source, index, value)
    ensures IsHexDigit(source[index]) && HexDigitValue(source[index]) == value
  {
  }

  /** `\x` and two hexadecimal digits. */
  lemma ByteEscapes(source: Text, index: nat, mode: Mode, high: nat, low: nat)
    requires Reads(source, index, "\\x") && HexOf(source, index + 2, high) && HexOf(source, index + 3, low)
    ensures AtomIsOne(source, index, mode, 4, high * 16 + low)
    ensures TokenIsOne(source, index, mode.pairs, 4, high * 16 + low)
  {
    EscapedUnit(source, index);
    HexOfIs(source, index + 2, high);
    HexOfIs(source, index + 3, low);
    assert HexBetween(source, index + 2, index + 3) == high;
    assert HexBetween(source, index + 2, index + 4) == high * 16 + low;
    NoPair(source, index);
    OneEscape(source, index, mode, 4, high * 16 + low);
  }

  /** `\u` and four hexadecimal digits, unless it is read as half of a pair. */
  lemma UnitEscapes(source: Text, index: nat, mode: Mode, a: nat, b: nat, c: nat, d: nat)
    requires Reads(source, index, "\\u") && HexOf(source, index + 2, a) && HexOf(source, index + 3, b)
    requires HexOf(source, index + 4, c) && HexOf(source, index + 5, d)
    ensures UnitEscapeAt(source, index) == Some(a * 4096 + b * 256 + c * 16 + d)
    ensures !(mode.pairs && PairAt(source, index)) ==>
              && AtomIsOne(source, index, mode, 6, a * 4096 + b * 256 + c * 16 + d)
              && TokenIsOne(source, index, mode.pairs, 6, a * 4096 + b * 256 + c * 16 + d)
  {
    EscapedUnit(source, index);
    FourDigits(source, index + 2, a, b, c, d);
    var value := a * 4096 + b * 256 + c * 16 + d;
    if !(mode.pairs && PairAt(source, index)) {
      hide HexBetween, PairAt, HexOf, HexDigitsBetween;
      OneEscape(source, index, mode, 6, value);
    }
  }

  lemma FourDigits(source: Text, index: nat, a: nat, b: nat, c: nat, d: nat)
    requires HexOf(source, index, a) && HexOf(source, index + 1, b)
    requires HexOf(source, index + 2, c) && HexOf(source, index + 3, d)
    ensures HexDigitsBetween(source, index, index + 4)
    ensures HexBetween(source, index, index + 4) == a * 4096 + b * 256 + c * 16 + d
  {
    HexOfIs(source, index, a);
    HexOfIs(source, index + 1, b);
    HexOfIs(source, index + 2, c);
    HexOfIs(source, index + 3, d);
    hide HexOf, IsHexDigit, HexDigitValue;
    assert HexBetween(source, index, index + 1) == a;
    assert HexBetween(source, index, index + 2) == a * 16 + b;
    assert HexBetween(source, index, index + 3) == a * 256 + b * 16 + c;
  }

  /** `\u{` takes everything up to the next closing brace, and is known if that is hexadecimal
      digits. */
  lemma BracedEscapes(source: Text, index: nat, mode: Mode)
    requires Reads(source, index, "\\u{")
    ensures match IndexOf(source, RIGHT_BRACE, index + 3)
            case None =>
              && AtomAt(source, index, mode) == Step(Character(AnyCharacter), |source|, false)
              && ClassTokenAt(source, index, mode.pairs) == ClassToken(|source|, AnyCharacter, None)
            case Some(close) =>
              if index + 3 < close && (forall i | index + 3 <= i < close :: IsHexDigit(source[i])) then
                && AtomIsOne(source, index, mode, close + 1 - index, HexBetween(source, index + 3, close))
                && TokenIsOne(source, index, mode.pairs, close + 1 - index, HexBetween(source, index + 3, close))
              else
                && AtomAt(source, index, mode) == Step(Character(AnyCharacter), close + 1, false)
                && ClassTokenAt(source, index, mode.pairs) == ClassToken(close + 1, AnyCharacter, None)
  {
    var text := "\\u{";
    assert text[0] == '\\' && text[1] == 'u' && text[2] == '{';
    assert source[index + 0] == '\\' as int && source[index + 1] == 'u' as int && source[index + 2] == '{' as int;
    assert !IsHexDigit(source[index + 2]) && UnitEscapeAt(source, index) == None;
    var close := IndexOf(source, RIGHT_BRACE, index + 3);
    if close.Some? && index + 3 < close.value && HexDigitsBetween(source, index + 3, close.value) {
      OneEscape(source, index, mode, close.value + 1 - index, HexBetween(source, index + 3, close.value));
    }
  }

  /** Read as the u flag asks, an escaped lead and trail surrogate are the code point they
      encode, section 11.1.3 of ECMAScript. */
  lemma PairEscapes(source: Text, index: nat, ignoreCase: bool, lead: nat, trail: nat)
    requires UnitEscapeAt(source, index) == Some(lead) && UnitEscapeAt(source, index + 6) == Some(trail)
    requires 0xd800 <= lead <= 0xdbff && 0xdc00 <= trail <= 0xdfff
    ensures AtomIsOne(source, index, Meant(ignoreCase), 12, (lead - 0xd800) * 0x400 + (trail - 0xdc00) + 0x10000)
    ensures TokenIsOne(source, index, true, 12, (lead - 0xd800) * 0x400 + (trail - 0xdc00) + 0x10000)
  {
    var c := (lead - 0xd800) * 0x400 + (trail - 0xdc00) + 0x10000;
    assert c == Combined(lead, trail);
    LiteralIs(c, false);
    LiteralIs(c, ignoreCase);
  }

  /** `\c` and a character: its code point modulo 32. */
  lemma CaretEscapes(source: Text, index: nat, mode: Mode)
    requires Reads(source, index, "\\c") && index + 2 < |source|
    requires !(0xd800 <= source[index + 2] <= 0xdfff)
    ensures AtomIsOne(source, index, mode, 3, source[index + 2] % 32)
    ensures TokenIsOne(source, index, mode.pairs, 3, source[index + 2] % 32)
  {
    EscapedUnit(source, index);
    NoPair(source, index);
    OneEscape(source, index, mode, 3, source[index + 2] % 32);
  }

  /** The letters and digits with a meaning of their own after a backslash. */
  const SPECIAL_LETTERS: string := "bBdDsSwWpPkKnrtvfxuc0123456789"

  /** Any other character after a backslash stands for itself. */
  lemma IdentityEscapes(source: Text, index: nat, mode: Mode)
    requires Is(source, index, BACKSLASH) && index + 1 < |source|
    requires forall i | 0 <= i < |SPECIAL_LETTERS| :: source[index + 1] != SPECIAL_LETTERS[i] as int
    ensures AtomIsOne(source, index, mode, 2, source[index + 1])
    ensures TokenIsOne(source, index, mode.pairs, 2, source[index + 1])
  {
    var u, s := source[index + 1], SPECIAL_LETTERS;
    assert u != s[0] as int && u != s[1] as int && u != s[2] as int && u != s[3] as int && u != s[4] as int;
    assert u != s[5] as int && u != s[6] as int && u != s[7] as int && u != s[8] as int && u != s[9] as int;
    assert u != s[10] as int && u != s[11] as int && u != s[12] as int && u != s[13] as int && u != s[14] as int;
    assert u != s[15] as int && u != s[16] as int && u != s[17] as int && u != s[18] as int && u != s[19] as int;
    assert u != s[20] as int && u != s[21] as int && u != s[22] as int && u != s[23] as int && u != s[24] as int;
    assert u != s[25] as int && u != s[26] as int && u != s[27] as int && u != s[28] as int && u != s[29] as int;
    NoPair(source, index);
    OneEscape(source, index, mode, 2, u);
  }

  /** Escapes whose characters are not known. */
  const UNKNOWN_LETTERS: string := "DSWkK123456789"

  lemma UnknownEscapes(source: Text, index: nat, mode: Mode, i: nat)
    requires i < |UNKNOWN_LETTERS| && Reads(source, index, ['\\', UNKNOWN_LETTERS[i]])
    ensures AtomAt(source, index, mode) == Step(Character(AnyCharacter), index + 2, false)
    ensures ClassTokenAt(source, index, mode.pairs) == ClassToken(index + 2, AnyCharacter, None)
  {
    EscapedUnit(source, index);
    NoPair(source, index);
  }

  /** `\p` and `\P` take everything up to the closing brace, if a brace follows. */
  lemma PropertyEscapes(source: Text, index: nat, mode: Mode)
    requires Reads(source, index, "\\p") || Reads(source, index, "\\P")
    ensures var end := if !Is(source, index + 2, LEFT_BRACE) then index + 2
                       else if IndexOf(source, RIGHT_BRACE, index + 3).None? then |source|
                       else IndexOf(source, RIGHT_BRACE, index + 3).value + 1;
            && AtomAt(source, index, mode) == Step(Character(AnyCharacter), end, false)
            && ClassTokenAt(source, index, mode.pairs) == ClassToken(end, AnyCharacter, None)
  {
    EscapedUnit(source, index);
    NoPair(source, index);
  }

  /** Hexadecimal escapes without their digits, and a backslash at the end, are not known. */
  lemma BrokenEscapes(source: Text, index: nat, mode: Mode)
    requires Is(source, index, BACKSLASH)
    ensures index + 1 == |source| ==> AtomAt(source, index, mode) == Step(Character(AnyCharacter), |source|, false)
    ensures Reads(source, index, "\\x") && index + 4 <= |source|
            && !(IsHexDigit(source[index + 2]) && IsHexDigit(source[index + 3])) ==>
              AtomAt(source, index, mode) == Step(Character(AnyCharacter), index + 4, false)
    ensures Reads(source, index, "\\u") && index + 6 <= |source| && source[index + 2] != LEFT_BRACE
            && (exists i :: index + 2 <= i < index + 6 && !IsHexDigit(source[i])) ==>
              AtomAt(source, index, mode) == Step(Character(AnyCharacter), index + 6, false)
    ensures Reads(source, index, "\\x") && index + 2 == |source| ==>
              AtomAt(source, index, mode) == Step(Character(AnyCharacter), |source|, false)
    ensures Reads(source, index, "\\u") && index + 2 == |source| ==>
              AtomAt(source, index, mode) == Step(Character(AnyCharacter), |source|, false)
    ensures Reads(source, index, "\\c") && index + 2 == |source| ==>
              AtomAt(source, index, mode) == Step(Character(AnyCharacter), |source|, false)
  {
    EscapedUnit(source, index);
  }

  // ----- atoms -----

  lemma SimpleAtoms(source: Text, index: nat, mode: Mode)
    requires index < |source|
    ensures Reads(source, index, ".") ==> AtomAt(source, index, mode) == Step(Character(AnyCharacter), index + 1, false)
    ensures Reads(source, index, "^") || Reads(source, index, "$") ==>
              AtomAt(source, index, mode) == Step(Empty, index + 1, false)
    ensures Reads(source, index, "*") || Reads(source, index, "+") || Reads(source, index, "?")
            || Reads(source, index, "{") || Reads(source, index, "}") || Reads(source, index, ")") ==>
              AtomAt(source, index, mode).failed && ParsePattern(source[index..], mode).None?
  {
    forall c: char | Reads(source, index, [c]) ensures source[index] == c as int {
      assert [c][0] == c && source[index + 0] == [c][0] as int;
    }
    if Reads(source, index, "*") || Reads(source, index, "+") || Reads(source, index, "?")
       || Reads(source, index, "{") || Reads(source, index, "}") || Reads(source, index, ")")
    {
      NoAtomNoPattern(source[index..], mode);
    }
  }

  lemma NoAtomNoPattern(source: Text, mode: Mode)
    requires source != [] && CannotStartAtom(source[0])
    ensures ParsePattern(source, mode).None?
  {
    var items := ItemsAt(source, 0, mode);
    if source[0] == RIGHT_PAREN {
      assert items == Steps([], 0, false);
      assert SequenceAt(source, 0, mode).index == 0 && MoreBranchesAt(source, 0, false, mode).index == 0;
      assert AlternationAt(source, 0, mode).index == 0;
    } else {
      assert AtomAt(source, 0, mode).failed && QuantifiedAtomAt(source, 0, mode).failed && items.failed;
      assert SequenceAt(source, 0, mode).failed && MoreBranchesAt(source, items.index, true, mode).failed;
      assert BranchesAt(source, 0, mode).failed && AlternationAt(source, 0, mode).failed;
    }
  }

  /** A group whose content is printed is read as its content, capturing or not. */
  lemma CapturingGroups(source: Text, index: nat, node: Node, mode: Mode)
    requires Printable(node) && Found(source, index, [LEFT_PAREN] + Render(node) + [RIGHT_PAREN])
    ensures AtomAt(source, index, mode) == Step(Fold(node, mode), index + |Render(node)| + 2, false)
  {
    hide AlternationAt, Fold, Printable;
    var body := Render(node);
    FoundSplit(source, index, [LEFT_PAREN] + body, [RIGHT_PAREN]);
    FoundSplit(source, index, [LEFT_PAREN], body);
    FoundUnit(source, index, LEFT_PAREN);
    FoundUnit(source, index + 1 + |body|, RIGHT_PAREN);
    RenderStart(node);
    assert body != [] ==> body[0] == source[index + 1 + 0];
    TreeReadBack(source, index + 1, node, mode);
  }

  lemma RenderStart(node: Node)
    requires Printable(node)
    ensures Render(node) != [] ==> Render(node)[0] != QUESTION
  {
    match node
    case Empty =>
    case Character(domain) =>
    case Sequence(children) => assert RenderGroup(children[0])[0] == LEFT_PAREN;
    case Alternation(branches) => assert RenderGroup(branches[0])[0] == LEFT_PAREN;
    case Repetition(_, _, _, _) =>
  }

  /** A group that is not closed, and a class that is not closed, are no atoms. */
  lemma UnclosedAtoms(source: Text, index: nat, mode: Mode)
    requires index < |source|
    requires forall i | index < i < |source| :: source[i] != RIGHT_PAREN && source[i] != RIGHT_BRACKET
    ensures source[index] == LEFT_PAREN || source[index] == LEFT_BRACKET ==> AtomAt(source, index, mode).failed
  {
    if source[index] == LEFT_BRACKET {
      NoClassEnd(source, index + 1, false);
    }
  }

  lemma {:induction false} NoClassEnd(source: Text, index: nat, escaped: bool)
    requires forall i | index <= i < |source| :: source[i] != RIGHT_BRACKET
    ensures ClassEnd(source, index, escaped).None?
    decreases |source| - index
  {
    if index < |source| {
      NoClassEnd(source, index + 1, source[index] == BACKSLASH && !escaped);
    }
  }

  // ----- quantifiers -----

  /** A quantifier after an atom, lazy or not: once is the atom itself, never is nothing, and
      everything else a repetition, variable unless the count is fixed. */
  lemma QuantifiersTakeEffect(source: Text, index: nat, mode: Mode, minimum: nat, maximum: Maximum, end: nat)
    requires index < |source| && !AtomAt(source, index, mode).failed
    requires QuantifierAt(source, AtomAt(source, index, mode).index) == Some(Quantifier(minimum, maximum, end))
    ensures var atom, read := AtomAt(source, index, mode), QuantifiedAtomAt(source, index, mode);
            && !read.failed && read.index == (if Reads(source, end, "?") then end + 1 else end)
            && read.node == if maximum == AtMost(0) then Empty
                            else if minimum == 1 && maximum == AtMost(1) then atom.node
                            else Repetition(atom.node, minimum, maximum, !(maximum.AtMost? && maximum.count == minimum))
  {
    hide AtomAt, QuantifierAt;
    ReadsQuestion(source, end);
  }

  lemma ReadsQuestion(source: Text, index: nat)
    ensures Reads(source, index, "?") <==> Is(source, index, QUESTION)
  {
    assert "?"[0] == '?' && '?' as int == QUESTION;
    if Is(source, index, QUESTION) {
      assert source[index + 0] == "?"[0] as int;
    }
    if Reads(source, index, "?") {
      assert source[index + 0] == "?"[0] as int;
    }
  }

  lemma NoQuantifierNoEffect(source: Text, index: nat, mode: Mode)
    requires index < |source| && !AtomAt(source, index, mode).failed
    requires QuantifierAt(source, AtomAt(source, index, mode).index) == None
    ensures QuantifiedAtomAt(source, index, mode) == AtomAt(source, index, mode)
  {
  }

  /** Braces are a quantifier exactly if they hold a decimal number, or one with a comma after it
      and possibly another. */
  lemma BracesAreExact(source: Text, index: nat, close: nat)
    requires Is(source, index, LEFT_BRACE) && index < close && Is(source, close, RIGHT_BRACE)
    requires forall i | index < i < close :: source[i] != RIGHT_BRACE
    ensures QuantifierAt(source, index).Some? <==>
              || (index + 1 < close && forall i | index < i < close :: Digit(source[i]))
              || exists comma :: index + 1 < comma < close && source[comma] == ',' as int
                                 && forall i | index < i < close && i != comma :: Digit(source[i])
    ensures QuantifierAt(source, index).Some? ==> QuantifierAt(source, index).value.end == close + 1
  {
    hide IndexOf, BracedQuantifier, IsDigit, DigitsBetween, DecimalBetween;
    assert IndexOf(source, RIGHT_BRACE, index + 1) == Some(close);
    assert QuantifierAt(source, index) == BracedQuantifier(source, index + 1, close);
    DigitsInBraces(source, index + 1, close);
  }

  lemma DigitsInBraces(source: Text, from: nat, close: nat)
    requires from <= close < |source|
    ensures BracedQuantifier(source, from, close).Some? <==>
              || (from < close && forall i | from <= i < close :: Digit(source[i]))
              || exists comma :: from < comma < close && source[comma] == ',' as int
                                 && forall i | from <= i < close && i != comma :: Digit(source[i])
  {
    hide DecimalBetween;
    var comma := IndexOf(source, COMMA, from);
    if c :| from < c < close && source[c] == ',' as int && forall i | from <= i < close && i != c :: Digit(source[i]) {
      assert comma == Some(c);
    }
    if from < close && (forall i | from <= i < close :: Digit(source[i])) {
      assert comma.Some? ==> comma.value >= close;
    }
  }

  // ----- classes -----

  /** A class that begins with a caret stands for an unknown set. */
  lemma NegatedClasses(source: Text, index: nat, mode: Mode)
    requires Reads(source, index, "[^") && !AtomAt(source, index, mode).failed
    ensures AtomAt(source, index, mode).node == Character(AnyCharacter)
  {
    assert "[^"[0] == '[' && "[^"[1] == '^';
    assert source[index + 0] == "[^"[0] as int && source[index + 1] == "[^"[1] as int;
  }

  /** A plain character in a class is a token for itself, a surrogate pair for its code point. */
  lemma PlainTokens(source: Text, index: nat, pairs: bool)
    requires index < |source| && source[index] != BACKSLASH
    ensures var pair := 0xd800 <= source[index] <= 0xdbff && index + 1 < |source|
              && 0xdc00 <= source[index + 1] <= 0xdfff;
            if pair then
              TokenIsOne(source, index, pairs, 2,
                  (source[index] as int - 0xd800) * 0x400 + (source[index + 1] as int - 0xdc00) + 0x10000)
            else TokenIsOne(source, index, pairs, 1, source[index])
  {
    var c := CodePointAt(source, index);
    LiteralIs(c, false);
    assert LiteralDomain(c, false) == OneOf([Range(c, c)]);
  }

  /** One turn of the class loop: a token of unknown characters makes the class unknown; a token
      with a dash and another token after it is a range, unknown if an end is not a single
      character or the ends are in the wrong order; a dash at the end of the class is none. */
  lemma ClassTurns(source: Text, index: nat, end: nat, pairs: bool)
    requires index < end <= |source|
    ensures var left, turn := ClassTokenAt(source, index, pairs), ClassTurnAt(source, index, end, pairs);
            if left.domain.AnyCharacter? then turn == None
            else if left.end + 1 < end && source[left.end] == '-' as int then
              var right := ClassTokenAt(source, left.end + 1, pairs);
              if left.singleton.None? || right.singleton.None? || right.singleton.value < left.singleton.value then
                  turn == None
              else
                && turn.Some? && turn.value.next == right.end
                && forall c: nat :: InRanges(turn.value.ranges, c) <==>
                     left.singleton.value <= c <= right.singleton.value
            else
              && turn.Some? && turn.value.next == left.end
              && forall c: nat :: InRanges(turn.value.ranges, c) <==> InDomain(left.domain, c)
  {
    var left := ClassTokenAt(source, index, pairs);
    if !left.domain.AnyCharacter? && left.end + 1 < end && source[left.end] == '-' as int {
      var right := ClassTokenAt(source, left.end + 1, pairs);
      if left.singleton.Some? && right.singleton.Some? && left.singleton.value <= right.singleton.value {
        assert [Range(left.singleton.value, right.singleton.value)][0].start == left.singleton.value;
      }
    }
  }

  /** The class holds exactly what its turns hold. */
  lemma ClassesAreUnions(source: Text, index: nat, end: nat, pairs: bool)
    requires index < end <= |source|
    ensures var turn := ClassTurnAt(source, index, end, pairs);
            if turn.None? || ClassRanges(source, turn.value.next, end, pairs).None?
            then ClassRanges(source, index, end, pairs) == None
            else
              && ClassRanges(source, index, end, pairs).Some?
              && forall c: nat :: InRanges(ClassRanges(source, index, end, pairs).value, c) <==>
                   || InRanges(turn.value.ranges, c)
                   || InRanges(ClassRanges(source, turn.value.next, end, pairs).value, c)
    ensures ClassRanges(source, end, end, pairs) == Some([])
  {
    var turn := ClassTurnAt(source, index, end, pairs);
    if turn.Some? {
      var rest := ClassRanges(source, turn.value.next, end, pairs);
      if rest.Some? {
        forall c: nat ensures InRanges(turn.value.ranges + rest.value, c) <==>
                                InRanges(turn.value.ranges, c) || InRanges(rest.value, c)
        {
          InRangesAppend(turn.value.ranges, rest.value, c);
        }
      }
    }
  }

  /** The bracket that closes a class is the first that no backslash escapes. */
  lemma {:induction false} ClassEndIs(source: Text, index: nat, escaped: bool)
    ensures var end := ClassEnd(source, index, escaped);
            && (end.Some? ==> source[end.value] == RIGHT_BRACKET && !EscapedAt(source, index, end.value, escaped))
            && forall i | index <= i < |source| && (end.Some? ==> i < end.value) && source[i] == RIGHT_BRACKET ::
                 EscapedAt(source, index, i, escaped)
    decreases |source| - index
  {
    if index < |source| {
      ClassEndIs(source, index + 1, source[index] == BACKSLASH && !escaped);
    }
  }

  /** Read from `index`, where a backslash may be pending, the unit at `at` is escaped: an odd
      number of backslashes comes right before it. */
  predicate EscapedAt(source: Text, index: nat, at: nat, pending: bool)
    requires index <= at < |source|
    decreases at - index
  {
    if index == at then pending else EscapedAt(source, index + 1, at, source[index] == BACKSLASH && !pending)
  }
}
