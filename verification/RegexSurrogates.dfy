/** Where the analyser's reading of a pattern is the reading of the compiled expression. The
    two differ on an escaped lead surrogate directly before an escaped trail surrogate: two
    characters to the analyser, one code point under the u flag. Beyond that, case-insensitive
    matching widens the compiled expression. */
module RegexSurrogates {
  import opened Optional
  import opened CharacterRanges
  import opened RegexTree
  import opened RegexAmbiguity
  import opened RegexParser
  import opened RegexRoundTrip
  import opened RegexUnambiguity
  import opened RegexFolding

  // ----- where a pair shows -----

  /** A pair outside a class always shows in the tree; inside a class it shows if it changes the
      set of the class; and nothing shows in a part that is repeated zero times. */
  ghost predicate SplitAlternation(source: Text, index: nat, ci: bool)
    requires index <= |source|
    decreases |source| - index, 6
  {
    SplitBranches(source, index, ci)
  }

  ghost predicate SplitBranches(source: Text, index: nat, ci: bool)
    requires index <= |source|
    decreases |source| - index, 5
  {
    var branch := SequenceAt(source, index, Meant(ci));
    || SplitItems(source, index, ci)
    || (!branch.failed && Is(source, branch.index, BAR) && SplitBranches(source, branch.index + 1, ci))
  }

  ghost predicate SplitItems(source: Text, index: nat, ci: bool)
    requires index <= |source|
    decreases |source| - index, 3
  {
    !AtBreak(source, index) &&
    var atom := QuantifiedAtomAt(source, index, Meant(ci));
    SplitQuantified(source, index, ci) || (!atom.failed && SplitItems(source, atom.index, ci))
  }

  ghost predicate SplitQuantified(source: Text, index: nat, ci: bool)
    requires index < |source|
    decreases |source| - index, 2
  {
    var quantifier := QuantifierAt(source, AtomAt(source, index, Meant(ci)).index);
    PairAt(source, index) || (!(quantifier.Some? && Erases(quantifier.value)) && SplitAtom(source, index, ci))
  }

  ghost predicate SplitAtom(source: Text, index: nat, ci: bool)
    requires index < |source|
    decreases |source| - index, 1
  {
    if source[index] == LEFT_PAREN then SplitAlternation(source, GroupBody(source, index), ci)
    else if source[index] == LEFT_BRACKET then
      var close := ClassEnd(source, index + 1, false);
      && close.Some?
      && ClassDomain(source, index + 1, close.value, Built(ci)) !=
         ClassDomain(source, index + 1, close.value, Meant(ci))
    else false
  }

  predicate AtBreak(source: Text, index: nat)
    requires index <= |source|
  {
    index == |source| || source[index] == BAR || source[index] == RIGHT_PAREN
  }

  /** The quantifier drops its atom from the tree. */
  predicate Erases(quantifier: Quantifier) {
    quantifier.maximum == AtMost(0)
  }

  // ----- both readings go through the source in step -----

  lemma PairUnits(source: Text, index: nat)
    requires PairAt(source, index)
    ensures index + 12 <= |source| && source[index] == BACKSLASH && source[index + 1] == LOWER_U
    ensures source[index + 6] == BACKSLASH && source[index + 7] == LOWER_U && source[index + 8] != LEFT_BRACE
    ensures source[index + 2] != LEFT_BRACE && !PairAt(source, index + 6)
  {
  }

  lemma UnitEscapeRead(source: Text, index: nat, mode: Mode)
    requires UnitEscapeAt(source, index).Some? && !(mode.pairs && PairAt(source, index))
    ensures var escape := EscapeAt(source, index, false, mode);
            escape == Escape(index + 6, false, LiteralDomain(UnitEscapeAt(source, index).value, mode.ignoreCase),
                             UnitEscapeAt(source, index))
  {
    hide HexBetween, LiteralDomain, PairAt;
    assert source[index + 2] != LEFT_BRACE;
  }

  /** A pair as an atom: the analyser reads its two halves one after the other. */
  lemma PairAsAtoms(source: Text, index: nat, ci: bool)
    requires PairAt(source, index)
    ensures var lead, trail := UnitEscapeAt(source, index).value, UnitEscapeAt(source, index + 6).value;
            && AtomAt(source, index, Built(ci)) == Step(Character(LiteralDomain(lead, ci)), index + 6, false)
            && AtomAt(source, index + 6, Built(ci)) == Step(Character(LiteralDomain(trail, ci)), index + 12, false)
            && AtomAt(source, index, Meant(ci)) ==
                 Step(Character(LiteralDomain(Combined(lead, trail), ci)), index + 12, false)
    ensures QuantifierAt(source, index + 6).None?
  {
    hide HexBetween, LiteralDomain, PlainEscapeAt;
    PairUnits(source, index);
    UnitEscapeRead(source, index, Built(ci));
    UnitEscapeRead(source, index + 6, Built(ci));
  }

  /** Two lists of items read for the same text: when a pair makes one longer, the shorter is
      not empty, and if it has one item that is not a sequence. */
  ghost predicate InStep(built: seq<Node>, meant: seq<Node>) {
    |built| >= |meant| && (|built| > |meant| ==> meant != [] && (|meant| == 1 ==> !meant[0].Sequence?))
  }

  lemma SequencesInStep(built: seq<Node>, meant: seq<Node>)
    requires InStep(built, meant)
    ensures SequenceOf(built) == SequenceOf(meant) <==> built == meant
  {
    if |built| == |meant| == 1 {
      assert built == [built[0]] && meant == [meant[0]];
    }
  }

  lemma QuantifiedIs(left: Node, right: Node, quantifier: Quantifier)
    ensures Quantified(left, quantifier) == Quantified(right, quantifier) <==> left == right || Erases(quantifier)
  {
  }

  lemma {:induction false} SameAlternation(source: Text, index: nat, ci: bool)
    requires index <= |source|
    ensures var built, meant := AlternationAt(source, index, Built(ci)), AlternationAt(source, index, Meant(ci));
            && built.index == meant.index && built.failed == meant.failed
            && (!meant.failed ==> (built.node == meant.node <==> !SplitAlternation(source, index, ci)))
    decreases |source| - index, 6
  {
    SameBranches(source, index, ci);
    var built, meant := BranchesAt(source, index, Built(ci)).nodes, BranchesAt(source, index, Meant(ci)).nodes;
    if |built| == |meant| == 1 {
      assert built == [built[0]] && meant == [meant[0]];
    }
  }

  lemma {:induction false} SameBranches(source: Text, index: nat, ci: bool)
    requires index <= |source|
    ensures var built, meant := BranchesAt(source, index, Built(ci)), BranchesAt(source, index, Meant(ci));
            && built.index == meant.index && built.failed == meant.failed && |built.nodes| == |meant.nodes|
            && (!meant.failed ==> (built.nodes == meant.nodes <==> !SplitBranches(source, index, ci)))
    decreases |source| - index, 5
  {
    hide ItemsAt, SplitItems;
    SameItems(source, index, ci);
    var built, meant := SequenceAt(source, index, Built(ci)), SequenceAt(source, index, Meant(ci));
    if !meant.failed {
      SequencesInStep(ItemsAt(source, index, Built(ci)).nodes, ItemsAt(source, index, Meant(ci)).nodes);
      if Is(source, meant.index, BAR) {
        SameBranches(source, meant.index + 1, ci);
        ConsEqual(built.node, BranchesAt(source, meant.index + 1, Built(ci)).nodes, meant.node,
            BranchesAt(source, meant.index + 1, Meant(ci)).nodes);
      } else {
        ConsEqual(built.node, [], meant.node, []);
      }
    }
  }

  lemma ConsEqual(head: Node, tail: seq<Node>, otherHead: Node, otherTail: seq<Node>)
    ensures [head] + tail == [otherHead] + otherTail <==> head == otherHead && tail == otherTail
  {
    if [head] + tail == [otherHead] + otherTail {
      assert head == ([head] + tail)[0] && tail == ([head] + tail)[1..];
      assert otherTail == ([otherHead] + otherTail)[1..];
    }
  }

  lemma {:induction false} SameItems(source: Text, index: nat, ci: bool)
    requires index <= |source|
    ensures var built, meant := ItemsAt(source, index, Built(ci)), ItemsAt(source, index, Meant(ci));
            && built.index == meant.index && built.failed == meant.failed
            && (!meant.failed ==>
                  InStep(built.nodes, meant.nodes) && (built.nodes == meant.nodes <==> !SplitItems(source, index, ci)))
    decreases |source| - index, 3
  {
    if !AtBreak(source, index) {
      if PairAt(source, index) {
        PairItems(source, index, ci);
      } else {
        PlainItems(source, index, ci);
      }
    }
  }

  lemma {:induction false} PairItems(source: Text, index: nat, ci: bool)
    requires index <= |source| && PairAt(source, index)
    ensures var built, meant := ItemsAt(source, index, Built(ci)), ItemsAt(source, index, Meant(ci));
            && built.index == meant.index && built.failed == meant.failed
            && (!meant.failed ==>
                  InStep(built.nodes, meant.nodes) && (built.nodes == meant.nodes <==> !SplitItems(source, index, ci)))
    decreases |source| - index, 2
  {
    hide AtomAt, PairAt, LiteralDomain, Quantified, QuantifierAt;
    PairUnits(source, index);
    PairAsAtoms(source, index, ci);
    var pair := QuantifiedAtomAt(source, index, Meant(ci));
    var first := QuantifiedAtomAt(source, index, Built(ci));
    var second := QuantifiedAtomAt(source, index + 6, Built(ci));
    assert first.index == index + 6 && !first.failed && second.index == pair.index && !second.failed && !pair.failed;
    SameItems(source, pair.index, ci);
    var built, meant := ItemsAt(source, pair.index, Built(ci)), ItemsAt(source, pair.index, Meant(ci));
    assert ItemsAt(source, index + 6, Built(ci)) == Extend([second.node], built);
    assert ItemsAt(source, index, Built(ci)) == Extend([first.node], Extend([second.node], built));
    assert ItemsAt(source, index, Meant(ci)) == Extend([pair.node], meant);
    PairNotSequence(source, index, ci);
  }

  lemma PairNotSequence(source: Text, index: nat, ci: bool)
    requires PairAt(source, index)
    ensures index < |source| && !QuantifiedAtomAt(source, index, Meant(ci)).node.Sequence?
    ensures SplitQuantified(source, index, ci)
  {
    hide PairAt, LiteralDomain, QuantifierAt, AtomAt;
    PairUnits(source, index);
    PairAsAtoms(source, index, ci);
  }

  lemma {:induction false} PlainItems(source: Text, index: nat, ci: bool)
    requires index < |source| && !AtBreak(source, index) && !PairAt(source, index)
    ensures var built, meant := ItemsAt(source, index, Built(ci)), ItemsAt(source, index, Meant(ci));
            && built.index == meant.index && built.failed == meant.failed
            && (!meant.failed ==>
                  InStep(built.nodes, meant.nodes) && (built.nodes == meant.nodes <==> !SplitItems(source, index, ci)))
    decreases |source| - index, 2
  {
    hide QuantifiedAtomAt, SplitQuantified, PairAt;
    SameQuantified(source, index, ci);
    var built, meant := QuantifiedAtomAt(source, index, Built(ci)), QuantifiedAtomAt(source, index, Meant(ci));
    if !meant.failed {
      SameItems(source, meant.index, ci);
      ConsEqual(built.node, ItemsAt(source, meant.index, Built(ci)).nodes, meant.node,
          ItemsAt(source, meant.index, Meant(ci)).nodes);
    }
  }

  lemma {:induction false} SameQuantified(source: Text, index: nat, ci: bool)
    requires index < |source| && !PairAt(source, index)
    ensures var built, meant := QuantifiedAtomAt(source, index, Built(ci)), QuantifiedAtomAt(source, index, Meant(ci));
            && built.index == meant.index && built.failed == meant.failed
            && (!meant.failed ==> (built.node == meant.node <==> !SplitQuantified(source, index, ci)))
    decreases |source| - index, 1
  {
    hide AtomAt, SplitAtom, Quantified, PairAt, Erases;
    SameAtom(source, index, ci);
    var built, meant := AtomAt(source, index, Built(ci)), AtomAt(source, index, Meant(ci));
    var quantifier := QuantifierAt(source, meant.index);
    if quantifier.Some? {
      QuantifiedIs(built.node, meant.node, quantifier.value);
    }
  }

  lemma {:induction false} SameAtom(source: Text, index: nat, ci: bool)
    requires index < |source| && !PairAt(source, index)
    ensures var built, meant := AtomAt(source, index, Built(ci)), AtomAt(source, index, Meant(ci));
            && built.index == meant.index && built.failed == meant.failed
            && (!meant.failed ==> (built.node == meant.node <==> !SplitAtom(source, index, ci)))
    decreases |source| - index, 0
  {
    hide PairAt, PlainEscapeAt, LiteralDomain, ClassDomain, ClassEnd;
    if source[index] == LEFT_PAREN {
      SameAlternation(source, GroupBody(source, index), ci);
    }
  }

  /** Main result: the analyser reads the source as it is meant if and only if no pair of
      surrogate escapes shows in it. */
  lemma ReadingsAgreeExactly(source: Text, ci: bool)
    ensures ParsePattern(source, Built(ci)) == ParsePattern(source, Meant(ci)) <==>
              ParsePattern(source, Meant(ci)).None? || !SplitAlternation(source, 0, ci)
    ensures ParsePattern(source, Built(ci)).None? <==> ParsePattern(source, Meant(ci)).None?
  {
    SameAlternation(source, 0, ci);
  }

  // ----- a condition on the text -----

  /** Nowhere in the source is an escaped lead surrogate right before an escaped trail one. */
  predicate NoPairs(source: Text) {
    forall i | 0 <= i < |source| :: !PairAt(source, i)
  }

  lemma {:induction false} SameClassRanges(source: Text, index: nat, end: nat)
    requires NoPairs(source) && end <= |source|
    ensures ClassRanges(source, index, end, false) == ClassRanges(source, index, end, true)
    decreases end - index
  {
    hide PairAt, PlainEscapeAt;
    if index < end {
      assert ClassTurnAt(source, index, end, false) == ClassTurnAt(source, index, end, true);
      var turn := ClassTurnAt(source, index, end, true);
      if turn.Some? {
        SameClassRanges(source, turn.value.next, end);
      }
    }
  }

  lemma {:induction false} UnpairedBranches(source: Text, index: nat, ci: bool)
    requires NoPairs(source) && index <= |source|
    ensures !SplitBranches(source, index, ci)
    decreases |source| - index, 5
  {
    UnpairedItems(source, index, ci);
    var branch := SequenceAt(source, index, Meant(ci));
    if !branch.failed && Is(source, branch.index, BAR) {
      UnpairedBranches(source, branch.index + 1, ci);
    }
  }

  lemma {:induction false} UnpairedItems(source: Text, index: nat, ci: bool)
    requires NoPairs(source) && index <= |source|
    ensures !SplitItems(source, index, ci)
    decreases |source| - index, 3
  {
    hide PairAt, QuantifierAt, ClassDomain;
    if !AtBreak(source, index) {
      var atom := QuantifiedAtomAt(source, index, Meant(ci));
      if !atom.failed {
        UnpairedItems(source, atom.index, ci);
      }
      UnpairedAtom(source, index, ci);
    }
  }

  lemma {:induction false} UnpairedAtom(source: Text, index: nat, ci: bool)
    requires NoPairs(source) && index < |source|
    ensures !SplitAtom(source, index, ci)
    decreases |source| - index, 1
  {
    hide PairAt, ClassRanges;
    if source[index] == LEFT_PAREN {
      UnpairedBranches(source, GroupBody(source, index), ci);
    } else if source[index] == LEFT_BRACKET {
      var close := ClassEnd(source, index + 1, false);
      if close.Some? {
        SameClassRanges(source, index + 1, close.value);
      }
    }
  }

  /** Without such a pair in the text the two readings are the same. */
  lemma UnpairedSourcesAreReadAsMeant(source: Text, ci: bool)
    requires NoPairs(source)
    ensures !SplitAlternation(source, 0, ci) && ParsePattern(source, Built(ci)) == ParsePattern(source, Meant(ci))
  {
    UnpairedBranches(source, 0, ci);
    ReadingsAgreeExactly(source, ci);
  }

  /** A pair need not show: a negated class is an unknown set in either reading. */
  lemma NegatedClassesHidePairs(source: Text, index: nat, ci: bool)
    requires Is(source, index, LEFT_BRACKET) && Is(source, index + 1, CARET)
    ensures !SplitAtom(source, index, ci)
  {
  }

  // ----- what the analyser's verdict on a source means -----

  /** The tree of the compiled expression: the source as it is meant, and widened when case is
      ignored. */
  function Compiled(source: Text, ci: bool): Option<Node> {
    match ParsePattern(source, Meant(ci))
    case None => None
    case Some(tree) => Some(if ci then Widened(tree) else tree)
  }

  lemma UnobjectedSourceIsSafe(source: Text, ci: bool)
    requires DetectUnsafe(source, ci) == Safe && ParsePattern(source, Meant(ci)).Some?
    requires !SplitAlternation(source, 0, ci)
    ensures var tree := ParsePattern(source, Meant(ci)).value;
            ProperTree(tree) && Check(tree) == Safe && (ci ==> Folded(tree))
  {
    ReadingsAgreeExactly(source, ci);
    ParsedTreesAreProper(source, Meant(ci));
    AlternationBuildable(source, 0, Meant(ci));
  }

  /** Main result: if the analysis does not object to a source in which no pair shows, every
      repetition of the compiled expression matches any non-empty word in one way. */
  lemma UnobjectedSourceIsUnambiguous(source: Text, ci: bool, repetition: Node, p: Parse, q: Parse)
    requires DetectUnsafe(source, ci) == Safe && Compiled(source, ci).Some? && !SplitAlternation(source, 0, ci)
    requires Part(repetition, Compiled(source, ci).value) && repetition.Repetition?
    requires ParseOf(p, repetition) && ParseOf(q, repetition) && Yield(p) == Yield(q) && Yield(p) != []
    ensures p == q
  {
    hide DetectUnsafe, ParsePattern, SplitAlternation, Folded, ProperTree, Check, Part, ParseOf;
    UnobjectedSourceIsSafe(source, ci);
    var tree := ParsePattern(source, Meant(ci)).value;
    if ci {
      WidenedRepetitionsAreUnambiguous(tree, repetition, p, q);
    } else {
      SafeRepetitionsAreUnambiguous(tree, repetition, p, q);
    }
  }

  /** And if the expression is settled besides, it matches every word in one way as a whole. */
  lemma SettledSourceIsUnambiguous(source: Text, ci: bool, p: Parse, q: Parse)
    requires DetectUnsafe(source, ci) == Safe && Compiled(source, ci).Some? && !SplitAlternation(source, 0, ci)
    requires Settled(ParsePattern(source, Meant(ci)).value, [])
    requires ParseOf(p, Compiled(source, ci).value) && ParseOf(q, Compiled(source, ci).value) && Yield(p) == Yield(q)
    ensures Alike(p, q)
  {
    hide DetectUnsafe, ParsePattern, SplitAlternation, Folded, ProperTree, Check, ParseOf, Settled;
    UnobjectedSourceIsSafe(source, ci);
    var tree := ParsePattern(source, Meant(ci)).value;
    if ci {
      WidenedSettledIsUnambiguous(tree, p, q);
    } else {
      SettledPatternsAreUnambiguous(tree, p, q);
    }
  }

  // ----- a pair that hides an ambiguity -----

  const LEAD: nat := 0xd83d
  const TRAIL: nat := 0xde00
  const FACE: nat := 0x1f600

  /** A repeated group with two branches that are the same character, once as a pair of escapes
      and once as itself. */
  const TWO_FACES: Text :=
    [LEFT_PAREN, QUESTION, COLON,
     BACKSLASH, LOWER_U, 0x44, 0x38, 0x33, 0x44, BACKSLASH, LOWER_U, 0x44, 0x45, 0x30, 0x30,
     BAR, LEAD, TRAIL, RIGHT_PAREN, STAR]

  /** Four hexadecimal digits, read one by one. */
  lemma FourDigits(source: Text, from: nat, a: nat, b: nat, c: nat, d: nat)
    requires from + 4 <= |source| && HexDigitsBetween(source, from, from + 4)
    requires HexDigitValue(source[from]) == a && HexDigitValue(source[from + 1]) == b
    requires HexDigitValue(source[from + 2]) == c && HexDigitValue(source[from + 3]) == d
    ensures HexBetween(source, from, from + 4) == ((a * 16 + b) * 16 + c) * 16 + d
  {
    hide HexDigitValue, IsHexDigit;
    assert HexBetween(source, from, from) == 0;
    assert HexBetween(source, from, from + 1) == a;
    assert HexBetween(source, from, from + 2) == a * 16 + b;
    assert HexBetween(source, from, from + 3) == (a * 16 + b) * 16 + c;
  }

  lemma FacesHex()
    ensures UnitEscapeAt(TWO_FACES, 3) == Some(LEAD) && UnitEscapeAt(TWO_FACES, 9) == Some(TRAIL)
    ensures PairAt(TWO_FACES, 3) && Combined(LEAD, TRAIL) == FACE
  {
    hide HexBetween;
    FourDigits(TWO_FACES, 5, 0xd, 8, 3, 0xd);
    FourDigits(TWO_FACES, 11, 0xd, 0xe, 0, 0);
  }

  /** The second branch, the group and its star, given what the first branch was read as. */
  lemma FacesRead(ci: bool, pairs: bool, first: Node)
    requires SequenceAt(TWO_FACES, 3, Mode(ci, pairs)) == Step(first, 15, false)
    ensures ParsePattern(TWO_FACES, Mode(ci, pairs)) ==
              Some(Repetition(Alternation([first, Character(LiteralDomain(FACE, ci))]), 0, Unbounded, true))
  {
    hide SequenceAt, LiteralDomain;
    var s, mode := TWO_FACES, Mode(ci, pairs);
    var face := Character(LiteralDomain(FACE, ci));
    SecondFace(mode);
    assert MoreBranchesAt(s, 18, false, mode) == Steps([], 18, false);
    assert [face] + [] == [face];
    assert BranchesAt(s, 16, mode) == Steps([face], 18, false);
    assert [first] + [face] == [first, face];
    assert BranchesAt(s, 3, mode) == Steps([first, face], 18, false);
    assert AlternationAt(s, 3, mode) == Step(Alternation([first, face]), 18, false);
    assert GroupBody(s, 0) == 3;
    assert AtomAt(s, 0, mode) == Step(Alternation([first, face]), 19, false);
    WholeIsOneAtom(mode, Alternation([first, face]));
  }

  lemma SecondFace(mode: Mode)
    ensures SequenceAt(TWO_FACES, 16, mode) == Step(Character(LiteralDomain(FACE, mode.ignoreCase)), 18, false)
  {
    hide LiteralDomain;
    var s := TWO_FACES;
    var face := Character(LiteralDomain(FACE, mode.ignoreCase));
    assert CodePointAt(s, 16) == FACE;
    assert AtomAt(s, 16, mode) == Step(face, 18, false);
    assert QuantifiedAtomAt(s, 16, mode) == Step(face, 18, false);
    assert ItemsAt(s, 18, mode) == Steps([], 18, false);
    assert [face] + [] == [face];
    assert ItemsAt(s, 16, mode) == Steps([face], 18, false);
  }

  lemma WholeIsOneAtom(mode: Mode, body: Node)
    requires AtomAt(TWO_FACES, 0, mode) == Step(body, 19, false)
    ensures ParsePattern(TWO_FACES, mode) == Some(Repetition(body, 0, Unbounded, true))
  {
    hide AtomAt;
    var s, whole := TWO_FACES, Repetition(body, 0, Unbounded, true);
    assert QuantifierAt(s, 19) == Some(Quantifier(0, Unbounded, 20));
    assert QuantifiedAtomAt(s, 0, mode) == Step(whole, 20, false);
    assert ItemsAt(s, 20, mode) == Steps([], 20, false);
    assert [whole] + [] == [whole];
    assert ItemsAt(s, 0, mode) == Steps([whole], 20, false);
    assert MoreBranchesAt(s, 20, false, mode) == Steps([], 20, false);
    assert BranchesAt(s, 0, mode) == Steps([whole], 20, false);
  }

  lemma FirstFaceBuilt()
    ensures SequenceAt(TWO_FACES, 3, Built(false)) == Step(Sequence([Only(LEAD), Only(TRAIL)]), 15, false)
  {
    var s, mode := TWO_FACES, Built(false);
    FacesHex();
    PairAsAtoms(s, 3, false);
    hide PairAt, AtomAt;
    assert QuantifierAt(s, 15).None?;
    assert QuantifiedAtomAt(s, 3, mode) == Step(Only(LEAD), 9, false);
    assert QuantifiedAtomAt(s, 9, mode) == Step(Only(TRAIL), 15, false);
    assert ItemsAt(s, 15, mode) == Steps([], 15, false);
    assert [Only(TRAIL)] + [] == [Only(TRAIL)];
    assert ItemsAt(s, 9, mode) == Steps([Only(TRAIL)], 15, false);
    assert [Only(LEAD)] + [Only(TRAIL)] == [Only(LEAD), Only(TRAIL)];
    assert ItemsAt(s, 3, mode) == Steps([Only(LEAD), Only(TRAIL)], 15, false);
  }

  lemma FirstFaceMeant()
    ensures SequenceAt(TWO_FACES, 3, Meant(false)) == Step(Only(FACE), 15, false)
  {
    var s, mode := TWO_FACES, Meant(false);
    FacesHex();
    PairAsAtoms(s, 3, false);
    hide PairAt, AtomAt;
    assert QuantifierAt(s, 15).None?;
    assert QuantifiedAtomAt(s, 3, mode) == Step(Only(FACE), 15, false);
    assert ItemsAt(s, 15, mode) == Steps([], 15, false);
    assert [Only(FACE)] + [] == [Only(FACE)];
    assert ItemsAt(s, 3, mode) == Steps([Only(FACE)], 15, false);
  }

  lemma FirstHalfStarts()
    ensures FirstDomain(Sequence([Only(LEAD), Only(TRAIL)])) == OneOf([Range(LEAD, LEAD)])
  {
    hide Merge;
    var children := [Only(LEAD), Only(TRAIL)];
    assert CollectFirst(children, true) == OneOf([Range(LEAD, LEAD)]);
    MergeOfCanonical([Range(LEAD, LEAD)]);
  }

  lemma PairOfHalves()
    ensures var pair := Sequence([Only(LEAD), Only(TRAIL)]);
            && !CanMatchEmpty(pair) && !HasRepetition(pair) && !HasNestedRepetition(pair)
            && !HasAmbiguousAlternation(pair) && !HasAmbiguousRepeatedAlternation(pair)
  {
    hide FirstDomain, BranchesOverlap;
    var children := [Only(LEAD), Only(TRAIL)];
    assert Only(LEAD) in children;
    assert forall c | c in children :: c == Only(LEAD) || c == Only(TRAIL);
  }

  lemma PairHasNoRepetitions()
    ensures !HasAmbiguousSequentialRepetition(Sequence([Only(LEAD), Only(TRAIL)]))
  {
    var children := [Only(LEAD), Only(TRAIL)];
    assert VariableRepetitions(Only(LEAD)) == [] == VariableRepetitions(Only(TRAIL));
    assert children[1..] == [Only(TRAIL)] && children[1..][1..] == [];
    assert !OverlapsInOrder([], []);
    assert [] + VariableRepetitions(Only(TRAIL)) == [];
    assert !OverlapsInOrder([], [Only(TRAIL)]);
    assert !OverlapsInOrder([], children);
  }

  lemma BuiltFacesAreSafe()
    ensures Check(Repetition(Alternation([Sequence([Only(LEAD), Only(TRAIL)]), Only(FACE)]), 0, Unbounded, true)) ==
              Safe
  {
    var pair, face := Sequence([Only(LEAD), Only(TRAIL)]), Only(FACE);
    var branches := [pair, face];
    PairOfHalves();
    FirstHalfStarts();
    PairHasNoRepetitions();
    hide CanMatchEmpty, HasRepetition, FirstDomain, OverlapsInOrder;
    SingleCharacter(FACE);
    DisjointnessIsExact(OneOf([Range(LEAD, LEAD)]), OneOf([Range(FACE, FACE)]));
    assert !BranchesOverlap(branches);
    assert forall b | b in branches :: b == pair || b == face;
    AlternationPasses(branches);
  }

  lemma SingleCharacter(c: nat)
    ensures var node := Only(c);
            && !CanMatchEmpty(node) && !HasRepetition(node)
            && !HasNestedRepetition(node) && !HasAmbiguousAlternation(node)
            && !HasAmbiguousRepeatedAlternation(node) && !HasAmbiguousSequentialRepetition(node)
            && FirstDomain(node) == OneOf([Range(c, c)])
  {
  }

  lemma AlternationPasses(branches: seq<Node>)
    requires !BranchesOverlap(branches)
    requires forall b | b in branches ::
               && !HasRepetition(b) && !HasNestedRepetition(b)
               && !HasAmbiguousAlternation(b) && !HasAmbiguousRepeatedAlternation(b)
               && !HasAmbiguousSequentialRepetition(b)
    ensures Check(Repetition(Alternation(branches), 0, Unbounded, true)) == Safe
  {
    hide BranchesOverlap;
    var body := Alternation(branches);
    assert !HasRepetition(body) && !HasNestedRepetition(body) && !HasAmbiguousAlternation(body);
    assert !HasAmbiguousRepeatedAlternation(body) && !HasAmbiguousSequentialRepetition(body);
  }

  /** The analysis does not object to that source, but the compiled expression matches one
      character in two ways, and so a run of them in exponentially many. */
  lemma PairsHideAmbiguity() returns (tree: Node, p: Parse, q: Parse)
    ensures DetectUnsafe(TWO_FACES, false) == Safe && Compiled(TWO_FACES, false) == Some(tree)
    ensures tree.Repetition? && ParseOf(p, tree) && ParseOf(q, tree) && Yield(p) == Yield(q) == [FACE] && p != q
    ensures SplitAlternation(TWO_FACES, 0, false) && Check(tree) == AmbiguousAlternation
  {
    FirstFaceBuilt();
    FirstFaceMeant();
    hide SequenceAt, ParsePattern, SplitAlternation;
    FacesRead(false, false, Sequence([Only(LEAD), Only(TRAIL)]));
    FacesRead(false, true, Only(FACE));
    BuiltFacesAreSafe();
    ReadingsAgreeExactly(TWO_FACES, false);
    var branches := [Only(FACE), Only(FACE)];
    assert Character(LiteralDomain(FACE, false)) == Only(FACE);
    tree := Repetition(Alternation(branches), 0, Unbounded, true);
    p, q := Repeated([Chosen(0, One(FACE))]), Repeated([Chosen(1, One(FACE))]);
    OnlyContains(FACE);
    YieldOne(Chosen(0, One(FACE)));
    YieldOne(Chosen(1, One(FACE)));
    SameBranchesOverlap(FACE);
    assert ParseOf(One(FACE), Only(FACE));
    assert ParseOf(Chosen(0, One(FACE)), Alternation(branches)) && ParseOf(Chosen(1, One(FACE)), Alternation(branches));
  }

  lemma YieldOne(p: Parse)
    ensures YieldAll([p]) == Yield(p)
  {
    YieldAllCons(p, []);
    assert [p] + [] == [p];
  }

  lemma SameBranchesOverlap(c: nat)
    ensures Check(Repetition(Alternation([Only(c), Only(c)]), 0, Unbounded, true)) == AmbiguousAlternation
  {
    var branches := [Only(c), Only(c)];
    OnlyContains(c);
    DisjointnessIsExact(OneOf([Range(c, c)]), OneOf([Range(c, c)]));
    assert InDomain(OneOf([Range(c, c)]), c);
    assert !ProvablyDisjoint(OneOf([Range(c, c)]), OneOf([Range(c, c)]));
    assert FirstDomain(branches[0]) == FirstDomain(branches[1]) == OneOf([Range(c, c)]);
    assert BranchesOverlap(branches);
    assert forall b | b in branches :: b == Only(c) && !HasRepetition(b) && !HasNestedRepetition(b);
    assert !HasRepetition(Alternation(branches)) && !HasNestedRepetition(Alternation(branches));
  }
}
