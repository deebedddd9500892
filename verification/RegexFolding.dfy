/** What case-insensitive matching adds to a tree under the u flag: two characters beyond ASCII,
    the Kelvin sign and the long s, match like the letters k and s. Adding them takes no
    uniqueness away. */
module RegexFolding {
  import opened CharacterRanges
  import opened RegexTree
  import opened RegexAmbiguity
  import opened RegexUnambiguity
  import opened RegexParser
  import opened RegexRoundTrip

  const KELVIN_SIGN: nat := 0x212a
  const LONG_S: nat := 0x17f
  const LETTER_K: nat := 0x6b
  const LETTER_S: nat := 0x73

  // ----- which characters a set matches -----

  function Representative(c: nat): nat {
    if c == KELVIN_SIGN then LETTER_K else if c == LONG_S then LETTER_S else c
  }

  function WidenedDomain(domain: Domain): Domain {
    match domain
    case AnyCharacter => AnyCharacter
    case OneOf(ranges) =>
      OneOf(ranges + (if InRanges(ranges, LETTER_K) then [Range(KELVIN_SIGN, KELVIN_SIGN)] else [])
                   + (if InRanges(ranges, LETTER_S) then [Range(LONG_S, LONG_S)] else []))
  }

  lemma InRangesOne(d: nat, c: nat)
    ensures InRanges([Range(d, d)], c) <==> c == d
  {
    assert [Range(d, d)][0].start == d;
  }

  lemma WidenedIs(domain: Domain, c: nat)
    ensures InDomain(WidenedDomain(domain), c) <==>
            || InDomain(domain, c)
            || (c == KELVIN_SIGN && InDomain(domain, LETTER_K)) || (c == LONG_S && InDomain(domain, LETTER_S))
  {
    if domain.OneOf? {
      var kelvin := if InRanges(domain.ranges, LETTER_K) then [Range(KELVIN_SIGN, KELVIN_SIGN)] else [];
      var long := if InRanges(domain.ranges, LETTER_S) then [Range(LONG_S, LONG_S)] else [];
      InRangesAppend(domain.ranges + kelvin, long, c);
      InRangesAppend(domain.ranges, kelvin, c);
      InRangesOne(KELVIN_SIGN, c);
      InRangesOne(LONG_S, c);
    }
  }

  lemma InSpaces(c: nat)
    ensures InRanges(SPACE_RANGES, c) ==> c != KELVIN_SIGN && c != LONG_S && c != LETTER_K && c != LETTER_S
  {
  }

  lemma WithinAsciiIs(ranges: seq<Range>, c: nat)
    requires WithinAscii(ranges)
    ensures InRanges(ranges, c) ==> c <= LAST_ASCII
  {
  }

  /** A set that a case-insensitive reading produces contains a character, once widened,
      exactly if it contains the character's representative. */
  lemma WidenedByRepresentative(domain: Domain, c: nat)
    requires FoldedDomain(domain)
    ensures InDomain(WidenedDomain(domain), c) <==> InDomain(domain, Representative(c))
  {
    WidenedIs(domain, c);
    if domain.OneOf? {
      InSpaces(c);
      InSpaces(Representative(c));
      if domain.ranges != SPACE_RANGES {
        WithinAsciiIs(domain.ranges, c);
      }
    }
  }

  /** What the simple case folding of Unicode does to the ASCII characters, to what folds to
      them, and to white space. */
  ghost predicate CaseFolding(fold: nat -> nat) {
    && (forall c: nat | c <= LAST_ASCII :: fold(c) == if IsUpper(c) then SwapCase(c) else c)
    && fold(KELVIN_SIGN) == LETTER_K && fold(LONG_S) == LETTER_S
    && (forall c: nat | fold(c) <= LAST_ASCII :: c <= LAST_ASCII || c == KELVIN_SIGN || c == LONG_S)
    && (forall c: nat | InRanges(SPACE_RANGES, c) || InRanges(SPACE_RANGES, fold(c)) :: fold(c) == c)
  }

  /** Main result: a widened set contains exactly the characters that fold like one of the set,
      which are those that the compiled expression matches there. */
  lemma WidenedIsWhatMatches(domain: Domain, fold: nat -> nat, c: nat)
    requires FoldedDomain(domain) && CaseFolding(fold)
    ensures InDomain(WidenedDomain(domain), c) <==> exists d: nat :: InDomain(domain, d) && fold(d) == fold(c)
  {
    WidenedByRepresentative(domain, c);
    var r := Representative(c);
    assert fold(r) == fold(c);
    if domain.OneOf? {
      forall d: nat | InDomain(domain, d) && fold(d) == fold(c) ensures InDomain(domain, r) {
        if domain.ranges != SPACE_RANGES {
          WithinAsciiIs(domain.ranges, d);
          assert fold(d) <= LAST_ASCII;
          assert r == d || r == SwapCase(d);
        } else {
          assert fold(d) == d && fold(c) == c;
          InSpaces(c);
        }
      }
    }
  }

  function Widened(node: Node): Node
    decreases node, 0
  {
    match node
    case Empty => Empty
    case Character(domain) => Character(WidenedDomain(domain))
    case Sequence(children) => Sequence(WidenedAll(children))
    case Alternation(branches) => Alternation(WidenedAll(branches))
    case Repetition(child, minimum, maximum, variable) => Repetition(Widened(child), minimum, maximum, variable)
  }

  function WidenedAll(nodes: seq<Node>): (widened: seq<Node>)
    ensures |widened| == |nodes| && forall i | 0 <= i < |nodes| :: widened[i] == Widened(nodes[i])
    decreases nodes, 0
  {
    if nodes == [] then [] else [Widened(nodes[0])] + WidenedAll(nodes[1..])
  }

  // ----- parses of a widened tree -----

  /** The parse with each character replaced by its representative. */
  function Represented(p: Parse): Parse
    decreases p, 0
  {
    match p
    case Nothing => Nothing
    case One(c) => One(Representative(c))
    case All(parts) => All(RepresentedAll(parts))
    case Chosen(index, inner) => Chosen(index, Represented(inner))
    case Repeated(iterations) => Repeated(RepresentedAll(iterations))
  }

  function RepresentedAll(ps: seq<Parse>): (represented: seq<Parse>)
    ensures |represented| == |ps| && forall i | 0 <= i < |ps| :: represented[i] == Represented(ps[i])
    decreases ps, 0
  {
    if ps == [] then [] else [Represented(ps[0])] + RepresentedAll(ps[1..])
  }

  function RepresentedWord(word: Word): (represented: Word)
    ensures |represented| == |word| && forall i | 0 <= i < |word| :: represented[i] == Representative(word[i])
  {
    if word == [] then [] else [Representative(word[0])] + RepresentedWord(word[1..])
  }

  lemma {:induction false} RepresentedYield(p: Parse)
    ensures Yield(Represented(p)) == RepresentedWord(Yield(p))
    decreases p, 0
  {
    match p
    case Nothing =>
    case One(_) =>
    case All(parts) => RepresentedYields(parts);
    case Chosen(_, inner) => RepresentedYield(inner);
    case Repeated(iterations) => RepresentedYields(iterations);
  }

  lemma {:induction false} RepresentedYields(ps: seq<Parse>)
    ensures YieldAll(RepresentedAll(ps)) == RepresentedWord(YieldAll(ps))
    decreases ps, 0
  {
    hide Represented, RepresentedWord;
    if ps != [] {
      RepresentedYield(ps[0]);
      RepresentedYields(ps[1..]);
      RepresentedAppend(Yield(ps[0]), YieldAll(ps[1..]));
      YieldAllCons(Represented(ps[0]), RepresentedAll(ps[1..]));
    }
  }

  lemma RepresentedAppend(a: Word, b: Word)
    ensures RepresentedWord(a + b) == RepresentedWord(a) + RepresentedWord(b)
  {
    hide Representative;
  }

  /** A parse of the widened tree is, character by character represented, one of the tree. */
  lemma {:induction false} WidenedParses(node: Node, p: Parse)
    requires Folded(node) && ParseOf(p, Widened(node))
    ensures ParseOf(Represented(p), node)
    decreases node
  {
    match node
    case Empty =>
    case Character(domain) => WidenedByRepresentative(domain, p.c);
    case Sequence(children) =>
      forall i | 0 <= i < |children| ensures ParseOf(Represented(p.parts[i]), children[i]) {
        WidenedParses(children[i], p.parts[i]);
      }
    case Alternation(branches) => WidenedParses(branches[p.index], p.inner);
    case Repetition(child, _, _, _) =>
      forall i | 0 <= i < |p.iterations| ensures ParseOf(Represented(p.iterations[i]), child) {
        WidenedParses(child, p.iterations[i]);
      }
  }

  lemma {:induction false} AlikeYields(p: Parse, q: Parse)
    requires Alike(p, q)
    ensures |Yield(p)| == |Yield(q)|
    decreases p, 0
  {
    match p
    case All(parts) => AlikeYieldsAll(parts, q.parts);
    case Chosen(_, inner) => AlikeYields(inner, q.inner);
    case _ =>
  }

  lemma {:induction false} AlikeYieldsAll(ps: seq<Parse>, qs: seq<Parse>)
    requires |ps| == |qs| && forall i | 0 <= i < |ps| :: Alike(ps[i], qs[i])
    ensures |YieldAll(ps)| == |YieldAll(qs)|
    decreases ps, 0
  {
    if ps != [] {
      AlikeYields(ps[0], qs[0]);
      AlikeYieldsAll(ps[1..], qs[1..]);
    }
  }

  lemma RepresentedLength(p: Parse)
    ensures |Yield(Represented(p))| == |Yield(p)|
  {
    RepresentedYield(p);
  }

  /** Parses of one word that are alike once represented are alike. */
  lemma {:induction false} AlikeBefore(p: Parse, q: Parse)
    requires Alike(Represented(p), Represented(q)) && Yield(p) == Yield(q)
    ensures Alike(p, q)
    decreases p, 0
  {
    match p
    case Nothing =>
    case One(_) =>
    case All(parts) => AlikeBeforeAll(parts, q.parts);
    case Chosen(_, inner) => AlikeBefore(inner, q.inner);
    case Repeated(iterations) =>
      if Represented(p) == Represented(q) {
        SameBefore(p, q);
      } else {
        RepresentedLength(p);
      }
  }

  lemma {:induction false} AlikeBeforeAll(ps: seq<Parse>, qs: seq<Parse>)
    requires |ps| == |qs| && (forall i | 0 <= i < |ps| :: Alike(Represented(ps[i]), Represented(qs[i])))
    requires YieldAll(ps) == YieldAll(qs)
    ensures forall i | 0 <= i < |ps| :: Alike(ps[i], qs[i])
    decreases ps, 0
  {
    if ps != [] {
      AlikeYields(Represented(ps[0]), Represented(qs[0]));
      RepresentedLength(ps[0]);
      RepresentedLength(qs[0]);
      HeadsAgree(Yield(ps[0]), YieldAll(ps[1..]), Yield(qs[0]), YieldAll(qs[1..]));
      AlikeBefore(ps[0], qs[0]);
      AlikeBeforeAll(ps[1..], qs[1..]);
      forall i | 0 <= i < |ps| ensures Alike(ps[i], qs[i]) {
        assert i == 0 || (ps[i] == ps[1..][i - 1] && qs[i] == qs[1..][i - 1]);
      }
    }
  }

  lemma HeadsAgree(a: Word, b: Word, c: Word, d: Word)
    requires |a| == |c| && a + b == c + d
    ensures a == c && b == d
  {
    assert a == (a + b)[..|a|] && c == (c + d)[..|a|];
    assert b == (a + b)[|a|..] && d == (c + d)[|a|..];
  }

  /** And those that are the same are the same. */
  lemma {:induction false} SameBefore(p: Parse, q: Parse)
    requires Represented(p) == Represented(q) && Yield(p) == Yield(q)
    ensures p == q
    decreases p, 0
  {
    match p
    case Nothing =>
    case One(_) =>
    case All(parts) => SameBeforeAll(parts, q.parts);
    case Chosen(_, inner) => SameBefore(inner, q.inner);
    case Repeated(iterations) => SameBeforeAll(iterations, q.iterations);
  }

  lemma {:induction false} SameBeforeAll(ps: seq<Parse>, qs: seq<Parse>)
    requires RepresentedAll(ps) == RepresentedAll(qs) && YieldAll(ps) == YieldAll(qs)
    ensures ps == qs
    decreases ps, 0
  {
    assert |ps| == |RepresentedAll(ps)| == |qs|;
    if ps != [] {
      assert Represented(ps[0]) == RepresentedAll(ps)[0] == Represented(qs[0]);
      assert RepresentedAll(ps)[1..] == RepresentedAll(ps[1..]) && RepresentedAll(qs)[1..] == RepresentedAll(qs[1..]);
      RepresentedLength(ps[0]);
      RepresentedLength(qs[0]);
      HeadsAgree(Yield(ps[0]), YieldAll(ps[1..]), Yield(qs[0]), YieldAll(qs[1..]));
      SameBefore(ps[0], qs[0]);
      SameBeforeAll(ps[1..], qs[1..]);
      assert ps == [ps[0]] + ps[1..] && qs == [qs[0]] + qs[1..];
    }
  }

  // ----- uniqueness carries over -----

  /** Every part of the widened tree is a part of the tree, widened. */
  lemma {:induction false} PartsAreWidened(part: Node, node: Node) returns (original: Node)
    requires Part(part, Widened(node))
    ensures Part(original, node) && part == Widened(original)
    decreases node
  {
    if part == Widened(node) {
      return node;
    }
    match node
    case Repetition(child, _, _, _) =>
      original := PartsAreWidened(part, child);
    case Sequence(children) =>
      var i :| 0 <= i < |children| && Part(part, Widened(children[i]));
      original := PartsAreWidened(part, children[i]);
      assert children[i] in children;
    case Alternation(branches) =>
      var i :| 0 <= i < |branches| && Part(part, Widened(branches[i]));
      original := PartsAreWidened(part, branches[i]);
      assert branches[i] in branches;
  }

  lemma {:induction false} PartsAreFolded(part: Node, node: Node)
    requires Folded(node) && Part(part, node)
    ensures Folded(part)
    decreases node
  {
    if part != node {
      match node
      case Repetition(child, _, _, _) => PartsAreFolded(part, child);
      case Sequence(children) =>
        var c :| c in children && Part(part, c);
        PartsAreFolded(part, c);
      case Alternation(branches) =>
        var b :| b in branches && Part(part, b);
        PartsAreFolded(part, b);
    }
  }

  /** Main result: if a tree of a case-insensitive reading passes the checks, every repetition of
      the widened tree matches any non-empty word in one way. */
  lemma WidenedRepetitionsAreUnambiguous(tree: Node, repetition: Node, p: Parse, q: Parse)
    requires ProperTree(tree) && Folded(tree) && Check(tree) == Safe
    requires Part(repetition, Widened(tree)) && repetition.Repetition?
    requires ParseOf(p, repetition) && ParseOf(q, repetition) && Yield(p) == Yield(q) && Yield(p) != []
    ensures p == q
  {
    hide ParseOf, Folded, ProperTree, Check, Part, Represented;
    var original := PartsAreWidened(repetition, tree);
    PartsAreFolded(original, tree);
    WidenedParses(original, p);
    WidenedParses(original, q);
    RepresentedYield(p);
    RepresentedYield(q);
    assert original.Repetition?;
    SafeRepetitionsAreUnambiguous(tree, original, Represented(p), Represented(q));
    SameBefore(p, q);
  }

  /** Main result: if it is settled besides, the widened tree matches every word in one way. */
  lemma WidenedSettledIsUnambiguous(tree: Node, p: Parse, q: Parse)
    requires ProperTree(tree) && Folded(tree) && Check(tree) == Safe && Settled(tree, [])
    requires ParseOf(p, Widened(tree)) && ParseOf(q, Widened(tree)) && Yield(p) == Yield(q)
    ensures Alike(p, q)
  {
    hide ParseOf, Folded, ProperTree, Check, Settled, Represented, Alike;
    WidenedParses(tree, p);
    WidenedParses(tree, q);
    RepresentedYield(p);
    RepresentedYield(q);
    SettledPatternsAreUnambiguous(tree, Represented(p), Represented(q));
    AlikeBefore(p, q);
  }
}
