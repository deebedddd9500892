/** The three static checks on a regex safety tree, and what passing them guarantees about
    the number of ways a repeated part can match. */
module RegexAmbiguity {
  import opened CharacterRanges
  import opened RegexTree

  // ----- the checks -----

  predicate HasRepetition(node: Node) {
    match node
    case Repetition(_, _, _, _) => true
    case Sequence(children) => exists c | c in children :: HasRepetition(c)
    case Alternation(branches) => exists b | b in branches :: HasRepetition(b)
    case _ => false
  }

  predicate HasNestedRepetition(node: Node) {
    match node
    case Repetition(child, _, _, _) => HasRepetition(child) || HasNestedRepetition(child)
    case Sequence(children) => exists c | c in children :: HasNestedRepetition(c)
    case Alternation(branches) => exists b | b in branches :: HasNestedRepetition(b)
    case _ => false
  }

  predicate BranchesOverlap(branches: seq<Node>) {
    || (exists b | b in branches :: CanMatchEmpty(b))
    || (exists i, j | 0 <= i < j < |branches| :: !ProvablyDisjoint(FirstDomain(branches[i]), FirstDomain(branches[j])))
  }

  predicate HasAmbiguousAlternation(node: Node) {
    match node
    case Alternation(branches) => BranchesOverlap(branches) || exists b | b in branches :: HasAmbiguousAlternation(b)
    case Sequence(children) => exists c | c in children :: HasAmbiguousAlternation(c)
    case Repetition(child, _, _, _) => HasAmbiguousAlternation(child)
    case _ => false
  }

  predicate HasAmbiguousRepeatedAlternation(node: Node) {
    match node
    case Repetition(child, _, _, _) => HasAmbiguousAlternation(child) || HasAmbiguousRepeatedAlternation(child)
    case Sequence(children) => exists c | c in children :: HasAmbiguousRepeatedAlternation(c)
    case Alternation(branches) => exists b | b in branches :: HasAmbiguousRepeatedAlternation(b)
    case _ => false
  }

  /** The variable repetitions inside a node, outermost only. */
  function VariableRepetitions(node: Node): seq<Node>
    decreases node, 0
  {
    match node
    case Repetition(_, _, _, variable) => if variable then [node] else []
    case Sequence(children) => VariableRepetitionsOf(children)
    case Alternation(branches) => VariableRepetitionsOf(branches)
    case _ => []
  }

  function VariableRepetitionsOf(nodes: seq<Node>): seq<Node>
    decreases nodes, 0
  {
    if nodes == [] then [] else VariableRepetitions(nodes[0]) + VariableRepetitionsOf(nodes[1..])
  }

  /** The first domain of a repetition's body. */
  function BodyDomain(node: Node): Domain {
    if node.Repetition? then FirstDomain(node.child) else AnyCharacter
  }

  predicate RepetitionsOverlap(left: seq<Node>, right: seq<Node>) {
    exists l, r | l in left && r in right :: !ProvablyDisjoint(BodyDomain(l), BodyDomain(r))
  }

  predicate HasAmbiguousSequentialRepetition(node: Node)
    decreases node, 0
  {
    match node
    case Sequence(children) => OverlapsInOrder([], children)
    case Alternation(branches) => exists b | b in branches :: HasAmbiguousSequentialRepetition(b)
    case Repetition(child, _, _, _) => HasAmbiguousSequentialRepetition(child)
    case _ => false
  }

  /** The loop over a sequence's children; `previous` holds the repetitions seen so far. */
  predicate OverlapsInOrder(previous: seq<Node>, nodes: seq<Node>)
    decreases nodes, 0
  {
    nodes != [] && (
      || HasAmbiguousSequentialRepetition(nodes[0])
      || RepetitionsOverlap(previous, VariableRepetitions(nodes[0]))
      || OverlapsInOrder(previous + VariableRepetitions(nodes[0]), nodes[1..]))
  }

  datatype Verdict = Safe | NestedQuantifier | AmbiguousAlternation | AmbiguousRepetition

  /** The checks in the order `detectUnsafeQuantifiedGroup` makes them. */
  function Check(node: Node): Verdict {
    if HasNestedRepetition(node) then NestedQuantifier
    else if HasAmbiguousRepeatedAlternation(node) then AmbiguousAlternation
    else if HasAmbiguousSequentialRepetition(node) then AmbiguousRepetition
    else Safe
  }

  /** A body that may be repeated: no repetition inside, every alternation decided by its
      first character. */
  predicate Deterministic(node: Node) {
    ProperTree(node) && !HasRepetition(node) && !HasAmbiguousAlternation(node)
  }

  /** `part` is `node` itself or occurs inside it. */
  predicate Part(part: Node, node: Node) {
    part == node ||
    match node
    case Repetition(child, _, _, _) => Part(part, child)
    case Sequence(children) => exists c | c in children :: Part(part, c)
    case Alternation(branches) => exists b | b in branches :: Part(part, b)
    case _ => false
  }

  // ----- parses -----

  /** One way a node matches: which branch was taken, how a repetition was divided. */
  datatype Parse =
    | Nothing
    | One(c: nat)
    | All(parts: seq<Parse>)
    | Chosen(index: nat, inner: Parse)
    | Repeated(iterations: seq<Parse>)

  function Yield(parse: Parse): Word
    decreases parse, 0
  {
    match parse
    case Nothing => []
    case One(c) => [c]
    case All(parts) => YieldAll(parts)
    case Chosen(_, inner) => Yield(inner)
    case Repeated(iterations) => YieldAll(iterations)
  }

  function YieldAll(parses: seq<Parse>): Word
    decreases parses, 0
  {
    if parses == [] then [] else Yield(parses[0]) + YieldAll(parses[1..])
  }

  lemma YieldAllCons(head: Parse, tail: seq<Parse>)
    ensures YieldAll([head] + tail) == Yield(head) + YieldAll(tail)
  {
    assert ([head] + tail)[1..] == tail;
  }

  ghost predicate ParseOf(parse: Parse, node: Node)
    decreases node
  {
    match node
    case Empty => parse.Nothing?
    case Character(domain) => parse.One? && InDomain(domain, parse.c)
    case Sequence(children) =>
      && parse.All? && |parse.parts| == |children|
      && forall i | 0 <= i < |children| :: ParseOf(parse.parts[i], children[i])
    case Alternation(branches) =>
      parse.Chosen? && parse.index < |branches| && ParseOf(parse.inner, branches[parse.index])
    case Repetition(child, minimum, maximum, _) =>
      && parse.Repeated? && Allowed(minimum, maximum, |parse.iterations|)
      && forall i | 0 <= i < |parse.iterations| :: ParseOf(parse.iterations[i], child)
  }

  ghost predicate ParsesOf(parses: seq<Parse>, nodes: seq<Node>) {
    |parses| == |nodes| && forall i | 0 <= i < |nodes| :: ParseOf(parses[i], nodes[i])
  }

  ghost predicate IterationsOf(parses: seq<Parse>, body: Node) {
    forall i | 0 <= i < |parses| :: ParseOf(parses[i], body)
  }

  lemma ParsesCons(head: Parse, tail: seq<Parse>, nodes: seq<Node>)
    requires nodes != [] && ParseOf(head, nodes[0]) && ParsesOf(tail, nodes[1..])
    ensures ParsesOf([head] + tail, nodes)
  {
    forall i | 0 <= i < |nodes| ensures ParseOf(([head] + tail)[i], nodes[i]) {
      if i > 0 {
        assert ([head] + tail)[i] == tail[i - 1] && nodes[i] == nodes[1..][i - 1];
      }
    }
  }

  lemma IterationsCons(head: Parse, tail: seq<Parse>, body: Node)
    requires ParseOf(head, body) && IterationsOf(tail, body)
    ensures IterationsOf([head] + tail, body)
  {
  }

  lemma {:induction false} ParseMatches(parse: Parse, node: Node)
    requires ParseOf(parse, node)
    ensures Matches(node, Yield(parse))
    decreases node, 0
  {
    match node
    case Empty =>
    case Character(_) =>
    case Sequence(children) => ParsesMatch(parse.parts, children);
    case Alternation(branches) => ParseMatches(parse.inner, branches[parse.index]);
    case Repetition(child, _, _, _) => IterationsMatch(parse.iterations, child);
  }

  lemma {:induction false} ParsesMatch(parses: seq<Parse>, nodes: seq<Node>)
    requires ParsesOf(parses, nodes)
    ensures MatchesInOrder(nodes, YieldAll(parses))
    decreases nodes, 0
  {
    if nodes != [] {
      ParseMatches(parses[0], nodes[0]);
      ParsesMatch(parses[1..], nodes[1..]);
      var head, tail := Yield(parses[0]), YieldAll(parses[1..]);
      var word := YieldAll(parses);
      assert word == head + tail && word[..|head|] == head && word[|head|..] == tail;
    }
  }

  lemma {:induction false} IterationsMatch(parses: seq<Parse>, body: Node)
    requires IterationsOf(parses, body)
    ensures MatchesTimes(body, |parses|, YieldAll(parses))
    decreases body, 1, |parses|
  {
    if parses != [] {
      ParseMatches(parses[0], body);
      IterationsMatch(parses[1..], body);
      var head, tail := Yield(parses[0]), YieldAll(parses[1..]);
      var word := YieldAll(parses);
      assert word == head + tail && word[..|head|] == head && word[|head|..] == tail;
    }
  }

  /** Parses are complete: every word a node denotes has one. */
  lemma {:induction false} MatchHasParse(node: Node, word: Word) returns (parse: Parse)
    requires Matches(node, word)
    ensures ParseOf(parse, node) && Yield(parse) == word
    decreases node, 0
  {
    match node
    case Empty => parse := Nothing;
    case Character(_) => parse := One(word[0]);
    case Sequence(children) =>
      var parts := MatchesHaveParses(children, word);
      parse := All(parts);
    case Alternation(branches) =>
      var i :| 0 <= i < |branches| && Matches(branches[i], word);
      var inner := MatchHasParse(branches[i], word);
      parse := Chosen(i, inner);
    case Repetition(child, minimum, maximum, _) =>
      var count: nat :| Allowed(minimum, maximum, count) && MatchesTimes(child, count, word);
      var iterations := TimesHasParses(child, count, word);
      parse := Repeated(iterations);
  }

  lemma {:induction false} MatchesHaveParses(nodes: seq<Node>, word: Word) returns (parses: seq<Parse>)
    requires MatchesInOrder(nodes, word)
    ensures ParsesOf(parses, nodes) && YieldAll(parses) == word
    decreases nodes, 0
  {
    parses := [];
    if nodes != [] {
      var i :| 0 <= i <= |word| && Matches(nodes[0], word[..i]) && MatchesInOrder(nodes[1..], word[i..]);
      var head := MatchHasParse(nodes[0], word[..i]);
      var tail := MatchesHaveParses(nodes[1..], word[i..]);
      parses := [head] + tail;
      YieldAllCons(head, tail);
      assert word[..i] + word[i..] == word;
      ParsesCons(head, tail, nodes);
    }
  }

  lemma {:induction false} TimesHasParses(body: Node, count: nat, word: Word) returns (parses: seq<Parse>)
    requires MatchesTimes(body, count, word)
    ensures |parses| == count && IterationsOf(parses, body) && YieldAll(parses) == word
    decreases body, 1, count
  {
    hide Matches, ParseOf, Yield;
    parses := [];
    if count > 0 {
      var i :| 0 <= i <= |word| && Matches(body, word[..i]) && MatchesTimes(body, count - 1, word[i..]);
      var head := MatchHasParse(body, word[..i]);
      var tail := TimesHasParses(body, count - 1, word[i..]);
      parses := [head] + tail;
      YieldAllCons(head, tail);
      assert word[..i] + word[i..] == word;
      IterationsCons(head, tail, body);
    }
  }

  /** Whatever the unknown domains really are, the ways of matching stay among those here, so
      that what holds of all parses of this tree holds of the actual ones. */
  lemma {:induction false} NarrowedParses(narrow: Node, node: Node, p: Parse)
    requires Narrows(narrow, node) && ParseOf(p, narrow)
    ensures ParseOf(p, node)
    decreases node
  {
    match node
    case Empty =>
    case Character(_) =>
    case Sequence(children) =>
      forall i | 0 <= i < |children| ensures ParseOf(p.parts[i], children[i]) {
        NarrowedParses(narrow.children[i], children[i], p.parts[i]);
      }
    case Alternation(branches) => NarrowedParses(narrow.branches[p.index], branches[p.index], p.inner);
    case Repetition(child, _, _, _) =>
      forall i | 0 <= i < |p.iterations| ensures ParseOf(p.iterations[i], child) {
        NarrowedParses(narrow.child, child, p.iterations[i]);
      }
  }

  // ----- one way to match a repeated body -----

  /** And so do the words. */
  lemma NarrowedMatches(narrow: Node, node: Node, word: Word)
    requires Narrows(narrow, node) && Matches(narrow, word)
    ensures Matches(node, word)
  {
    var p := MatchHasParse(narrow, word);
    NarrowedParses(narrow, node, p);
    ParseMatches(p, node);
  }

  lemma ComparablePrefixes(left: Word, right: Word, l: Word, r: Word)
    requires left + l <= right + r
    ensures left <= right || right <= left
    ensures left == right ==> l <= r
  {
    var long := right + r;
    assert left == long[..|left|] && right == long[..|right|];
    if left == right {
      assert l == (left + l)[|left|..] && r == long[|left|..];
    }
  }

  /** A deterministic body matches in one way, and no match is a proper prefix of another. */
  lemma {:induction false} OneParse(body: Node, p: Parse, q: Parse)
    requires Deterministic(body) && ParseOf(p, body) && ParseOf(q, body)
    requires Yield(p) <= Yield(q)
    ensures p == q
    decreases body, 0
  {
    match body
    case Empty =>
    case Character(_) => assert Yield(p)[0] == Yield(q)[0];
    case Sequence(children) =>
      OneParseInOrder(children, p.parts, q.parts);
    case Alternation(branches) =>
      BranchNotEmpty(branches, p.index, p.inner);
      BranchNotEmpty(branches, q.index, q.inner);
      assert Yield(p)[0] == Yield(q)[0];
      SameBranch(branches, p.index, q.index, Yield(p)[0]);
      OneParse(branches[p.index], p.inner, q.inner);
  }

  lemma {:induction false} OneParseInOrder(nodes: seq<Node>, ps: seq<Parse>, qs: seq<Parse>)
    requires forall n | n in nodes :: Deterministic(n)
    requires ParsesOf(ps, nodes) && ParsesOf(qs, nodes) && YieldAll(ps) <= YieldAll(qs)
    ensures ps == qs
    decreases nodes, 0
  {
    if nodes != [] {
      ComparablePrefixes(Yield(ps[0]), Yield(qs[0]), YieldAll(ps[1..]), YieldAll(qs[1..]));
      if Yield(ps[0]) <= Yield(qs[0]) {
        OneParse(nodes[0], ps[0], qs[0]);
      } else {
        OneParse(nodes[0], qs[0], ps[0]);
      }
      OneParseInOrder(nodes[1..], ps[1..], qs[1..]);
      assert ps == [ps[0]] + ps[1..] && qs == [qs[0]] + qs[1..];
    }
  }

  lemma BranchNotEmpty(branches: seq<Node>, i: nat, inner: Parse)
    requires i < |branches| && ProperTree(branches[i]) && !BranchesOverlap(branches)
    requires ParseOf(inner, branches[i])
    ensures Yield(inner) != [] && InDomain(FirstDomain(branches[i]), Yield(inner)[0])
  {
    ParseMatches(inner, branches[i]);
    assert branches[i] in branches;
    if Yield(inner) == [] {
      EmptyMeansNullable(branches[i]);
    }
    FirstDomainSound(branches[i], Yield(inner));
  }

  lemma SameBranch(branches: seq<Node>, i: nat, j: nat, c: nat)
    requires i < |branches| && j < |branches| && !BranchesOverlap(branches)
    requires forall b | b in branches :: ProperTree(b)
    requires InDomain(FirstDomain(branches[i]), c) && InDomain(FirstDomain(branches[j]), c)
    ensures i == j
  {
    if i != j {
      var low, high := if i < j then i else j, if i < j then j else i;
      FirstDomainProper(branches[low]);
      FirstDomainProper(branches[high]);
      DisjointnessIsExact(FirstDomain(branches[low]), FirstDomain(branches[high]));
    }
  }

  /** The words of a deterministic body form a prefix-free set. */
  lemma BodyIsPrefixFree(body: Node, left: Word, right: Word)
    requires Deterministic(body) && Matches(body, left) && Matches(body, right) && left <= right
    ensures left == right
  {
    var p := MatchHasParse(body, left);
    var q := MatchHasParse(body, right);
    OneParse(body, p, q);
  }

  // ----- one way to divide a word into iterations -----

  ghost predicate NonEmptyYields(parses: seq<Parse>) {
    forall i | 0 <= i < |parses| :: Yield(parses[i]) != []
  }

  /** Two runs of iterations of the same body that start a common text agree as far as
      the shorter one goes. */
  lemma {:induction false} IterationsComparable(body: Node, ps: seq<Parse>, qs: seq<Parse>, r: Word, s: Word)
    requires Deterministic(body) && IterationsOf(ps, body) && IterationsOf(qs, body)
    requires YieldAll(ps) + r == YieldAll(qs) + s
    ensures ps <= qs || qs <= ps
    decreases |ps|
  {
    if ps != [] && qs != [] {
      var pt, qt := YieldAll(ps[1..]) + r, YieldAll(qs[1..]) + s;
      assert YieldAll(ps) + r == Yield(ps[0]) + pt;
      assert YieldAll(qs) + s == Yield(qs[0]) + qt;
      SameHead(body, ps[0], qs[0], pt, qt);
      IterationsComparable(body, ps[1..], qs[1..], r, s);
      assert ps == [ps[0]] + ps[1..] && qs == [qs[0]] + qs[1..];
    }
  }

  lemma SameHead(body: Node, p: Parse, q: Parse, pt: Word, qt: Word)
    requires Deterministic(body) && ParseOf(p, body) && ParseOf(q, body)
    requires Yield(p) + pt == Yield(q) + qt
    ensures p == q && pt == qt
  {
    ComparablePrefixes(Yield(p), Yield(q), pt, qt);
    if Yield(p) <= Yield(q) {
      OneParse(body, p, q);
    } else {
      OneParse(body, q, p);
    }
    assert pt == (Yield(p) + pt)[|Yield(p)|..] && qt == (Yield(q) + qt)[|Yield(q)|..];
  }

  lemma Associates(a: Word, b: Word, c: Word)
    ensures a + (b + c) == (a + b) + c
  {
  }

  lemma {:induction false} YieldAllAppend(ps: seq<Parse>, qs: seq<Parse>)
    ensures YieldAll(ps + qs) == YieldAll(ps) + YieldAll(qs)
  {
    if ps == [] {
      assert ps + qs == qs;
    } else {
      YieldAllAppend(ps[1..], qs);
      assert ps + qs == [ps[0]] + (ps[1..] + qs);
      YieldAllCons(ps[0], ps[1..] + qs);
      Associates(Yield(ps[0]), YieldAll(ps[1..]), YieldAll(qs));
    }
  }

  lemma YieldAllSplit(ps: seq<Parse>, k: nat)
    requires k <= |ps|
    ensures YieldAll(ps) == YieldAll(ps[..k]) + YieldAll(ps[k..])
  {
    YieldAllAppend(ps[..k], ps[k..]);
    assert ps[..k] + ps[k..] == ps;
  }

  /** A body that matches some non-empty word has no empty iterations. */
  lemma {:induction false} NoEmptyIterations(body: Node, ps: seq<Parse>, sample: Parse)
    requires Deterministic(body) && IterationsOf(ps, body)
    requires ParseOf(sample, body) && Yield(sample) != []
    ensures NonEmptyYields(ps)
  {
    forall i | 0 <= i < |ps| ensures Yield(ps[i]) != [] {
      if Yield(ps[i]) == [] {
        OneParse(body, ps[i], sample);
      }
    }
  }

  lemma {:induction false} SomeNonEmpty(ps: seq<Parse>) returns (i: nat)
    requires YieldAll(ps) != []
    ensures i < |ps| && Yield(ps[i]) != []
  {
    if Yield(ps[0]) != [] {
      return 0;
    }
    i := SomeNonEmpty(ps[1..]);
    i := i + 1;
  }

  /** A non-empty word has one division into iterations, hence one iteration count. */
  lemma OneDivision(body: Node, ps: seq<Parse>, qs: seq<Parse>)
    requires Deterministic(body) && IterationsOf(ps, body) && IterationsOf(qs, body)
    requires YieldAll(ps) == YieldAll(qs) && YieldAll(ps) != []
    ensures ps == qs
  {
    var i := SomeNonEmpty(ps);
    NoEmptyIterations(body, ps, ps[i]);
    NoEmptyIterations(body, qs, ps[i]);
    IterationsComparable(body, ps, qs, [], []);
    assert YieldAll(ps) + [] == YieldAll(qs) + [];
    if ps < qs {
      ShorterListShorterYield(ps, qs);
    } else if qs < ps {
      ShorterListShorterYield(qs, ps);
    }
  }

  lemma ShorterListShorterYield(ps: seq<Parse>, qs: seq<Parse>)
    requires ps < qs && NonEmptyYields(qs)
    ensures |YieldAll(ps)| < |YieldAll(qs)|
  {
    YieldAllSplit(qs, |ps|);
    assert qs[..|ps|] == ps && qs[|ps|..][0] == qs[|ps|];
  }

  // ----- adjacent variable repetitions -----

  ghost predicate AdjacentRun(run: seq<Node>) {
    && (forall i | 0 <= i < |run| :: run[i].Repetition? && ProperTree(run[i]) && Deterministic(run[i].child))
    && (forall i, j | 0 <= i < j < |run| :: ProvablyDisjoint(BodyDomain(run[i]), BodyDomain(run[j])))
  }

  /** A non-empty text matched by a run starts with a character of some member's domain. */
  lemma {:induction false} RunStartsWith(run: seq<Node>, ps: seq<Parse>) returns (i: nat)
    requires AdjacentRun(run) && ParsesOf(ps, run) && YieldAll(ps) != []
    ensures i < |run| && InDomain(BodyDomain(run[i]), YieldAll(ps)[0])
    decreases |run|
  {
    if Yield(ps[0]) != [] {
      ParseMatches(ps[0], run[0]);
      FirstDomainSound(run[0], Yield(ps[0]));
      return 0;
    }
    i := RunStartsWith(run[1..], ps[1..]);
    i := i + 1;
  }

  lemma NoSharedCharacter(left: Node, right: Node, c: nat)
    requires ProperTree(left) && ProperTree(right) && ProvablyDisjoint(BodyDomain(left), BodyDomain(right))
    requires left.Repetition? && right.Repetition? && InDomain(BodyDomain(left), c)
    ensures !InDomain(BodyDomain(right), c)
  {
    FirstDomainProper(left.child);
    FirstDomainProper(right.child);
    DisjointnessIsExact(BodyDomain(left), BodyDomain(right));
  }

  /** No text after a repetition of `run[0]` can be both more iterations of it and matched
      by the rest of the run. */
  lemma {:induction false} NoLongerShare(run: seq<Node>, ps: seq<Parse>, qs: seq<Parse>)
    requires run != [] && AdjacentRun(run) && ParsesOf(ps, run) && ParsesOf(qs, run)
    requires YieldAll(ps) == YieldAll(qs) && ps[0].iterations <= qs[0].iterations
    ensures Yield(ps[0]) == Yield(qs[0])
  {
    var xs, ys := ps[0].iterations, qs[0].iterations;
    YieldAllSplit(ys, |xs|);
    assert ys[..|xs|] == xs;
    var more := ys[|xs|..];
    var rest := YieldAll(ps[1..]);
    assert YieldAll(qs) == YieldAll(xs) + (YieldAll(more) + YieldAll(qs[1..]));
    assert rest == YieldAll(ps)[|YieldAll(xs)|..] == YieldAll(more) + YieldAll(qs[1..]);
    if YieldAll(more) != [] {
      var c := SomeFirst(run[0].child, more);
      var i := RunStartsWith(run[1..], ps[1..]);
      NoSharedCharacter(run[0], run[i + 1], c);
    }
  }

  lemma {:induction false} SomeFirst(body: Node, ps: seq<Parse>) returns (c: nat)
    requires ProperTree(body) && IterationsOf(ps, body) && YieldAll(ps) != []
    ensures c == YieldAll(ps)[0] && InDomain(FirstDomain(body), c)
  {
    c := YieldAll(ps)[0];
    if Yield(ps[0]) != [] {
      ParseMatches(ps[0], body);
      FirstDomainSound(body, Yield(ps[0]));
    } else {
      var d := SomeFirst(body, ps[1..]);
    }
  }

  /** A run of adjacent variable repetitions shares a word out among its members in one
      way, and each non-empty share is matched in one way. */
  lemma {:induction false} OneSharing(run: seq<Node>, ps: seq<Parse>, qs: seq<Parse>)
    requires AdjacentRun(run) && ParsesOf(ps, run) && ParsesOf(qs, run)
    requires YieldAll(ps) == YieldAll(qs)
    ensures forall i | 0 <= i < |run| :: Yield(ps[i]) == Yield(qs[i]) && (Yield(ps[i]) != [] ==> ps[i] == qs[i])
    decreases |run|
  {
    if run != [] {
      var body := run[0].child;
      IterationsComparable(body, ps[0].iterations, qs[0].iterations, YieldAll(ps[1..]), YieldAll(qs[1..]));
      if ps[0].iterations <= qs[0].iterations {
        NoLongerShare(run, ps, qs);
      } else {
        NoLongerShare(run, qs, ps);
      }
      if Yield(ps[0]) != [] {
        OneDivision(body, ps[0].iterations, qs[0].iterations);
      }
      assert YieldAll(ps[1..]) == YieldAll(ps)[|Yield(ps[0])|..] == YieldAll(qs[1..]);
      OneSharing(run[1..], ps[1..], qs[1..]);
      forall i | 0 <= i < |run|
        ensures Yield(ps[i]) == Yield(qs[i]) && (Yield(ps[i]) != [] ==> ps[i] == qs[i])
      {
        if i > 0 {
          assert ps[i] == ps[1..][i - 1] && qs[i] == qs[1..][i - 1];
        }
      }
    }
  }

  // ----- what a safe verdict says about every part of the tree -----

  lemma {:induction false} PartsAreProper(part: Node, node: Node)
    requires ProperTree(node) && Part(part, node)
    ensures ProperTree(part)
  {
    if part != node {
      match node
      case Repetition(child, _, _, _) => PartsAreProper(part, child);
      case Sequence(children) => var c :| c in children && Part(part, c); PartsAreProper(part, c);
      case Alternation(branches) => var b :| b in branches && Part(part, b); PartsAreProper(part, b);
    }
  }

  lemma {:induction false} PartsKeepChecks(part: Node, node: Node)
    requires Part(part, node)
    ensures !HasNestedRepetition(node) ==> !HasNestedRepetition(part)
    ensures !HasAmbiguousRepeatedAlternation(node) ==> !HasAmbiguousRepeatedAlternation(part)
    ensures !HasAmbiguousSequentialRepetition(node) ==> !HasAmbiguousSequentialRepetition(part)
  {
    if part != node {
      match node
      case Repetition(child, _, _, _) => PartsKeepChecks(part, child);
      case Sequence(children) =>
        var i :| 0 <= i < |children| && Part(part, children[i]);
        PartsKeepChecks(part, children[i]);
        if !HasAmbiguousSequentialRepetition(node) {
          MembersPass([], children, i);
        }
      case Alternation(branches) => var b :| b in branches && Part(part, b); PartsKeepChecks(part, b);
    }
  }

  lemma {:induction false} MembersPass(previous: seq<Node>, nodes: seq<Node>, i: nat)
    requires !OverlapsInOrder(previous, nodes) && i < |nodes|
    ensures !HasAmbiguousSequentialRepetition(nodes[i])
    decreases |nodes|
  {
    if i > 0 {
      MembersPass(previous + VariableRepetitions(nodes[0]), nodes[1..], i - 1);
    }
  }

  /** Two repetitions found in different children of a checked sequence are disjoint. */
  lemma {:induction false} EarlierRepetitionsDisjoint(previous: seq<Node>, nodes: seq<Node>, l: Node, j: nat, r: Node)
    requires !OverlapsInOrder(previous, nodes) && j < |nodes|
    requires l in previous && r in VariableRepetitions(nodes[j])
    ensures ProvablyDisjoint(BodyDomain(l), BodyDomain(r))
    decreases |nodes|
  {
    if j > 0 {
      EarlierRepetitionsDisjoint(previous + VariableRepetitions(nodes[0]), nodes[1..], l, j - 1, r);
    }
  }

  lemma {:induction false} SiblingRepetitionsDisjoint(previous: seq<Node>, nodes: seq<Node>, i: nat, j: nat, l: Node,
      r: Node)
    requires !OverlapsInOrder(previous, nodes) && i < j < |nodes|
    requires l in VariableRepetitions(nodes[i]) && r in VariableRepetitions(nodes[j])
    ensures ProvablyDisjoint(BodyDomain(l), BodyDomain(r))
    decreases |nodes|
  {
    var seen := previous + VariableRepetitions(nodes[0]);
    if i == 0 {
      EarlierRepetitionsDisjoint(seen, nodes[1..], l, j - 1, r);
    } else {
      SiblingRepetitionsDisjoint(seen, nodes[1..], i - 1, j - 1, l, r);
    }
  }

  /** In a tree judged safe, the body of every repetition is deterministic. */
  lemma SafeBodies(tree: Node, repetition: Node)
    requires ProperTree(tree) && Check(tree) == Safe
    requires Part(repetition, tree) && repetition.Repetition?
    ensures Deterministic(repetition.child)
  {
    PartsAreProper(repetition, tree);
    PartsKeepChecks(repetition, tree);
  }

  /** Main result 1: in a tree judged safe, every repetition matches a given non-empty word
      in at most one way: one iteration count, one division, one choice in every branch. */
  lemma SafeRepetitionsAreUnambiguous(tree: Node, repetition: Node, p: Parse, q: Parse)
    requires ProperTree(tree) && Check(tree) == Safe
    requires Part(repetition, tree) && repetition.Repetition?
    requires ParseOf(p, repetition) && ParseOf(q, repetition)
    requires Yield(p) == Yield(q) && Yield(p) != []
    ensures p == q
  {
    SafeBodies(tree, repetition);
    OneDivision(repetition.child, p.iterations, q.iterations);
  }

  /** Main result 2: in a tree judged safe, a run of directly adjacent variable repetitions
      shares any word out in one way. */
  lemma SafeRunsAreUnambiguous(tree: Node, sequence: Node, from: nat, to: nat, ps: seq<Parse>, qs: seq<Parse>)
    requires ProperTree(tree) && Check(tree) == Safe
    requires Part(sequence, tree) && sequence.Sequence? && from <= to <= |sequence.children|
    requires forall i | from <= i < to :: sequence.children[i].Repetition? && sequence.children[i].variable
    requires ParsesOf(ps, sequence.children[from..to]) && ParsesOf(qs, sequence.children[from..to])
    requires YieldAll(ps) == YieldAll(qs)
    ensures forall i | 0 <= i < to - from :: Yield(ps[i]) == Yield(qs[i]) && (Yield(ps[i]) != [] ==> ps[i] == qs[i])
  {
    SafeRunIsAdjacent(tree, sequence, from, to);
    OneSharing(sequence.children[from..to], ps, qs);
  }

  lemma SafeRunIsAdjacent(tree: Node, sequence: Node, from: nat, to: nat)
    requires ProperTree(tree) && Check(tree) == Safe
    requires Part(sequence, tree) && sequence.Sequence? && from <= to <= |sequence.children|
    requires forall i | from <= i < to :: sequence.children[i].Repetition? && sequence.children[i].variable
    ensures AdjacentRun(sequence.children[from..to])
  {
    hide Check, ProperTree, Part, Deterministic, ProvablyDisjoint;
    var run := sequence.children[from..to];
    forall i | 0 <= i < |run| ensures run[i].Repetition? && ProperTree(run[i]) && Deterministic(run[i].child) {
      assert run[i] == sequence.children[from + i];
      SafeMember(tree, sequence, from + i);
    }
    forall i, j | 0 <= i < j < |run| ensures ProvablyDisjoint(BodyDomain(run[i]), BodyDomain(run[j])) {
      assert run[i] == sequence.children[from + i] && run[j] == sequence.children[from + j];
      SafeSiblings(tree, sequence, from + i, from + j);
    }
  }

  lemma SafeMember(tree: Node, sequence: Node, i: nat)
    requires ProperTree(tree) && Check(tree) == Safe && Part(sequence, tree)
    requires sequence.Sequence? && i < |sequence.children| && sequence.children[i].Repetition?
    ensures ProperTree(sequence.children[i]) && Deterministic(sequence.children[i].child)
  {
    var member := sequence.children[i];
    assert member in sequence.children && Part(member, member);
    PartOfPart(member, sequence, tree);
    PartsAreProper(member, tree);
    SafeBodies(tree, member);
  }

  lemma SafeSiblings(tree: Node, sequence: Node, i: nat, j: nat)
    requires Check(tree) == Safe && Part(sequence, tree)
    requires sequence.Sequence? && i < j < |sequence.children|
    requires sequence.children[i].Repetition? && sequence.children[i].variable
    requires sequence.children[j].Repetition? && sequence.children[j].variable
    ensures ProvablyDisjoint(BodyDomain(sequence.children[i]), BodyDomain(sequence.children[j]))
  {
    PartsKeepChecks(sequence, tree);
    SiblingRepetitionsDisjoint([], sequence.children, i, j, sequence.children[i], sequence.children[j]);
  }

  lemma {:induction false} PartOfPart(inner: Node, part: Node, node: Node)
    requires Part(inner, part) && Part(part, node)
    ensures Part(inner, node)
  {
    if part != node {
      match node
      case Repetition(child, _, _, _) => PartOfPart(inner, part, child);
      case Sequence(children) => var c :| c in children && Part(part, c); PartOfPart(inner, part, c);
      case Alternation(branches) => var b :| b in branches && Part(part, b); PartOfPart(inner, part, b);
    }
  }

  // ----- how precise the alternation check is -----

  /** Two branches that the first character may fail to tell apart. */
  ghost predicate Confusable(left: Node, right: Node) {
    || FirstDomain(left).AnyCharacter? || FirstDomain(right).AnyCharacter?
    || exists c: nat :: Starts(left, c) && Starts(right, c)
  }

  /** For live branches the check fires exactly when a branch can match nothing, or two
      branches have an unknown domain or can start with the same character. */
  lemma BranchOverlapIsExact(branches: seq<Node>)
    requires forall b | b in branches :: Live(b)
    ensures BranchesOverlap(branches) <==>
      || (exists b | b in branches :: Matches(b, []))
      || (exists i, j | 0 <= i < j < |branches| :: Confusable(branches[i], branches[j]))
  {
    forall b | b in branches ensures CanMatchEmpty(b) <==> Matches(b, []) {
      LiveIsProper(b);
      CanMatchEmptyIsExact(b);
    }
    forall i, j | 0 <= i < j < |branches|
      ensures ProvablyDisjoint(FirstDomain(branches[i]), FirstDomain(branches[j])) <==>
                !Confusable(branches[i], branches[j])
    {
      ConfusableIsExact(branches[i], branches[j]);
    }
    if exists b | b in branches :: Matches(b, []) {
      var b :| b in branches && Matches(b, []);
      assert CanMatchEmpty(b);
    }
  }

  lemma ConfusableIsExact(left: Node, right: Node)
    requires Live(left) && Live(right)
    ensures ProvablyDisjoint(FirstDomain(left), FirstDomain(right)) <==> !Confusable(left, right)
  {
    LiveIsProper(left);
    LiveIsProper(right);
    FirstDomainProper(left);
    FirstDomainProper(right);
    DisjointnessIsExact(FirstDomain(left), FirstDomain(right));
    forall c: nat
      ensures InDomain(FirstDomain(left), c) <==> Starts(left, c)
      ensures InDomain(FirstDomain(right), c) <==> Starts(right, c)
    {
      FirstDomainIsExact(left, c);
      FirstDomainIsExact(right, c);
    }
  }

  // ----- what the checks do not promise -----

  const A: nat := 0x61
  const B: nat := 0x62

  function Only(c: nat): Node { Character(OneOf([Range(c, c)])) }

  function Star(body: Node): Node { Repetition(body, 0, Unbounded, true) }

  lemma StarsAreSafe(either: Node)
    requires either.Character? && ProperDomain(either.domain)
    ensures var tree := Sequence([Star(Only(A)), either, Star(Only(B))]); ProperTree(tree) && Check(tree) == Safe
  {
    var left, right := Star(Only(A)), Star(Only(B));
    var children := [left, either, right];
    assert BodyDomain(left) == OneOf([Range(A, A)]) && BodyDomain(right) == OneOf([Range(B, B)]);
    assert !RepetitionsOverlap([left], [right]);
    assert children[1..] == [either, right] && children[1..][1..] == [right] && children[1..][1..][1..] == [];
    assert VariableRepetitions(left) == [left] && VariableRepetitions(right) == [right]
        && VariableRepetitions(either) == [];
    assert [] + [left] == [left] && [left] + [] == [left];
    assert forall n | n in children ::
        !HasAmbiguousSequentialRepetition(n) && !HasNestedRepetition(n) && !HasAmbiguousRepeatedAlternation(n);
    assert !OverlapsInOrder([left] + [right], []);
    assert !OverlapsInOrder([left], [right]);
    assert !OverlapsInOrder([left], [either, right]);
    assert !OverlapsInOrder([], children);
  }

  lemma OnlyContains(c: nat)
    ensures InRanges([Range(c, c)], c)
  {
    assert [Range(c, c)][0].start <= c;
  }

  /** Fixed text between two repetitions can still be shared in several ways: the tree of
      `a*[ab]b*` is judged safe, yet it matches "ab" in two ways. */
  lemma SafeIsNotUnambiguous() returns (tree: Node, p: Parse, q: Parse)
    ensures ProperTree(tree) && Check(tree) == Safe
    ensures ParseOf(p, tree) && ParseOf(q, tree) && Yield(p) == Yield(q) == [A, B] && p != q
  {
    var either := Character(OneOf([Range(A, B)]));
    StarsAreSafe(either);
    tree := Sequence([Star(Only(A)), either, Star(Only(B))]);
    p := All([Repeated([]), One(A), Repeated([One(B)])]);
    q := All([Repeated([One(A)]), One(B), Repeated([])]);
    OnlyContains(A);
    OnlyContains(B);
    assert [Range(A, B)][0].start <= A < B <= [Range(A, B)][0].end;
    YieldThree(p.parts);
    YieldThree(q.parts);
    assert YieldAll([One(B)]) == [B] && YieldAll([One(A)]) == [A];
  }

  lemma YieldThree(parts: seq<Parse>)
    requires |parts| == 3
    ensures YieldAll(parts) == Yield(parts[0]) + Yield(parts[1]) + Yield(parts[2])
  {
    assert parts[1..][0] == parts[1] && parts[1..][1..][0] == parts[2] && parts[1..][1..][1..] == [];
    assert YieldAll(parts[1..][1..]) == Yield(parts[2]) + [];
  }
}
