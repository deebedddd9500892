/** The regex safety tree, the words it denotes, and the two static facts computed on it:
    whether a node can match the empty word and which characters can start a match. */
module RegexTree {
  import opened CharacterRanges

  /** The largest repetition count: `Unbounded` stands for positive infinity. */
  datatype Maximum = Unbounded | AtMost(count: nat)

  datatype Node =
    | Empty
    | Character(domain: Domain)
    | Sequence(children: seq<Node>)
    | Alternation(branches: seq<Node>)
    | Repetition(child: Node, minimum: nat, maximum: Maximum, variable: bool)

  /** A word is a sequence of code points. */
  type Word = seq<nat>

  // ----- denotation -----

  /** The words of a node. Anchors and assertions are parsed as `Empty`; a character whose
      domain is not known stands for every character, see `NarrowedMatches`. */
  ghost predicate Matches(node: Node, word: Word)
    decreases node, 0
  {
    match node
    case Empty => word == []
    case Character(domain) => |word| == 1 && InDomain(domain, word[0])
    case Sequence(children) => MatchesInOrder(children, word)
    case Alternation(branches) => exists b | b in branches :: Matches(b, word)
    case Repetition(child, minimum, maximum, _) =>
      exists count: nat :: Allowed(minimum, maximum, count) && MatchesTimes(child, count, word)
  }

  ghost predicate MatchesInOrder(nodes: seq<Node>, word: Word)
    decreases nodes, 0
  {
    if nodes == [] then word == []
    else exists i :: 0 <= i <= |word| && Matches(nodes[0], word[..i]) && MatchesInOrder(nodes[1..], word[i..])
  }

  ghost predicate MatchesTimes(node: Node, count: nat, word: Word)
    decreases node, 1, count
  {
    if count == 0 then word == []
    else exists i :: 0 <= i <= |word| && Matches(node, word[..i]) && MatchesTimes(node, count - 1, word[i..])
  }

  predicate Allowed(minimum: nat, maximum: Maximum, count: nat) {
    minimum <= count && (maximum.AtMost? ==> count <= maximum.count)
  }

  // ----- well-formed trees -----

  /** Every range is proper: it does not end before it starts. */
  predicate ProperTree(node: Node) {
    match node
    case Empty => true
    case Character(domain) => ProperDomain(domain)
    case Sequence(children) => forall c | c in children :: ProperTree(c)
    case Alternation(branches) => forall b | b in branches :: ProperTree(b)
    case Repetition(child, _, _, _) => ProperTree(child)
  }

  /** Every repetition admits some count. */
  predicate CountsOrdered(node: Node) {
    match node
    case Empty => true
    case Character(_) => true
    case Sequence(children) => forall c | c in children :: CountsOrdered(c)
    case Alternation(branches) => forall b | b in branches :: CountsOrdered(b)
    case Repetition(child, minimum, maximum, _) => CountsOrdered(child) && Allowed(minimum, maximum, minimum)
  }

  /** Proper, and no part of the tree is unmatchable: no empty class, no repetition
      that is never taken. */
  predicate Live(node: Node) {
    match node
    case Empty => true
    case Character(domain) => ProperDomain(domain) && domain != OneOf([])
    case Sequence(children) => forall c | c in children :: Live(c)
    case Alternation(branches) => branches != [] && forall b | b in branches :: Live(b)
    case Repetition(child, minimum, maximum, _) =>
      Live(child) && Allowed(minimum, maximum, minimum) && maximum != AtMost(0)
  }

  // ----- the analyser's functions -----

  predicate CanMatchEmpty(node: Node) {
    match node
    case Empty => true
    case Character(_) => false
    case Sequence(children) => forall c | c in children :: CanMatchEmpty(c)
    case Alternation(branches) => exists b | b in branches :: CanMatchEmpty(b)
    case Repetition(child, minimum, _, _) => minimum == 0 || CanMatchEmpty(child)
  }

  function FirstDomain(node: Node): Domain
    decreases node, 0
  {
    match node
    case Empty => OneOf([])
    case Character(domain) => domain
    case Sequence(children) => Merged(CollectFirst(children, true))
    case Alternation(branches) => Merged(CollectFirst(branches, false))
    case Repetition(child, _, _, _) => FirstDomain(child)
  }

  /** The ranges gathered by `unionRegexNodeDomains`, before they are merged. */
  function CollectFirst(nodes: seq<Node>, stopAfterRequiredNode: bool): Domain
    decreases nodes, 0
  {
    if nodes == [] then OneOf([])
    else
      var domain := FirstDomain(nodes[0]);
      if domain.AnyCharacter? then AnyCharacter
      else if stopAfterRequiredNode && !CanMatchEmpty(nodes[0]) then domain
      else
        var rest := CollectFirst(nodes[1..], stopAfterRequiredNode);
        if rest.AnyCharacter? then AnyCharacter else OneOf(domain.ranges + rest.ranges)
  }

  function Merged(domain: Domain): Domain {
    if domain.OneOf? then OneOf(Merge(domain.ranges)) else domain
  }

  // ----- the empty word -----

  lemma {:induction false} RepeatEmpty(node: Node, count: nat)
    requires Matches(node, [])
    ensures MatchesTimes(node, count, [])
  {
    if count > 0 {
      RepeatEmpty(node, count - 1);
      var word: Word := [];
      assert word[..0] == [] && word[0..] == [];
    }
  }

  lemma {:induction false} EmptyTimes(node: Node, count: nat)
    requires count > 0
    ensures MatchesTimes(node, count, []) ==> Matches(node, [])
  {
    var word: Word := [];
    if MatchesTimes(node, count, word) {
      var i :| 0 <= i <= |word| && Matches(node, word[..i]) && MatchesTimes(node, count - 1, word[i..]);
      assert word[..i] == [];
    }
  }

  lemma {:induction false} EmptyInOrder(nodes: seq<Node>)
    ensures MatchesInOrder(nodes, []) <==> forall n | n in nodes :: Matches(n, [])
  {
    if nodes != [] {
      EmptyInOrder(nodes[1..]);
      var word: Word := [];
      assert word[..0] == [] && word[0..] == [];
      if MatchesInOrder(nodes, word) {
        var i :| 0 <= i <= |word| && Matches(nodes[0], word[..i]) && MatchesInOrder(nodes[1..], word[i..]);
        assert word[..i] == [] && word[i..] == [];
        forall n | n in nodes ensures Matches(n, []) {
          assert n == nodes[0] || n in nodes[1..];
        }
      }
      if forall n | n in nodes :: Matches(n, []) {
        assert nodes[0] in nodes && Matches(nodes[0], word[..0]);
        assert MatchesInOrder(nodes[1..], word[0..]);
      }
    }
  }

  /** A node that denotes the empty word is found nullable, whatever its counts. */
  lemma {:induction false} EmptyMeansNullable(node: Node)
    requires Matches(node, [])
    ensures CanMatchEmpty(node)
  {
    match node
    case Empty =>
    case Sequence(children) =>
      EmptyInOrder(children);
      forall c | c in children ensures CanMatchEmpty(c) { EmptyMeansNullable(c); }
    case Alternation(branches) =>
      var b :| b in branches && Matches(b, []);
      EmptyMeansNullable(b);
    case Repetition(child, minimum, maximum, _) =>
      var count: nat :| Allowed(minimum, maximum, count) && MatchesTimes(child, count, []);
      if minimum > 0 {
        EmptyTimes(child, count);
        EmptyMeansNullable(child);
      }
  }

  /** `regexNodeCanMatchEmpty` holds exactly when the empty word is denoted. */
  lemma {:induction false} CanMatchEmptyIsExact(node: Node)
    requires CountsOrdered(node)
    ensures CanMatchEmpty(node) <==> Matches(node, [])
  {
    if Matches(node, []) {
      EmptyMeansNullable(node);
    }
    if CanMatchEmpty(node) {
      NullableMeansEmpty(node);
    }
  }

  lemma {:induction false} NullableMeansEmpty(node: Node)
    requires CountsOrdered(node) && CanMatchEmpty(node)
    ensures Matches(node, [])
  {
    match node
    case Empty =>
    case Sequence(children) =>
      forall c | c in children ensures Matches(c, []) { NullableMeansEmpty(c); }
      EmptyInOrder(children);
    case Alternation(branches) =>
      var b :| b in branches && CanMatchEmpty(b);
      NullableMeansEmpty(b);
    case Repetition(child, minimum, maximum, _) =>
      if CanMatchEmpty(child) {
        NullableMeansEmpty(child);
        RepeatEmpty(child, minimum);
      }
      assert MatchesTimes(child, minimum, []);
  }

  // ----- first characters: nothing is missed -----

  /** A non-empty repetition starts with a non-empty match of its body. */
  lemma {:induction false} FirstIteration(node: Node, count: nat, word: Word) returns (first: Word)
    requires MatchesTimes(node, count, word) && word != []
    ensures first != [] && first <= word && Matches(node, first)
  {
    var i :| 0 <= i <= |word| && Matches(node, word[..i]) && MatchesTimes(node, count - 1, word[i..]);
    if i > 0 {
      first := word[..i];
    } else {
      assert word[i..] == word;
      first := FirstIteration(node, count - 1, word);
    }
  }

  lemma {:induction false} FirstDomainProper(node: Node)
    requires ProperTree(node)
    ensures ProperDomain(FirstDomain(node))
    decreases node, 0
  {
    match node
    case Empty =>
    case Character(_) =>
    case Sequence(children) => CollectProper(children, true); MergedKeeps(CollectFirst(children, true), 0);
    case Alternation(branches) => CollectProper(branches, false); MergedKeeps(CollectFirst(branches, false), 0);
    case Repetition(child, _, _, _) => FirstDomainProper(child);
  }

  lemma {:induction false} CollectProper(nodes: seq<Node>, stop: bool)
    requires forall n | n in nodes :: ProperTree(n)
    ensures ProperDomain(CollectFirst(nodes, stop))
    decreases nodes, 0
  {
    if nodes != [] {
      FirstDomainProper(nodes[0]);
      CollectProper(nodes[1..], stop);
    }
  }

  lemma MergedKeeps(domain: Domain, c: nat)
    requires ProperDomain(domain)
    ensures ProperDomain(Merged(domain)) && (InDomain(Merged(domain), c) <==> InDomain(domain, c))
  {
    if domain.OneOf? {
      MergeIsExact(domain.ranges);
    }
  }

  /** Which members of a list may contribute the first character. */
  predicate Reached(nodes: seq<Node>, stop: bool, i: nat) {
    i < |nodes| && (stop ==> forall j :: 0 <= j < i ==> CanMatchEmpty(nodes[j]))
  }

  lemma {:induction false} CollectIsExact(nodes: seq<Node>, stop: bool, c: nat)
    requires forall n | n in nodes :: ProperTree(n)
    ensures InDomain(CollectFirst(nodes, stop), c) ==>
              exists i: nat :: Reached(nodes, stop, i) && InDomain(FirstDomain(nodes[i]), c)
    ensures forall i: nat :: Reached(nodes, stop, i) && InDomain(FirstDomain(nodes[i]), c) ==>
              InDomain(CollectFirst(nodes, stop), c)
    decreases |nodes|
  {
    if nodes != [] {
      var domain, rest := FirstDomain(nodes[0]), CollectFirst(nodes[1..], stop);
      CollectIsExact(nodes[1..], stop, c);
      if domain.OneOf? && rest.OneOf? {
        InRangesAppend(domain.ranges, rest.ranges, c);
      }
      assert Reached(nodes, stop, 0);
      if domain.OneOf? && !(stop && !CanMatchEmpty(nodes[0])) {
        forall i: nat ensures Reached(nodes[1..], stop, i) <==> Reached(nodes, stop, i + 1) {
          if stop && Reached(nodes[1..], stop, i) {
            forall j | 0 <= j < i + 1 ensures CanMatchEmpty(nodes[j]) {
              assert j > 0 ==> nodes[j] == nodes[1..][j - 1];
            }
          }
        }
        forall i: nat | Reached(nodes, stop, i) && InDomain(FirstDomain(nodes[i]), c)
          ensures InDomain(CollectFirst(nodes, stop), c)
        {
          if i > 0 {
            assert Reached(nodes[1..], stop, i - 1) && nodes[1..][i - 1] == nodes[i];
          }
        }
        if InDomain(rest, c) {
          var i: nat :| Reached(nodes[1..], stop, i) && InDomain(FirstDomain(nodes[1..][i]), c);
          assert Reached(nodes, stop, i + 1) && nodes[i + 1] == nodes[1..][i];
        }
      }
    }
  }

  /** A non-empty word of a sequence starts with a non-empty word of a member that is
      preceded by members denoting the empty word only here. */
  lemma {:induction false} FirstMember(nodes: seq<Node>, word: Word) returns (i: nat, first: Word)
    requires MatchesInOrder(nodes, word) && word != []
    ensures Reached(nodes, true, i) && first != [] && first <= word && Matches(nodes[i], first)
    decreases |nodes|
  {
    var k :| 0 <= k <= |word| && Matches(nodes[0], word[..k]) && MatchesInOrder(nodes[1..], word[k..]);
    if k > 0 {
      return 0, word[..k];
    }
    assert word[..k] == [] && word[k..] == word;
    EmptyMeansNullable(nodes[0]);
    i, first := FirstMember(nodes[1..], word);
    forall j | 0 <= j < i + 1 ensures CanMatchEmpty(nodes[j]) {
      assert j > 0 ==> nodes[j] == nodes[1..][j - 1];
    }
    i := i + 1;
  }

  /** The first character of every non-empty word is in the first domain. */
  lemma {:induction false} FirstDomainSound(node: Node, word: Word)
    requires ProperTree(node) && Matches(node, word) && word != []
    ensures InDomain(FirstDomain(node), word[0])
  {
    var c := word[0];
    match node
    case Empty =>
    case Character(_) =>
    case Sequence(children) =>
      var i, first := FirstMember(children, word);
      FirstDomainSound(children[i], first);
      CollectIsExact(children, true, c);
      CollectProper(children, true);
      MergedKeeps(CollectFirst(children, true), c);
    case Alternation(branches) =>
      var i :| 0 <= i < |branches| && Matches(branches[i], word);
      FirstDomainSound(branches[i], word);
      assert Reached(branches, false, i);
      CollectIsExact(branches, false, c);
      CollectProper(branches, false);
      MergedKeeps(CollectFirst(branches, false), c);
    case Repetition(child, minimum, maximum, _) =>
      var count: nat :| Allowed(minimum, maximum, count) && MatchesTimes(child, count, word);
      var first := FirstIteration(child, count, word);
      FirstDomainSound(child, first);
  }

  // ----- first characters: nothing is invented -----

  lemma LiveIsProper(node: Node)
    requires Live(node)
    ensures ProperTree(node) && CountsOrdered(node)
  {
  }

  lemma {:induction false} RepeatWord(node: Node, count: nat, word: Word) returns (all: Word)
    requires Matches(node, word)
    ensures MatchesTimes(node, count, all)
  {
    all := [];
    if count > 0 {
      var rest := RepeatWord(node, count - 1, word);
      all := word + rest;
      assert all[..|word|] == word && all[|word|..] == rest;
    }
  }

  /** Every live node denotes some word. */
  lemma {:induction false} SomeWord(node: Node) returns (word: Word)
    requires Live(node)
    ensures Matches(node, word)
    decreases node, 0
  {
    match node
    case Empty => word := [];
    case Character(domain) =>
      var c := if domain.AnyCharacter? then 0 else domain.ranges[0].start;
      assert InDomain(domain, c);
      word := [c];
    case Sequence(children) => word := SomeWordInOrder(children);
    case Alternation(branches) =>
      word := SomeWord(branches[0]);
    case Repetition(child, minimum, maximum, _) =>
      var one := SomeWord(child);
      word := RepeatWord(child, minimum, one);
  }

  lemma {:induction false} SomeWordInOrder(nodes: seq<Node>) returns (word: Word)
    requires forall n | n in nodes :: Live(n)
    ensures MatchesInOrder(nodes, word)
    decreases nodes, 0
  {
    word := [];
    if nodes != [] {
      var head := SomeWord(nodes[0]);
      var tail := SomeWordInOrder(nodes[1..]);
      word := head + tail;
      assert word[..|head|] == head && word[|head|..] == tail;
    }
  }

  /** A word of a reached member extends to a word of the whole sequence. */
  lemma {:induction false} ExtendMember(nodes: seq<Node>, i: nat, first: Word) returns (word: Word)
    requires forall n | n in nodes :: Live(n)
    requires Reached(nodes, true, i) && first != [] && Matches(nodes[i], first)
    ensures MatchesInOrder(nodes, word) && first <= word
    decreases |nodes|
  {
    if i == 0 {
      var tail := SomeWordInOrder(nodes[1..]);
      word := first + tail;
      assert word[..|first|] == first && word[|first|..] == tail;
    } else {
      forall j | 0 <= j < i - 1 ensures CanMatchEmpty(nodes[1..][j]) {
        assert nodes[1..][j] == nodes[j + 1];
      }
      word := ExtendMember(nodes[1..], i - 1, first);
      LiveIsProper(nodes[0]);
      CanMatchEmptyIsExact(nodes[0]);
      assert word[..0] == [] && word[0..] == word;
    }
  }

  /** Every character of a live node's first domain starts one of its words. */
  lemma {:induction false} FirstDomainComplete(node: Node, c: nat) returns (word: Word)
    requires Live(node) && InDomain(FirstDomain(node), c)
    ensures word != [] && word[0] == c && Matches(node, word)
  {
    LiveIsProper(node);
    match node
    case Empty => word := [];
    case Character(_) => word := [c];
    case Sequence(children) =>
      CollectProper(children, true);
      MergedKeeps(CollectFirst(children, true), c);
      CollectIsExact(children, true, c);
      var i: nat :| Reached(children, true, i) && InDomain(FirstDomain(children[i]), c);
      var first := FirstDomainComplete(children[i], c);
      word := ExtendMember(children, i, first);
    case Alternation(branches) =>
      CollectProper(branches, false);
      MergedKeeps(CollectFirst(branches, false), c);
      CollectIsExact(branches, false, c);
      var i: nat :| Reached(branches, false, i) && InDomain(FirstDomain(branches[i]), c);
      word := FirstDomainComplete(branches[i], c);
    case Repetition(child, minimum, maximum, _) =>
      var first := FirstDomainComplete(child, c);
      var more: nat := if minimum == 0 then 0 else minimum - 1;
      var rest := RepeatWord(child, more, first);
      word := first + rest;
      assert word[..|first|] == first && word[|first|..] == rest;
      assert MatchesTimes(child, more + 1, word) && Allowed(minimum, maximum, more + 1);
  }

  ghost predicate Starts(node: Node, c: nat) {
    exists word: Word :: word != [] && word[0] == c && Matches(node, word)
  }

  /** `regexNodeFirstDomain` is exactly the set of characters that start a word. */
  lemma FirstDomainIsExact(node: Node, c: nat)
    requires Live(node)
    ensures InDomain(FirstDomain(node), c) <==> Starts(node, c)
  {
    LiveIsProper(node);
    if InDomain(FirstDomain(node), c) {
      var word := FirstDomainComplete(node, c);
    }
    if Starts(node, c) {
      var word: Word :| word != [] && word[0] == c && Matches(node, word);
      FirstDomainSound(node, word);
    }
  }

  // ----- unknown domains -----

  /** `narrow` is `node` with every character domain replaced by some subset of it. */
  ghost predicate Narrows(narrow: Node, node: Node)
    decreases node
  {
    match node
    case Empty => narrow.Empty?
    case Character(domain) =>
      narrow.Character? && forall c: nat :: InDomain(narrow.domain, c) ==> InDomain(domain, c)
    case Sequence(children) =>
      && narrow.Sequence? && |narrow.children| == |children|
      && forall i | 0 <= i < |children| :: Narrows(narrow.children[i], children[i])
    case Alternation(branches) =>
      && narrow.Alternation? && |narrow.branches| == |branches|
      && forall i | 0 <= i < |branches| :: Narrows(narrow.branches[i], branches[i])
    case Repetition(child, minimum, maximum, variable) =>
      && narrow.Repetition? && Narrows(narrow.child, child)
      && narrow.minimum == minimum && narrow.maximum == maximum && narrow.variable == variable
  }
}
