/** When exactly a tree is objected to, told by the parts it has: what the three checks look for,
    and which of them decides the verdict. */
module RegexVerdicts {
  import opened CharacterRanges
  import opened RegexTree
  import opened RegexAmbiguity

  /** A repetition inside a repetition. */
  ghost predicate Nested(tree: Node) {
    exists outer: Node, inner: Node :: NestedAt(tree, outer, inner)
  }

  ghost predicate NestedAt(tree: Node, outer: Node, inner: Node) {
    Part(outer, tree) && outer.Repetition? && Part(inner, outer.child) && inner.Repetition?
  }

  /** Inside a repetition, an alternation with a branch that can be empty or with two branches
      whose first characters are not known to differ. */
  ghost predicate AmbiguousBelow(tree: Node) {
    exists outer: Node, choice: Node :: AmbiguousAt(tree, outer, choice)
  }

  ghost predicate AmbiguousAt(tree: Node, outer: Node, choice: Node) {
    Part(outer, tree) && outer.Repetition? && AmbiguousChoice(choice, outer.child)
  }

  ghost predicate HasChoice(node: Node) {
    exists choice: Node :: AmbiguousChoice(choice, node)
  }

  ghost predicate AmbiguousChoice(choice: Node, node: Node) {
    && Part(choice, node) && choice.Alternation?
    && (|| (exists i :: 0 <= i < |choice.branches| && CanMatchEmpty(choice.branches[i]))
        || (exists i, j :: 0 <= i < j < |choice.branches|
              && !ProvablyDisjoint(FirstDomain(choice.branches[i]), FirstDomain(choice.branches[j]))))
  }

  /** The repetition stands in the node, in no other repetition of it. */
  predicate Outermost(repetition: Node, node: Node) {
    match node
    case Repetition(_, _, _, _) => repetition == node
    case Sequence(children) => exists c | c in children :: Outermost(repetition, c)
    case Alternation(branches) => exists b | b in branches :: Outermost(repetition, b)
    case _ => false
  }

  /** In two members of one sequence, variable repetitions whose first characters are not known
      to differ. */
  ghost predicate Competing(tree: Node) {
    exists sequence: Node, i: nat, j: nat :: CompetingAt(tree, sequence, i, j)
  }

  ghost predicate CompetingAt(tree: Node, sequence: Node, i: nat, j: nat) {
    Part(sequence, tree) && sequence.Sequence? && i < j < |sequence.children|
    && Compete(sequence.children[i], sequence.children[j])
  }

  ghost predicate Compete(left: Node, right: Node) {
    exists l: Node, r: Node ::
      && Outermost(l, left) && Outermost(r, right) && l.Repetition? && r.Repetition? && l.variable && r.variable
      && !ProvablyDisjoint(FirstDomain(l.child), FirstDomain(r.child))
  }

  /** Main result: the verdict names the first of the three objections that the tree is open to,
      and is safe exactly if there is none. */
  lemma VerdictIsExact(tree: Node)
    ensures Check(tree) == if Nested(tree) then NestedQuantifier
                           else if AmbiguousBelow(tree) then AmbiguousAlternation
                           else if Competing(tree) then AmbiguousRepetition
                           else Safe
  {
    NestedIsFound(tree);
    AmbiguousIsFound(tree);
    CompetingIsFound(tree);
  }

  lemma {:induction false} RepetitionIsFound(node: Node)
    ensures HasRepetition(node) <==> exists inner: Node :: Part(inner, node) && inner.Repetition?
  {
    match node
    case Empty =>
    case Character(_) =>
    case Repetition(_, _, _, _) => assert Part(node, node);
    case Sequence(children) => forall c | c in children { RepetitionIsFound(c); }
    case Alternation(branches) => forall b | b in branches { RepetitionIsFound(b); }
  }

  lemma {:induction false} NestedIsFound(node: Node)
    ensures HasNestedRepetition(node) <==> Nested(node)
  {
    match node
    case Empty =>
    case Character(_) =>
    case Repetition(child, _, _, _) =>
      RepetitionIsFound(child);
      NestedIsFound(child);
      assert Part(node, node);
      if outer: Node, inner: Node :| NestedAt(child, outer, inner) {
        assert NestedAt(node, outer, inner);
      }
      if inner: Node :| Part(inner, child) && inner.Repetition? {
        assert NestedAt(node, node, inner);
      }
      if outer: Node, inner: Node :| NestedAt(node, outer, inner) {
        assert outer == node || NestedAt(child, outer, inner);
      }
    case Sequence(children) => NestedInOne(node, children);
    case Alternation(branches) => NestedInOne(node, branches);
  }

  lemma {:induction false} NestedInOne(node: Node, members: seq<Node>)
    requires (node.Sequence? && members == node.children) || (node.Alternation? && members == node.branches)
    ensures HasNestedRepetition(node) <==> Nested(node)
    decreases node, 0
  {
    forall c | c in members { NestedIsFound(c); }
    if c :| c in members && Nested(c) {
      var outer: Node, inner: Node :| NestedAt(c, outer, inner);
      assert NestedAt(node, outer, inner);
    }
    if outer: Node, inner: Node :| NestedAt(node, outer, inner) {
      var c := MemberWith(outer, node, members);
      assert NestedAt(c, outer, inner);
    }
  }

  lemma {:induction false} AmbiguousChoiceIsFound(node: Node)
    ensures HasAmbiguousAlternation(node) <==> HasChoice(node)
  {
    match node
    case Empty =>
    case Character(_) =>
    case Repetition(child, _, _, _) =>
      AmbiguousChoiceIsFound(child);
      ChoiceInside(node, [child]);
    case Sequence(children) =>
      forall c | c in children { AmbiguousChoiceIsFound(c); }
      ChoiceInside(node, children);
    case Alternation(branches) =>
      forall b | b in branches { AmbiguousChoiceIsFound(b); }
      OverlapIsFound(node);
      ChoiceInside(node, branches);
  }

  lemma OverlapIsFound(node: Node)
    requires node.Alternation?
    ensures BranchesOverlap(node.branches) <==> AmbiguousChoice(node, node)
  {
    var branches := node.branches;
    if b :| b in branches && CanMatchEmpty(b) {
      var i :| 0 <= i < |branches| && branches[i] == b;
      assert CanMatchEmpty(branches[i]);
    }
    if i :| 0 <= i < |branches| && CanMatchEmpty(branches[i]) {
      assert branches[i] in branches;
    }
  }

  /** Below a node an ambiguous choice is the node itself or below a member. */
  lemma ChoiceInside(node: Node, members: seq<Node>)
    requires || (node.Repetition? && members == [node.child]) || (node.Sequence? && members == node.children)
             || (node.Alternation? && members == node.branches)
    ensures HasChoice(node) <==> AmbiguousChoice(node, node) || exists c | c in members :: HasChoice(c)
  {
    assert node.Repetition? ==> members[0] == node.child;
    if choice: Node :| AmbiguousChoice(choice, node) && choice != node {
      var c := MemberWith(choice, node, members);
      assert AmbiguousChoice(choice, c);
    }
    if c, choice: Node :| c in members && AmbiguousChoice(choice, c) {
      assert AmbiguousChoice(choice, node);
    }
  }

  lemma {:induction false} AmbiguousIsFound(node: Node)
    ensures HasAmbiguousRepeatedAlternation(node) <==> AmbiguousBelow(node)
  {
    match node
    case Empty =>
    case Character(_) =>
    case Repetition(child, _, _, _) =>
      AmbiguousChoiceIsFound(child);
      AmbiguousIsFound(child);
      AmbiguousInside(node, [child]);
    case Sequence(children) =>
      forall c | c in children { AmbiguousIsFound(c); }
      AmbiguousInside(node, children);
    case Alternation(branches) =>
      forall b | b in branches { AmbiguousIsFound(b); }
      AmbiguousInside(node, branches);
  }

  lemma AmbiguousInside(node: Node, members: seq<Node>)
    requires || (node.Repetition? && members == [node.child]) || (node.Sequence? && members == node.children)
             || (node.Alternation? && members == node.branches)
    ensures AmbiguousBelow(node) <==>
              || (node.Repetition? && HasChoice(node.child))
              || exists c | c in members :: AmbiguousBelow(c)
  {
    assert node.Repetition? ==> members[0] == node.child;
    if outer: Node, choice: Node :| AmbiguousAt(node, outer, choice) && outer != node {
      var c := MemberWith(outer, node, members);
      assert AmbiguousAt(c, outer, choice);
    }
    if c, outer: Node, choice: Node :| c in members && AmbiguousAt(c, outer, choice) {
      assert AmbiguousAt(node, outer, choice);
    }
    if choice: Node :| node.Repetition? && AmbiguousChoice(choice, node.child) {
      assert AmbiguousAt(node, node, choice);
    }
  }

  lemma {:induction false} OutermostAreCollected(node: Node)
    ensures forall r: Node :: r in VariableRepetitions(node) <==> Outermost(r, node) && r.Repetition? && r.variable
    decreases node, 0
  {
    match node
    case Empty =>
    case Character(_) =>
    case Repetition(_, _, _, _) =>
    case Sequence(children) => OutermostOfAreCollected(children);
    case Alternation(branches) => OutermostOfAreCollected(branches);
  }

  lemma {:induction false} OutermostOfAreCollected(nodes: seq<Node>)
    ensures forall r: Node :: r in VariableRepetitionsOf(nodes) <==>
              (exists c | c in nodes :: Outermost(r, c)) && r.Repetition? && r.variable
    decreases nodes, 0
  {
    if nodes != [] {
      hide VariableRepetitions, Outermost;
      OutermostAreCollected(nodes[0]);
      OutermostOfAreCollected(nodes[1..]);
      assert nodes == [nodes[0]] + nodes[1..];
      forall r: Node
        ensures (exists c | c in nodes :: Outermost(r, c)) <==>
                  Outermost(r, nodes[0]) || exists c | c in nodes[1..] :: Outermost(r, c)
      {
      }
    }
  }

  lemma {:induction false} CompetingIsFound(node: Node)
    ensures HasAmbiguousSequentialRepetition(node) <==> Competing(node)
    decreases node, 0
  {
    match node
    case Empty =>
    case Character(_) =>
    case Repetition(child, _, _, _) =>
      CompetingIsFound(child);
      CompetingInside(node, [child]);
    case Sequence(children) =>
      OverlapIsInOrder([], children);
      CompetingInside(node, children);
      CompetingMembers(node);
    case Alternation(branches) =>
      forall b | b in branches { CompetingIsFound(b); }
      CompetingInside(node, branches);
  }

  lemma CompetingMembers(node: Node)
    requires node.Sequence?
    ensures SomeCompete(node.children) <==> exists i: nat, j: nat :: CompetingAt(node, node, i, j)
  {
    var children := node.children;
    assert Part(node, node);
    if i, j :| 0 <= i < j < |children| && Compete(children[i], children[j]) {
      assert CompetingAt(node, node, i, j);
    }
    if i: nat, j: nat :| CompetingAt(node, node, i, j) {
      assert Compete(children[i], children[j]);
    }
  }

  lemma MemberWith(part: Node, node: Node, members: seq<Node>) returns (member: Node)
    requires || (node.Repetition? && members == [node.child]) || (node.Sequence? && members == node.children)
             || (node.Alternation? && members == node.branches)
    requires Part(part, node) && part != node
    ensures member in members && Part(part, member)
  {
    assert node.Repetition? ==> members[0] == node.child;
    member :| member in members && Part(part, member);
  }

  lemma CompetingInside(node: Node, members: seq<Node>)
    requires || (node.Repetition? && members == [node.child]) || (node.Sequence? && members == node.children)
             || (node.Alternation? && members == node.branches)
    ensures Competing(node) <==>
              || (exists i: nat, j: nat :: CompetingAt(node, node, i, j))
              || exists c | c in members :: Competing(c)
  {
    assert node.Repetition? ==> members[0] == node.child;
    if sequence: Node, i: nat, j: nat :| CompetingAt(node, sequence, i, j) && sequence != node {
      var c := MemberWith(sequence, node, members);
      assert CompetingAt(c, sequence, i, j);
    }
    if c, sequence: Node, i: nat, j: nat :| c in members && CompetingAt(c, sequence, i, j) {
      assert CompetingAt(node, sequence, i, j);
    }
  }

  ghost predicate SomeCompete(nodes: seq<Node>) {
    exists i, j | 0 <= i < j < |nodes| :: Compete(nodes[i], nodes[j])
  }

  ghost predicate CompetesWithOne(left: Node, nodes: seq<Node>) {
    exists c | c in nodes :: Compete(left, c)
  }

  lemma SomeCompeteAfter(nodes: seq<Node>)
    requires nodes != []
    ensures SomeCompete(nodes) <==> CompetesWithOne(nodes[0], nodes[1..]) || SomeCompete(nodes[1..])
  {
    var rest := nodes[1..];
    if i, j :| 0 <= i < j < |nodes| && Compete(nodes[i], nodes[j]) {
      assert nodes[j] == rest[j - 1] && rest[j - 1] in rest;
      assert i == 0 || nodes[i] == rest[i - 1];
    }
    if i, j :| 0 <= i < j < |rest| && Compete(rest[i], rest[j]) {
      assert Compete(nodes[i + 1], nodes[j + 1]);
    }
    if c :| c in rest && Compete(nodes[0], c) {
      var j :| 0 <= j < |rest| && rest[j] == c;
      assert Compete(nodes[0], nodes[j + 1]);
    }
  }

  ghost predicate OverlapsWithOne(previous: seq<Node>, nodes: seq<Node>) {
    exists c | c in nodes :: RepetitionsOverlap(previous, VariableRepetitions(c))
  }

  ghost predicate OneCompeting(nodes: seq<Node>) {
    exists c | c in nodes :: Competing(c)
  }

  /** The loop over the members of a sequence finds a member with competing repetitions, one
      competing with those seen before, or two members that compete. */
  lemma {:induction false} OverlapIsInOrder(previous: seq<Node>, nodes: seq<Node>)
    ensures OverlapsInOrder(previous, nodes) <==>
              OneCompeting(nodes) || OverlapsWithOne(previous, nodes) || SomeCompete(nodes)
    decreases nodes, 0
  {
    if nodes != [] {
      hide RepetitionsOverlap, Competing, Compete, CompetesWithOne, SomeCompete, VariableRepetitions;
      var head, rest := nodes[0], nodes[1..];
      var found := VariableRepetitions(head);
      CompetingIsFound(head);
      OverlapIsInOrder(previous + found, rest);
      assert nodes == [head] + rest;
      assert OneCompeting(nodes) <==> Competing(head) || OneCompeting(rest);
      assert OverlapsWithOne(previous, nodes) <==>
               RepetitionsOverlap(previous, found) || OverlapsWithOne(previous, rest);
      SomeCompeteAfter(nodes);
      OverlapsWithMore(previous, head, rest);
    } else {
      hide RepetitionsOverlap, Competing, Compete;
    }
  }

  lemma OverlapsWithMore(previous: seq<Node>, head: Node, rest: seq<Node>)
    ensures OverlapsWithOne(previous + VariableRepetitions(head), rest) <==>
              OverlapsWithOne(previous, rest) || CompetesWithOne(head, rest)
  {
    hide Compete, ProvablyDisjoint;
    forall c | c in rest
      ensures RepetitionsOverlap(previous + VariableRepetitions(head), VariableRepetitions(c)) <==>
                RepetitionsOverlap(previous, VariableRepetitions(c)) || Compete(head, c)
    {
      CollectedCompete(head, c);
    }
  }

  lemma CollectedCompete(left: Node, right: Node)
    ensures RepetitionsOverlap(VariableRepetitions(left), VariableRepetitions(right)) <==> Compete(left, right)
  {
    OutermostAreCollected(left);
    OutermostAreCollected(right);
    if Compete(left, right) {
      var l: Node, r: Node :| Outermost(l, left) && Outermost(r, right) && l.Repetition? && r.Repetition?
        && l.variable && r.variable && !ProvablyDisjoint(FirstDomain(l.child), FirstDomain(r.child));
      assert l in VariableRepetitions(left) && r in VariableRepetitions(right);
      assert !ProvablyDisjoint(BodyDomain(l), BodyDomain(r));
    }
  }
}
