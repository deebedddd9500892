/** When a pattern as a whole matches every text in one way: no alternation is decided late,
    and no repetition can be continued by what may follow it. */
module RegexUnambiguity {
  import opened CharacterRanges
  import opened RegexTree
  import opened RegexAmbiguity

  // ----- the condition -----

  /** The first domains of what can come right after a position: the next members up to and
      including the first that is required, and then what follows them all. */
  function FollowOf(nodes: seq<Node>, follow: seq<Domain>): seq<Domain> {
    if nodes == [] then follow
    else [FirstDomain(nodes[0])] + if CanMatchEmpty(nodes[0]) then FollowOf(nodes[1..], follow) else []
  }

  predicate DisjointFrom(domain: Domain, follow: seq<Domain>) {
    forall i | 0 <= i < |follow| :: ProvablyDisjoint(domain, follow[i])
  }

  /** Every alternation is decided by its first character, and the body of every repetition
      with a choice of counts starts with no character that can follow the repetition. */
  predicate Settled(node: Node, follow: seq<Domain>)
    decreases node, 0
  {
    match node
    case Empty => true
    case Character(_) => true
    case Sequence(children) => SettledInOrder(children, follow)
    case Alternation(branches) => !BranchesOverlap(branches) && forall b | b in branches :: Settled(b, follow)
    case Repetition(child, minimum, maximum, _) =>
      maximum == AtMost(minimum) || DisjointFrom(FirstDomain(child), follow)
  }

  predicate SettledInOrder(nodes: seq<Node>, follow: seq<Domain>)
    decreases nodes, 0
  {
    nodes == [] || (Settled(nodes[0], FollowOf(nodes[1..], follow)) && SettledInOrder(nodes[1..], follow))
  }

  /** No repetition has a body that can match nothing. */
  predicate BodiesConsume(node: Node) {
    match node
    case Sequence(children) => forall c | c in children :: BodiesConsume(c)
    case Alternation(branches) => forall b | b in branches :: BodiesConsume(b)
    case Repetition(child, _, _, _) => !CanMatchEmpty(child) && BodiesConsume(child)
    case _ => true
  }

  // ----- one way, up to empty repetitions -----

  /** The same choices and divisions everywhere, except that a repetition matching nothing may
      do so in different numbers of empty iterations. */
  ghost predicate Alike(p: Parse, q: Parse)
    decreases p
  {
    match p
    case All(parts) => q.All? && |q.parts| == |parts| && forall i | 0 <= i < |parts| :: Alike(parts[i], q.parts[i])
    case Chosen(index, inner) => q.Chosen? && q.index == index && Alike(inner, q.inner)
    case Repeated(_) => p == q || (q.Repeated? && Yield(p) == Yield(q) == [])
    case _ => p == q
  }

  /** The word is over, or goes on with a character of one of the domains. */
  ghost predicate Begins(word: Word, follow: seq<Domain>) {
    word == [] || exists i :: 0 <= i < |follow| && InDomain(follow[i], word[0])
  }

  lemma {:induction false} FollowersBegin(nodes: seq<Node>, ps: seq<Parse>, r: Word, follow: seq<Domain>)
    requires (forall n | n in nodes :: ProperTree(n)) && ParsesOf(ps, nodes) && Begins(r, follow)
    ensures Begins(YieldAll(ps) + r, FollowOf(nodes, follow))
    decreases nodes
  {
    if nodes == [] {
      assert YieldAll(ps) + r == r;
    } else {
      var all, head := FollowOf(nodes, follow), Yield(ps[0]);
      assert YieldAll(ps) + r == head + (YieldAll(ps[1..]) + r);
      ParseMatches(ps[0], nodes[0]);
      if head != [] {
        FirstDomainSound(nodes[0], head);
        assert InDomain(all[0], (YieldAll(ps) + r)[0]);
      } else {
        EmptyMeansNullable(nodes[0]);
        FollowersBegin(nodes[1..], ps[1..], r, follow);
        var rest := FollowOf(nodes[1..], follow);
        assert YieldAll(ps) + r == YieldAll(ps[1..]) + r;
        assert forall i | 0 <= i < |rest| :: all[i + 1] == rest[i];
      }
    }
  }

  ghost predicate ProperFollow(follow: seq<Domain>) {
    forall i | 0 <= i < |follow| :: ProperDomain(follow[i])
  }

  /** With different counts the longer run of iterations would start what follows the shorter. */
  lemma NoMoreIterations(body: Node, follow: seq<Domain>, more: seq<Parse>, r: Word, s: Word)
    requires ProperTree(body) && IterationsOf(more, body) && DisjointFrom(FirstDomain(body), follow)
    requires r == YieldAll(more) + s && Begins(r, follow)
    requires ProperFollow(follow)
    ensures YieldAll(more) == []
  {
    if YieldAll(more) != [] {
      var c := SomeFirst(body, more);
      var i :| 0 <= i < |follow| && InDomain(follow[i], r[0]);
      FirstDomainProper(body);
      DisjointnessIsExact(FirstDomain(body), follow[i]);
    }
  }

  lemma {:induction false} FollowIsProper(nodes: seq<Node>, follow: seq<Domain>)
    requires (forall n | n in nodes :: ProperTree(n)) && ProperFollow(follow)
    ensures ProperFollow(FollowOf(nodes, follow))
    decreases nodes
  {
    if nodes != [] {
      FirstDomainProper(nodes[0]);
      FollowIsProper(nodes[1..], follow);
    }
  }

  lemma PrefixRuns(body: Node, follow: seq<Domain>, ps: seq<Parse>, qs: seq<Parse>, r: Word, s: Word)
    requires ProperTree(body) && IterationsOf(ps, body) && IterationsOf(qs, body) && ps <= qs
    requires YieldAll(ps) + r == YieldAll(qs) + s && Begins(r, follow) && ProperFollow(follow)
    requires |ps| == |qs| || DisjointFrom(FirstDomain(body), follow)
    ensures YieldAll(ps) == YieldAll(qs)
  {
    hide YieldAll, Begins, ProperFollow, ProperTree, DisjointFrom, FirstDomain, ParseOf;
    var more := qs[|ps|..];
    YieldAllSplit(qs, |ps|);
    assert qs[..|ps|] == ps;
    Associates(YieldAll(ps), YieldAll(more), s);
    assert r == (YieldAll(ps) + r)[|YieldAll(ps)|..] == YieldAll(more) + s;
    if |ps| < |qs| {
      NoMoreIterations(body, follow, more, r, s);
      assert YieldAll(ps) + [] == YieldAll(ps);
    } else {
      assert ps == qs;
    }
  }

  lemma OneRun(body: Node, follow: seq<Domain>, ps: seq<Parse>, qs: seq<Parse>, r: Word, s: Word)
    requires Deterministic(body) && IterationsOf(ps, body) && IterationsOf(qs, body)
    requires YieldAll(ps) + r == YieldAll(qs) + s && Begins(r, follow) && Begins(s, follow) && ProperFollow(follow)
    requires |ps| == |qs| || DisjointFrom(FirstDomain(body), follow)
    ensures YieldAll(ps) == YieldAll(qs) && r == s && (ps == qs || YieldAll(ps) == [])
  {
    IterationsComparable(body, ps, qs, r, s);
    if ps <= qs {
      PrefixRuns(body, follow, ps, qs, r, s);
    } else {
      PrefixRuns(body, follow, qs, ps, s, r);
    }
    assert r == (YieldAll(ps) + r)[|YieldAll(ps)|..] && s == (YieldAll(qs) + s)[|YieldAll(qs)|..];
    if YieldAll(ps) != [] {
      OneDivision(body, ps, qs);
    }
  }

  /** In a settled node two matches at the start of the same text are alike and leave the same
      rest, as long as both rests are what can follow. */
  lemma {:induction false} OneWay(node: Node, follow: seq<Domain>, p: Parse, q: Parse, r: Word, s: Word)
    requires ProperTree(node) && !HasNestedRepetition(node) && !HasAmbiguousRepeatedAlternation(node)
    requires Settled(node, follow) && ProperFollow(follow) && ParseOf(p, node) && ParseOf(q, node)
    requires Begins(r, follow) && Begins(s, follow) && Yield(p) + r == Yield(q) + s
    ensures Alike(p, q) && r == s
    decreases node, 0
  {
    match node
    case Empty => assert [] + r == r && [] + s == s;
    case Character(_) =>
      assert (Yield(p) + r)[0] == p.c && (Yield(q) + s)[0] == q.c;
      assert (Yield(p) + r)[1..] == r && (Yield(q) + s)[1..] == s;
    case Sequence(children) => OneWayInOrder(children, follow, p.parts, q.parts, r, s);
    case Alternation(branches) =>
      BranchNotEmpty(branches, p.index, p.inner);
      BranchNotEmpty(branches, q.index, q.inner);
      assert (Yield(p) + r)[0] == Yield(p)[0] && (Yield(q) + s)[0] == Yield(q)[0];
      SameBranch(branches, p.index, q.index, Yield(p)[0]);
      OneWay(branches[p.index], follow, p.inner, q.inner, r, s);
    case Repetition(child, _, _, _) => OneRun(child, follow, p.iterations, q.iterations, r, s);
  }

  lemma {:induction false} OneWayInOrder(nodes: seq<Node>, follow: seq<Domain>, ps: seq<Parse>, qs: seq<Parse>, r: Word,
      s: Word)
    requires forall n | n in nodes :: ProperTree(n) && !HasNestedRepetition(n) && !HasAmbiguousRepeatedAlternation(n)
    requires SettledInOrder(nodes, follow) && ProperFollow(follow) && ParsesOf(ps, nodes) && ParsesOf(qs, nodes)
    requires Begins(r, follow) && Begins(s, follow) && YieldAll(ps) + r == YieldAll(qs) + s
    ensures (forall i | 0 <= i < |nodes| :: Alike(ps[i], qs[i])) && r == s
    decreases nodes, 0
  {
    if nodes == [] {
      assert YieldAll(ps) + r == r && YieldAll(qs) + s == s;
    } else {
      var here := FollowOf(nodes[1..], follow);
      var pt, qt := YieldAll(ps[1..]) + r, YieldAll(qs[1..]) + s;
      FollowIsProper(nodes[1..], follow);
      FollowersBegin(nodes[1..], ps[1..], r, follow);
      FollowersBegin(nodes[1..], qs[1..], s, follow);
      assert YieldAll(ps) + r == Yield(ps[0]) + pt && YieldAll(qs) + s == Yield(qs[0]) + qt;
      OneWay(nodes[0], here, ps[0], qs[0], pt, qt);
      OneWayInOrder(nodes[1..], follow, ps[1..], qs[1..], r, s);
      forall i | 0 <= i < |nodes| ensures Alike(ps[i], qs[i]) {
        if i > 0 {
          assert ps[i] == ps[1..][i - 1] && qs[i] == qs[1..][i - 1];
        }
      }
    }
  }

  /** Main result: a pattern judged safe that is also settled matches every text in one way, up
      to the number of empty iterations of repetitions that match nothing. */
  lemma SettledPatternsAreUnambiguous(tree: Node, p: Parse, q: Parse)
    requires ProperTree(tree) && Check(tree) == Safe && Settled(tree, [])
    requires ParseOf(p, tree) && ParseOf(q, tree) && Yield(p) == Yield(q)
    ensures Alike(p, q)
  {
    OneWay(tree, [], p, q, [], []);
  }

  lemma {:induction false} AlikeIsEqual(node: Node, p: Parse, q: Parse)
    requires BodiesConsume(node) && ParseOf(p, node) && ParseOf(q, node) && Alike(p, q)
    ensures p == q
    decreases node
  {
    match node
    case Empty =>
    case Character(_) =>
    case Sequence(children) =>
      forall i | 0 <= i < |children| ensures p.parts[i] == q.parts[i] {
        AlikeIsEqual(children[i], p.parts[i], q.parts[i]);
      }
    case Alternation(branches) => AlikeIsEqual(branches[p.index], p.inner, q.inner);
    case Repetition(child, _, _, _) =>
      if p != q {
        NoIterations(child, p.iterations);
        NoIterations(child, q.iterations);
      }
  }

  lemma NoIterations(body: Node, ps: seq<Parse>)
    requires !CanMatchEmpty(body) && IterationsOf(ps, body) && YieldAll(ps) == []
    ensures ps == []
  {
    if ps != [] {
      ParseMatches(ps[0], body);
      assert Yield(ps[0]) == [];
      EmptyMeansNullable(body);
    }
  }

  /** Main result: if besides no body can match nothing, there is exactly one parse. */
  lemma SettledPatternsHaveOneParse(tree: Node, p: Parse, q: Parse)
    requires ProperTree(tree) && Check(tree) == Safe && Settled(tree, []) && BodiesConsume(tree)
    requires ParseOf(p, tree) && ParseOf(q, tree) && Yield(p) == Yield(q)
    ensures p == q
  {
    SettledPatternsAreUnambiguous(tree, p, q);
    AlikeIsEqual(tree, p, q);
  }

  /** The safe but ambiguous pattern of a starred letter, a class with that letter and another
      starred letter is not settled: the class can go on where the first star stops. */
  lemma AmbiguousStarsAreNotSettled()
    ensures !Settled(Sequence([Star(Only(A)), Character(OneOf([Range(A, B)])), Star(Only(B))]), [])
  {
    var star, either := Star(Only(A)), Character(OneOf([Range(A, B)]));
    var children := [star, either, Star(Only(B))];
    assert children[1..][0] == either && FollowOf(children[1..], [])[0] == OneOf([Range(A, B)]);
    assert FirstDomain(Only(A)) == OneOf([Range(A, A)]);
    assert InRanges([Range(A, A)], A) && InRanges([Range(A, B)], A) by {
      assert [Range(A, A)][0].start <= A && [Range(A, B)][0].start <= A <= [Range(A, B)][0].end;
    }
    DisjointnessIsExact(OneOf([Range(A, A)]), OneOf([Range(A, B)]));
    assert !DisjointFrom(FirstDomain(Only(A)), FollowOf(children[1..], []));
    assert !Settled(star, FollowOf(children[1..], []));
    assert !SettledInOrder(children, []);
  }
}
