/** Replacing matches in text: choosing non-overlapping matches and splicing their
    replacements, and the budgeted rewriting loop of the custom redaction patterns. */
module Redaction {
  import opened Optional
  import RegexAmbiguity
  import RegexTree
  import opened PatternValidation
  import opened RegexParser
  import opened RegexSurrogates

  /** A detector's match; `value` is the text that is hashed. */
  datatype Match = Match(kind: string, value: string, start: nat, end: nat)

  datatype Failure = SaltMissing | BudgetExceeded | PatternRejected

  datatype Outcome<T> = Ok(value: T) | Failed(failure: Failure)

  /** The tenant salt; with one, `prefix` gives the first characters of the salted hash. */
  datatype Salt = NoSalt | Salted(prefix: string -> string)

  const HASH_PREFIX_LENGTH: nat := 12
  const MAX_CUSTOM_REDACTION_MATCHES: nat := 4096
  const MAX_CUSTOM_REDACTION_INTERMEDIATE_CHARS: nat := 1000000
  const MAX_CUSTOM_REDACTION_PATTERNS: nat := 16
  const CUSTOM_REDACTION_PATTERN_NAME_MAX_CHARS: nat := 64

  ghost predicate ValidSalt(salt: Salt) {
    salt.Salted? ==> forall text :: |salt.prefix(text)| == HASH_PREFIX_LENGTH
  }

  function Replacement(kind: string, text: string, salt: Salt): string
    requires salt.Salted?
  {
    "[REDACTED:" + kind + ":" + salt.prefix(text) + "]"
  }

  // ----- choosing matches -----

  /** The order of `compareReplacementMatches`; `compareKinds` is the locale's comparison. */
  predicate Precedes(left: Match, right: Match, compareKinds: (string, string) -> int) {
    if left.start != right.start then left.start < right.start
    else if left.end != right.end then right.end < left.end
    else compareKinds(left.kind, right.kind) <= 0
  }

  function InsertMatch(m: Match, ms: seq<Match>, compareKinds: (string, string) -> int): seq<Match> {
    if ms == [] || Precedes(m, ms[0], compareKinds) then [m] + ms
    else [ms[0]] + InsertMatch(m, ms[1..], compareKinds)
  }

  /** What the built-in sort yields. */
  function SortMatches(ms: seq<Match>, compareKinds: (string, string) -> int): seq<Match> {
    if ms == [] then [] else InsertMatch(ms[0], SortMatches(ms[1..], compareKinds), compareKinds)
  }

  /** The greedy choice: a match is kept when it starts at or after the last kept end. */
  function Select(sorted: seq<Match>, cursor: nat): seq<Match> {
    if sorted == [] then []
    else if sorted[0].start < cursor then Select(sorted[1..], cursor)
    else [sorted[0]] + Select(sorted[1..], sorted[0].end)
  }

  /** `selectNonOverlappingMatches`. */
  method SelectNonOverlapping(matches: seq<Match>, compareKinds: (string, string) -> int) returns (selected: seq<Match>)
    ensures selected == Select(SortMatches(matches, compareKinds), 0)
  {
    var sorted := SortMatches(matches, compareKinds);
    selected := [];
    var cursor: nat := 0;
    for i := 0 to |sorted|
      invariant selected + Select(sorted[i..], cursor) == Select(sorted, 0)
    {
      var m := sorted[i];
      assert sorted[i..][0] == m && sorted[i..][1..] == sorted[i + 1..];
      if m.start < cursor {
        continue;
      }
      assert selected + ([m] + Select(sorted[i + 1..], m.end)) == (selected + [m]) + Select(sorted[i + 1..], m.end);
      selected := selected + [m];
      cursor := m.end;
    }
    assert selected + [] == selected;
  }

  /** Ordered by start, longest first. */
  predicate Ordered(ms: seq<Match>) {
    forall i, j :: 0 <= i < j < |ms| ==>
      ms[i].start < ms[j].start || (ms[i].start == ms[j].start && ms[j].end <= ms[i].end)
  }

  predicate Disjoint(ms: seq<Match>) {
    forall i, j :: 0 <= i < j < |ms| ==> ms[i].end <= ms[j].start
  }

  predicate InBounds(ms: seq<Match>, length: nat) {
    forall i :: 0 <= i < |ms| ==> ms[i].start <= ms[i].end <= length
  }

  lemma {:induction false} InsertMembers(m: Match, ms: seq<Match>, compareKinds: (string, string) -> int)
    ensures multiset(InsertMatch(m, ms, compareKinds)) == multiset([m]) + multiset(ms)
    ensures forall x | x in InsertMatch(m, ms, compareKinds) :: x == m || x in ms
  {
    if ms != [] && !Precedes(m, ms[0], compareKinds) {
      InsertMembers(m, ms[1..], compareKinds);
      assert ms == [ms[0]] + ms[1..];
    }
  }

  lemma {:induction false} InsertOrdered(m: Match, ms: seq<Match>, compareKinds: (string, string) -> int)
    requires Ordered(ms)
    ensures Ordered(InsertMatch(m, ms, compareKinds))
  {
    if ms != [] && !Precedes(m, ms[0], compareKinds) {
      InsertOrdered(m, ms[1..], compareKinds);
      var rest := InsertMatch(m, ms[1..], compareKinds);
      InsertMembers(m, ms[1..], compareKinds);
      forall j | 0 <= j < |rest|
        ensures ms[0].start < rest[j].start || (ms[0].start == rest[j].start && rest[j].end <= ms[0].end)
      {
        assert rest[j] in rest;
      }
    }
  }

  lemma {:induction false} SortKeeps(ms: seq<Match>, compareKinds: (string, string) -> int)
    ensures multiset(SortMatches(ms, compareKinds)) == multiset(ms)
    ensures Ordered(SortMatches(ms, compareKinds))
  {
    if ms != [] {
      SortKeeps(ms[1..], compareKinds);
      InsertMembers(ms[0], SortMatches(ms[1..], compareKinds), compareKinds);
      InsertOrdered(ms[0], SortMatches(ms[1..], compareKinds), compareKinds);
      assert ms == [ms[0]] + ms[1..];
    }
  }

  /** The comparison of kinds is a total preorder. */
  ghost predicate Compares(compareKinds: (string, string) -> int) {
    && (forall a, b :: compareKinds(a, b) <= 0 || compareKinds(b, a) <= 0)
    && (forall a, b :: compareKinds(a, b) > 0 <==> compareKinds(b, a) < 0)
    && forall a, b, c :: compareKinds(a, b) <= 0 && compareKinds(b, c) <= 0 ==> compareKinds(a, c) <= 0
  }

  /** Earlier starts first, then longer matches, then the order of the kinds. */
  predicate NoLater(a: Match, b: Match, compareKinds: (string, string) -> int) {
    || a.start < b.start || (a.start == b.start && a.end > b.end)
    || (a.start == b.start && a.end == b.end && compareKinds(a.kind, b.kind) <= 0)
  }

  /** The matches that are told apart from `m` by nothing but their values, in order. */
  function Like(m: Match, ms: seq<Match>, compareKinds: (string, string) -> int): seq<Match> {
    if ms == [] then []
    else
      var rest := Like(m, ms[1..], compareKinds);
      if NoLater(m, ms[0], compareKinds) && NoLater(ms[0], m, compareKinds) then [ms[0]] + rest else rest
  }

  /** Main result: the matches are sorted by start, length and kind, none lost or doubled, and
      those that are alike keep the order they came in. */
  lemma {:induction false} SortIsStable(ms: seq<Match>, compareKinds: (string, string) -> int, m: Match)
    requires Compares(compareKinds)
    ensures var sorted := SortMatches(ms, compareKinds);
            && multiset(sorted) == multiset(ms)
            && (forall i, j | 0 <= i < j < |sorted| :: NoLater(sorted[i], sorted[j], compareKinds))
            && Like(m, sorted, compareKinds) == Like(m, ms, compareKinds)
  {
    SortKeeps(ms, compareKinds);
    if ms != [] {
      SortIsStable(ms[1..], compareKinds, m);
      InsertIsStable(ms[0], SortMatches(ms[1..], compareKinds), compareKinds, m);
    }
  }

  lemma {:induction false} InsertIsStable(
      x: Match, ms: seq<Match>, compareKinds: (string, string) -> int, m: Match)
    requires Compares(compareKinds) && forall i, j | 0 <= i < j < |ms| :: NoLater(ms[i], ms[j], compareKinds)
    ensures var inserted := InsertMatch(x, ms, compareKinds);
            && (forall i, j | 0 <= i < j < |inserted| :: NoLater(inserted[i], inserted[j], compareKinds))
            && Like(m, inserted, compareKinds) == Like(m, [x] + ms, compareKinds)
  {
    if ms == [] || Precedes(x, ms[0], compareKinds) {
      assert InsertMatch(x, ms, compareKinds) == [x] + ms;
    } else {
      var rest := InsertMatch(x, ms[1..], compareKinds);
      InsertIsStable(x, ms[1..], compareKinds, m);
      InsertMembers(x, ms[1..], compareKinds);
      forall j | 0 <= j < |rest| ensures NoLater(ms[0], rest[j], compareKinds) {
        assert rest[j] in rest;
        if rest[j] != x {
          var k :| 0 <= k < |ms[1..]| && ms[1..][k] == rest[j];
          assert ms[k + 1] == rest[j] && NoLater(ms[0], ms[k + 1], compareKinds);
        }
      }
      assert ([x] + ms)[1..] == ms && ([x] + ms[1..])[1..] == ms[1..] && ([ms[0]] + rest)[1..] == rest;
    }
  }

  /** A kept match that starts no later than `m` and ends after `m` starts. */
  predicate CoveredBy(m: Match, kept: Match) {
    kept.start <= m.start < kept.end && (kept.start == m.start ==> m.end <= kept.end)
  }

  /** Every match that was left out started before the cursor or inside a kept one. */
  ghost predicate Explained(sorted: seq<Match>, kept: seq<Match>, cursor: nat) {
    forall m | m in multiset(sorted) - multiset(kept) ::
      m.start < cursor || exists k | k in kept :: CoveredBy(m, k)
  }

  lemma ExplainedSkip(first: Match, rest: seq<Match>, kept: seq<Match>, cursor: nat)
    requires Explained(rest, kept, cursor) && first.start < cursor
    ensures Explained([first] + rest, kept, cursor)
  {
    ConsMultiset(first, rest);
    forall m | m in multiset([first] + rest) - multiset(kept)
      ensures m.start < cursor || exists k | k in kept :: CoveredBy(m, k)
    {
      assert m == first || m in multiset(rest) - multiset(kept);
    }
  }

  lemma ExplainedKeep(first: Match, rest: seq<Match>, kept: seq<Match>, cursor: nat)
    requires Explained(rest, kept, first.end) && Ordered([first] + rest)
    ensures Explained([first] + rest, [first] + kept, cursor)
  {
    var all := [first] + rest;
    forall m | m in multiset(all) - multiset([first] + kept)
      ensures m.start < cursor || exists k | k in [first] + kept :: CoveredBy(m, k)
    {
      ConsMultiset(first, rest);
      ConsMultiset(first, kept);
      assert m in multiset(rest) - multiset(kept);
      if m.start < first.end {
        var j :| 0 <= j < |rest| && rest[j] == m;
        assert all[j + 1] == m && all[0] == first;
        assert CoveredBy(m, first) && first in [first] + kept;
      } else {
        var k :| k in kept && CoveredBy(m, k);
        assert k in [first] + kept;
      }
    }
  }

  lemma {:induction false} SelectIsOrdered(sorted: seq<Match>, cursor: nat, length: nat)
    requires InBounds(sorted, length)
    ensures Disjoint(Select(sorted, cursor)) && InBounds(Select(sorted, cursor), length)
    ensures forall i | 0 <= i < |Select(sorted, cursor)| :: cursor <= Select(sorted, cursor)[i].start
    decreases |sorted|
  {
    if sorted != [] {
      SelectIsOrdered(sorted[1..], if sorted[0].start < cursor then cursor else sorted[0].end, length);
    }
  }

  lemma ConsMultiset(first: Match, rest: seq<Match>)
    ensures multiset([first] + rest) == multiset{first} + multiset(rest)
  {
  }

  lemma {:induction false} SelectIsAmong(sorted: seq<Match>, cursor: nat)
    ensures multiset(Select(sorted, cursor)) <= multiset(sorted)
    decreases |sorted|
  {
    if sorted != [] {
      var first, rest := sorted[0], sorted[1..];
      assert sorted == [first] + rest;
      ConsMultiset(first, rest);
      if first.start < cursor {
        SelectIsAmong(rest, cursor);
      } else {
        SelectIsAmong(rest, first.end);
        ConsMultiset(first, Select(rest, first.end));
      }
    }
  }

  lemma {:induction false} SelectIsGreedy(sorted: seq<Match>, cursor: nat)
    requires Ordered(sorted)
    ensures Explained(sorted, Select(sorted, cursor), cursor)
    decreases |sorted|
  {
    hide Explained;
    if sorted == [] {
      ExplainedNothing(cursor);
    } else {
      var first, rest := sorted[0], sorted[1..];
      assert sorted == [first] + rest;
      if first.start < cursor {
        SelectIsGreedy(rest, cursor);
        ExplainedSkip(first, rest, Select(rest, cursor), cursor);
      } else {
        SelectIsGreedy(rest, first.end);
        ExplainedKeep(first, rest, Select(rest, first.end), cursor);
      }
    }
  }

  lemma ExplainedNothing(cursor: nat)
    ensures Explained([], [], cursor)
  {
  }

  /** Main result: the chosen matches are in bounds, in order and pairwise disjoint, they
      are among the given ones, and every match left out starts inside a chosen one that
      is at least as long when both start together. */
  lemma SelectionIsGreedy(matches: seq<Match>, compareKinds: (string, string) -> int, length: nat)
    requires InBounds(matches, length)
    ensures var selected := Select(SortMatches(matches, compareKinds), 0);
            && Disjoint(selected) && InBounds(selected, length) && multiset(selected) <= multiset(matches)
            && forall m | m in multiset(matches) - multiset(selected) ::
                 exists kept | kept in selected :: CoveredBy(m, kept)
  {
    SortKeeps(matches, compareKinds);
    var sorted := SortMatches(matches, compareKinds);
    forall i | 0 <= i < |sorted| ensures sorted[i].start <= sorted[i].end <= length {
      assert sorted[i] in multiset(matches);
    }
    SelectIsOrdered(sorted, 0, length);
    SelectIsGreedy(sorted, 0);
    SelectIsAmong(sorted, 0);
  }

  // ----- splicing -----

  datatype Span = Span(start: nat, end: nat)

  predicate Successive(spans: seq<Span>, cursor: nat, length: nat) {
    if spans == [] then cursor <= length
    else cursor <= spans[0].start <= spans[0].end && Successive(spans[1..], spans[0].end, length)
  }

  function SpansOf(ms: seq<Match>): (spans: seq<Span>)
    ensures |spans| == |ms|
  {
    if ms == [] then [] else [Span(ms[0].start, ms[0].end)] + SpansOf(ms[1..])
  }

  lemma {:induction false} SuccessiveEnd(spans: seq<Span>, cursor: nat, length: nat)
    requires Successive(spans, cursor, length)
    ensures cursor <= length && (spans != [] ==> spans[0].end <= length)
  {
    if spans != [] {
      SuccessiveEnd(spans[1..], spans[0].end, length);
    }
  }

  lemma {:induction false} DisjointIsSuccessive(ms: seq<Match>, cursor: nat, length: nat)
    requires Disjoint(ms) && InBounds(ms, length) && cursor <= length && (ms != [] ==> cursor <= ms[0].start)
    ensures Successive(SpansOf(ms), cursor, length)
  {
    if ms != [] {
      DisjointIsSuccessive(ms[1..], ms[0].end, length);
    }
  }

  /** The text before, between and after the spans. */
  function Gaps(text: string, spans: seq<Span>, cursor: nat): (gaps: seq<string>)
    requires Successive(spans, cursor, |text|)
    ensures |gaps| == |spans| + 1
  {
    SuccessiveEnd(spans, cursor, |text|);
    if spans == [] then [text[cursor..]]
    else [text[cursor..spans[0].start]] + Gaps(text, spans[1..], spans[0].end)
  }

  /** The spans' own text. */
  function Covered(text: string, spans: seq<Span>, cursor: nat): (covered: seq<string>)
    requires Successive(spans, cursor, |text|)
    ensures |covered| == |spans|
  {
    SuccessiveEnd(spans, cursor, |text|);
    if spans == [] then []
    else [text[spans[0].start..spans[0].end]] + Covered(text, spans[1..], spans[0].end)
  }

  /** gaps[0] + parts[0] + gaps[1] + ... + gaps[|parts|]. */
  function Weave(gaps: seq<string>, parts: seq<string>): string
    requires |gaps| == |parts| + 1
  {
    if parts == [] then gaps[0] else gaps[0] + parts[0] + Weave(gaps[1..], parts[1..])
  }

  /** The gaps and the covered parts are the whole text, nothing lost and nothing twice. */
  lemma {:induction false} WeaveRestores(text: string, spans: seq<Span>, cursor: nat)
    requires cursor <= |text| && Successive(spans, cursor, |text|)
    ensures Weave(Gaps(text, spans, cursor), Covered(text, spans, cursor)) == text[cursor..]
  {
    SuccessiveEnd(spans, cursor, |text|);
    if spans == [] {
      assert Weave([text[cursor..]], []) == text[cursor..];
    } else {
      SuccessiveEnd(spans[1..], spans[0].end, |text|);
      WeaveRestores(text, spans[1..], spans[0].end);
      var start, end := spans[0].start, spans[0].end;
      assert text[cursor..] == text[cursor..start] + text[start..end] + text[end..];
    }
  }

  function Replacements(ms: seq<Match>, salt: Salt): (parts: seq<string>)
    requires salt.Salted?
    ensures |parts| == |ms|
  {
    if ms == [] then [] else [Replacement(ms[0].kind, ms[0].value, salt)] + Replacements(ms[1..], salt)
  }

  /** What stands for a match: the kind, and the twelve characters that the salt gives for the
      text that was matched. */
  ghost predicate MarkOf(mark: string, kind: string, text: string, salt: Salt)
    requires salt.Salted?
  {
    && |mark| == |kind| + 24 && mark[..10] == "[REDACTED:" && mark[10..10 + |kind|] == kind
    && mark[10 + |kind|] == ':' && mark[11 + |kind|..23 + |kind|] == salt.prefix(text) && mark[23 + |kind|] == ']'
  }

  lemma MarksName(kind: string, text: string, salt: Salt)
    requires salt.Salted? && ValidSalt(salt)
    ensures MarkOf(Replacement(kind, text, salt), kind, text, salt) && ReplacementLength(kind) == |kind| + 24
  {
    var mark := Replacement(kind, text, salt);
    assert mark == "[REDACTED:" + (kind + (":" + (salt.prefix(text) + "]")));
    assert mark[10..] == kind + (":" + (salt.prefix(text) + "]"));
    assert mark[10 + |kind|..] == ":" + (salt.prefix(text) + "]");
    assert mark[11 + |kind|..] == salt.prefix(text) + "]";
  }

  /** Each match has its own mark, in order, and the gaps are the text between the matches. */
  lemma {:induction false} MarksStand(text: string, ms: seq<Match>, cursor: nat, salt: Salt, i: nat)
    requires salt.Salted? && ValidSalt(salt) && Successive(SpansOf(ms), cursor, |text|) && cursor <= |text| && i <= |ms|
    ensures i < |ms| ==> MarkOf(Replacements(ms, salt)[i], ms[i].kind, ms[i].value, salt)
    ensures var from, to := if i == 0 then cursor else ms[i - 1].end, if i == |ms| then |text| else ms[i].start;
            from <= to <= |text| && Gaps(text, SpansOf(ms), cursor)[i] == text[from..to]
    decreases |ms|
  {
    SuccessiveEnd(SpansOf(ms), cursor, |text|);
    if i < |ms| {
      MarksName(ms[i].kind, ms[i].value, salt);
    }
    if i > 0 {
      SuccessiveEnd(SpansOf(ms[1..]), ms[0].end, |text|);
      MarksStand(text, ms[1..], ms[0].end, salt, i - 1);
    }
  }

  /** JavaScript `slice` between two positions. */
  function Slice(text: string, from: nat, end: nat): string {
    var last := if end < |text| then end else |text|;
    if from < last then text[from..last] else ""
  }

  function Spliced(text: string, ms: seq<Match>, cursor: nat, salt: Salt): string
    requires salt.Salted? && Successive(SpansOf(ms), cursor, |text|)
  {
    Weave(Gaps(text, SpansOf(ms), cursor), Replacements(ms, salt))
  }

  lemma SplicedStep(text: string, ms: seq<Match>, cursor: nat, salt: Salt)
    requires salt.Salted? && Successive(SpansOf(ms), cursor, |text|) && ms != []
    ensures ms[0].end <= |text| && Successive(SpansOf(ms[1..]), ms[0].end, |text|)
    ensures Spliced(text, ms, cursor, salt) ==
              text[cursor..ms[0].start] + Replacement(ms[0].kind, ms[0].value, salt) +
                  Spliced(text, ms[1..], ms[0].end, salt)
  {
    SuccessiveEnd(SpansOf(ms), cursor, |text|);
  }

  /** The loop of `replaceMatches`. */
  method Splice(text: string, selected: seq<Match>, salt: Salt) returns (result: string)
    requires salt.Salted? && Successive(SpansOf(selected), 0, |text|)
    ensures result == Spliced(text, selected, 0, salt)
  {
    result := "";
    var cursor: nat := 0;
    assert selected[0..] == selected;
    for i := 0 to |selected|
      invariant cursor <= |text| && Successive(SpansOf(selected[i..]), cursor, |text|)
      invariant result + Spliced(text, selected[i..], cursor, salt) == Spliced(text, selected, 0, salt)
    {
      var m := selected[i];
      ghost var before, rest := result, selected[i + 1..];
      assert selected[i..][0] == m && selected[i..][1..] == rest;
      SplicedStep(text, selected[i..], cursor, salt);
      result := result + Slice(text, cursor, m.start);
      result := result + Replacement(m.kind, m.value, salt);
      assert Slice(text, cursor, m.start) == text[cursor..m.start];
      assert before + (text[cursor..m.start] + Replacement(m.kind, m.value, salt) + Spliced(text, rest, m.end, salt))
          == result + Spliced(text, rest, m.end, salt);
      cursor := m.end;
    }
    assert selected[|selected|..] == [];
    assert Slice(text, cursor, |text|) == text[cursor..];
    result := result + Slice(text, cursor, |text|);
  }

  /** `replaceMatches`: with a salt, the text with exactly the chosen spans replaced;
      without one it throws unless nothing is chosen. */
  method ReplaceMatches(text: string, matches: seq<Match>, salt: Salt, compareKinds: (string, string) -> int)
    returns (outcome: Outcome<string>)
    requires InBounds(matches, |text|)
    ensures var selected := Select(SortMatches(matches, compareKinds), 0);
            && Successive(SpansOf(selected), 0, |text|)
            && match salt {
                 case NoSalt => outcome == if selected == [] then Ok(text) else Failed(SaltMissing)
                 case Salted(_) => outcome == Ok(Weave(Gaps(text, SpansOf(selected), 0), Replacements(selected, salt)))
               }
  {
    var selected := SelectNonOverlapping(matches, compareKinds);
    SelectionIsGreedy(matches, compareKinds, |text|);
    DisjointIsSuccessive(selected, 0, |text|);
    if salt.NoSalt? {
      return if selected == [] then Ok(text) else Failed(SaltMissing);
    }
    var result := Splice(text, selected, salt);
    return Ok(result);
  }

  // ----- custom patterns -----

  /** A configured pattern: its name as configured and as normalised, its text, whether that
      compiles, and the compiled expression's `exec` from a `lastIndex`. */
  datatype Pattern = Pattern(
    configuredName: string, name: string, text: Text, compiles: bool, exec: (string, nat) -> Option<Span>)

  /** Validation finds no issue with the pattern's text. */
  predicate Safe(pattern: Pattern) {
    Accepted(pattern.text, pattern.compiles)
  }

  /** What any expression with the global flag does: a match found from a position starts
      there or later and lies inside the text. Empty matches are allowed. */
  ghost predicate Searches(pattern: Pattern) {
    forall text: string, from: nat :: pattern.exec(text, from).Some? ==>
      from <= pattern.exec(text, from).value.start <= pattern.exec(text, from).value.end <= |text|
  }

  /** `spans` are all the successive matches from a position. */
  predicate IsWholeRun(pattern: Pattern, text: string, from: nat, spans: seq<Span>)
    decreases |spans|
  {
    var next := pattern.exec(text, from);
    if spans == [] then next.None?
    else next == Some(spans[0]) && IsWholeRun(pattern, text, spans[0].end, spans[1..])
  }

  /** The whole run, when it has no more matches than the budget. */
  function Run(pattern: Pattern, text: string, from: nat, budget: nat): Option<seq<Span>>
    decreases budget
  {
    match pattern.exec(text, from)
    case None => Some([])
    case Some(span) =>
      if budget == 0 then None
      else
        var rest := Run(pattern, text, span.end, budget - 1);
        if rest.None? then None else Some([span] + rest.value)
  }

  /** `Run` finds the whole run exactly when there is one within the budget. */
  lemma {:induction false} RunIsExact(pattern: Pattern, text: string, from: nat, budget: nat, spans: seq<Span>)
    ensures Run(pattern, text, from, budget) == Some(spans) <==>
              IsWholeRun(pattern, text, from, spans) && |spans| <= budget
    decreases budget
  {
    var next := pattern.exec(text, from);
    if next.Some? && budget > 0 {
      RunIsExact(pattern, text, next.value.end, budget - 1, if spans == [] then [] else spans[1..]);
      if spans != [] {
        assert spans == [spans[0]] + spans[1..];
      }
    }
  }

  lemma {:induction false} RunIsSuccessive(pattern: Pattern, text: string, from: nat, spans: seq<Span>)
    requires Searches(pattern) && from <= |text| && IsWholeRun(pattern, text, from, spans)
    ensures Successive(spans, from, |text|)
    decreases |spans|
  {
    if spans != [] {
      RunIsSuccessive(pattern, text, spans[0].end, spans[1..]);
    }
  }

  /** The replacements of a run: each hashes its own span. */
  function RunReplacements(name: string, text: string, spans: seq<Span>, cursor: nat, salt: Salt): (parts: seq<string>)
    requires salt.Salted? && Successive(spans, cursor, |text|)
    ensures |parts| == |spans|
  {
    SuccessiveEnd(spans, cursor, |text|);
    if spans == [] then []
    else
      [Replacement(name, text[spans[0].start..spans[0].end], salt)] +
      RunReplacements(name, text, spans[1..], spans[0].end, salt)
  }

  /** The same for a pattern: its name, and the salted text of each of its matches. */
  lemma {:induction false} RunMarksStand(name: string, text: string, spans: seq<Span>, cursor: nat, salt: Salt, i: nat)
    requires salt.Salted? && ValidSalt(salt) && Successive(spans, cursor, |text|) && i < |spans| && cursor <= |text|
    ensures cursor <= spans[i].start <= spans[i].end <= |text|
    ensures MarkOf(RunReplacements(name, text, spans, cursor, salt)[i], name, text[spans[i].start..spans[i].end], salt)
    decreases |spans|
  {
    SuccessiveEnd(spans, cursor, |text|);
    if i == 0 {
      MarksName(name, text[spans[0].start..spans[0].end], salt);
    } else {
      RunMarksStand(name, text, spans[1..], spans[0].end, salt, i - 1);
    }
  }

  function Redacted(name: string, text: string, spans: seq<Span>, cursor: nat, salt: Salt): string
    requires salt.Salted? && Successive(spans, cursor, |text|)
  {
    Weave(Gaps(text, spans, cursor), RunReplacements(name, text, spans, cursor, salt))
  }

  function ReplacementLength(name: string): nat {
    |"[REDACTED:"| + |name| + 1 + HASH_PREFIX_LENGTH + 1
  }

  lemma RedactedStep(name: string, text: string, spans: seq<Span>, cursor: nat, salt: Salt)
    requires ValidSalt(salt) && salt.Salted? && Successive(spans, cursor, |text|) && spans != []
    ensures spans[0].end <= |text|
    ensures Redacted(name, text, spans, cursor, salt) ==
              text[cursor..spans[0].start] + Replacement(name, text[spans[0].start..spans[0].end], salt)
              + Redacted(name, text, spans[1..], spans[0].end, salt)
    ensures |Replacement(name, text[spans[0].start..spans[0].end], salt)| == ReplacementLength(name)
  {
    SuccessiveEnd(spans, cursor, |text|);
  }

  class MatchCounter {
    var value: nat

    constructor ()
      ensures value == 0
    {
      value := 0;
    }
  }

  /** Matches still allowed by the shared counter. */
  function Budget(counted: nat): nat {
    if counted < MAX_CUSTOM_REDACTION_MATCHES then MAX_CUSTOM_REDACTION_MATCHES - counted else 0
  }

  /** What is left to write from a position, and how many matches that takes. */
  datatype Rest = Rest(text: string, matches: nat)

  /** The rewriting of the text from a position on, when the whole run fits the budget. */
  ghost function Rewritten(text: string, pattern: Pattern, salt: Salt, cursor: nat, budget: nat): Option<Rest>
    requires Searches(pattern) && salt.Salted? && cursor <= |text|
  {
    var run := Run(pattern, text, cursor, budget);
    if run.None? then None
    else
      RunIsExact(pattern, text, cursor, budget, run.value);
      RunIsSuccessive(pattern, text, cursor, run.value);
      Some(Rest(Redacted(pattern.name, text, run.value, cursor, salt), |run.value|))
  }

  function Before(written: string, counted: nat, rest: Option<Rest>): Option<Rest> {
    if rest.None? then None else Some(Rest(written + rest.value.text, counted + rest.value.matches))
  }

  lemma RewrittenStep(text: string, pattern: Pattern, salt: Salt, cursor: nat, budget: nat)
    requires Searches(pattern) && ValidSalt(salt) && salt.Salted? && cursor <= |text|
    ensures var next := pattern.exec(text, cursor);
            if next.None? then Rewritten(text, pattern, salt, cursor, budget) == Some(Rest(text[cursor..], 0))
            else if budget == 0 then Rewritten(text, pattern, salt, cursor, budget).None?
            else
              var piece := text[cursor..next.value.start] +
                  Replacement(pattern.name, text[next.value.start..next.value.end], salt);
              && |piece| == next.value.start - cursor + ReplacementLength(pattern.name)
              && Rewritten(text, pattern, salt, cursor, budget)
                 == Before(piece, 1, Rewritten(text, pattern, salt, next.value.end, budget - 1))
  {
    var run := Run(pattern, text, cursor, budget);
    if run.Some? && run.value != [] {
      RunIsExact(pattern, text, cursor, budget, run.value);
      RunIsSuccessive(pattern, text, cursor, run.value);
      RedactedStep(pattern.name, text, run.value, cursor, salt);
    }
  }

  lemma BeforeNothing(rest: Option<Rest>)
    ensures Before("", 0, rest) == rest
  {
    if rest.Some? {
      assert "" + rest.value.text == rest.value.text;
    }
  }

  lemma BeforeTwice(first: string, second: string, m: nat, n: nat, rest: Option<Rest>)
    ensures Before(first, m, Before(second, n, rest)) == Before(first + second, m + n, rest)
  {
    if rest.Some? {
      assert first + (second + rest.value.text) == (first + second) + rest.value.text;
    }
  }

  /** The result of one pattern as a function of the text and the matches counted so far. */
  ghost function PatternOutcome(text: string, pattern: Pattern, salt: Salt, counted: nat): Option<Rest>
    requires Searches(pattern)
  {
    if |text| > MAX_CUSTOM_REDACTION_INTERMEDIATE_CHARS || !Safe(pattern) then None
    else if pattern.exec(text, 0).None? then Some(Rest(text, 0))
    else if salt.NoSalt? then None
    else
      var rewritten := Rewritten(text, pattern, salt, 0, Budget(counted));
      if rewritten.None? || |rewritten.value.text| > MAX_CUSTOM_REDACTION_INTERMEDIATE_CHARS then None else rewritten
  }

  /** Why a pattern is given up, when it is. */
  ghost function PatternFailure(text: string, pattern: Pattern, salt: Salt, counted: nat): Failure
    requires Searches(pattern)
  {
    if |text| > MAX_CUSTOM_REDACTION_INTERMEDIATE_CHARS then BudgetExceeded
    else if !Safe(pattern) then PatternRejected
    else if salt.Salted? then BudgetExceeded
    else
      match pattern.exec(text, 0)
      case None => SaltMissing
      case Some(first) =>
        if counted >= MAX_CUSTOM_REDACTION_MATCHES
           || first.start + ReplacementLength(pattern.name) > MAX_CUSTOM_REDACTION_INTERMEDIATE_CHARS
        then BudgetExceeded
        else SaltMissing
  }

  function TotalLength(spans: seq<Span>): int {
    if spans == [] then 0 else spans[0].end - spans[0].start + TotalLength(spans[1..])
  }

  /** Each match gives up its own length and takes that of its mark. */
  lemma {:induction false} RedactedLength(name: string, text: string, spans: seq<Span>, cursor: nat, salt: Salt)
    requires ValidSalt(salt) && salt.Salted? && Successive(spans, cursor, |text|) && cursor <= |text|
    ensures |Redacted(name, text, spans, cursor, salt)|
            == |text| - cursor - TotalLength(spans) + |spans| * (|name| + 24)
  {
    if spans == [] {
      assert Redacted(name, text, spans, cursor, salt) == text[cursor..];
    } else {
      hide Redacted, Replacement, MarkOf, ReplacementLength, Successive, ValidSalt;
      var end := spans[0].end;
      FirstSpan(text, spans, cursor);
      RedactedStep(name, text, spans, cursor, salt);
      MarksName(name, text[spans[0].start..end], salt);
      RedactedLength(name, text, spans[1..], end, salt);
      OneMore(|spans[1..]|, |name| + 24);
    }
  }

  lemma FirstSpan(text: string, spans: seq<Span>, cursor: nat)
    requires spans != [] && Successive(spans, cursor, |text|)
    ensures cursor <= spans[0].start <= spans[0].end <= |text| && Successive(spans[1..], spans[0].end, |text|)
  {
    SuccessiveEnd(spans, cursor, |text|);
  }

  lemma OneMore(n: nat, k: nat)
    ensures (n + 1) * k == n * k + k
  {
  }

  /** Main result: a pattern that was accepted succeeds on a text that fits exactly if it has
      no match there, or there is a salt, its matches end and fit the shared count of 4096, and
      the text with all of them marked has no more than a million characters. */
  lemma PatternSucceedsExactly(text: string, pattern: Pattern, salt: Salt, counted: nat)
    requires Searches(pattern) && ValidSalt(salt)
    ensures PatternOutcome(text, pattern, salt, counted).Some? <==>
              |text| <= 1000000 && Safe(pattern) && exists spans :: RunFits(text, pattern, salt, counted, spans)
    ensures PatternOutcome(text, pattern, salt, counted).Some? ==>
              IsWholeRun(pattern, text, 0, []) ==> PatternOutcome(text, pattern, salt, counted).value == Rest(text, 0)
  {
    hide Safe;
    var outcome := PatternOutcome(text, pattern, salt, counted);
    if pattern.exec(text, 0).None? {
      assert |text| <= 1000000 ==> RunFits(text, pattern, salt, counted, []);
    } else if salt.Salted? {
      var run := Run(pattern, text, 0, Budget(counted));
      if run.Some? {
        RunIsExact(pattern, text, 0, Budget(counted), run.value);
        RunIsSuccessive(pattern, text, 0, run.value);
        RedactedLength(pattern.name, text, run.value, 0, salt);
        assert outcome.Some? ==> RunFits(text, pattern, salt, counted, run.value);
      }
      if spans :| RunFits(text, pattern, salt, counted, spans) {
        RunIsExact(pattern, text, 0, Budget(counted), spans);
      }
    }
  }

  ghost predicate RunFits(text: string, pattern: Pattern, salt: Salt, counted: nat, spans: seq<Span>) {
    && IsWholeRun(pattern, text, 0, spans)
    && (spans == [] || (
          && salt.Salted? && counted + |spans| <= 4096
          && |text| - TotalLength(spans) + |spans| * (|pattern.name| + 24) <= 1000000))
  }

  /** Main result: why a pattern is given up. A text that is too long counts first, then the
      validation; without a salt the first match decides, and a budget that it exceeds counts
      before the salt that is missing. */
  lemma FailuresAreTold(text: string, pattern: Pattern, salt: Salt, counted: nat)
    requires Searches(pattern) && ValidSalt(salt) && PatternOutcome(text, pattern, salt, counted).None?
    ensures var failure := PatternFailure(text, pattern, salt, counted);
            && (failure == PatternRejected <==> |text| <= 1000000 && !Safe(pattern))
            && (failure == SaltMissing <==>
                 && |text| <= 1000000 && Safe(pattern) && salt == NoSalt && counted < 4096
                 && pattern.exec(text, 0).Some? && pattern.exec(text, 0).value.start + |pattern.name| + 24 <= 1000000)
  {
    hide Safe;
  }

  /** `applyCustomRedactionPattern`. It ends for every matcher; it returns exactly when the
      text, the total of matches and the spliced result fit, and it returns that result. */
  method ApplyPattern(text: string, pattern: Pattern, salt: Salt, counter: MatchCounter)
    returns (outcome: Outcome<string>)
    requires Searches(pattern) && ValidSalt(salt)
    modifies counter
    ensures outcome.Ok? <==> PatternOutcome(text, pattern, salt, old(counter.value)).Some?
    ensures outcome.Ok? ==>
              var result := PatternOutcome(text, pattern, salt, old(counter.value)).value;
              outcome.value == result.text && counter.value == old(counter.value) + result.matches
    ensures outcome.Failed? ==> outcome.failure == PatternFailure(text, pattern, salt, old(counter.value))
  {
    if |text| > MAX_CUSTOM_REDACTION_INTERMEDIATE_CHARS {
      return Failed(BudgetExceeded);
    }
    if !Safe(pattern) {
      return Failed(PatternRejected);
    }
    if salt.NoSalt? {
      outcome := ApplyWithoutSalt(text, pattern, counter);
    } else {
      outcome := ApplyWithSalt(text, pattern, salt, counter);
    }
  }

  /** The rewriting loop; `outputLength` is always the length of what was written. */
  method ApplyWithSalt(text: string, pattern: Pattern, salt: Salt, counter: MatchCounter)
    returns (outcome: Outcome<string>)
    requires Searches(pattern) && ValidSalt(salt) && salt.Salted? && Safe(pattern)
    requires |text| <= MAX_CUSTOM_REDACTION_INTERMEDIATE_CHARS
    modifies counter
    ensures outcome.Ok? <==> PatternOutcome(text, pattern, salt, old(counter.value)).Some?
    ensures outcome.Ok? ==>
              var result := PatternOutcome(text, pattern, salt, old(counter.value)).value;
              outcome.value == result.text && counter.value == old(counter.value) + result.matches
    ensures outcome.Failed? ==> outcome.failure == BudgetExceeded
  {
    var counted := counter.value;
    ghost var budget: nat := Budget(counted);
    ghost var whole := Rewritten(text, pattern, salt, 0, budget);
    var replacementLength := ReplacementLength(pattern.name);
    var chunks: string := "";
    var cursor: nat, outputLength: nat := 0, 0;
    var next := pattern.exec(text, 0);
    BeforeNothing(whole);
    while next.Some?
      invariant next == pattern.exec(text, cursor) && cursor <= |text| && outputLength == |chunks|
      invariant counter.value == counted + (Budget(counted) - budget) && budget <= Budget(counted)
      invariant budget == Budget(counted) ==> chunks == "" && cursor == 0
      invariant budget < Budget(counted) ==> pattern.exec(text, 0).Some?
      invariant whole == Before(chunks, Budget(counted) - budget, Rewritten(text, pattern, salt, cursor, budget))
      decreases budget
    {
      var span := next.value;
      RewrittenStep(text, pattern, salt, cursor, budget);
      counter.value := counter.value + 1;
      if counter.value > MAX_CUSTOM_REDACTION_MATCHES {
        return Failed(BudgetExceeded);
      }
      var unmatchedLength := span.start - cursor;
      var piece := text[cursor..span.start] + Replacement(pattern.name, text[span.start..span.end], salt);
      BeforeTwice(chunks, piece, Budget(counted) - budget, 1, Rewritten(text, pattern, salt, span.end, budget - 1));
      if outputLength + unmatchedLength + replacementLength > MAX_CUSTOM_REDACTION_INTERMEDIATE_CHARS {
        return Failed(BudgetExceeded);
      }
      chunks := chunks + piece;
      outputLength := outputLength + unmatchedLength + replacementLength;
      cursor := span.end;
      budget := budget - 1;
      next := pattern.exec(text, cursor);
    }
    RewrittenStep(text, pattern, salt, cursor, budget);
    var tailLength := |text| - cursor;
    if outputLength + tailLength > MAX_CUSTOM_REDACTION_INTERMEDIATE_CHARS {
      return Failed(BudgetExceeded);
    }
    return Ok(chunks + text[cursor..]);
  }

  /** Without a salt the first match that passes the budget checks throws. */
  method ApplyWithoutSalt(text: string, pattern: Pattern, counter: MatchCounter) returns (outcome: Outcome<string>)
    requires Searches(pattern) && |text| <= MAX_CUSTOM_REDACTION_INTERMEDIATE_CHARS && Safe(pattern)
    modifies counter
    ensures outcome.Ok? <==> pattern.exec(text, 0).None?
    ensures outcome.Ok? ==> outcome.value == text && counter.value == old(counter.value)
    ensures outcome.Failed? ==> outcome.failure == PatternFailure(text, pattern, NoSalt, old(counter.value))
  {
    var next := pattern.exec(text, 0);
    if next.None? {
      return Ok(text);
    }
    counter.value := counter.value + 1;
    if counter.value > MAX_CUSTOM_REDACTION_MATCHES ||
       next.value.start + ReplacementLength(pattern.name) > MAX_CUSTOM_REDACTION_INTERMEDIATE_CHARS {
      return Failed(BudgetExceeded);
    }
    return Failed(SaltMissing);
  }

  // ----- all patterns -----

  predicate Rejected(patterns: seq<Pattern>) {
    || |patterns| > MAX_CUSTOM_REDACTION_PATTERNS
    || exists i ::
         && 0 <= i < |patterns|
         && (!Safe(patterns[i]) || |patterns[i].configuredName| > CUSTOM_REDACTION_PATTERN_NAME_MAX_CHARS)
  }

  /** The patterns one after the other, the matches of all of them on one count. */
  ghost function AllOutcomes(text: string, patterns: seq<Pattern>, salt: Salt, counted: nat): Option<Rest>
    requires forall p | p in patterns :: Searches(p)
    decreases |patterns|
  {
    if patterns == [] then Some(Rest(text, counted))
    else
      var first := PatternOutcome(text, patterns[0], salt, counted);
      if first.None? then None else AllOutcomes(first.value.text, patterns[1..], salt, counted + first.value.matches)
  }

  /** `runCustomRegexRedactors`. */
  method RunCustomRedactors(text: string, patterns: seq<Pattern>, salt: Salt) returns (outcome: Outcome<string>)
    requires (forall p | p in patterns :: Searches(p)) && ValidSalt(salt)
    ensures outcome.Ok? <==> !Rejected(patterns) && AllOutcomes(text, patterns, salt, 0).Some?
    ensures outcome.Ok? ==> outcome.value == AllOutcomes(text, patterns, salt, 0).value.text
  {
    hide Safe, PatternOutcome, Rejected;
    if Rejected(patterns) {
      return Failed(PatternRejected);
    }
    var counter := new MatchCounter();
    var redacted := text;
    assert patterns[0..] == patterns;
    for i := 0 to |patterns|
      invariant AllOutcomes(redacted, patterns[i..], salt, counter.value) == AllOutcomes(text, patterns, salt, 0)
    {
      assert patterns[i..][0] == patterns[i] && patterns[i..][1..] == patterns[i + 1..];
      var result := ApplyPattern(redacted, patterns[i], salt, counter);
      if result.Failed? {
        return result;
      }
      redacted := result.value;
    }
    return Ok(redacted);
  }

  /** Too many patterns, a pattern that validation objects to, or a name that is too long. */
  lemma RejectedExactly(patterns: seq<Pattern>)
    ensures Rejected(patterns) <==>
              |patterns| > 16 || exists p :: p in patterns && (!Accepted(p.text, p.compiles) || |p.configuredName| > 64)
  {
    if p :| p in patterns && (!Accepted(p.text, p.compiles) || |p.configuredName| > 64) {
      var i :| 0 <= i < |patterns| && patterns[i] == p;
      assert !Safe(patterns[i]) || |patterns[i].configuredName| > CUSTOM_REDACTION_PATTERN_NAME_MAX_CHARS;
    }
  }

  /** The states of a run: each pattern takes the text and the count that the one before left. */
  ghost predicate Stages(states: seq<Rest>, patterns: seq<Pattern>, salt: Salt)
    requires forall p | p in patterns :: Searches(p)
  {
    |states| == |patterns| + 1 && forall i | 0 <= i < |patterns| :: LeadsTo(patterns[i], salt, states[i], states[i + 1])
  }

  ghost predicate LeadsTo(pattern: Pattern, salt: Salt, before: Rest, after: Rest)
    requires Searches(pattern)
  {
    var outcome := PatternOutcome(before.text, pattern, salt, before.matches);
    outcome.Some? && after.text == outcome.value.text && after.matches == before.matches + outcome.value.matches
  }

  /** Main result: a run completes exactly if its patterns succeed one after the other on one
      count, and what the last of them leaves is its result. */
  lemma {:induction false} RunsAreStages(text: string, patterns: seq<Pattern>, salt: Salt, counted: nat, result: Rest)
    requires forall p | p in patterns :: Searches(p)
    ensures AllOutcomes(text, patterns, salt, counted) == Some(result) <==>
              exists states: seq<Rest> ::
                Stages(states, patterns, salt) && states[0] == Rest(text, counted) && states[|patterns|] == result
    decreases |patterns|
  {
    hide PatternOutcome;
    var start := Rest(text, counted);
    if patterns == [] {
      assert Stages([start], patterns, salt);
    } else {
      hide Stages, LeadsTo, Searches;
      var first, rest := PatternOutcome(text, patterns[0], salt, counted), patterns[1..];
      if first.Some? {
        var next := Rest(first.value.text, counted + first.value.matches);
        RunsAreStages(next.text, rest, salt, next.matches, result);
        if states: seq<Rest> :| Stages(states, rest, salt) && states[0] == next && states[|rest|] == result {
          StagesBefore(start, states, patterns, salt);
        }
      }
      if states: seq<Rest> :| Stages(states, patterns, salt) && states[0] == start && states[|patterns|] == result {
        StagesAfter(states, patterns, salt);
      }
    }
  }

  lemma StagesBefore(start: Rest, states: seq<Rest>, patterns: seq<Pattern>, salt: Salt)
    requires (forall p | p in patterns :: Searches(p)) && patterns != []
    requires Stages(states, patterns[1..], salt) && LeadsTo(patterns[0], salt, start, states[0])
    ensures Stages([start] + states, patterns, salt)
    ensures ([start] + states)[|patterns|] == states[|patterns| - 1]
  {
    hide LeadsTo, Searches;
    var all, rest := [start] + states, patterns[1..];
    forall i | 0 <= i < |patterns| ensures LeadsTo(patterns[i], salt, all[i], all[i + 1]) {
      if i > 0 {
        assert LeadsTo(rest[i - 1], salt, states[i - 1], states[i - 1 + 1]);
      }
    }
  }

  lemma StagesAfter(states: seq<Rest>, patterns: seq<Pattern>, salt: Salt)
    requires (forall p | p in patterns :: Searches(p)) && patterns != [] && Stages(states, patterns, salt)
    ensures Stages(states[1..], patterns[1..], salt) && LeadsTo(patterns[0], salt, states[0], states[1])
    ensures states[1..][|patterns| - 1] == states[|patterns|]
  {
    hide LeadsTo, Searches;
    assert LeadsTo(patterns[0], salt, states[0], states[0 + 1]);
    var rest := patterns[1..];
    forall i | 0 <= i < |rest| ensures LeadsTo(rest[i], salt, states[1..][i], states[1..][i + 1]) {
      assert LeadsTo(patterns[i + 1], salt, states[i + 1], states[i + 1 + 1]);
    }
  }

  /** A run that completes applied only patterns that passed the analysis: where the analyser
      reads one as it is meant, its repetitions match any non-empty word in one way. */
  lemma AppliedPatternsAreUnambiguous(
      patterns: seq<Pattern>, i: nat, repetition: RegexTree.Node, p: RegexAmbiguity.Parse, q: RegexAmbiguity.Parse)
    requires !Rejected(patterns) && i < |patterns|
    requires var source, ci := SourceOf(patterns[i].text), IgnoresCase(patterns[i].text);
             && Compiled(source, ci).Some? && !SplitAlternation(source, 0, ci)
             && RegexAmbiguity.Part(repetition, Compiled(source, ci).value) && repetition.Repetition?
    requires RegexAmbiguity.ParseOf(p, repetition) && RegexAmbiguity.ParseOf(q, repetition)
    requires RegexAmbiguity.Yield(p) == RegexAmbiguity.Yield(q) && RegexAmbiguity.Yield(p) != []
    ensures p == q
  {
    AcceptedPatternsAreUnambiguous(patterns[i].text, patterns[i].compiles, repetition, p, q);
  }

  lemma PatternBounds(text: string, pattern: Pattern, salt: Salt, counted: nat)
    requires Searches(pattern) && PatternOutcome(text, pattern, salt, counted).Some?
    ensures var result := PatternOutcome(text, pattern, salt, counted).value;
            && result.matches <= Budget(counted) && |result.text| <= MAX_CUSTOM_REDACTION_INTERMEDIATE_CHARS
  {
    if salt.Salted? {
      var run := Run(pattern, text, 0, Budget(counted));
      if run.Some? {
        RunIsExact(pattern, text, 0, Budget(counted), run.value);
      }
    }
  }

  /** Main result: whatever the patterns match, a completed run made at most
      `MAX_CUSTOM_REDACTION_MATCHES` replacements and, if any pattern ran, its result fits. */
  lemma {:induction false} CompletedRunIsBounded(text: string, patterns: seq<Pattern>, salt: Salt, counted: nat)
    requires (forall p | p in patterns :: Searches(p)) && counted <= MAX_CUSTOM_REDACTION_MATCHES
    requires AllOutcomes(text, patterns, salt, counted).Some?
    ensures var result := AllOutcomes(text, patterns, salt, counted).value;
            && counted <= result.matches <= MAX_CUSTOM_REDACTION_MATCHES
            && (patterns != [] ==> |result.text| <= MAX_CUSTOM_REDACTION_INTERMEDIATE_CHARS)
    decreases |patterns|
  {
    if patterns != [] {
      var first := PatternOutcome(text, patterns[0], salt, counted).value;
      PatternBounds(text, patterns[0], salt, counted);
      CompletedRunIsBounded(first.text, patterns[1..], salt, counted + first.matches);
    }
  }

  /** A pattern's text outside its matches is kept: the result weaves the same gaps that,
      woven with the matched text, give the input back. */
  lemma PatternKeepsTheRest(text: string, pattern: Pattern, salt: Salt, counted: nat) returns (spans: seq<Span>)
    requires Searches(pattern) && salt.Salted? && PatternOutcome(text, pattern, salt, counted).Some?
    ensures IsWholeRun(pattern, text, 0, spans) && Successive(spans, 0, |text|)
    ensures PatternOutcome(text, pattern, salt, counted).value.matches == |spans|
    ensures Weave(Gaps(text, spans, 0), Covered(text, spans, 0)) == text
    ensures PatternOutcome(text, pattern, salt, counted).value.text
         == Weave(Gaps(text, spans, 0), RunReplacements(pattern.name, text, spans, 0, salt))
  {
    var run := Run(pattern, text, 0, Budget(counted));
    spans := run.value;
    RunIsExact(pattern, text, 0, Budget(counted), spans);
    RunIsSuccessive(pattern, text, 0, spans);
    WeaveRestores(text, spans, 0);
    assert text[0..] == text;
  }
}
