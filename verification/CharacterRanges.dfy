/** Character domains of the regex safety analyser: lists of code-point ranges, their
    canonical merge, the disjointness test and the ASCII case expansion. */
module CharacterRanges {

  /** An inclusive range of code points. */
  datatype Range = Range(start: nat, end: nat)

  /** A domain the analyser knows, or one it cannot bound (`undefined` in the source). */
  datatype Domain = AnyCharacter | OneOf(ranges: seq<Range>)

  predicate InRanges(ranges: seq<Range>, c: nat) {
    exists i :: 0 <= i < |ranges| && ranges[i].start <= c <= ranges[i].end
  }

  predicate InDomain(domain: Domain, c: nat) {
    match domain
    case AnyCharacter => true
    case OneOf(ranges) => InRanges(ranges, c)
  }

  predicate Proper(ranges: seq<Range>) {
    forall i :: 0 <= i < |ranges| ==> ranges[i].start <= ranges[i].end
  }

  /** Sorted, and neither overlapping nor touching. */
  predicate Canonical(ranges: seq<Range>) {
    && Proper(ranges)
    && forall i, j :: 0 <= i < j < |ranges| ==> ranges[i].end + 1 < ranges[j].start
  }

  predicate ProperDomain(domain: Domain) {
    domain.OneOf? ==> Proper(domain.ranges)
  }

  predicate CanonicalDomain(domain: Domain) {
    domain.OneOf? ==> Canonical(domain.ranges)
  }

  ghost predicate SameCharacters(left: seq<Range>, right: seq<Range>) {
    forall c: nat :: InRanges(left, c) <==> InRanges(right, c)
  }

  // ----- sorting -----

  predicate Before(left: Range, right: Range) {
    left.start < right.start || (left.start == right.start && left.end <= right.end)
  }

  predicate Ordered(ranges: seq<Range>) {
    forall i, j :: 0 <= i < j < |ranges| ==> Before(ranges[i], ranges[j])
  }

  function Insert(range: Range, ranges: seq<Range>): seq<Range> {
    if ranges == [] || Before(range, ranges[0]) then [range] + ranges
    else [ranges[0]] + Insert(range, ranges[1..])
  }

  /** What the built-in sort yields under `compareRegexCharacterRanges`. */
  function Sort(ranges: seq<Range>): seq<Range> {
    if ranges == [] then [] else Insert(ranges[0], Sort(ranges[1..]))
  }

  lemma InRangesCons(range: Range, ranges: seq<Range>, c: nat)
    ensures InRanges([range] + ranges, c) <==> range.start <= c <= range.end || InRanges(ranges, c)
  {
    var all := [range] + ranges;
    if InRanges(ranges, c) {
      var i :| 0 <= i < |ranges| && ranges[i].start <= c <= ranges[i].end;
      assert all[i + 1] == ranges[i];
    }
    if range.start <= c <= range.end {
      assert all[0] == range;
    }
  }

  lemma InRangesAppend(left: seq<Range>, right: seq<Range>, c: nat)
    ensures InRanges(left + right, c) <==> InRanges(left, c) || InRanges(right, c)
  {
    var all := left + right;
    if InRanges(left, c) {
      var i :| 0 <= i < |left| && left[i].start <= c <= left[i].end;
      assert all[i] == left[i];
    }
    if InRanges(right, c) {
      var i :| 0 <= i < |right| && right[i].start <= c <= right[i].end;
      assert all[|left| + i] == right[i];
    }
  }

  lemma InsertKeeps(range: Range, ranges: seq<Range>, c: nat)
    ensures InRanges(Insert(range, ranges), c) <==> range.start <= c <= range.end || InRanges(ranges, c)
    ensures Proper([range]) && Proper(ranges) ==> Proper(Insert(range, ranges))
  {
    InRangesCons(range, ranges, c);
    if ranges != [] && !Before(range, ranges[0]) {
      InsertKeeps(range, ranges[1..], c);
      InRangesCons(ranges[0], Insert(range, ranges[1..]), c);
      InRangesCons(ranges[0], ranges[1..], c);
      assert ranges == [ranges[0]] + ranges[1..];
      assert Proper([range]) && Proper(ranges) ==> Proper(ranges[1..]);
    }
  }

  lemma InsertElements(range: Range, ranges: seq<Range>)
    ensures forall r :: r in Insert(range, ranges) ==> r == range || r in ranges
  {
  }

  lemma InsertOrdered(range: Range, ranges: seq<Range>)
    requires Ordered(ranges)
    ensures Ordered(Insert(range, ranges))
  {
    if ranges != [] && !Before(range, ranges[0]) {
      InsertOrdered(range, ranges[1..]);
      InsertElements(range, ranges[1..]);
      var rest := Insert(range, ranges[1..]);
      forall j | 0 <= j < |rest| ensures Before(ranges[0], rest[j]) {
        assert rest[j] in rest;
      }
    }
  }

  lemma SortKeeps(ranges: seq<Range>)
    requires Proper(ranges)
    ensures Proper(Sort(ranges)) && Ordered(Sort(ranges)) && SameCharacters(Sort(ranges), ranges)
  {
    if ranges != [] {
      SortKeeps(ranges[1..]);
      InsertOrdered(ranges[0], Sort(ranges[1..]));
      assert Proper([ranges[0]]);
      InsertKeeps(ranges[0], Sort(ranges[1..]), 0);
      forall c: nat ensures InRanges(Sort(ranges), c) <==> InRanges(ranges, c) {
        InsertKeeps(ranges[0], Sort(ranges[1..]), c);
        InRangesCons(ranges[0], ranges[1..], c);
        assert ranges == [ranges[0]] + ranges[1..];
      }
    }
  }

  // ----- merging -----

  /** One turn of the merge loop. */
  function Absorb(merged: seq<Range>, range: Range): seq<Range> {
    if merged == [] || range.start > merged[|merged| - 1].end + 1 then merged + [range]
    else
      var previous := merged[|merged| - 1];
      if range.end > previous.end then merged[|merged| - 1 := Range(previous.start, range.end)] else merged
  }

  function AbsorbAll(merged: seq<Range>, ranges: seq<Range>): seq<Range>
    decreases |ranges|
  {
    if ranges == [] then merged else AbsorbAll(Absorb(merged, ranges[0]), ranges[1..])
  }

  function Merge(ranges: seq<Range>): seq<Range> {
    AbsorbAll([], Sort(ranges))
  }

  /** The loop of `mergeRegexCharacterRanges`. */
  method MergeRanges(ranges: seq<Range>) returns (merged: seq<Range>)
    ensures merged == Merge(ranges)
  {
    var sorted := Sort(ranges);
    merged := [];
    var i := 0;
    while i < |sorted|
      invariant 0 <= i <= |sorted|
      invariant AbsorbAll(merged, sorted[i..]) == Merge(ranges)
    {
      var range := sorted[i];
      assert sorted[i..][0] == range && sorted[i..][1..] == sorted[i + 1..];
      if merged == [] || range.start > merged[|merged| - 1].end + 1 {
        merged := merged + [range];
      } else {
        var previous := merged[|merged| - 1];
        if range.end > previous.end {
          merged := merged[|merged| - 1 := Range(previous.start, range.end)];
        }
      }
      i := i + 1;
    }
  }

  lemma AbsorbKeeps(merged: seq<Range>, range: Range)
    requires Canonical(merged) && range.start <= range.end
    requires merged != [] ==> merged[|merged| - 1].start <= range.start
    ensures Canonical(Absorb(merged, range))
    ensures Absorb(merged, range) != []
    ensures Absorb(merged, range)[|Absorb(merged, range)| - 1].start <= range.start
    ensures forall c: nat :: InRanges(Absorb(merged, range), c) <==>
              InRanges(merged, c) || range.start <= c <= range.end
  {
    var result := Absorb(merged, range);
    forall c: nat ensures InRanges(result, c) <==> InRanges(merged, c) || range.start <= c <= range.end {
      InRangesAppend(merged, [range], c);
      InRangesOne(range, c);
      if result != merged + [range] {
        InRangesLast(merged, c);
        InRangesLast(result, c);
        assert result[..|result| - 1] == merged[..|merged| - 1];
      }
    }
  }

  lemma InRangesOne(range: Range, c: nat)
    ensures InRanges([range], c) <==> range.start <= c <= range.end
  {
    assert [range][0] == range;
  }

  lemma InRangesLast(ranges: seq<Range>, c: nat)
    requires ranges != []
    ensures InRanges(ranges, c) <==>
              InRanges(ranges[..|ranges| - 1], c) || ranges[|ranges| - 1].start <= c <= ranges[|ranges| - 1].end
  {
    InRangesAppend(ranges[..|ranges| - 1], [ranges[|ranges| - 1]], c);
    InRangesOne(ranges[|ranges| - 1], c);
    assert ranges == ranges[..|ranges| - 1] + [ranges[|ranges| - 1]];
  }

  lemma AbsorbAllKeeps(merged: seq<Range>, ranges: seq<Range>)
    requires Canonical(merged) && Proper(ranges) && Ordered(ranges)
    requires merged != [] && ranges != [] ==> merged[|merged| - 1].start <= ranges[0].start
    ensures Canonical(AbsorbAll(merged, ranges))
    ensures forall c: nat :: InRanges(AbsorbAll(merged, ranges), c) <==> InRanges(merged, c) || InRanges(ranges, c)
    decreases |ranges|
  {
    if ranges != [] {
      AbsorbKeeps(merged, ranges[0]);
      AbsorbAllKeeps(Absorb(merged, ranges[0]), ranges[1..]);
      forall c: nat ensures InRanges(AbsorbAll(merged, ranges), c) <==> InRanges(merged, c) || InRanges(ranges, c) {
        InRangesCons(ranges[0], ranges[1..], c);
        assert ranges == [ranges[0]] + ranges[1..];
      }
    }
  }

  /** Merging keeps exactly the same characters and leaves a canonical list. */
  lemma MergeIsExact(ranges: seq<Range>)
    requires Proper(ranges)
    ensures Canonical(Merge(ranges)) && SameCharacters(Merge(ranges), ranges)
  {
    SortKeeps(ranges);
    AbsorbAllKeeps([], Sort(ranges));
  }

  /** A set of characters has only one canonical list. */
  lemma {:induction false} CanonicalIsUnique(left: seq<Range>, right: seq<Range>)
    requires Canonical(left) && Canonical(right) && SameCharacters(left, right)
    ensures left == right
  {
    if left == [] || right == [] {
      HeadIsMember(left);
      HeadIsMember(right);
    } else {
      HeadStart(left, right);
      HeadStart(right, left);
      HeadEnd(left, right);
      HeadEnd(right, left);
      forall c: nat ensures InRanges(left[1..], c) <==> InRanges(right[1..], c) {
        InRangesCons(left[0], left[1..], c);
        InRangesCons(right[0], right[1..], c);
        assert left == [left[0]] + left[1..] && right == [right[0]] + right[1..];
      }
      CanonicalIsUnique(left[1..], right[1..]);
      assert left == [left[0]] + left[1..] && right == [right[0]] + right[1..];
    }
  }

  lemma HeadIsMember(ranges: seq<Range>)
    requires Canonical(ranges)
    ensures ranges != [] ==> InRanges(ranges, ranges[0].start)
  {
  }

  lemma HeadStart(left: seq<Range>, right: seq<Range>)
    requires Canonical(left) && Canonical(right) && left != [] && right != [] && SameCharacters(left, right)
    ensures left[0].start <= right[0].start
  {
    HeadIsMember(right);
  }

  lemma HeadEnd(left: seq<Range>, right: seq<Range>)
    requires Canonical(left) && Canonical(right) && left != [] && right != [] && SameCharacters(left, right)
    requires left[0].start == right[0].start
    ensures left[0].end <= right[0].end
  {
    assert !InRanges(right, right[0].end + 1);
  }

  /** Two lists of the same characters merge to the same list. */
  lemma MergeIsCanonical(left: seq<Range>, right: seq<Range>)
    requires Proper(left) && Proper(right)
    ensures Merge(left) == Merge(right) <==> SameCharacters(left, right)
  {
    MergeIsExact(left);
    MergeIsExact(right);
    if SameCharacters(left, right) {
      CanonicalIsUnique(Merge(left), Merge(right));
    }
  }

  lemma MergeOfCanonical(ranges: seq<Range>)
    requires Canonical(ranges)
    ensures Merge(ranges) == ranges
  {
    MergeIsExact(ranges);
    CanonicalIsUnique(Merge(ranges), ranges);
  }

  // ----- disjointness -----

  predicate ProvablyDisjoint(left: Domain, right: Domain) {
    && left.OneOf? && right.OneOf?
    && forall l, r | l in left.ranges && r in right.ranges :: !(l.start <= r.end && r.start <= l.end)
  }

  /** The pairwise test answers exactly whether two known domains share no character. */
  lemma DisjointnessIsExact(left: Domain, right: Domain)
    requires ProperDomain(left) && ProperDomain(right)
    ensures ProvablyDisjoint(left, right)
       <==> left.OneOf? && right.OneOf? && forall c: nat :: !(InDomain(left, c) && InDomain(right, c))
  {
    if left.OneOf? && right.OneOf? {
      if !ProvablyDisjoint(left, right) {
        var l, r :| l in left.ranges && r in right.ranges && l.start <= r.end && r.start <= l.end;
        var c := if l.start <= r.start then r.start else l.start;
        assert InRanges(left.ranges, c) && InRanges(right.ranges, c);
        assert InDomain(left, c) && InDomain(right, c);
      }
    }
  }

  // ----- ASCII case expansion -----

  const LAST_ASCII: nat := 0x7f
  const CASE_OFFSET: nat := 0x20

  function Max(a: nat, b: nat): nat { if a < b then b else a }

  function Min(a: nat, b: nat): nat { if a < b then a else b }

  predicate IsUpper(c: nat) { 0x41 <= c <= 0x5a }

  predicate IsLower(c: nat) { 0x61 <= c <= 0x7a }

  /** The same letter in the other case, any other character unchanged. */
  function SwapCase(c: nat): nat {
    if IsUpper(c) then c + CASE_OFFSET else if IsLower(c) then c - CASE_OFFSET else c
  }

  /** The lower-case letters of a range's upper-case letters. */
  function LoweredLetters(range: Range): seq<Range> {
    var start, end := Max(range.start, 0x41), Min(range.end, 0x5a);
    if start <= end then [Range(start + CASE_OFFSET, end + CASE_OFFSET)] else []
  }

  /** The upper-case letters of a range's lower-case letters. */
  function RaisedLetters(range: Range): seq<Range> {
    var start, end := Max(range.start, 0x61), Min(range.end, 0x7a);
    if start <= end then [Range(start - CASE_OFFSET, end - CASE_OFFSET)] else []
  }

  function CaseVariants(range: Range): seq<Range> {
    LoweredLetters(range) + RaisedLetters(range)
  }

  function AllCaseVariants(ranges: seq<Range>): seq<Range> {
    if ranges == [] then [] else CaseVariants(ranges[0]) + AllCaseVariants(ranges[1..])
  }

  lemma AllCaseVariantsStep(ranges: seq<Range>, i: nat)
    requires i < |ranges|
    ensures AllCaseVariants(ranges[..i + 1]) == AllCaseVariants(ranges[..i]) + CaseVariants(ranges[i])
  {
    if i > 0 {
      AllCaseVariantsStep(ranges[1..], i - 1);
      assert ranges[..i + 1][1..] == ranges[1..][..i] && ranges[..i][1..] == ranges[1..][..i - 1];
    }
  }

  predicate WithinAscii(ranges: seq<Range>) {
    forall r | r in ranges :: r.end <= LAST_ASCII
  }

  function AddAsciiCaseVariants(ranges: seq<Range>): Domain {
    if WithinAscii(ranges) then OneOf(Merge(ranges + AllCaseVariants(ranges))) else AnyCharacter
  }

  /** The two letter blocks of one turn of the loop of `addAsciiCaseVariants`. */
  method ShiftRange(range: Range) returns (shifted: seq<Range>)
    ensures shifted == CaseVariants(range)
  {
    shifted := [];
    var upperStart, upperEnd := Max(range.start, 0x41), Min(range.end, 0x5a);
    if upperStart <= upperEnd {
      shifted := [Range(upperStart + CASE_OFFSET, upperEnd + CASE_OFFSET)];
    }
    var lowerStart, lowerEnd := Max(range.start, 0x61), Min(range.end, 0x7a);
    if lowerStart <= lowerEnd {
      shifted := shifted + [Range(lowerStart - CASE_OFFSET, lowerEnd - CASE_OFFSET)];
    }
  }

  /** The loop of `addAsciiCaseVariants`. */
  method ComputeAsciiCaseVariants(domain: seq<Range>) returns (result: Domain)
    ensures result == AddAsciiCaseVariants(domain)
  {
    var ranges := domain;
    var i := 0;
    assert domain + AllCaseVariants(domain[..0]) == domain;
    hide AllCaseVariants, CaseVariants, Merge, Proper, Canonical;
    while i < |domain|
      invariant 0 <= i <= |domain|
      invariant forall k :: 0 <= k < i ==> domain[k].end <= LAST_ASCII
      invariant ranges == domain + AllCaseVariants(domain[..i])
    {
      var range := domain[i];
      if range.end > LAST_ASCII {
        return AnyCharacter;
      }
      var variants := ShiftRange(range);
      AllCaseVariantsStep(domain, i);
      assert ranges + variants == domain + (AllCaseVariants(domain[..i]) + variants);
      ranges := ranges + variants;
      i := i + 1;
    }
    assert domain[..i] == domain;
    var merged := MergeRanges(ranges);
    return OneOf(merged);
  }

  lemma LettersOfOne(range: Range, c: nat)
    requires range.start <= range.end
    ensures Proper(LoweredLetters(range)) && Proper(RaisedLetters(range))
    ensures InRanges(LoweredLetters(range), c) <==> IsLower(c) && range.start <= SwapCase(c) <= range.end
    ensures InRanges(RaisedLetters(range), c) <==> IsUpper(c) && range.start <= SwapCase(c) <= range.end
  {
    var lowered, raised := LoweredLetters(range), RaisedLetters(range);
    assert InRanges(lowered, c) <==> lowered != [] && lowered[0].start <= c <= lowered[0].end;
    assert InRanges(raised, c) <==> raised != [] && raised[0].start <= c <= raised[0].end;
  }

  lemma CaseVariantsOfOne(range: Range, c: nat)
    requires range.start <= range.end
    ensures Proper(CaseVariants(range))
    ensures InRanges(CaseVariants(range), c) <==> SwapCase(c) != c && range.start <= SwapCase(c) <= range.end
  {
    LettersOfOne(range, c);
    InRangesAppend(LoweredLetters(range), RaisedLetters(range), c);
  }

  lemma AllCaseVariantsAre(ranges: seq<Range>, c: nat)
    requires Proper(ranges)
    ensures Proper(AllCaseVariants(ranges))
    ensures InRanges(AllCaseVariants(ranges), c) <==> SwapCase(c) != c && InRanges(ranges, SwapCase(c))
  {
    if ranges != [] {
      CaseVariantsOfOne(ranges[0], c);
      AllCaseVariantsAre(ranges[1..], c);
      InRangesAppend(CaseVariants(ranges[0]), AllCaseVariants(ranges[1..]), c);
      InRangesCons(ranges[0], ranges[1..], SwapCase(c));
      assert ranges == [ranges[0]] + ranges[1..];
    }
  }

  /** Expansion gives up exactly beyond ASCII; otherwise it adds exactly the other-case
      letters, in canonical form. */
  lemma CaseExpansionIsExact(ranges: seq<Range>)
    requires Proper(ranges)
    ensures AddAsciiCaseVariants(ranges).AnyCharacter? <==> exists c: nat :: c > LAST_ASCII && InRanges(ranges, c)
    ensures AddAsciiCaseVariants(ranges).OneOf? ==>
              && Canonical(AddAsciiCaseVariants(ranges).ranges)
              && forall c: nat :: InDomain(AddAsciiCaseVariants(ranges), c) <==>
                   InRanges(ranges, c) || InRanges(ranges, SwapCase(c))
  {
    var all := ranges + AllCaseVariants(ranges);
    AllCaseVariantsAre(ranges, 0);
    MergeIsExact(all);
    forall c: nat ensures InRanges(all, c) <==> InRanges(ranges, c) || InRanges(ranges, SwapCase(c)) {
      AllCaseVariantsAre(ranges, c);
      InRangesAppend(ranges, AllCaseVariants(ranges), c);
    }
    if !WithinAscii(ranges) {
      var i :| 0 <= i < |ranges| && ranges[i].end > LAST_ASCII;
      assert InRanges(ranges, ranges[i].end);
    }
  }

  /** Expanding twice changes nothing more. */
  lemma CaseExpansionIsIdempotent(ranges: seq<Range>)
    requires Proper(ranges) && AddAsciiCaseVariants(ranges).OneOf?
    ensures AddAsciiCaseVariants(AddAsciiCaseVariants(ranges).ranges) == AddAsciiCaseVariants(ranges)
  {
    var once := AddAsciiCaseVariants(ranges).ranges;
    CaseExpansionIsExact(ranges);
    CaseExpansionIsExact(once);
    var twice := AddAsciiCaseVariants(once);
    forall c: nat ensures InRanges(once, c) ==> c <= LAST_ASCII {
      assert InDomain(OneOf(once), c) <==> InRanges(once, c);
    }
    assert twice.OneOf?;
    forall c: nat ensures InRanges(twice.ranges, c) <==> InRanges(once, c) {
      assert SwapCase(SwapCase(c)) == c;
      assert InDomain(twice, c) <==> InRanges(twice.ranges, c);
      assert InDomain(OneOf(once), c) <==> InRanges(once, c);
      assert InDomain(OneOf(once), SwapCase(c)) <==> InRanges(once, SwapCase(c));
    }
    CanonicalIsUnique(twice.ranges, once);
  }

  /** An ASCII set that has both cases of every letter or neither. */
  ghost predicate CaseClosed(ranges: seq<Range>) {
    WithinAscii(ranges) && forall c: nat :: InRanges(ranges, c) ==> InRanges(ranges, SwapCase(c))
  }

  /** Those are the sets that expansion leaves alone. */
  lemma CaseClosedExactly(ranges: seq<Range>)
    requires Canonical(ranges)
    ensures CaseClosed(ranges) <==> AddAsciiCaseVariants(ranges) == OneOf(ranges)
  {
    hide Canonical, Proper, InRanges, Merge, AllCaseVariants, WithinAscii, SwapCase;
    ProperIfCanonical(ranges);
    var expanded := AddAsciiCaseVariants(ranges);
    forall c: nat ensures expanded.OneOf? ==> (InRanges(expanded.ranges, c) <==>
                            InRanges(ranges, c) || InRanges(ranges, SwapCase(c)))
    {
      CaseExpansionIsExact(ranges);
      assert expanded.OneOf? ==> (InDomain(expanded, c) <==> InRanges(expanded.ranges, c));
    }
    if CaseClosed(ranges) {
      forall c: nat ensures InRanges(expanded.ranges, c) <==> InRanges(ranges, c) {
        assert SwapCase(SwapCase(c)) == c by { SwapsBack(c); }
      }
      CaseExpansionIsExact(ranges);
      CanonicalIsUnique(expanded.ranges, ranges);
    }
    if expanded == OneOf(ranges) {
      forall c: nat | InRanges(ranges, c) ensures InRanges(ranges, SwapCase(c)) {
        SwapsBack(c);
        assert InRanges(expanded.ranges, SwapCase(c));
      }
    }
  }

  lemma ProperIfCanonical(ranges: seq<Range>)
    requires Canonical(ranges)
    ensures Proper(ranges)
  {
  }

  lemma SwapsBack(c: nat)
    ensures SwapCase(SwapCase(c)) == c
  {
  }

  /** And those that expansion produces. */
  lemma ExpansionIsCaseClosed(ranges: seq<Range>)
    requires Proper(ranges) && AddAsciiCaseVariants(ranges).OneOf?
    ensures Canonical(AddAsciiCaseVariants(ranges).ranges) && CaseClosed(AddAsciiCaseVariants(ranges).ranges)
  {
    CaseExpansionIsExact(ranges);
    CaseExpansionIsIdempotent(ranges);
    CaseClosedExactly(AddAsciiCaseVariants(ranges).ranges);
  }
}
