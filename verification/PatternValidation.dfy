/** When a configured redaction pattern is accepted, and what that says of the expression that
    is then compiled and applied. */
module PatternValidation {
  import opened Optional
  import opened RegexTree
  import opened RegexAmbiguity
  import opened RegexParser
  import opened RegexRoundTrip
  import opened RegexSyntax
  import opened RegexVerdicts
  import opened RegexSurrogates

  const MAX_CUSTOM_REDACTION_PATTERN_CHARS: nat := 256

  /** The prefix that asks for case-insensitive matching. */
  const IGNORE_CASE_PREFIX: Text := [LEFT_PAREN, QUESTION, 0x69, RIGHT_PAREN]

  predicate IgnoresCase(pattern: Text) {
    IGNORE_CASE_PREFIX <= pattern
  }

  /** `normalizeCustomRedactionPatternSource`. */
  function SourceOf(pattern: Text): Text {
    if IgnoresCase(pattern) then pattern[4..] else pattern
  }

  predicate BackreferenceAt(source: Text, index: nat)
    requires index < |source|
  {
    0x31 <= source[index] <= NINE || (source[index] == 0x6b && Is(source, index + 1, 0x3c))
  }

  /** The scan for constructs the analysis does not know, from an index on: backreferences and
      groups that begin with a question mark but are not plain non-capturing groups. */
  predicate UnsupportedFrom(source: Text, index: nat, escaped: bool, inClass: bool)
    decreases |source| - index
  {
    if index >= |source| then false
    else if escaped then BackreferenceAt(source, index) || UnsupportedFrom(source, index + 1, false, inClass)
    else if source[index] == BACKSLASH then UnsupportedFrom(source, index + 1, true, inClass)
    else
      var nowInClass := source[index] != RIGHT_BRACKET && (inClass || source[index] == LEFT_BRACKET);
      || (!nowInClass && SpecialGroupAt(source, index))
      || UnsupportedFrom(source, index + 1, false, nowInClass)
  }

  predicate SpecialGroupAt(source: Text, index: nat) {
    Is(source, index, LEFT_PAREN) && Is(source, index + 1, QUESTION) && !Is(source, index + 2, COLON)
  }

  method HasUnsupportedConstruct(source: Text) returns (unsupported: bool)
    ensures unsupported == UnsupportedFrom(source, 0, false, false)
  {
    var escaped, inClass, index := false, false, 0;
    while index < |source|
      invariant 0 <= index <= |source|
      invariant UnsupportedFrom(source, index, escaped, inClass) == UnsupportedFrom(source, 0, false, false)
    {
      if escaped {
        if BackreferenceAt(source, index) {
          return true;
        }
        escaped := false;
        index := index + 1;
        continue;
      }
      if source[index] == BACKSLASH {
        escaped := true;
        index := index + 1;
        continue;
      }
      if source[index] == LEFT_BRACKET {
        inClass := true;
      }
      if source[index] == RIGHT_BRACKET {
        inClass := false;
      }
      if !inClass && SpecialGroupAt(source, index) {
        return true;
      }
      index := index + 1;
    }
    return false;
  }

  // ----- what the scan finds -----

  /** The number of backslashes directly before a position. */
  function BackslashesBefore(source: Text, index: nat): nat
    requires index <= |source|
  {
    if index == 0 || source[index - 1] != '\\' as int then 0 else 1 + BackslashesBefore(source, index - 1)
  }

  predicate Escaped(source: Text, index: nat)
    requires index <= |source|
  {
    BackslashesBefore(source, index) % 2 == 1
  }

  /** An opening bracket comes before the position, and between them no closing one. */
  ghost predicate InsideClass(source: Text, index: nat)
    requires index <= |source|
  {
    exists open | 0 <= open < index :: OpensClass(source, open, index)
  }

  ghost predicate OpensClass(source: Text, open: nat, index: nat)
    requires open < index <= |source|
  {
    && source[open] == '[' as int && !Escaped(source, open)
    && forall i | open < i < index :: source[i] == ']' as int ==> Escaped(source, i)
  }

  /** A numbered or named backreference, or a group that is neither capturing nor `(?:`. */
  ghost predicate UnsupportedAt(source: Text, index: nat)
    requires index < |source|
  {
    if Escaped(source, index) then
      '1' as int <= source[index] <= '9' as int || Reads(source, index, "k<")
    else
      Reads(source, index, "(?") && !Reads(source, index, "(?:") && !InsideClass(source, index)
  }

  /** Main result: the scan objects exactly to the sources that have an unsupported construct. */
  lemma UnsupportedIsExact(source: Text)
    ensures UnsupportedFrom(source, 0, false, false) <==> exists i | 0 <= i < |source| :: UnsupportedAt(source, i)
  {
    ScanIsExact(source, 0, false, false);
  }

  lemma {:induction false} ScanIsExact(source: Text, index: nat, escaped: bool, inClass: bool)
    requires index <= |source| && escaped == Escaped(source, index) && inClass == InsideClass(source, index)
    ensures UnsupportedFrom(source, index, escaped, inClass) <==>
              exists i | index <= i < |source| :: UnsupportedAt(source, i)
    decreases |source| - index
  {
    if index < |source| {
      hide UnsupportedAt;
      ScanTurn(source, index);
      var unit := source[index];
      var nowInClass := if escaped || unit == BACKSLASH then inClass
                        else unit != RIGHT_BRACKET && (inClass || unit == LEFT_BRACKET);
      ScanIsExact(source, index + 1, unit == BACKSLASH && !escaped, nowInClass);
      assert UnsupportedFrom(source, index, escaped, inClass) <==>
               UnsupportedAt(source, index)
                   || UnsupportedFrom(source, index + 1, unit == BACKSLASH && !escaped, nowInClass);
    }
  }

  lemma ReadsTwo(source: Text, index: nat, a: char, b: char)
    requires a as int < 0x10000 && b as int < 0x10000
    ensures Reads(source, index, [a, b]) <==> Is(source, index, a as CodeUnit) && Is(source, index + 1, b as CodeUnit)
  {
    assert [a, b][0] == a && [a, b][1] == b;
    if Reads(source, index, [a, b]) {
      assert source[index + 0] == a as int && source[index + 1] == b as int;
    }
  }

  lemma ScanTurn(source: Text, index: nat)
    requires index < |source|
    ensures Escaped(source, index + 1) <==> source[index] == BACKSLASH && !Escaped(source, index)
    ensures InsideClass(source, index + 1) <==>
              if Escaped(source, index) || source[index] == BACKSLASH then InsideClass(source, index)
              else source[index] != RIGHT_BRACKET && (InsideClass(source, index) || source[index] == LEFT_BRACKET)
    ensures UnsupportedAt(source, index) <==>
              if Escaped(source, index) then BackreferenceAt(source, index)
              else source[index] != BACKSLASH && SpecialGroupAt(source, index) && !InsideClass(source, index)
  {
    ReadsTwo(source, index, 'k', '<');
    ReadsTwo(source, index, '(', '?');
    assert Reads(source, index, "(?:") <==> Reads(source, index, "(?") && Is(source, index + 2, COLON) by {
      assert "(?:"[0] == '(' && "(?:"[1] == '?' && "(?:"[2] == ':';
      if Reads(source, index, "(?:") {
        assert source[index + 0] == '(' as int && source[index + 1] == '?' as int && source[index + 2] == ':' as int;
      }
    }
    if InsideClass(source, index) {
      var open :| 0 <= open < index && OpensClass(source, open, index);
      assert OpensClass(source, open, index + 1) || (source[index] == RIGHT_BRACKET && !Escaped(source, index));
    }
    if InsideClass(source, index + 1) {
      var open :| 0 <= open < index + 1 && OpensClass(source, open, index + 1);
      assert open < index ==> OpensClass(source, open, index);
    }
    if source[index] == LEFT_BRACKET && !Escaped(source, index) {
      assert OpensClass(source, index, index + 1);
    }
  }

  /** The prefix `(?i)` and nothing else asks for case-insensitive matching, and is cut off. */
  lemma PrefixIsCutOff(pattern: Text)
    ensures IgnoresCase(pattern) <==> Reads(pattern, 0, "(?i)")
    ensures if Reads(pattern, 0, "(?i)")
            then |SourceOf(pattern)| == |pattern| - 4 && forall i | 4 <= i < |pattern| ::
                SourceOf(pattern)[i - 4] == pattern[i]
            else SourceOf(pattern) == pattern
  {
    assert "(?i)"[0] == '(' && "(?i)"[1] == '?' && "(?i)"[2] == 'i' && "(?i)"[3] == ')';
    if Reads(pattern, 0, "(?i)") {
      assert pattern[0 + 0] == '(' as int && pattern[0 + 1] == '?' as int;
      assert pattern[0 + 2] == 'i' as int && pattern[0 + 3] == ')' as int;
      assert pattern[..4] == IGNORE_CASE_PREFIX;
    }
    if IgnoresCase(pattern) {
      assert pattern[..4] == IGNORE_CASE_PREFIX;
      assert pattern[0] == pattern[..4][0] && pattern[1] == pattern[..4][1];
      assert pattern[2] == pattern[..4][2] && pattern[3] == pattern[..4][3];
    }
  }

  /** `validateCustomRedactionPattern` finds no issue; `compiles` says that the expression can be
      compiled and does not match the empty text. */
  predicate Accepted(pattern: Text, compiles: bool) {
    && |pattern| <= MAX_CUSTOM_REDACTION_PATTERN_CHARS
    && !UnsupportedFrom(SourceOf(pattern), 0, false, false)
    && DetectUnsafe(SourceOf(pattern), IgnoresCase(pattern)) == Safe
    && compiles
  }

  /** Main result: which patterns are accepted. They are short, have no unsupported construct,
      compile, and their tree, if the analyser can read one, is open to no objection. */
  lemma AcceptedExactly(pattern: Text, compiles: bool)
    ensures Accepted(pattern, compiles) <==>
              var source, tree := SourceOf(pattern), ParsePattern(SourceOf(pattern), Built(Reads(pattern, 0, "(?i)")));
              && |pattern| <= 256 && compiles
              && !(exists i | 0 <= i < |source| :: UnsupportedAt(source, i))
              && (tree == None || !(Nested(tree.value) || AmbiguousBelow(tree.value) || Competing(tree.value)))
  {
    hide Check, ParsePattern, UnsupportedFrom, UnsupportedAt, Nested, AmbiguousBelow, Competing;
    PrefixIsCutOff(pattern);
    UnsupportedIsExact(SourceOf(pattern));
    var tree := ParsePattern(SourceOf(pattern), Built(IgnoresCase(pattern)));
    if tree.Some? {
      VerdictIsExact(tree.value);
    }
  }

  /** In an accepted pattern that the analyser can read, and in which no pair of surrogate
      escapes shows, every repetition of the compiled expression matches any non-empty word in
      one way. */
  lemma AcceptedPatternsAreUnambiguous(pattern: Text, compiles: bool, repetition: Node, p: Parse, q: Parse)
    requires Accepted(pattern, compiles)
    requires var compiled := Compiled(SourceOf(pattern), IgnoresCase(pattern));
             && compiled.Some? && !SplitAlternation(SourceOf(pattern), 0, IgnoresCase(pattern))
             && Part(repetition, compiled.value) && repetition.Repetition?
    requires ParseOf(p, repetition) && ParseOf(q, repetition) && Yield(p) == Yield(q) && Yield(p) != []
    ensures p == q
  {
    UnobjectedSourceIsUnambiguous(SourceOf(pattern), IgnoresCase(pattern), repetition, p, q);
  }
}
