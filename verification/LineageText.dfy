/** The text formats of the propagation envelope: environment names, lineage values, child
    descriptors, decimal depths, and the W3C Trace Context headers. */
module LineageText {
  import opened Optional

  // ----- characters -----

  predicate IsDigit(c: char) { '0' <= c <= '9' }
  predicate IsLower(c: char) { 'a' <= c <= 'z' }
  predicate IsUpper(c: char) { 'A' <= c <= 'Z' }
  predicate IsWord(c: char) { IsDigit(c) || IsLower(c) || IsUpper(c) || c == '_' }
  predicate IsLowerHex(c: char) { IsDigit(c) || 'a' <= c <= 'f' }
  predicate IsHex(c: char) { IsLowerHex(c) || 'A' <= c <= 'F' }

  function ToLower(c: char): char {
    if IsUpper(c) then (c as int + 32) as char else c
  }

  function ToUpper(c: char): char {
    if IsLower(c) then (c as int - 32) as char else c
  }

  function Lower(s: string): string {
    seq(|s|, i requires 0 <= i < |s| => ToLower(s[i]))
  }

  function Upper(s: string): string {
    seq(|s|, i requires 0 <= i < |s| => ToUpper(s[i]))
  }

  predicate All(s: string, p: char -> bool) {
    forall i | 0 <= i < |s| :: p(s[i])
  }

  // ----- names, values and descriptors -----

  /** `^[A-Za-z_]\w{0,127}$` */
  predicate WellFormedName(name: string) {
    1 <= |name| <= 128 && !IsDigit(name[0]) && All(name, IsWord)
  }

  predicate IsLineageChar(c: char) {
    IsDigit(c) || IsLower(c) || IsUpper(c) || c == '.' || c == '_' || c == ':' || c == '-'
  }

  /** `^[A-Za-z0-9._:-]+$`, of at most 128 characters; an empty value counts as absent. */
  predicate ValidValue(value: string) {
    |value| <= 128 && All(value, IsLineageChar)
  }

  datatype Descriptor = Descriptor(displayName: string, role: string, capability: string)

  predicate IsControl(c: char) {
    c as int <= 0x1f || 0x7f <= c as int <= 0x9f
  }

  predicate ValidDescriptor(d: Descriptor) {
    && 1 <= |d.displayName| <= 128 && All(d.displayName, c => !IsControl(c))
    && d.role in {"lead", "helper", "worker", "validator"}
    && 1 <= |d.capability| <= 64 && All(d.capability, IsLineageChar)
    && (IsDigit(d.capability[0]) || IsLower(d.capability[0]) || IsUpper(d.capability[0]))
  }

  // ----- depths -----

  function Decimal(n: nat): string {
    if n < 10 then [(n + '0' as int) as char] else Decimal(n / 10) + [(n % 10 + '0' as int) as char]
  }

  // ----- traceparent, section 3.2 of W3C Trace Context -----

  predicate IsId(id: string, length: nat) {
    |id| == length && All(id, IsHex) && exists i :: 0 <= i < |id| && id[i] != '0'
  }

  function HexDigit(n: nat): char
    requires n < 16
  {
    if n < 10 then (n + '0' as int) as char else (n - 10 + 'a' as int) as char
  }

  function HexValue(c: char): nat
    requires IsHex(c)
  {
    if IsDigit(c) then c as int - '0' as int
    else if IsLowerHex(c) then c as int - 'a' as int + 10
    else c as int - 'A' as int + 10
  }

  function Traceparent(traceId: string, spanId: string, flags: nat): string {
    "00-" + traceId + "-" + spanId + "-" + [HexDigit(flags % 256 / 16), HexDigit(flags % 16)]
  }

  datatype ParentSpan = ParentSpan(traceId: string, spanId: string, flags: nat)

  /** `^00-([a-f0-9]{32})-([a-f0-9]{16})-([a-f0-9]{2})$` in either case, with identifiers that
      are not all zero. */
  function ParseTraceparent(text: string): Option<ParentSpan> {
    if |text| == 55 && text[..3] == "00-" && text[35] == '-' && text[52] == '-' && IsId(text[3..35], 32)
        && IsId(text[36..52], 16)
       && IsHex(text[53]) && IsHex(text[54])
    then Some(ParentSpan(Lower(text[3..35]), Lower(text[36..52]), 16 * HexValue(text[53]) + HexValue(text[54])))
    else None
  }

  lemma HexRoundTrip(n: nat)
    requires n < 16
    ensures IsLowerHex(HexDigit(n)) && HexValue(HexDigit(n)) == n
  {
  }

  /** A header built from valid identifiers is read back as the same identifiers in lower
      case and the low eight flag bits. */
  lemma TraceparentRoundTrip(traceId: string, spanId: string, flags: nat)
    requires IsId(traceId, 32) && IsId(spanId, 16)
    ensures ParseTraceparent(Traceparent(traceId, spanId, flags)) ==
              Some(ParentSpan(Lower(traceId), Lower(spanId), flags % 256))
  {
    hide ParseTraceparent, IsId, Lower, HexDigit, HexValue;
    FlagDigits(flags);
    HexRoundTrip(flags % 256 / 16);
    HexRoundTrip(flags % 16);
    PiecesAreParsed(traceId, spanId, HexDigit(flags % 256 / 16), HexDigit(flags % 16));
  }

  lemma FlagDigits(flags: nat)
    ensures flags % 256 / 16 < 16 && 16 * (flags % 256 / 16) + flags % 16 == flags % 256
  {
    var low := flags % 256;
    assert flags == 16 * (16 * (flags / 256)) + low;
    LastDigit(16 * (flags / 256), low);
  }

  lemma {:induction false} LastDigit(k: nat, low: nat)
    ensures (16 * k + low) % 16 == low % 16
  {
    if k > 0 {
      LastDigit(k - 1, low);
      assert 16 * k + low == (16 * (k - 1) + low) + 16;
    }
  }

  lemma PiecesAreParsed(trace: string, span: string, high: char, low: char)
    requires IsId(trace, 32) && IsId(span, 16) && IsHex(high) && IsHex(low)
    ensures ParseTraceparent("00-" + trace + "-" + span + "-" + [high, low]) ==
              Some(ParentSpan(Lower(trace), Lower(span), 16 * HexValue(high) + HexValue(low)))
  {
    var text := "00-" + trace + "-" + span + "-" + [high, low];
    assert |trace| == 32 && |span| == 16;
    hide IsId, IsHex, HexValue, Lower;
    assert text[..3] == "00-" && text[3..35] == trace && text[36..52] == span;
  }

  lemma ParsedPieces(text: string) returns (trace: string, span: string, high: char, low: char)
    requires ParseTraceparent(text).Some?
    ensures IsId(trace, 32) && IsId(span, 16) && IsHex(high) && IsHex(low)
    ensures text == "00-" + trace + "-" + span + "-" + [high, low]
    ensures ParseTraceparent(text).value == ParentSpan(Lower(trace), Lower(span), 16 * HexValue(high) + HexValue(low))
  {
    hide IsId;
    trace, span, high, low := text[3..35], text[36..52], text[53], text[54];
    assert text == text[..3] + trace + [text[35]] + span + [text[52]] + [high, low];
  }

  /** Every header that is read has one canonical form, which reads the same. */
  lemma ParsedHeadersAreCanonical(text: string)
    requires ParseTraceparent(text).Some?
    ensures var p := ParseTraceparent(text).value;
            && ParseTraceparent(Traceparent(p.traceId, p.spanId, p.flags)) == Some(p)
            && Traceparent(p.traceId, p.spanId, p.flags) == Lower(text)
  {
    hide IsId, ParseTraceparent, Lower;
    var p := ParseTraceparent(text).value;
    var trace, span, high, low := ParsedPieces(text);
    LowerKeepsId(trace, 32);
    LowerKeepsId(span, 16);
    LowerTwice(trace);
    LowerTwice(span);
    TraceparentRoundTrip(p.traceId, p.spanId, p.flags);
    HexDigitOfValue(high);
    HexDigitOfValue(low);
    LowerPieces(trace, span, [high, low]);
    LowerPair(high, low);
    DigitsOfFlags(HexValue(high), HexValue(low));
  }

  lemma DigitsOfFlags(high: nat, low: nat)
    requires high < 16 && low < 16
    ensures (16 * high + low) % 256 / 16 == high && (16 * high + low) % 16 == low
  {
  }

  lemma LowerPair(high: char, low: char)
    ensures Lower([high, low]) == [ToLower(high), ToLower(low)]
  {
  }

  lemma LowerPieces(trace: string, span: string, flags: string)
    ensures Lower("00-" + trace + "-" + span + "-" + flags) ==
              "00-" + Lower(trace) + "-" + Lower(span) + "-" + Lower(flags)
  {
    var whole := "00-" + trace + "-" + span + "-" + flags;
    var lowered := "00-" + Lower(trace) + "-" + Lower(span) + "-" + Lower(flags);
    assert |whole| == |lowered| == |Lower(whole)|;
    forall i | 0 <= i < |whole| ensures Lower(whole)[i] == lowered[i] {
    }
  }

  lemma HexDigitOfValue(c: char)
    requires IsHex(c)
    ensures HexValue(c) < 16 && HexDigit(HexValue(c)) == ToLower(c)
  {
  }

  lemma LowerKeepsId(id: string, length: nat)
    requires IsId(id, length)
    ensures IsId(Lower(id), length)
  {
    var i :| 0 <= i < |id| && id[i] != '0';
    assert Lower(id)[i] != '0';
  }

  lemma LowerTwice(s: string)
    ensures Lower(Lower(s)) == Lower(s)
  {
  }

  // ----- tracestate -----

  predicate IsSpace(c: char) {
    var n := c as int;
    || 9 <= n <= 13 || n == 0x20 || n == 0xa0 || n == 0x1680 || 0x2000 <= n <= 0x200a || n == 0x2028 || n == 0x2029
    || n == 0x202f || n == 0x205f || n == 0x3000 || n == 0xfeff
  }

  function Trim(s: string): string {
    if s == [] then s
    else if IsSpace(s[0]) then Trim(s[1..])
    else if IsSpace(s[|s| - 1]) then Trim(s[..|s| - 1])
    else s
  }

  function Split(s: string): (members: seq<string>)
    ensures members != []
  {
    if s == [] then [""]
    else
      var rest := Split(s[1..]);
      if s[0] == ',' then [""] + rest else [[s[0]] + rest[0]] + rest[1..]
  }

  function Join(members: seq<string>): string
    requires members != []
  {
    if |members| == 1 then members[0] else members[0] + "," + Join(members[1..])
  }

  /** Splitting at commas loses nothing and leaves no comma. */
  lemma {:induction false} SplitIsExact(s: string)
    ensures Join(Split(s)) == s && forall i | 0 <= i < |Split(s)| :: ',' !in Split(s)[i]
  {
    if s != [] {
      var rest := Split(s[1..]);
      SplitIsExact(s[1..]);
      assert s == [s[0]] + s[1..];
      if s[0] == ',' {
        assert ([""] + rest)[1..] == rest;
      } else {
        var members := [[s[0]] + rest[0]] + rest[1..];
        assert members[1..] == rest[1..];
        assert Join(members) == [s[0]] + Join(rest);
      }
    }
  }

  predicate IsKeyChar(c: char) {
    IsLower(c) || IsDigit(c) || c == '_' || c == '*' || c == '/' || c == '-'
  }

  predicate ValidKey(key: string) {
    || (1 <= |key| <= 256 && IsLower(key[0]) && All(key[1..], IsKeyChar))
    || exists at ::
         && 1 <= at <= 241 && at + 1 < |key| <= at + 15 && key[at] == '@'
         && (IsLower(key[0]) || IsDigit(key[0]))
                    && All(key[1..at], IsKeyChar) && IsLower(key[at + 1]) && All(key[at + 2..], IsKeyChar)
  }

  predicate ValidStateValue(value: string) {
    && 1 <= |value| <= 256 && value[|value| - 1] != ' '
    && All(value, c => 0x20 <= c as int <= 0x7e && c != ',' && c != '=')
  }

  function IndexOf(s: string, c: char): (index: int)
    ensures -1 <= index < |s|
    ensures index >= 0 ==> s[index] == c && c !in s[..index]
    ensures index < 0 ==> c !in s
  {
    if s == [] then -1
    else if s[0] == c then 0
    else
      var rest := IndexOf(s[1..], c);
      assert s == [s[0]] + s[1..];
      assert rest >= 0 ==> s[..rest + 1] == [s[0]] + s[1..][..rest];
      if rest < 0 then -1 else rest + 1
  }

  predicate ValidMember(member: string) {
    var at := IndexOf(member, '=');
    at > 0 && '=' !in member[at + 1..] && ValidKey(member[..at]) && ValidStateValue(member[at + 1..])
  }

  function MemberKey(member: string): string
    requires ValidMember(member)
  {
    member[..IndexOf(member, '=')]
  }

  /** At most 512 characters and 32 members, each well formed, no key twice. */
  predicate ValidTracestate(value: string) {
    var members := Split(value);
    && |value| <= 512 && |members| <= 32
    && (forall i | 0 <= i < |members| :: ValidMember(Trim(members[i])))
    && forall i, j | 0 <= i < j < |members| :: MemberKey(Trim(members[i])) != MemberKey(Trim(members[j]))
  }

  method IsValidTracestate(value: string) returns (valid: bool)
    ensures valid <==> ValidTracestate(value)
  {
    hide ValidMember, MemberKey, Split, Trim;
    if |value| > 512 {
      return false;
    }
    var members := Split(value);
    if |members| > 32 {
      return false;
    }
    var keys: set<string> := {};
    var n := 0;
    while n < |members|
      invariant 0 <= n <= |members|
      invariant forall i | 0 <= i < n :: ValidMember(Trim(members[i])) && MemberKey(Trim(members[i])) in keys
      invariant forall key | key in keys :: exists i :: 0 <= i < n && MemberKey(Trim(members[i])) == key
      invariant forall i, j | 0 <= i < j < n :: MemberKey(Trim(members[i])) != MemberKey(Trim(members[j]))
    {
      var member := Trim(members[n]);
      if !ValidMember(member) || MemberKey(member) in keys {
        return false;
      }
      keys := keys + {MemberKey(member)};
      n := n + 1;
    }
    return true;
  }

  // ----- what the formats are -----

  const DIGITS := "0123456789"
  const LOWER_LETTERS := "abcdefghijklmnopqrstuvwxyz"
  const UPPER_LETTERS := "ABCDEFGHIJKLMNOPQRSTUVWXYZ"

  lemma CharactersAre(c: char)
    ensures IsDigit(c) <==> c in DIGITS
    ensures IsLower(c) <==> c in LOWER_LETTERS
    ensures IsUpper(c) <==> c in UPPER_LETTERS
    ensures IsWord(c) <==> c in DIGITS + LOWER_LETTERS + UPPER_LETTERS + "_"
    ensures IsHex(c) <==> c in DIGITS + "abcdef" + "ABCDEF"
    ensures IsLineageChar(c) <==> c in DIGITS + LOWER_LETTERS + UPPER_LETTERS + "._:-"
    ensures IsKeyChar(c) <==> c in LOWER_LETTERS + DIGITS + "_*/-"
  {
    Successive(DIGITS, '0', c);
    Successive(LOWER_LETTERS, 'a', c);
    Successive(UPPER_LETTERS, 'A', c);
    Successive("abcdef", 'a', c);
    Successive("ABCDEF", 'A', c);
  }

  lemma Successive(s: string, first: char, c: char)
    requires forall i | 0 <= i < |s| :: s[i] as int == first as int + i
    ensures c in s <==> first as int <= c as int < first as int + |s|
  {
    if first as int <= c as int < first as int + |s| {
      assert s[c as int - first as int] == c;
    }
  }

  /** The two cases of a letter, by its place in the alphabet. */
  lemma CasesAre(i: nat)
    requires i < 26
    ensures ToLower(UPPER_LETTERS[i]) == LOWER_LETTERS[i] && ToUpper(LOWER_LETTERS[i]) == UPPER_LETTERS[i]
  {
  }

  lemma OthersHaveNoCase(c: char)
    ensures c !in UPPER_LETTERS ==> ToLower(c) == c
    ensures c !in LOWER_LETTERS ==> ToUpper(c) == c
  {
    CharactersAre(c);
  }

  predicate Of(s: string, characters: string) {
    forall i | 0 <= i < |s| :: s[i] in characters
  }

  /** Names, values and identifiers, by the characters they may hold. */
  lemma TextsAre(s: string, length: nat)
    ensures WellFormedName(s) <==>
              0 < |s| <= 128 && s[0] !in DIGITS && Of(s, DIGITS + LOWER_LETTERS + UPPER_LETTERS + "_")
    ensures ValidValue(s) <==> |s| <= 128 && Of(s, DIGITS + LOWER_LETTERS + UPPER_LETTERS + "._:-")
    ensures IsId(s, length) <==> |s| == length && Of(s, DIGITS + "abcdef" + "ABCDEF") && !Of(s, "0")
  {
    forall c: char { CharactersAre(c); }
    if !Of(s, "0") {
      var i :| 0 <= i < |s| && s[i] !in "0";
      assert s[i] != '0';
    }
    if i :| 0 <= i < |s| && s[i] != '0' {
      assert s[i] !in "0";
    }
  }

  /** Descriptors: a printable display name, one of four roles, and a capability that begins
      with a letter or digit. */
  lemma DescriptorsAre(d: Descriptor)
    ensures ValidDescriptor(d) <==>
              && 0 < |d.displayName| <= 128
              && (forall c | c in d.displayName :: 0x20 <= c as int <= 0x7e || c as int >= 0xa0)
              && (d.role == "lead" || d.role == "helper" || d.role == "worker" || d.role == "validator")
              && 0 < |d.capability| <= 64 && d.capability[0] in DIGITS + LOWER_LETTERS + UPPER_LETTERS
              && Of(d.capability, DIGITS + LOWER_LETTERS + UPPER_LETTERS + "._:-")
  {
    forall c: char { CharactersAre(c); }
    assert forall i | 0 <= i < |d.displayName| :: d.displayName[i] in d.displayName;
    assert All(d.capability, IsLineageChar) <==> Of(d.capability, DIGITS + LOWER_LETTERS + UPPER_LETTERS + "._:-");
  }

  /** Read from the left, ten times what came before plus the digit. */
  function DecimalValue(s: string): nat
    requires Of(s, DIGITS)
  {
    if s == [] then 0
    else
      CharactersAre(s[|s| - 1]);
      DecimalValue(s[..|s| - 1]) * 10 + (s[|s| - 1] as int - '0' as int)
  }

  lemma {:induction false} DecimalReadsBack(n: nat)
    ensures Of(Decimal(n), DIGITS) && DecimalValue(Decimal(n)) == n
    ensures Decimal(n) != "" && (Decimal(n)[0] == '0' ==> n == 0)
  {
    var last := (n % 10 + '0' as int) as char;
    DigitOf(n % 10);
    hide Of;
    if n < 10 {
      assert Of([], DIGITS) && DecimalValue([]) == 0 by { EmptyValue(); }
      DecimalStep("", last);
      assert Decimal(n) == [last] == "" + [last];
    } else {
      DecimalReadsBack(n / 10);
      DecimalStep(Decimal(n / 10), last);
    }
  }

  lemma EmptyValue()
    ensures Of([], DIGITS) && DecimalValue([]) == 0
  {
  }

  lemma DigitOf(n: nat)
    requires n < 10
    ensures (n + '0' as int) as char in DIGITS
  {
    assert DIGITS[n] == (n + '0' as int) as char;
  }

  lemma DecimalStep(head: string, last: char)
    requires Of(head, DIGITS) && last in DIGITS
    ensures Of(head + [last], DIGITS)
    ensures DecimalValue(head + [last]) == DecimalValue(head) * 10 + (last as int - '0' as int)
  {
    assert (head + [last])[..|head|] == head;
  }

  /** A header is read exactly if it has the four parts, in either case, and reading gives the
      identifiers in lower case and the value of the two flag digits. */
  lemma ParsedExactly(text: string)
    ensures ParseTraceparent(text).Some? <==>
              exists trace, span, high, low ::
                && IsId(trace, 32) && IsId(span, 16) && IsHex(high) && IsHex(low)
                && text == "00-" + trace + "-" + span + "-" + [high, low]
  {
    if ParseTraceparent(text).Some? {
      var trace, span, high, low := ParsedPieces(text);
    }
    if trace, span, high, low :| IsId(trace, 32) && IsId(span, 16) && IsHex(high) && IsHex(low)
                                 && text == "00-" + trace + "-" + span + "-" + [high, low] {
      PiecesAreParsed(trace, span, high, low);
    }
  }

  /** Trimming cuts white space from both ends, and all of it. */
  lemma {:induction false} TrimIs(s: string) returns (left: string, right: string)
    ensures s == left + Trim(s) + right && All(left, IsSpace) && All(right, IsSpace)
    ensures Trim(s) != "" ==> !IsSpace(Trim(s)[0]) && !IsSpace(Trim(s)[|Trim(s)| - 1])
  {
    if s != "" && IsSpace(s[0]) {
      left, right := TrimIs(s[1..]);
      TrimFront(s, left, right);
      left := [s[0]] + left;
    } else if s != "" && IsSpace(s[|s| - 1]) {
      left, right := TrimIs(s[..|s| - 1]);
      TrimBack(s, left, right);
      right := right + [s[|s| - 1]];
    } else {
      return "", "";
    }
  }

  lemma TrimFront(s: string, left: string, right: string)
    requires s != "" && IsSpace(s[0]) && s[1..] == left + Trim(s[1..]) + right && All(left, IsSpace)
    ensures Trim(s) == Trim(s[1..]) && s == [s[0]] + left + Trim(s) + right && All([s[0]] + left, IsSpace)
  {
    assert Trim(s) == Trim(s[1..]);
    OneSpace(s[0]);
    hide Trim, IsSpace, All;
    AllPlus([s[0]], left, IsSpace);
    Prepended([s[0]], left, Trim(s), right);
    assert s == [s[0]] + s[1..];
  }

  lemma TrimBack(s: string, left: string, right: string)
    requires s != "" && !IsSpace(s[0]) && IsSpace(s[|s| - 1])
    requires s[..|s| - 1] == left + Trim(s[..|s| - 1]) + right && All(right, IsSpace)
    ensures Trim(s) == Trim(s[..|s| - 1]) && s == left + Trim(s) + (right + [s[|s| - 1]])
    ensures All(right + [s[|s| - 1]], IsSpace)
  {
    var last, rest := s[|s| - 1], s[..|s| - 1];
    assert Trim(s) == Trim(rest);
    OneSpace(last);
    hide Trim, IsSpace, All;
    AllPlus(right, [last], IsSpace);
    Appended(left, Trim(s), right, [last]);
    LastApart(s);
  }

  lemma LastApart(s: string)
    requires s != ""
    ensures s == s[..|s| - 1] + [s[|s| - 1]]
  {
  }

  lemma Prepended(a: string, b: string, c: string, d: string)
    ensures a + (b + c + d) == a + b + c + d
  {
  }

  lemma Appended(a: string, b: string, c: string, d: string)
    ensures (a + b + c) + d == a + b + (c + d)
  {
  }

  lemma OneSpace(c: char)
    requires IsSpace(c)
    ensures All([c], IsSpace)
  {
  }

  lemma AllPlus(left: string, right: string, p: char -> bool)
    ensures All(left + right, p) <==> All(left, p) && All(right, p)
  {
    assert forall i | 0 <= i < |right| :: right[i] == (left + right)[|left| + i];
    assert forall i | 0 <= i < |left| :: left[i] == (left + right)[i];
  }

  /** White space and line terminators, section 22.2.2.9 of ECMAScript. */
  lemma SpacesAre(c: char)
    ensures IsSpace(c) <==>
              || c in [9 as char, 10 as char, 11 as char, 12 as char, 13 as char, ' ', 0xa0 as char, 0x1680 as char]
              || (0x1fff < c as int < 0x200b)
              || c in [0x2028 as char, 0x2029 as char, 0x202f as char, 0x205f as char, 0x3000 as char, 0xfeff as char]
  {
  }

  /** A tracestate key, section 3.3.2.2 of W3C Trace Context: a simple key, or a tenant, an at
      sign and a system. */
  lemma KeysAre(key: string)
    ensures ValidKey(key) <==>
              || (0 < |key| <= 256 && key[0] in LOWER_LETTERS && Of(key[1..], LOWER_LETTERS + DIGITS + "_*/-"))
              || exists tenant, system :: key == tenant + "@" + system && TenantKey(tenant, system)
  {
    hide TenantKey, TenantParts, ValidKey;
    TenantsAreParted(key);
    forall tenant, system ensures TenantKey(tenant, system) <==> TenantParts(tenant, system) {
      TenantKeysAre(tenant, system);
    }
    if key != "" {
      CharactersAre(key[0]);
      KeyText(key[1..]);
    }
  }

  predicate TenantParts(tenant: string, system: string) {
    && 0 < |tenant| <= 241 && (IsLower(tenant[0]) || IsDigit(tenant[0])) && All(tenant[1..], IsKeyChar)
    && 0 < |system| <= 14 && IsLower(system[0]) && All(system[1..], IsKeyChar)
  }

  lemma TenantsAreParted(key: string)
    ensures ValidKey(key) <==>
              || (1 <= |key| <= 256 && IsLower(key[0]) && All(key[1..], IsKeyChar))
              || exists tenant, system :: key == tenant + "@" + system && TenantParts(tenant, system)
  {
    hide IsKeyChar, IsLower, IsDigit, All, ValidKey, TenantAt, TenantParts;
    ValidKeyIs(key);
    if at :| TenantAt(key, at) {
      var tenant, system := TenantIsParts(key, at);
    }
    if tenant, system :| key == tenant + "@" + system && TenantParts(tenant, system) {
      PartsAreTenant(key, tenant, system);
    }
  }

  lemma TenantIsParts(key: string, at: int) returns (tenant: string, system: string)
    requires TenantAt(key, at)
    ensures key == tenant + "@" + system && TenantParts(tenant, system)
  {
    hide IsKeyChar, IsLower, IsDigit, All;
    tenant, system := key[..at], key[at + 1..];
    assert tenant[1..] == key[1..at] && system[1..] == key[at + 2..];
  }

  /** The at sign stands there. */
  predicate TenantAt(key: string, at: int) {
    && 1 <= at <= 241 && at + 1 < |key| <= at + 15 && key[at] == '@' && (IsLower(key[0]) || IsDigit(key[0]))
    && All(key[1..at], IsKeyChar) && IsLower(key[at + 1]) && All(key[at + 2..], IsKeyChar)
  }

  lemma ValidKeyIs(key: string)
    ensures ValidKey(key) <==>
              || (1 <= |key| <= 256 && IsLower(key[0]) && All(key[1..], IsKeyChar))
              || exists at :: TenantAt(key, at)
  {
    hide IsKeyChar, IsLower, IsDigit, All;
    if ValidKey(key) && !(1 <= |key| <= 256 && IsLower(key[0]) && All(key[1..], IsKeyChar)) {
      var at :| 1 <= at <= 241 && at + 1 < |key| <= at + 15 && key[at] == '@' && (IsLower(key[0]) || IsDigit(key[0]))
                && All(key[1..at], IsKeyChar) && IsLower(key[at + 1]) && All(key[at + 2..], IsKeyChar);
      assert TenantAt(key, at);
    }
  }

  lemma PartsAreTenant(key: string, tenant: string, system: string)
    requires key == tenant + "@" + system && TenantParts(tenant, system)
    ensures TenantAt(key, |tenant|)
  {
    hide IsKeyChar, IsLower, IsDigit, All;
    var at := |tenant|;
    assert key[1..at] == tenant[1..] && key[at + 2..] == system[1..] && key[at] == '@';
    assert key[0] == tenant[0] && key[at + 1] == system[0];
  }

  lemma TenantKeysAre(tenant: string, system: string)
    ensures TenantKey(tenant, system) <==> TenantParts(tenant, system)
  {
    hide Of, All, IsLower, IsDigit;
    if tenant != "" && system != "" {
      CharactersAre(tenant[0]);
      CharactersAre(system[0]);
      KeyText(tenant[1..]);
      KeyText(system[1..]);
    }
  }

  lemma KeyText(s: string)
    ensures All(s, IsKeyChar) <==> Of(s, LOWER_LETTERS + DIGITS + "_*/-")
  {
    forall i | 0 <= i < |s| ensures IsKeyChar(s[i]) <==> s[i] in LOWER_LETTERS + DIGITS + "_*/-" {
      CharactersAre(s[i]);
    }
  }

  predicate TenantKey(tenant: string, system: string) {
    && 0 < |tenant| <= 241 && tenant[0] in LOWER_LETTERS + DIGITS && Of(tenant[1..], LOWER_LETTERS + DIGITS + "_*/-")
    && 0 < |system| <= 14 && system[0] in LOWER_LETTERS && Of(system[1..], LOWER_LETTERS + DIGITS + "_*/-")
  }

  /** A member is a key, an equals sign and a value of printable characters that does not end in
      a space; keys hold no equals sign, so the key is determined. */
  lemma MembersAre(member: string, key: string)
    ensures ValidMember(member) && MemberKey(member) == key <==>
              exists value :: member == key + "=" + value && ValidKey(key) && PrintableValue(value)
  {
    hide ValidKey, ValidStateValue, PrintableValue;
    if ValidMember(member) && MemberKey(member) == key {
      var value := member[|key| + 1..];
      assert member == key + "=" + value;
      PrintableIs(value);
    }
    if value :| member == key + "=" + value && ValidKey(key) && PrintableValue(value) {
      KeyCharacters(key);
      PrintableIs(value);
      IndexAfter(key, value, '=');
      assert member[|key| + 1..] == value && member[..|key|] == key;
    }
  }

  lemma {:induction false} IndexAfter(s: string, rest: string, c: char)
    requires c !in s
    ensures IndexOf(s + [c] + rest, c) == |s|
  {
    if s == [] {
      assert ([] + [c] + rest)[0] == c;
    } else {
      IndexAfter(s[1..], rest, c);
      assert (s + [c] + rest)[1..] == s[1..] + [c] + rest;
      assert s[0] in s;
    }
  }

  predicate PrintableValue(value: string) {
    && 0 < |value| <= 256 && value[|value| - 1] != ' '
    && forall c | c in value :: ' ' <= c <= '~' && c != ',' && c != '='
  }

  lemma PrintableIs(value: string)
    ensures PrintableValue(value) <==> ValidStateValue(value) && '=' !in value
  {
    assert forall i | 0 <= i < |value| :: value[i] in value;
  }

  lemma KeyCharacters(key: string)
    requires ValidKey(key)
    ensures key != "" && forall i | 0 <= i < |key| :: IsKeyChar(key[i]) || key[i] == '@'
  {
    ValidKeyIs(key);
    hide ValidKey;
    if 1 <= |key| <= 256 && IsLower(key[0]) && All(key[1..], IsKeyChar) {
      assert forall i | 1 <= i < |key| :: key[i] == key[1..][i - 1];
    } else {
      var at :| TenantAt(key, at);
      assert forall i | 1 <= i < at :: key[i] == key[1..at][i - 1];
      assert forall i | at + 2 <= i < |key| :: key[i] == key[at + 2..][i - at - 2];
    }
  }

  /** Main result: a tracestate is accepted exactly if it has at most 512 characters and 32
      parts between its commas, each a member within white space, with pairwise different keys. */
  lemma TracestateIsExact(value: string)
    ensures ValidTracestate(value) <==>
              exists keys: seq<string> ::
                && |value| <= 512 && |keys| == |Split(value)| <= 32
                && (forall i | 0 <= i < |keys| ::
                     ValidMember(Trim(Split(value)[i])) && MemberKey(Trim(Split(value)[i])) == keys[i])
                && forall i, j | 0 <= i < j < |keys| :: keys[i] != keys[j]
  {
    hide ValidMember, MemberKey, Split, Trim;
    var members := Split(value);
    if ValidTracestate(value) {
      var keys := seq(|members|, i requires 0 <= i < |members| && ValidMember(Trim(members[i])) =>
        MemberKey(Trim(members[i])));
      assert forall i | 0 <= i < |keys| :: ValidMember(Trim(members[i])) && MemberKey(Trim(members[i])) == keys[i];
    }
  }
}
