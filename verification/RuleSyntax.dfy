/** The rule language: from the text of a rule set to its parsed rules. */
module RuleSyntax {
  import opened Common
  import opened RuleMatcher

  datatype CaseOperation = CaseNone | CaseLower | CaseUpper

  datatype Rule = Rule(
    patternTokens: seq<Token>, replacementTokens: seq<Token>, captureCount: nat, caseOperation: CaseOperation)

  datatype ParseError =
    | EmptyRules | InvalidCharacter | InvalidControlCharacter | InvalidRules | InvalidRule
    | DanglingEscape | InvalidEscape | InvalidReference

  // ------------------------------------------------------------- characters

  /** The code points Go's unicode.IsSpace accepts. */
  predicate IsSpace(c: char) {
    var u := c as int;
    9 <= u <= 13 || u == 0x20 || u == 0x85 || u == 0xa0 || u == 0x1680 || 0x2000 <= u <= 0x200a ||
    u == 0x2028 || u == 0x2029 || u == 0x202f || u == 0x205f || u == 0x3000
  }

  predicate IsControl(c: char) { c as int < 0x20 || c as int == 0x7f }

  predicate IsClean(c: char) { !IsSpace(c) && c != '"' && c != '\'' && !IsControl(c) }

  predicate Clean(s: string) { forall i :: 0 <= i < |s| ==> IsClean(s[i]) }

  predicate IsDigit(c: char) { '0' <= c <= '9' }

  /** What the character check reports, if anything: the first offending character decides. */
  function CharacterError(s: string): Option<ParseError> {
    if s == "" then None
    else if IsSpace(s[0]) || s[0] == '"' || s[0] == '\'' then Some(InvalidCharacter)
    else if IsControl(s[0]) then Some(InvalidControlCharacter)
    else CharacterError(s[1..])
  }

  lemma CleanConcat(a: string, b: string)
    ensures Clean(a + b) <==> Clean(a) && Clean(b)
  {
    if Clean(a + b) {
      forall i | 0 <= i < |a| ensures IsClean(a[i]) { assert (a + b)[i] == a[i]; }
      forall i | 0 <= i < |b| ensures IsClean(b[i]) { assert (a + b)[|a| + i] == b[i]; }
    }
  }

  lemma {:induction false} NoErrorMeansClean(s: string)
    ensures CharacterError(s).None? <==> Clean(s)
  {
    if s != "" {
      NoErrorMeansClean(s[1..]);
      assert s == [s[0]] + s[1..];
      CleanConcat([s[0]], s[1..]);
    }
  }

  // ---------------------------------------------------------------- escapes

  /** Whether the character at `i` is escaped, reading left to right. */
  predicate EscapedAt(s: string, i: nat)
    requires i <= |s|
  {
    i > 0 && s[i - 1] == '\\' && !EscapedAt(s, i - 1)
  }

  /** An unescaped `;` at `i`. */
  predicate CutAt(s: string, i: int) {
    0 <= i < |s| && s[i] == ';' && !EscapedAt(s, i)
  }

  /** An unescaped `=>` at `i`. */
  predicate SeparatorAt(s: string, i: int) {
    0 <= i && i + 1 < |s| && s[i] == '=' && s[i + 1] == '>' && !EscapedAt(s, i)
  }

  /** The first unescaped `;` at or after `i`, or the end of the text. */
  function NextCut(s: string, i: nat): (k: nat)
    requires i <= |s|
    ensures i <= k <= |s| && (k < |s| ==> CutAt(s, k))
    ensures forall j :: i <= j < k ==> !CutAt(s, j)
    decreases |s| - i
  {
    if i == |s| || CutAt(s, i) then i else NextCut(s, i + 1)
  }

  /** The text between unescaped `;`, from `start` on. */
  function SegmentsFrom(s: string, start: nat): seq<string>
    requires start <= |s|
    decreases |s| - start
  {
    var k := NextCut(s, start);
    if k == |s| then [s[start..]] else [s[start..k]] + SegmentsFrom(s, k + 1)
  }

  function Segments(s: string): seq<string> { SegmentsFrom(s, 0) }

  /** The non-empty segments of a text that does not end in an open escape. */
  function Split(s: string): Option<seq<string>> {
    if "" in Segments(s) || EscapedAt(s, |s|) then None else Some(Segments(s))
  }

  ghost predicate IsOnlySeparator(s: string, k: int) {
    SeparatorAt(s, k) && forall j :: SeparatorAt(s, j) ==> j == k
  }

  /** The place of the unescaped `=>`, when there is exactly one. */
  ghost function OnlySeparator(s: string): Option<nat> {
    if k :| IsOnlySeparator(s, k) then Some(k) else None
  }

  // ------------------------------------------------------------- both sides

  function Flush(lit: string): seq<Token> {
    if lit == "" then [] else [Token(lit, 0)]
  }

  /** What an escape at the front of `s` stands for and how long it is; `=>` is the only two-character one. */
  function Escape(s: string): Result<(string, nat), ParseError>
    requires s != "" && s[0] == '\\'
    ensures Escape(s).Ok? ==> 2 <= Escape(s).value.1 <= |s| && Escape(s).value.0 == s[1..Escape(s).value.1]
  {
    if |s| < 2 then Err(DanglingEscape)
    else if s[1] in "*;$\\" then Ok(([s[1]], 2))
    else if s[1] == '=' && |s| > 2 && s[2] == '>' then Ok(("=>", 3))
    else Err(InvalidEscape)
  }

  type FindResult = Result<(seq<Token>, nat), ParseError>

  function PrependFind(tokens: seq<Token>, r: FindResult): (p: FindResult)
    ensures tokens == [] ==> p == r
  {
    assert r.Ok? ==> [] + r.value.0 == r.value.0;
    if r.Err? then r else Ok((tokens + r.value.0, r.value.1))
  }

  /** The tokens of the rest `s` of a find side, after the open literal `lit` and `n` captures. */
  function FindTokens(s: string, lit: string, n: nat): FindResult
    decreases |s|
  {
    if s == "" then Ok((Flush(lit), n))
    else if s[0] == '\\' then
      var e := Escape(s);
      if e.Err? then Err(e.error) else FindTokens(s[e.value.1..], lit + e.value.0, n)
    else if s[0] == '*' then
      PrependFind(Flush(lit) + [Token("", n + 1)], FindTokens(s[1..], "", n + 1))
    else FindTokens(s[1..], lit + [s[0]], n)
  }

  // An int as Go holds it: 64 bits, two's complement.
  const INT64_SPAN: int := 0x1_0000_0000_0000_0000
  const INT64_HALF: int := 0x8000_0000_0000_0000

  function Wrap64(x: int): int { (x + INT64_HALF) % INT64_SPAN - INT64_HALF }

  function DigitValue(c: char): int { c as int - '0' as int }

  /** The number a digit run spells. */
  function Decimal(digits: string): int {
    if digits == "" then 0 else Decimal(digits[..|digits| - 1]) * 10 + DigitValue(digits[|digits| - 1])
  }

  /** How many digits `s` starts with. */
  function DigitRun(s: string): (d: nat)
    ensures d <= |s| && (forall i :: 0 <= i < d ==> IsDigit(s[i])) && (d < |s| ==> !IsDigit(s[d]))
  {
    if s == "" || !IsDigit(s[0]) then 0 else 1 + DigitRun(s[1..])
  }

  type ReplaceResult = Result<seq<Token>, ParseError>

  /** What was read so far in front of what the rest gives. */
  function PutBefore<T>(read: seq<T>, r: Result<seq<T>, ParseError>): (p: Result<seq<T>, ParseError>)
    ensures read == [] ==> p == r
  {
    assert r.Ok? ==> [] + r.value == r.value;
    if r.Err? then r else Ok(read + r.value)
  }

  lemma PutBeforeTwice<T>(a: seq<T>, b: seq<T>, r: Result<seq<T>, ParseError>)
    ensures PutBefore(a + b, r) == PutBefore(a, PutBefore(b, r))
  {
    assert r.Ok? ==> a + b + r.value == a + (b + r.value);
  }

  /** The tokens of the rest `s` of a replace side, after the open literal `lit`. */
  function ReplaceTokens(s: string, lit: string, captures: nat): ReplaceResult
    decreases |s|
  {
    if s == "" then Ok(Flush(lit))
    else if s[0] == '\\' then
      var e := Escape(s);
      if e.Err? then Err(e.error) else ReplaceTokens(s[e.value.1..], lit + e.value.0, captures)
    else if s[0] != '$' then ReplaceTokens(s[1..], lit + [s[0]], captures)
    else if |s| < 2 || !('1' <= s[1] <= '9') then Err(InvalidReference)
    else
      var d := DigitRun(s[1..]);
      var n := Wrap64(Decimal(s[1..1 + d]));
      if n == 0 || n > captures then Err(InvalidReference)
      else PutBefore(Flush(lit) + [Token("", n)], ReplaceTokens(s[1 + d..], "", captures))
  }

  // ------------------------------------------------------------- whole text

  ghost function RuleOf(part: string): Result<Rule, ParseError> {
    if part == "\\a" then Ok(Rule([], [], 0, CaseLower))
    else if part == "\\A" then Ok(Rule([], [], 0, CaseUpper))
    else
      var sep := OnlySeparator(part);
      if sep.None? || sep.value + 2 > |part| then Err(InvalidRule) else
        var find, replace := part[..sep.value], part[sep.value + 2..];
        if find == "" || replace == "" then Err(InvalidRule) else
          var f := FindTokens(find, "", 0);
          if f.Err? then Err(f.error) else
            var r := ReplaceTokens(replace, "", f.value.1);
            if r.Err? then Err(r.error) else Ok(Rule(f.value.0, r.value, f.value.1, CaseNone))
  }

  type RulesResult = Result<seq<Rule>, ParseError>

  ghost function RulesOf(parts: seq<string>): RulesResult {
    if parts == [] then Ok([])
    else
      var first := RuleOf(parts[0]);
      if first.Err? then Err(first.error) else PutBefore([first.value], RulesOf(parts[1..]))
  }

  /** The rules a text stands for. */
  ghost function Parse(raw: string): RulesResult {
    if raw == "" then Err(EmptyRules)
    else if CharacterError(raw).Some? then Err(CharacterError(raw).value)
    else if Split(raw).None? then Err(InvalidRules)
    else RulesOf(Split(raw).value)
  }

  // ---------------------------------------------------------------- methods

  method SplitEscaped(s: string) returns (result: Option<seq<string>>)
    ensures result == Split(s)
  {
    var parts, start, escaped := [], 0, false;
    for i := 0 to |s|
      invariant start <= i
      invariant escaped == EscapedAt(s, i)
      invariant NextCut(s, start) == NextCut(s, i)
      invariant Segments(s) == parts + SegmentsFrom(s, start)
      invariant "" !in parts
    {
      var c := s[i];
      if escaped {
        escaped := false;
      } else if c == '\\' {
        escaped := true;
      } else if c == ';' {
        assert NextCut(s, i) == i;
        if i == start {
          SplitFails(s, parts, SegmentsFrom(s, start));
          return None;
        }
        parts := parts + [s[start..i]];
        start := i + 1;
      }
    }
    assert SegmentsFrom(s, start) == [s[start..]];
    if escaped {
      return None;
    }
    if start >= |s| {
      SplitFails(s, parts, SegmentsFrom(s, start));
      return None;
    }
    return Some(parts + [s[start..]]);
  }

  lemma SplitFails(s: string, parts: seq<string>, rest: seq<string>)
    requires Segments(s) == parts + rest && rest != [] && rest[0] == ""
    ensures Split(s).None?
  {
    assert Segments(s)[|parts|] == "";
  }

  method FindRuleSeparator(s: string) returns (sep: int, ok: bool)
    ensures ok ==> OnlySeparator(s) == Some(sep)
    ensures !ok ==> OnlySeparator(s) == None
  {
    var escaped := false;
    sep := -1;
    var i := 0;
    while i + 1 < |s|
      invariant 0 <= i <= |s|
      invariant escaped == EscapedAt(s, i)
      invariant sep == -1 ==> forall j :: 0 <= j < i ==> !SeparatorAt(s, j)
      invariant sep != -1 ==> 0 <= sep < i && SeparatorAt(s, sep)
      invariant sep != -1 ==> forall j :: 0 <= j < i && SeparatorAt(s, j) ==> j == sep
    {
      var c := s[i];
      if escaped {
        escaped := false;
      } else if c == '\\' {
        escaped := true;
      } else if c == '=' && s[i + 1] == '>' {
        assert SeparatorAt(s, i);
        if sep >= 0 {
          return -1, false;
        }
        sep := i;
      }
      i := i + 1;
    }
    assert sep >= 0 ==> IsOnlySeparator(s, sep);
    return sep, sep >= 0;
  }

  method ParseFind(s: string) returns (result: FindResult)
    ensures result == FindTokens(s, "", 0)
  {
    var tokens, lit, captures, i := [], "", 0, 0;
    assert s[0..] == s;
    while i < |s|
      invariant 0 <= i <= |s|
      invariant FindTokens(s, "", 0) == PrependFind(tokens, FindTokens(s[i..], lit, captures))
    {
      var c := s[i];
      if c == '\\' {
        var e := Escape(s[i..]);
        if e.Err? {
          return Err(e.error);
        }
        assert s[i..][e.value.1..] == s[i + e.value.1..];
        lit := lit + e.value.0;
        i := i + e.value.1;
      } else if c == '*' {
        var more := Flush(lit) + [Token("", captures + 1)];
        assert s[i..][1..] == s[i + 1..];
        PrependFindTwice(tokens, more, FindTokens(s[i + 1..], "", captures + 1));
        captures := captures + 1;
        tokens := tokens + more;
        lit := "";
        i := i + 1;
      } else {
        assert s[i..][1..] == s[i + 1..];
        lit := lit + [c];
        i := i + 1;
      }
    }
    return Ok((tokens + Flush(lit), captures));
  }

  lemma PrependFindTwice(a: seq<Token>, b: seq<Token>, r: FindResult)
    ensures PrependFind(a + b, r) == PrependFind(a, PrependFind(b, r))
  {
    assert r.Ok? ==> a + b + r.value.0 == a + (b + r.value.0);
  }

  /** Reads a digit run the way the source does, one 64-bit step a digit. */
  method ReadReference(digits: string) returns (n: int)
    ensures n == Wrap64(Decimal(digits))
  {
    n := 0;
    for k := 0 to |digits|
      invariant n == Wrap64(Decimal(digits[..k]))
    {
      assert digits[..k + 1][..k] == digits[..k];
      WrapStep(Decimal(digits[..k]), DigitValue(digits[k]));
      n := Wrap64(n * 10 + DigitValue(digits[k]));
    }
    assert digits[..|digits|] == digits;
  }

  lemma WrapStep(x: int, d: int)
    ensures Wrap64(Wrap64(x) * 10 + d) == Wrap64(x * 10 + d)
  {
    var q := (x + INT64_HALF) / INT64_SPAN;
    assert Wrap64(x) == x - q * INT64_SPAN;
    WrapShift(x * 10 + d, -10 * q);
  }

  lemma WrapShift(x: int, q: int)
    ensures Wrap64(x + q * INT64_SPAN) == Wrap64(x)
  {
    var y := x + INT64_HALF;
    var a, r := y / INT64_SPAN, y % INT64_SPAN;
    assert y + q * INT64_SPAN == (a + q) * INT64_SPAN + r;
  }

  method DigitsEnd(s: string, start: nat) returns (j: nat)
    requires start <= |s|
    ensures j == start + DigitRun(s[start..])
  {
    j := start;
    while j < |s| && IsDigit(s[j])
      invariant start <= j <= |s|
      invariant start + DigitRun(s[start..]) == j + DigitRun(s[j..])
    {
      assert s[j..][1..] == s[j + 1..];
      j := j + 1;
    }
  }

  method ParseReplace(s: string, captures: nat) returns (result: ReplaceResult)
    ensures result == ReplaceTokens(s, "", captures)
  {
    var tokens, lit, i := [], "", 0;
    assert s[0..] == s;
    while i < |s|
      invariant 0 <= i <= |s|
      invariant ReplaceTokens(s, "", captures) == PutBefore(tokens, ReplaceTokens(s[i..], lit, captures))
    {
      var c := s[i];
      if c == '\\' {
        var e := Escape(s[i..]);
        if e.Err? {
          return Err(e.error);
        }
        assert s[i..][e.value.1..] == s[i + e.value.1..];
        lit := lit + e.value.0;
        i := i + e.value.1;
      } else if c != '$' {
        assert s[i..][1..] == s[i + 1..];
        lit := lit + [c];
        i := i + 1;
      } else {
        if i + 1 >= |s| || s[i + 1] < '1' || s[i + 1] > '9' {
          return Err(InvalidReference);
        }
        var j := DigitsEnd(s, i + 1);
        var n := ReadReference(s[i + 1..j]);
        assert s[i..][1..] == s[i + 1..] && s[i..][1..j - i] == s[i + 1..j] && s[i..][j - i..] == s[j..];
        if n == 0 || n > captures {
          return Err(InvalidReference);
        }
        var more := Flush(lit) + [Token("", n)];
        PutBeforeTwice(tokens, more, ReplaceTokens(s[j..], "", captures));
        tokens := tokens + more;
        lit := "";
        i := j;
      }
    }
    return Ok(tokens + Flush(lit));
  }

  method ParseRules(raw: string) returns (result: RulesResult)
    ensures result == Parse(raw)
  {
    if raw == "" {
      return Err(EmptyRules);
    }
    assert raw[0..] == raw;
    for i := 0 to |raw|
      invariant CharacterError(raw) == CharacterError(raw[i..])
    {
      assert raw[i..][1..] == raw[i + 1..];
      if IsSpace(raw[i]) || raw[i] == '"' || raw[i] == '\'' {
        return Err(InvalidCharacter);
      }
      if IsControl(raw[i]) {
        return Err(InvalidControlCharacter);
      }
    }
    var parts := SplitEscaped(raw);
    if parts.None? {
      return Err(InvalidRules);
    }
    result := ParseParts(parts.value);
  }

  method ParseParts(parts: seq<string>) returns (result: RulesResult)
    ensures result == RulesOf(parts)
  {
    var out := [];
    assert parts[0..] == parts;
    for k := 0 to |parts|
      invariant RulesOf(parts) == PutBefore(out, RulesOf(parts[k..]))
    {
      assert parts[k..][1..] == parts[k + 1..];
      var rule := ParseRule(parts[k]);
      if rule.Err? {
        return Err(rule.error);
      }
      PutBeforeTwice(out, [rule.value], RulesOf(parts[k + 1..]));
      out := out + [rule.value];
    }
    assert out + [] == out;
    return Ok(out);
  }

  method ParseRule(part: string) returns (result: Result<Rule, ParseError>)
    ensures result == RuleOf(part)
  {
    if part == "\\a" {
      return Ok(Rule([], [], 0, CaseLower));
    }
    if part == "\\A" {
      return Ok(Rule([], [], 0, CaseUpper));
    }
    var sep, ok := FindRuleSeparator(part);
    if !ok {
      return Err(InvalidRule);
    }
    var find, replace := part[..sep], part[sep + 2..];
    if find == "" || replace == "" {
      return Err(InvalidRule);
    }
    var pt := ParseFind(find);
    if pt.Err? {
      return Err(pt.error);
    }
    var rt := ParseReplace(replace, pt.value.1);
    if rt.Err? {
      return Err(rt.error);
    }
    return Ok(Rule(pt.value.0, rt.value, pt.value.1, CaseNone));
  }
}
