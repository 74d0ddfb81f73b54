/** What parsing can return: exactly the canonical rule lists, unless a reference overflows. */
module RuleRange {
  import opened Common
  import opened RuleMatcher
  import opened RuleSyntax
  import opened RulePrinting

  lemma CleanSlice(s: string, i: nat, j: nat)
    requires Clean(s) && i <= j <= |s|
    ensures Clean(s[i..j]) && Clean(s[i..]) && Clean(s[..j])
  {}

  // ---------------------------------------------------------------- find side

  lemma FlushedShape(lit: string, tokens: seq<Token>, n: nat)
    requires Clean(lit) && tokens != [] && tokens[0] == Token("", n + 1)
    requires FindShape(tokens[1..], n + 1) && CleanTokens(tokens[1..])
    ensures FindShape(Flush(lit) + tokens, n) && CleanTokens(Flush(lit) + tokens)
    ensures CaptureCount(Flush(lit) + tokens) == 1 + CaptureCount(tokens[1..])
  {
    if lit == "" {
      assert Flush(lit) + tokens == tokens;
    } else {
      var all := Flush(lit) + tokens;
      assert all[1..] == tokens;
      assert FindShape(tokens, n) && CleanTokens(tokens);
    }
  }

  lemma {:induction false} FoundShape(s: string, lit: string, n: nat)
    requires FindTokens(s, lit, n).Ok? && Clean(s) && Clean(lit)
    ensures var (tokens, m) := FindTokens(s, lit, n).value;
            FindShape(tokens, n) && CleanTokens(tokens) && m == n + CaptureCount(tokens) <= n + |s| &&
            (tokens == [] ==> s == "" && lit == "")
    decreases |s|
  {
    if s == "" {
      assert Flush(lit) != [] ==> Flush(lit)[1..] == [];
    } else if s[0] == '\\' {
      var k := Escape(s).value.1;
      CleanSlice(s, k, |s|);
      CleanSlice(s, 1, k);
      CleanConcat(lit, Escape(s).value.0);
      FoundShape(s[k..], lit + Escape(s).value.0, n);
    } else if s[0] == '*' {
      CleanSlice(s, 1, |s|);
      FoundShape(s[1..], "", n + 1);
      var rest := FindTokens(s[1..], "", n + 1).value.0;
      var tokens := [Token("", n + 1)] + rest;
      assert tokens[1..] == rest;
      FlushedShape(lit, tokens, n);
      assert Flush(lit) + tokens == Flush(lit) + [Token("", n + 1)] + rest;
    } else {
      CleanSlice(s, 1, |s|);
      CleanConcat(lit, [s[0]]);
      FoundShape(s[1..], lit + [s[0]], n);
    }
  }

  // ------------------------------------------------------------- replace side

  /** The digit runs that a replace side uses as references. */
  function References(s: string): seq<string>
    decreases |s|
  {
    if s == "" then []
    else if s[0] == '\\' then
      if Escape(s).Err? then [] else References(s[Escape(s).value.1..])
    else if s[0] != '$' then References(s[1..])
    else [s[1..1 + DigitRun(s[1..])]] + References(s[1 + DigitRun(s[1..])..])
  }

  /** The number a digit run has after 64-bit reading is still positive. */
  predicate ReadsPositive(digits: string) { Wrap64(Decimal(digits)) > 0 }

  predicate AllReadPositive(runs: seq<string>) { forall d :: d in runs ==> ReadsPositive(d) }

  lemma FlushedReplace(lit: string, tokens: seq<Token>, captures: nat)
    requires Clean(lit) && tokens != [] && tokens[0].literal == ""
    requires tokens[0].capture != 0 && tokens[0].capture <= captures && !StartsWithDigit(tokens[1..])
    requires ReplaceShape(tokens[1..], captures) && CleanTokens(tokens[1..])
    ensures ReplaceShape(Flush(lit) + tokens, captures) && CleanTokens(Flush(lit) + tokens)
    ensures PositiveReferences(Flush(lit) + tokens) <==> tokens[0].capture > 0 && PositiveReferences(tokens[1..])
  {
    if lit == "" {
      assert Flush(lit) + tokens == tokens;
    } else {
      var all := Flush(lit) + tokens;
      assert all[1..] == tokens;
      assert ReplaceShape(tokens, captures) && CleanTokens(tokens);
    }
  }

  lemma {:induction false} ReplacedShape(s: string, lit: string, captures: nat)
    requires ReplaceTokens(s, lit, captures).Ok? && Clean(s) && Clean(lit)
    ensures var tokens := ReplaceTokens(s, lit, captures).value;
            ReplaceShape(tokens, captures) && CleanTokens(tokens) &&
            (tokens == [] ==> s == "" && lit == "") &&
            (StartsWithDigit(tokens) ==> if lit != "" then IsDigit(lit[0]) else s != "" && IsDigit(s[0])) &&
            (PositiveReferences(tokens) <==> AllReadPositive(References(s)))
    decreases |s|
  {
    if s == "" {
      assert Flush(lit) != [] ==> Flush(lit)[1..] == [];
    } else if s[0] == '\\' {
      var k := Escape(s).value.1;
      CleanSlice(s, k, |s|);
      CleanSlice(s, 1, k);
      CleanConcat(lit, Escape(s).value.0);
      ReplacedShape(s[k..], lit + Escape(s).value.0, captures);
    } else if s[0] != '$' {
      CleanSlice(s, 1, |s|);
      CleanConcat(lit, [s[0]]);
      ReplacedShape(s[1..], lit + [s[0]], captures);
    } else {
      ReferenceShape(s, lit, captures);
    }
  }

  lemma {:induction false} ReferenceShape(s: string, lit: string, captures: nat)
    requires ReplaceTokens(s, lit, captures).Ok? && Clean(s) && Clean(lit) && s != "" && s[0] == '$'
    ensures var tokens := ReplaceTokens(s, lit, captures).value;
            ReplaceShape(tokens, captures) && CleanTokens(tokens) && tokens != [] &&
            (StartsWithDigit(tokens) ==> lit != "" && IsDigit(lit[0])) &&
            (PositiveReferences(tokens) <==> AllReadPositive(References(s)))
    decreases |s|, 0
  {
    var d := DigitRun(s[1..]);
    var n := Wrap64(Decimal(s[1..1 + d]));
    var more := s[1 + d..];
    CleanSlice(s, 1 + d, |s|);
    assert d < |s[1..]| ==> more[0] == s[1..][d];
    ReplacedShape(more, "", captures);
    var rest := ReplaceTokens(more, "", captures).value;
    var tokens := [Token("", n)] + rest;
    assert tokens[1..] == rest;
    FlushedReplace(lit, tokens, captures);
    assert Flush(lit) + tokens == Flush(lit) + [Token("", n)] + rest;
    assert References(s) == [s[1..1 + d]] + References(more);
    assert forall e :: e in References(s) <==> e == s[1..1 + d] || e in References(more);
    assert s[1..1 + d] in References(s) && (ReadsPositive(s[1..1 + d]) <==> n > 0);
    assert AllReadPositive(References(s)) <==> ReadsPositive(s[1..1 + d]) && AllReadPositive(References(more));
    assert (Flush(lit) + tokens)[0] == if lit == "" then Token("", n) else Token(lit, 0);
  }

  // ----------------------------------------------------------------- one rule

  /** No reference of the entry wraps to a number below one. */
  ghost predicate SafePart(part: string) {
    OnlySeparator(part).Some? ==>
      AllReadPositive(References(part[OnlySeparator(part).value + 2..]))
  }

  lemma RuleShape(part: string)
    requires RuleOf(part).Ok? && Clean(part) && |part| < INT64_HALF
    ensures CanonicalRule(RuleOf(part).value) <==> SafePart(part)
  {
    if part == "\\a" || part == "\\A" {
      assert |part| == 2 && part[0] == '\\';
      assert forall k :: !SeparatorAt(part, k);
    } else {
      var sep := OnlySeparator(part).value;
      var find, replace := part[..sep], part[sep + 2..];
      CleanSlice(part, 0, sep);
      CleanSlice(part, sep + 2, |part|);
      FoundShape(find, "", 0);
      ReplacedShape(replace, "", FindTokens(find, "", 0).value.1);
    }
  }

  ghost predicate SafeReferences(raw: string) { forall p :: p in Segments(raw) ==> SafePart(p) }

  lemma {:induction false} RulesShape(parts: seq<string>)
    requires RulesOf(parts).Ok? && forall p :: p in parts ==> Clean(p) && |p| < INT64_HALF
    ensures |RulesOf(parts).value| == |parts|
    ensures (forall r :: r in RulesOf(parts).value ==> CanonicalRule(r)) <==> (forall p :: p in parts ==> SafePart(p))
  {
    if parts != [] {
      var first, rest := RuleOf(parts[0]).value, RulesOf(parts[1..]).value;
      RuleShape(parts[0]);
      RulesShape(parts[1..]);
      assert RulesOf(parts).value == [first] + rest;
      assert parts == [parts[0]] + parts[1..];
      assert (forall r :: r in [first] + rest ==> CanonicalRule(r)) <==>
             (CanonicalRule(first) && forall r :: r in rest ==> CanonicalRule(r));
      assert (forall p :: p in [parts[0]] + parts[1..] ==> SafePart(p)) <==>
             (SafePart(parts[0]) && forall p :: p in parts[1..] ==> SafePart(p));
    }
  }

  lemma {:induction false} CleanSegments(s: string, start: nat)
    requires Clean(s) && start <= |s|
    ensures SegmentsFrom(s, start) != []
    ensures forall p :: p in SegmentsFrom(s, start) ==> Clean(p) && |p| <= |s|
    decreases |s| - start
  {
    var k := NextCut(s, start);
    CleanSlice(s, start, k);
    if k < |s| {
      CleanSegments(s, k + 1);
    }
  }

  /** Accepted text yields canonical rules exactly when no reference wraps (a Go string is shorter than 2^63). */
  lemma ParsedIsCanonical(raw: string)
    requires Parse(raw).Ok? && |raw| < INT64_HALF
    ensures CanonicalRules(Parse(raw).value) <==> SafeReferences(raw)
  {
    NoErrorMeansClean(raw);
    CleanSegments(raw, 0);
    RulesShape(Segments(raw));
  }

  /** Printing what was parsed and parsing it again changes nothing. */
  lemma PrintIsNormalForm(raw: string)
    requires Parse(raw).Ok? && |raw| < INT64_HALF && SafeReferences(raw)
    ensures Parse(Print(Parse(raw).value)) == Parse(raw)
  {
    ParsedIsCanonical(raw);
    ParsePrint(Parse(raw).value);
  }

  // ------------------------------------------------------------ the overflow

  const TEN_18: int := 1_000_000_000_000_000_000

  function Power10(k: nat): nat { if k == 0 then 1 else 10 * Power10(k - 1) }

  lemma {:induction false} DecimalBounds(digits: string)
    requires forall i :: 0 <= i < |digits| ==> IsDigit(digits[i])
    ensures 0 <= Decimal(digits) < Power10(|digits|)
    ensures digits != "" && digits[0] != '0' ==> Decimal(digits) > 0
  {
    if digits != "" {
      DecimalBounds(digits[..|digits| - 1]);
      if |digits| == 1 {
        assert digits[..0] == "" && Decimal("") == 0;
      }
    }
  }

  lemma {:induction false} Power10Monotone(k: nat, l: nat)
    requires k <= l
    ensures Power10(k) <= Power10(l)
    decreases l - k
  {
    if k < l {
      Power10Monotone(k, l - 1);
    }
  }

  /** A reference of at most 18 digits never wraps. */
  lemma ShortReferenceReadsPositive(digits: string)
    requires 1 <= |digits| <= 18 && digits[0] != '0'
    requires forall i :: 0 <= i < |digits| ==> IsDigit(digits[i])
    ensures ReadsPositive(digits)
  {
    DecimalBounds(digits);
    Power10Monotone(|digits|, 18);
    assert Power10(6) == 1_000_000;
    assert Power10(12) == 1_000_000_000_000;
    assert Power10(18) == TEN_18;
  }

  lemma {:induction false} ReferencesAreDigits(s: string, lit: string, captures: nat)
    requires ReplaceTokens(s, lit, captures).Ok?
    ensures forall d :: d in References(s) ==> d != "" && d[0] != '0' && forall i :: 0 <= i < |d| ==> IsDigit(d[i])
    decreases |s|
  {
    if s == "" {
    } else if s[0] == '\\' {
      ReferencesAreDigits(s[Escape(s).value.1..], lit + Escape(s).value.0, captures);
    } else if s[0] != '$' {
      ReferencesAreDigits(s[1..], lit + [s[0]], captures);
    } else {
      var d := DigitRun(s[1..]);
      var first := s[1..1 + d];
      ReferencesAreDigits(s[1 + d..], "", captures);
      assert first == s[1..][..d];
    }
  }

  ghost predicate ShortReferences(part: string) {
    OnlySeparator(part).Some? ==> forall d :: d in References(part[OnlySeparator(part).value + 2..]) ==> |d| <= 18
  }

  lemma {:induction false} ShortPartsAreSafe(parts: seq<string>)
    requires RulesOf(parts).Ok? && forall p :: p in parts ==> ShortReferences(p)
    ensures forall p :: p in parts ==> SafePart(p)
  {
    if parts != [] {
      ShortPartsAreSafe(parts[1..]);
      var part := parts[0];
      assert RuleOf(part).Ok? && ShortReferences(part);
      if OnlySeparator(part).Some? && part != "\\a" && part != "\\A" {
        var sep := OnlySeparator(part).value;
        ReferencesAreDigits(part[sep + 2..], "", FindTokens(part[..sep], "", 0).value.1);
        forall d | d in References(part[sep + 2..])
          ensures ReadsPositive(d)
        {
          ShortReferenceReadsPositive(d);
        }
      }
      assert SafePart(part);
      assert parts == [part] + parts[1..];
    }
  }

  /** Accepted text whose references have at most 18 digits is canonical without reservation. */
  lemma ShortReferencesAreSafe(raw: string)
    requires Parse(raw).Ok? && forall p :: p in Segments(raw) ==> ShortReferences(p)
    ensures SafeReferences(raw)
  {
    ShortPartsAreSafe(Segments(raw));
  }

  /** A left side with captures numbered in order and clean literals that do not touch. */
  predicate IsFindSide(tokens: seq<Token>) { tokens != [] && FindShape(tokens, 0) && CleanTokens(tokens) }

  function WrappedText(tokens: seq<Token>, n: nat): string { PrintFind(tokens) + "=>" + PrintReference(n) }

  function WrappedRule(tokens: seq<Token>, n: nat): Rule {
    Rule(tokens, [Token("", Wrap64(n))], CaptureCount(tokens), CaseNone)
  }

  /** Behind any left side, every number that wraps below zero is accepted as a reference, although no capture has
      such an index. */
  lemma WrappedReferenceIsAccepted(tokens: seq<Token>, n: nat)
    requires IsFindSide(tokens) && Wrap64(n) < 0
    ensures Parse(WrappedText(tokens, n)) == Ok([WrappedRule(tokens, n)])
  {
    var s := WrappedText(tokens, n);
    WrappedTextIsClosed(tokens, n);
    NoErrorMeansClean(s);
    SegmentsOfJoin([s]);
    WrappedTextParses(tokens, n);
    OneRule(s);
  }

  lemma WrappedTextIsClosed(tokens: seq<Token>, n: nat)
    requires IsFindSide(tokens) && n > 0
    ensures var s := WrappedText(tokens, n);
            OnlySeparator(s) == Some(|PrintFind(tokens)|) && Closed(s) && NoCut(s) && Clean(s)
  {
    PrintedReference(n);
    PrintedFind(tokens, 0);
    PrintedSeparator(PrintFind(tokens), PrintReference(n));
    CleanConcat(PrintFind(tokens), "=>");
    CleanConcat(PrintFind(tokens) + "=>", PrintReference(n));
  }

  lemma WrappedTextParses(tokens: seq<Token>, n: nat)
    requires IsFindSide(tokens) && Wrap64(n) < 0
    ensures RuleOf(WrappedText(tokens, n)) == Ok(WrappedRule(tokens, n))
  {
    var find, replace := PrintFind(tokens), PrintReference(n);
    PrintedReference(n);
    PrintedFind(tokens, 0);
    PrintedSeparator(find, replace);
    SidesOf(find, replace);
    WrappedTokens(tokens, n);
    WrappedReplace(n, CaptureCount(tokens));
    MappingOf(WrappedRule(tokens, n), find + "=>" + replace, find, replace);
  }

  lemma WrappedTokens(tokens: seq<Token>, n: nat)
    requires IsFindSide(tokens)
    ensures var r := WrappedRule(tokens, n);
            Flush("") + r.patternTokens == r.patternTokens && Flush("") + r.replacementTokens == r.replacementTokens &&
            FindTokens(PrintFind(tokens), "", 0) == Ok((Flush("") + r.patternTokens, 0 + r.captureCount))
  {
    FindPrinted(tokens, "", 0);
  }

  lemma OneRule(s: string)
    requires RuleOf(s).Ok?
    ensures RulesOf([s]) == Ok([RuleOf(s).value])
  {
    assert [s][1..] == [];
    assert [RuleOf(s).value] + [] == [RuleOf(s).value];
  }

  lemma WrappedReplace(n: nat, captures: nat)
    requires Wrap64(n) < 0
    ensures ReplaceTokens(PrintReference(n), "", captures) == Ok(Flush("") + [Token("", Wrap64(n))])
  {
    ReplaceReference(n, "", "", captures);
    assert PrintReference(n) + "" == PrintReference(n);
    assert Flush("") + [Token("", Wrap64(n))] + Flush("") == Flush("") + [Token("", Wrap64(n))];
  }
}
