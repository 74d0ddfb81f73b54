/** Applying a parsed rule set to a model name. */
module RuleApply {
  import opened Common
  import opened RuleMatcher
  import opened RuleSyntax
  import opened RulePrinting
  import opened RuleRange

  function CaseOf(c: char, operation: CaseOperation): char {
    match operation
    case CaseNone => c
    case CaseLower => if 'A' <= c <= 'Z' then (c as int + 32) as char else c
    case CaseUpper => if 'a' <= c <= 'z' then (c as int - 32) as char else c
  }

  function CaseModel(model: string, operation: CaseOperation): string {
    seq(|model|, i requires 0 <= i < |model| => CaseOf(model[i], operation))
  }

  method ApplyAsciiModelCase(model: string, operation: CaseOperation) returns (result: string)
    ensures result == CaseModel(model, operation)
  {
    var converted := new char[|model|](i requires 0 <= i < |model| => model[i]);
    for i := 0 to |model|
      invariant forall k :: 0 <= k < i ==> converted[k] == CaseOf(model[k], operation)
      invariant forall k :: i <= k < |model| ==> converted[k] == model[k]
    {
      var c := converted[i];
      match operation {
        case CaseLower =>
          if 'A' <= c <= 'Z' { converted[i] := (c as int + 32) as char; }
        case CaseUpper =>
          if 'a' <= c <= 'z' { converted[i] := (c as int - 32) as char; }
        case CaseNone =>
      }
    }
    result := converted[..];
  }

  /** Every reference names one of `captures` captures. */
  predicate ReferencesInRange(tokens: seq<Token>, captures: nat) {
    forall i :: 0 <= i < |tokens| && tokens[i].literal == "" ==> 1 <= tokens[i].capture <= captures
  }

  /** The replacement with each reference replaced by its capture. */
  function Substitute(tokens: seq<Token>, captures: seq<string>): string
    requires ReferencesInRange(tokens, |captures|)
  {
    if tokens == [] then ""
    else
      (if tokens[0].literal != "" then tokens[0].literal else captures[tokens[0].capture - 1]) +
      Substitute(tokens[1..], captures)
  }

  lemma RestInRange(tokens: seq<Token>, captures: nat)
    requires tokens != []
    ensures ReferencesInRange(tokens, captures) <==>
              (tokens[0].literal == "" ==> 1 <= tokens[0].capture <= captures) &&
                  ReferencesInRange(tokens[1..], captures)
  {
    assert forall i :: 1 <= i < |tokens| ==> tokens[i] == tokens[1..][i - 1];
  }

  /** None stands for the index panic at the first reference that names no capture. */
  method BuildReplacement(tokens: seq<Token>, captures: seq<string>) returns (result: Option<string>)
    ensures result == if ReferencesInRange(tokens, |captures|) then Some(Substitute(tokens, captures)) else None
  {
    var text := "";
    assert tokens[0..] == tokens;
    ghost var fits := ReferencesInRange(tokens, |captures|);
    for i := 0 to |tokens|
      invariant fits <==> ReferencesInRange(tokens[i..], |captures|)
      invariant fits ==> Substitute(tokens, captures) == text + Substitute(tokens[i..], captures)
    {
      RestInRange(tokens[i..], |captures|);
      assert tokens[i..][1..] == tokens[i + 1..];
      if tokens[i].literal == "" && !(1 <= tokens[i].capture <= |captures|) {
        return None;
      }
      text := text + if tokens[i].literal != "" then tokens[i].literal else captures[tokens[i].capture - 1];
    }
    assert tokens[|tokens|..] == [];
    assert text + "" == text;
    result := Some(text);
  }

  /** No reference of the rule is out of range, whatever its pattern matches. */
  predicate Applicable(r: Rule) {
    r.caseOperation == CaseNone ==> ReferencesInRange(r.replacementTokens, CaptureCount(r.patternTokens))
  }

  /** Applying the rule to this very name indexes no capture out of range. */
  predicate InRange(current: string, r: Rule) {
    r.caseOperation == CaseNone ==>
      var found := Search(current, 0, r.patternTokens);
      found.Some? ==> ReferencesInRange(r.replacementTokens, |found.value|)
  }

  lemma {:induction false} SearchCounts(s: string, tokens: seq<Token>)
    ensures Search(s, 0, tokens).Some? ==> |Search(s, 0, tokens).value| == CaptureCount(tokens)
  {
    SearchSoundAndComplete(s, tokens);
  }

  /** One entry: the next model name, and whether the entry took effect. */
  function Step(current: string, r: Rule): (string, bool)
    requires InRange(current, r)
  {
    if r.caseOperation != CaseNone then (CaseModel(current, r.caseOperation), true)
    else
      var found := Search(current, 0, r.patternTokens);
      if found.None? || Substitute(r.replacementTokens, found.value) == "" then (current, false)
      else (Substitute(r.replacementTokens, found.value), true)
  }

  /** Every entry stays in range on the name that reaches it. */
  predicate StaysInRange(model: string, rules: seq<Rule>)
    decreases |rules|
  {
    rules == [] || (InRange(model, rules[0]) && StaysInRange(Step(model, rules[0]).0, rules[1..]))
  }

  /** The entries from left to right, each seeing the name left by the ones before it. */
  function Apply(model: string, rules: seq<Rule>): (string, bool)
    requires StaysInRange(model, rules)
    decreases |rules|
  {
    if rules == [] then (model, false)
    else
      var (next, fired) := Step(model, rules[0]);
      var (last, more) := Apply(next, rules[1..]);
      (last, fired || more)
  }

  /** One turn of the loop over the entries; None stands for the index panic. */
  method ApplyRule(current: string, r: Rule) returns (result: Option<(string, bool)>)
    ensures result == if InRange(current, r) then Some(Step(current, r)) else None
  {
    if r.caseOperation != CaseNone {
      var converted := ApplyAsciiModelCase(current, r.caseOperation);
      return Some((converted, true));
    }
    var captures, _ := MatchTokens(current, r.patternTokens);
    if captures.None? {
      return Some((current, false));
    }
    var next := BuildReplacement(r.replacementTokens, captures.value);
    if next.None? {
      return None;
    }
    result := if next.value == "" then Some((current, false)) else Some((next.value, true));
  }

  method ApplyRules(model: string, rules: seq<Rule>) returns (result: Option<(string, bool)>)
    ensures result == if StaysInRange(model, rules) then Some(Apply(model, rules)) else None
  {
    var current, matchedAny := model, false;
    assert rules[0..] == rules;
    for i := 0 to |rules|
      invariant StaysInRange(model, rules) <==> StaysInRange(current, rules[i..])
      invariant StaysInRange(model, rules) ==>
                  var (last, fired) := Apply(current, rules[i..]); Apply(model, rules) == (last, matchedAny || fired)
    {
      assert rules[i..][1..] == rules[i + 1..];
      var next := ApplyRule(current, rules[i]);
      if next.None? {
        return None;
      }
      current, matchedAny := next.value.0, matchedAny || next.value.1;
    }
    result := Some((current, matchedAny));
  }

  // ----------------------------------------------------------------- promises

  /** A mapping takes effect exactly when its pattern explains the name and the replacement is not empty. */
  lemma MappingFires(current: string, r: Rule)
    requires InRange(current, r) && r.caseOperation == CaseNone
    ensures Step(current, r).1 <==>
            exists c :: IsEarliest(current, r.patternTokens, c) && ReferencesInRange(r.replacementTokens, |c|) &&
                        Substitute(r.replacementTokens, c) != "" && Step(current, r).0 ==
                            Substitute(r.replacementTokens, c)
    ensures (forall c :: !Explains(r.patternTokens, c, current)) ==> Step(current, r) == (current, false)
  {
    SearchSoundAndComplete(current, r.patternTokens);
    var found := Search(current, 0, r.patternTokens);
    if found.Some? {
      SearchPriority(current, r.patternTokens, found.value);
    }
    forall c | IsEarliest(current, r.patternTokens, c) ensures found == Some(c) {
      SearchPriority(current, r.patternTokens, c);
    }
  }

  /** A model name that is not empty never becomes empty, whatever the rules. */
  lemma {:induction false} NeverEmpty(model: string, rules: seq<Rule>)
    requires model != "" && StaysInRange(model, rules)
    ensures Apply(model, rules).0 != ""
    decreases |rules|
  {
    if rules != [] {
      NeverEmpty(Step(model, rules[0]).0, rules[1..]);
    }
  }

  /** When no entry takes effect the name is unchanged. */
  lemma {:induction false} UnmatchedIsUnchanged(model: string, rules: seq<Rule>)
    requires StaysInRange(model, rules)
    ensures !Apply(model, rules).1 ==> Apply(model, rules).0 == model
    decreases |rules|
  {
    if rules != [] {
      UnmatchedIsUnchanged(Step(model, rules[0]).0, rules[1..]);
    }
  }

  /** Running two rule lists one after the other is running their concatenation. */
  lemma {:induction false} ApplyConcat(model: string, a: seq<Rule>, b: seq<Rule>)
    ensures StaysInRange(model, a + b) <==> StaysInRange(model, a) && StaysInRange(Apply(model, a).0, b)
    ensures StaysInRange(model, a + b) ==>
              var (middle, fired) := Apply(model, a); var (last, more) := Apply(middle, b);
              Apply(model, a + b) == (last, fired || more)
    decreases |a|
  {
    if a == [] {
      assert a + b == b;
    } else {
      assert (a + b)[0] == a[0] && (a + b)[1..] == a[1..] + b;
      if InRange(model, a[0]) {
        ApplyConcat(Step(model, a[0]).0, a[1..], b);
      }
    }
  }

  // ------------------------------------------------------------- index panics

  lemma {:induction false} ApplicableStaysInRange(model: string, rules: seq<Rule>)
    requires forall r :: r in rules ==> Applicable(r)
    ensures StaysInRange(model, rules)
    decreases |rules|
  {
    if rules != [] {
      assert Applicable(rules[0]);
      SearchCounts(model, rules[0].patternTokens);
      ApplicableStaysInRange(Step(model, rules[0]).0, rules[1..]);
    }
  }

  function Blanks(n: nat): seq<string> { if n == 0 then [] else [""] + Blanks(n - 1) }

  lemma {:induction false} BlanksCount(n: nat)
    ensures |Blanks(n)| == n
  {
    if n > 0 {
      BlanksCount(n - 1);
    }
  }

  /** The name that is all of the pattern's literals and nothing else. */
  function BareName(tokens: seq<Token>): string {
    BlanksCount(CaptureCount(tokens));
    Fill(tokens, Blanks(CaptureCount(tokens)))
  }

  /** A rule stays in range on every name exactly when all its references name a capture; otherwise it panics on
      the name made of its literals. */
  lemma RuleStaysInRange(r: Rule)
    ensures (forall model :: InRange(model, r)) <==> Applicable(r)
    ensures !Applicable(r) ==> !InRange(BareName(r.patternTokens), r)
  {
    var name := BareName(r.patternTokens);
    BlanksCount(CaptureCount(r.patternTokens));
    assert Explains(r.patternTokens, Blanks(CaptureCount(r.patternTokens)), name);
    SearchSoundAndComplete(name, r.patternTokens);
    SearchCounts(name, r.patternTokens);
    if Applicable(r) {
      forall model ensures InRange(model, r) {
        SearchCounts(model, r.patternTokens);
      }
    } else {
      assert !InRange(name, r);
    }
  }

  lemma {:induction false} ShapeInRange(tokens: seq<Token>, captures: nat)
    requires ReplaceShape(tokens, captures)
    ensures ReferencesInRange(tokens, captures) <==> PositiveReferences(tokens)
  {
    if tokens != [] {
      ShapeInRange(tokens[1..], captures);
      assert forall i :: 1 <= i < |tokens| ==> tokens[i] == tokens[1..][i - 1];
      assert ReferencesInRange(tokens, captures) ==> ReferencesInRange(tokens[1..], captures);
    }
  }

  lemma PartApplies(part: string)
    requires RuleOf(part).Ok? && Clean(part)
    ensures Applicable(RuleOf(part).value) <==> SafePart(part)
  {
    if part == "\\a" || part == "\\A" {
      assert forall k :: !SeparatorAt(part, k);
    } else {
      var sep := OnlySeparator(part).value;
      var find, replace := part[..sep], part[sep + 2..];
      CleanSlice(part, 0, sep);
      CleanSlice(part, sep + 2, |part|);
      FoundShape(find, "", 0);
      var captures := FindTokens(find, "", 0).value.1;
      ReplacedShape(replace, "", captures);
      ShapeInRange(ReplaceTokens(replace, "", captures).value, captures);
    }
  }

  lemma {:induction false} PartsApply(parts: seq<string>)
    requires RulesOf(parts).Ok? && forall p :: p in parts ==> Clean(p)
    ensures (forall r :: r in RulesOf(parts).value ==> Applicable(r)) <==> (forall p :: p in parts ==> SafePart(p))
  {
    if parts != [] {
      var first, rest := RuleOf(parts[0]).value, RulesOf(parts[1..]).value;
      PartApplies(parts[0]);
      PartsApply(parts[1..]);
      assert RulesOf(parts).value == [first] + rest;
      assert parts == [parts[0]] + parts[1..];
      assert (forall r :: r in [first] + rest ==> Applicable(r)) <==>
             (Applicable(first) && forall r :: r in rest ==> Applicable(r));
      assert (forall p :: p in [parts[0]] + parts[1..] ==> SafePart(p)) <==>
             (SafePart(parts[0]) && forall p :: p in parts[1..] ==> SafePart(p));
    }
  }

  lemma SafeIsApplicable(raw: string)
    requires Parse(raw).Ok?
    ensures (forall r :: r in Parse(raw).value ==> Applicable(r)) <==> SafeReferences(raw)
  {
    NoErrorMeansClean(raw);
    CleanSegments(raw, 0);
    PartsApply(Segments(raw));
  }

  /** Accepted text in which no reference wraps runs on every name without an index out of range. */
  lemma AcceptedRulesApply(raw: string, model: string)
    requires Parse(raw).Ok? && SafeReferences(raw)
    ensures StaysInRange(model, Parse(raw).value)
  {
    SafeIsApplicable(raw);
    ApplicableStaysInRange(model, Parse(raw).value);
  }

  /** Accepted text of a single entry runs on every name exactly when no reference wraps. */
  lemma AcceptedRuleApplies(raw: string)
    requires Parse(raw).Ok? && |Parse(raw).value| == 1
    ensures (forall model :: StaysInRange(model, Parse(raw).value)) <==> SafeReferences(raw)
  {
    SafeIsApplicable(raw);
    var r := Parse(raw).value[0];
    assert Parse(raw).value == [r] && [r][1..] == [];
    RuleStaysInRange(r);
    if SafeReferences(raw) {
      forall model ensures StaysInRange(model, Parse(raw).value) {
        AcceptedRulesApply(raw, model);
      }
    } else {
      assert Applicable(r) <==> forall q :: q in [r] ==> Applicable(q);
      assert !StaysInRange(BareName(r.patternTokens), Parse(raw).value);
    }
  }

  /** The first entry meets every name, so an unsafe one panics on some name. */
  lemma FirstEntryMeetsEveryName(rules: seq<Rule>)
    requires rules != [] && !Applicable(rules[0])
    ensures !StaysInRange(BareName(rules[0].patternTokens), rules)
  {
    RuleStaysInRange(rules[0]);
  }

  // ------------------------------------- an unsafe entry that no name reaches

  const X_CAPTURE: seq<Token> := [Token("x", 0), Token("", 1)]

  /** `\A;x*=>$n`: no name that has been upper-cased starts with `x`. */
  function UnreachedText(n: nat): string { "\\A" + ";" + WrappedText(X_CAPTURE, n) }

  lemma UnreachedParses(n: nat)
    requires Wrap64(n) < 0
    ensures Parse(UnreachedText(n)) == Ok([Rule([], [], 0, CaseUpper), WrappedRule(X_CAPTURE, n)])
  {
    var upper, part := "\\A", WrappedText(X_CAPTURE, n);
    XCaptureIsFindSide();
    WrappedTextIsClosed(X_CAPTURE, n);
    WrappedTextParses(X_CAPTURE, n);
    UpperText();
    JoinOfTwo(upper, part);
    SegmentsOfJoin([upper, part]);
    CleanConcat(upper, ";");
    CleanConcat(upper + ";", part);
    NoErrorMeansClean(UnreachedText(n));
    RulesOfTwo(upper, part);
  }

  lemma UpperText()
    ensures var upper := "\\A";
            Closed(upper) && NoCut(upper) && Clean(upper) && RuleOf(upper) == Ok(Rule([], [], 0, CaseUpper))
  {
    var upper := "\\A";
    assert upper[0] == '\\' && EscapedAt(upper, 1);
  }

  lemma JoinOfTwo(a: string, b: string)
    ensures Join([a, b], ";") == a + ";" + b
  {
    assert [a, b][1..] == [b];
  }

  lemma RulesOfTwo(a: string, b: string)
    requires RuleOf(a).Ok? && RuleOf(b).Ok?
    ensures RulesOf([a, b]) == Ok([RuleOf(a).value, RuleOf(b).value])
  {
    OneRule(b);
    assert [a, b][1..] == [b] && [RuleOf(a).value] + [RuleOf(b).value] == [RuleOf(a).value, RuleOf(b).value];
  }

  lemma XCaptureIsFindSide()
    ensures IsFindSide(X_CAPTURE) && CaptureCount(X_CAPTURE) == 1
  {
    assert X_CAPTURE[1..] == [Token("", 1)] && X_CAPTURE[1..][1..] == [];
    assert Clean("x") && Clean("");
  }

  lemma NoUpperCaseX(model: string)
    ensures Search(CaseModel(model, CaseUpper), 0, X_CAPTURE).None?
  {
    var upper := CaseModel(model, CaseUpper);
    if upper != "" {
      assert upper[0] == CaseOf(model[0], CaseUpper) && upper[0] != 'x';
      assert upper[0..1][0] == upper[0];
    }
  }

  /** So a wrapped reference behind other entries can be harmless: this text has one and stays in range on every
      name. */
  lemma UnreachedReferenceIsHarmless(n: nat, model: string)
    requires Wrap64(n) < 0
    ensures Parse(UnreachedText(n)).Ok? && !SafeReferences(UnreachedText(n))
    ensures StaysInRange(model, Parse(UnreachedText(n)).value)
  {
    UnreachedParses(n);
    SafeIsApplicable(UnreachedText(n));
    var upper, r := Rule([], [], 0, CaseUpper), WrappedRule(X_CAPTURE, n);
    var rules := [upper, r];
    assert r in rules && !Applicable(r) by {
      XCaptureIsFindSide();
      assert r.replacementTokens[0].literal == "";
    }
    NoUpperCaseX(model);
    var next := CaseModel(model, CaseUpper);
    assert rules[1..] == [r] && [r][1..] == [];
    assert InRange(next, r) && StaysInRange(next, [r]);
  }
}
