/** What a replacement inserts, the rules that change nothing, and the ASCII case change by alphabet. */
module RuleReplacement {
  import opened Common
  import opened RuleMatcher
  import opened RuleSyntax
  import opened RulePrinting
  import opened RuleApply

  /** The replacement is its pieces in order: a literal stands for itself, the reference `$k` for the k-th capture. */
  lemma {:induction false} InsertedPieces(tokens: seq<Token>, c: seq<string>, pieces: seq<string>)
    requires ReferencesInRange(tokens, |c|) && |pieces| == |tokens|
    requires forall i :: 0 <= i < |tokens| && tokens[i].literal != "" ==> pieces[i] == tokens[i].literal
    requires forall i :: 0 <= i < |tokens| && tokens[i].literal == "" ==> pieces[i] == c[tokens[i].capture - 1]
    ensures Substitute(tokens, c) == Concat(pieces)
  {
    if tokens != [] {
      RestInRange(tokens, |c|);
      InsertedPieces(tokens[1..], c, pieces[1..]);
    }
  }

  /** A replacement that is one reference inserts just the capture it numbers, counted from one on the left. */
  lemma ReferenceInserts(k: int, c: seq<string>)
    requires 1 <= k <= |c|
    ensures Substitute([Token("", k)], c) == c[k - 1]
  {
    InsertedPieces([Token("", k)], c, [c[k - 1]]);
    assert [c[k - 1]][1..] == [];
    assert c[k - 1] + "" == c[k - 1];
  }

  /** So a mapping to `$k` turns a name into the k-th text of its earliest split, unless that text is empty. */
  lemma ReferenceMapping(r: Rule, k: int, model: string, c: seq<string>)
    requires r.caseOperation == CaseNone && r.replacementTokens == [Token("", k)] && 1 <= k <= |c|
    requires IsEarliest(model, r.patternTokens, c)
    ensures InRange(model, r)
    ensures Step(model, r) == if c[k - 1] == "" then (model, false) else (c[k - 1], true)
  {
    EarliestIsFound(model, r.patternTokens, c);
    ReferenceInserts(k, c);
  }

  /** Two replacements written one after the other insert what each inserts. */
  lemma {:induction false} SubstituteConcat(a: seq<Token>, b: seq<Token>, c: seq<string>)
    requires ReferencesInRange(a, |c|) && ReferencesInRange(b, |c|)
    ensures ReferencesInRange(a + b, |c|) && Substitute(a + b, c) == Substitute(a, c) + Substitute(b, c)
  {
    if a == [] {
      assert a + b == b && "" + Substitute(b, c) == Substitute(b, c);
    } else {
      RestInRange(a, |c|);
      SubstituteConcat(a[1..], b, c);
      PrependSubstitute(a[0], a[1..] + b, c);
      PrependSubstitute(a[0], a[1..], c);
      assert [a[0]] + a[1..] == a && [a[0]] + (a[1..] + b) == a + b;
      Associative(Inserted(a[0], c), Substitute(a[1..], c), Substitute(b, c));
    }
  }

  function Inserted(t: Token, c: seq<string>): string
    requires ReferencesInRange([t], |c|)
  {
    assert [t][0] == t;
    if t.literal != "" then t.literal else c[t.capture - 1]
  }

  lemma PrependSubstitute(t: Token, rest: seq<Token>, c: seq<string>)
    requires ReferencesInRange(rest, |c|) && (t.literal == "" ==> 1 <= t.capture <= |c|)
    ensures ReferencesInRange([t], |c|) && ReferencesInRange([t] + rest, |c|)
    ensures Substitute([t] + rest, c) == Inserted(t, c) + Substitute(rest, c)
  {
    assert ([t] + rest)[1..] == rest;
    RestInRange([t] + rest, |c|);
  }

  // -------------------------------------------------- rules that change nothing

  /** Captures numbered in order put a pattern's captures back where they were taken from. */
  lemma {:induction false} NumberedPatternRefills(tokens: seq<Token>, c: seq<string>, n: nat)
    requires FindShape(tokens, n) && n <= |c| && |c| - n == CaptureCount(tokens)
    ensures ReferencesInRange(tokens, |c|)
    ensures Substitute(tokens, c) == Fill(tokens, c[n..])
  {
    if tokens != [] {
      var k := if tokens[0].literal == "" then n + 1 else n;
      NumberedPatternRefills(tokens[1..], c, k);
      RestInRange(tokens, |c|);
      assert tokens[0].literal == "" ==> c[n..][0] == c[n] && c[n..][1..] == c[n + 1..];
    }
  }

  /** A mapping whose right side is its left side with `$1`, `$2`, ... for the wildcards never panics and leaves
      every name as it is; it takes effect exactly on the names that are not empty and that the pattern explains. */
  lemma SelfMappingChangesNothing(r: Rule, model: string)
    requires r.caseOperation == CaseNone && FindShape(r.patternTokens, 0) && r.replacementTokens == r.patternTokens
    ensures StaysInRange(model, [r]) && Apply(model, [r]).0 == model
    ensures Apply(model, [r]).1 <==> model != "" && exists c :: Explains(r.patternTokens, c, model)
  {
    SearchSoundAndComplete(model, r.patternTokens);
    var found := Search(model, 0, r.patternTokens);
    if found.Some? {
      NumberedPatternRefills(r.patternTokens, found.value, 0);
      assert found.value[0..] == found.value;
    }
    assert [r][1..] == [];
  }

  /** The same for the text of such a rule. */
  lemma SelfMappingText(r: Rule, model: string)
    requires CanonicalRules([r]) && r.caseOperation == CaseNone && r.replacementTokens == r.patternTokens
    ensures var parsed := Parse(Print([r]));
            parsed.Ok? && StaysInRange(model, parsed.value) && Apply(model, parsed.value).0 == model
  {
    assert CanonicalRule(r);
    ParsePrint([r]);
    SelfMappingChangesNothing(r, model);
  }

  // ------------------------------------------------------------------ ASCII case

  const SMALL := "abcdefghijklmnopqrstuvwxyz"
  const CAPITAL := "ABCDEFGHIJKLMNOPQRSTUVWXYZ"

  /** The k-th letter of one alphabet becomes the k-th of the other; any other character stays. */
  predicate Recast(c: char, d: char, from: string, into: string)
    requires |from| == |into|
  {
    (forall k :: 0 <= k < |from| && c == from[k] ==> d == into[k]) && (c !in from ==> d == c)
  }

  /** A case entry always takes effect, and changes the letters of one alphabet and nothing else. */
  lemma CaseEntry(r: Rule, model: string)
    requires r.caseOperation != CaseNone
    ensures StaysInRange(model, [r]) && Apply(model, [r]).1
    ensures var next := Apply(model, [r]).0;
            |next| == |model| && forall i :: 0 <= i < |model| ==>
              if r.caseOperation == CaseLower then Recast(model[i], next[i], CAPITAL, SMALL)
              else Recast(model[i], next[i], SMALL, CAPITAL)
  {
    assert [r][1..] == [];
    forall i | 0 <= i < |model|
      ensures Recast(model[i], CaseModel(model, CaseLower)[i], CAPITAL, SMALL)
      ensures Recast(model[i], CaseModel(model, CaseUpper)[i], SMALL, CAPITAL)
    {
      LowerByAlphabet(model[i]);
      UpperByAlphabet(model[i]);
    }
  }

  lemma LowerByAlphabet(c: char)
    ensures Recast(c, CaseOf(c, CaseLower), CAPITAL, SMALL)
  {
    LettersAreRanges(c);
    forall k: nat | k < 26 && c == CAPITAL[k] ensures CaseOf(c, CaseLower) == SMALL[k] {
      LetterCodes(k);
    }
  }

  lemma UpperByAlphabet(c: char)
    ensures Recast(c, CaseOf(c, CaseUpper), SMALL, CAPITAL)
  {
    LettersAreRanges(c);
    forall k: nat | k < 26 && c == SMALL[k] ensures CaseOf(c, CaseUpper) == CAPITAL[k] {
      LetterCodes(k);
    }
  }

  lemma LetterCodes(k: nat)
    requires k < 26
    ensures SMALL[k] as int == 97 + k && CAPITAL[k] as int == 65 + k
  {}

  lemma LettersAreRanges(c: char)
    ensures c in SMALL <==> 'a' <= c <= 'z'
    ensures c in CAPITAL <==> 'A' <= c <= 'Z'
  {
    if 'a' <= c <= 'z' {
      LetterCodes(c as int - 97);
      assert SMALL[c as int - 97] == c;
    }
    if 'A' <= c <= 'Z' {
      LetterCodes(c as int - 65);
      assert CAPITAL[c as int - 65] == c;
    }
    if c in SMALL {
      var k :| 0 <= k < 26 && SMALL[k] == c;
      LetterCodes(k);
    }
    if c in CAPITAL {
      var k :| 0 <= k < 26 && CAPITAL[k] == c;
      LetterCodes(k);
    }
  }
}
