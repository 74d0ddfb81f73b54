/** Writing rules in the DSL's own escapes, and why parsing undoes it. */
module RulePrinting {
  import opened Common
  import opened RuleMatcher
  import opened RuleSyntax

  // -------------------------------------------------------- escapes in parts

  /** The text does not end in an open escape. */
  predicate Closed(t: string) { !EscapedAt(t, |t|) }

  ghost predicate NoCut(t: string) { forall i :: !CutAt(t, i) }

  ghost predicate NoSeparator(t: string) { forall i :: !SeparatorAt(t, i) }

  /** Reading on after a closed text is like reading from the start. */
  lemma {:induction false} EscapedAfter(a: string, b: string, j: nat)
    requires j <= |b| && Closed(a)
    ensures EscapedAt(a + b, |a| + j) == EscapedAt(b, j)
    decreases j
  {
    if j == 0 {
      EscapedBefore(a, b, |a|);
    } else {
      EscapedAfter(a, b, j - 1);
    }
  }

  lemma {:induction false} EscapedBefore(a: string, b: string, j: nat)
    requires j <= |a|
    ensures EscapedAt(a + b, j) == EscapedAt(a, j)
    decreases j
  {
    if j > 0 {
      EscapedBefore(a, b, j - 1);
    }
  }

  /** The unescaped `;` of a concatenation are those of its two halves. */
  lemma CutsOfConcat(a: string, b: string, i: int)
    requires Closed(a)
    ensures CutAt(a + b, i) <==> if i < |a| then CutAt(a, i) else CutAt(b, i - |a|)
  {
    if 0 <= i < |a| {
      EscapedBefore(a, b, i);
    } else if |a| <= i < |a| + |b| {
      EscapedAfter(a, b, i - |a|);
    }
  }

  /** The only separator of a concatenation that is in neither half sits across the seam. */
  lemma SeparatorsOfConcat(a: string, b: string, i: int)
    requires Closed(a)
    ensures SeparatorAt(a + b, i) <==>
            if i + 1 < |a| then SeparatorAt(a, i)
            else if i + 1 == |a| then a != "" && a[i] == '=' && !EscapedAt(a, i) && b != "" && b[0] == '>'
            else SeparatorAt(b, i - |a|)
  {
    if 0 <= i < |a| {
      EscapedBefore(a, b, i);
    } else if |a| <= i < |a| + |b| {
      EscapedAfter(a, b, i - |a|);
    }
  }

  /** Closed, without unescaped `;` and without unescaped `=>`. */
  ghost predicate Plain(t: string) { Closed(t) && NoCut(t) && NoSeparator(t) }

  lemma PlainConcat(a: string, b: string)
    requires Plain(a) && Plain(b)
    requires a != "" && b != "" ==> a[|a| - 1] != '=' || b[0] != '>'
    ensures Plain(a + b)
  {
    EscapedAfter(a, b, |b|);
    forall i ensures !CutAt(a + b, i) && !SeparatorAt(a + b, i) {
      CutsOfConcat(a, b, i);
      SeparatorsOfConcat(a, b, i);
      assert !CutAt(a, i) && !CutAt(b, i - |a|) && !SeparatorAt(a, i) && !SeparatorAt(b, i - |a|);
    }
  }

  // --------------------------------------------------------------- printing

  /** How many characters of `t` the first printed unit stands for. */
  function Taken(t: string): (k: nat)
    requires t != ""
    ensures 1 <= k <= |t|
  {
    if |t| >= 2 && t[0] == '=' && t[1] == '>' then 2 else 1
  }

  /** The first printed unit: an escaped `=>`, an escaped special character or a character as it is. */
  function Unit(t: string): (u: string)
    requires t != ""
    ensures u != ""
  {
    if Taken(t) == 2 then "\\=>" else if t[0] in "*;$\\" then ['\\', t[0]] else [t[0]]
  }

  function PrintLiteral(t: string): string
    decreases |t|
  {
    if t == "" then "" else Unit(t) + PrintLiteral(t[Taken(t)..])
  }

  function DigitChar(d: int): (c: char)
    requires 0 <= d <= 9
    ensures IsDigit(c) && DigitValue(c) == d && (d != 0 ==> '1' <= c <= '9')
  {
    ('0' as int + d) as char
  }

  function DecimalText(n: nat): string {
    if n < 10 then [DigitChar(n)] else DecimalText(n / 10) + [DigitChar(n % 10)]
  }

  function PrintFind(tokens: seq<Token>): string {
    if tokens == [] then ""
    else (if tokens[0].literal != "" then PrintLiteral(tokens[0].literal) else "*") + PrintFind(tokens[1..])
  }

  function PrintReference(n: int): string {
    "$" + if n > 0 then DecimalText(n) else ""
  }

  function PrintReplace(tokens: seq<Token>): string {
    if tokens == [] then ""
    else
      (if tokens[0].literal != "" then PrintLiteral(tokens[0].literal) else PrintReference(tokens[0].capture)) +
      PrintReplace(tokens[1..])
  }

  function PrintRule(r: Rule): string {
    match r.caseOperation
    case CaseLower => "\\a"
    case CaseUpper => "\\A"
    case CaseNone => PrintFind(r.patternTokens) + "=>" + PrintReplace(r.replacementTokens)
  }

  function PrintEach(rules: seq<Rule>): seq<string> {
    if rules == [] then [] else [PrintRule(rules[0])] + PrintEach(rules[1..])
  }

  function Print(rules: seq<Rule>): string {
    Join(PrintEach(rules), ";")
  }

  // -------------------------------------------------------- canonical rules

  predicate CleanTokens(tokens: seq<Token>) {
    tokens == [] || (Clean(tokens[0].literal) && CleanTokens(tokens[1..]))
  }

  /** The captures are numbered in order after `n` and no two literals touch. */
  predicate FindShape(tokens: seq<Token>, n: nat) {
    tokens == [] ||
    if tokens[0].literal != "" then
      tokens[0].capture == 0 && (|tokens| > 1 ==> tokens[1].literal == "") && FindShape(tokens[1..], n)
    else
      tokens[0].capture == n + 1 && FindShape(tokens[1..], n + 1)
  }

  /** No two literals touch, no literal that follows a reference starts with a digit, references stay in range. */
  predicate ReplaceShape(tokens: seq<Token>, captures: nat) {
    tokens == [] ||
    if tokens[0].literal != "" then
      tokens[0].capture == 0 && (|tokens| > 1 ==> tokens[1].literal == "") && ReplaceShape(tokens[1..], captures)
    else
      tokens[0].capture != 0 && tokens[0].capture <= captures &&
      !StartsWithDigit(tokens[1..]) && ReplaceShape(tokens[1..], captures)
  }

  predicate StartsWithDigit(tokens: seq<Token>) {
    tokens != [] && tokens[0].literal != "" && IsDigit(tokens[0].literal[0])
  }

  predicate PositiveReferences(tokens: seq<Token>) {
    tokens == [] || ((tokens[0].literal == "" ==> tokens[0].capture > 0) && PositiveReferences(tokens[1..]))
  }

  predicate CanonicalRule(r: Rule) {
    if r.caseOperation != CaseNone then
      r.patternTokens == [] && r.replacementTokens == [] && r.captureCount == 0
    else
      && r.patternTokens != [] && FindShape(r.patternTokens, 0) && CleanTokens(r.patternTokens)
      && r.captureCount == CaptureCount(r.patternTokens) < INT64_HALF
      && r.replacementTokens != [] && ReplaceShape(r.replacementTokens, r.captureCount)
      && CleanTokens(r.replacementTokens) && PositiveReferences(r.replacementTokens)
  }

  predicate CanonicalRules(rules: seq<Rule>) {
    rules != [] && forall r :: r in rules ==> CanonicalRule(r)
  }

  // ------------------------------------------- printed literals parse back

  lemma {:induction false} PrintedLiteral(t: string)
    requires Clean(t)
    ensures Plain(PrintLiteral(t)) && Clean(PrintLiteral(t))
    ensures t != "" ==> PrintLiteral(t) != "" && (PrintLiteral(t)[0] == '\\' || PrintLiteral(t)[0] == t[0])
    decreases |t|
  {
    if t != "" {
      var unit, rest := Unit(t), t[Taken(t)..];
      PrintedLiteral(rest);
      assert Plain(unit) && Clean(unit) by {
        assert EscapedAt(unit, 1) <==> unit[0] == '\\';
      }
      PlainConcat(unit, PrintLiteral(rest));
      CleanConcat(unit, PrintLiteral(rest));
    }
  }

  lemma FindUnit(t: string, rest: string, lit: string, n: nat)
    requires t != ""
    ensures FindTokens(Unit(t) + rest, lit, n) == FindTokens(rest, lit + t[..Taken(t)], n)
  {
    var s := Unit(t) + rest;
    assert s[|Unit(t)|..] == rest;
    assert t[..1] == [t[0]] && (Taken(t) == 2 ==> t[..2] == "=>");
  }

  lemma ReplaceUnit(t: string, rest: string, lit: string, captures: nat)
    requires t != ""
    ensures ReplaceTokens(Unit(t) + rest, lit, captures) == ReplaceTokens(rest, lit + t[..Taken(t)], captures)
  {
    var s := Unit(t) + rest;
    assert s[|Unit(t)|..] == rest;
    assert t[..1] == [t[0]] && (Taken(t) == 2 ==> t[..2] == "=>");
  }

  lemma {:induction false} FindLiteral(t: string, rest: string, lit: string, n: nat)
    ensures FindTokens(PrintLiteral(t) + rest, lit, n) == FindTokens(rest, lit + t, n)
    decreases |t|
  {
    if t == "" {
      assert PrintLiteral(t) + rest == rest && lit + t == lit;
    } else {
      var k, more := Taken(t), PrintLiteral(t[Taken(t)..]) + rest;
      assert PrintLiteral(t) + rest == Unit(t) + more;
      FindUnit(t, more, lit, n);
      FindLiteral(t[k..], rest, lit + t[..k], n);
      assert lit + t[..k] + t[k..] == lit + t;
    }
  }

  lemma {:induction false} ReplaceLiteral(t: string, rest: string, lit: string, captures: nat)
    ensures ReplaceTokens(PrintLiteral(t) + rest, lit, captures) == ReplaceTokens(rest, lit + t, captures)
    decreases |t|
  {
    if t == "" {
      assert PrintLiteral(t) + rest == rest && lit + t == lit;
    } else {
      var k, more := Taken(t), PrintLiteral(t[Taken(t)..]) + rest;
      assert PrintLiteral(t) + rest == Unit(t) + more;
      ReplaceUnit(t, more, lit, captures);
      ReplaceLiteral(t[k..], rest, lit + t[..k], captures);
      assert lit + t[..k] + t[k..] == lit + t;
    }
  }

  // ------------------------------------------------------ printed find side

  lemma {:induction false} PrintedFind(tokens: seq<Token>, n: nat)
    requires FindShape(tokens, n) && CleanTokens(tokens)
    ensures Plain(PrintFind(tokens)) && Clean(PrintFind(tokens))
    ensures tokens != [] ==> PrintFind(tokens) != "" && (tokens[0].literal == "" ==> PrintFind(tokens)[0] == '*')
  {
    if tokens != [] {
      var t := tokens[0].literal;
      var head := if t != "" then PrintLiteral(t) else "*";
      var k := if t != "" then n else n + 1;
      assert FindShape(tokens[1..], k);
      PrintedFind(tokens[1..], k);
      if t != "" {
        PrintedLiteral(t);
      }
      assert Plain(head) && Clean(head);
      assert head[|head| - 1] != '=' || PrintFind(tokens[1..]) == "" || PrintFind(tokens[1..])[0] == '*';
      PlainConcat(head, PrintFind(tokens[1..]));
      CleanConcat(head, PrintFind(tokens[1..]));
    }
  }

  lemma FindPrintedLiteral(tokens: seq<Token>, n: nat)
    requires tokens != [] && tokens[0].literal != "" && tokens[0].capture == 0
    requires FindTokens(PrintFind(tokens[1..]), tokens[0].literal, n) ==
             Ok((Flush(tokens[0].literal) + tokens[1..], n + CaptureCount(tokens[1..])))
    ensures FindTokens(PrintFind(tokens), "", n) == Ok((Flush("") + tokens, n + CaptureCount(tokens)))
  {
    var t := tokens[0].literal;
    assert "" + t == t;
    assert Flush("") + tokens == Flush(t) + tokens[1..];
    FindLiteral(t, PrintFind(tokens[1..]), "", n);
  }

  lemma FindPrintedCapture(tokens: seq<Token>, lit: string, n: nat)
    requires tokens != [] && tokens[0] == Token("", n + 1)
    requires FindTokens(PrintFind(tokens[1..]), "", n + 1) ==
             Ok((Flush("") + tokens[1..], n + 1 + CaptureCount(tokens[1..])))
    ensures FindTokens(PrintFind(tokens), lit, n) == Ok((Flush(lit) + tokens, n + CaptureCount(tokens)))
  {
    var more := PrintFind(tokens[1..]);
    assert Flush(lit) + [tokens[0]] + (Flush("") + tokens[1..]) == Flush(lit) + tokens;
    assert ("*" + more)[1..] == more;
    assert PrintFind(tokens) == "*" + more;
  }

  lemma {:induction false} FindPrinted(tokens: seq<Token>, lit: string, n: nat)
    requires FindShape(tokens, n)
    requires lit != "" && tokens != [] ==> tokens[0].literal == ""
    ensures FindTokens(PrintFind(tokens), lit, n) == Ok((Flush(lit) + tokens, n + CaptureCount(tokens)))
  {
    if tokens == [] {
      assert Flush(lit) + tokens == Flush(lit);
    } else if tokens[0].literal != "" {
      FindPrinted(tokens[1..], tokens[0].literal, n);
      FindPrintedLiteral(tokens, n);
    } else {
      FindPrinted(tokens[1..], "", n + 1);
      FindPrintedCapture(tokens, lit, n);
    }
  }

  // --------------------------------------------------- printed replace side

  lemma {:induction false} DecimalRoundTrip(n: nat)
    ensures Decimal(DecimalText(n)) == n
    ensures |DecimalText(n)| >= 1 && forall i :: 0 <= i < |DecimalText(n)| ==> IsDigit(DecimalText(n)[i])
    ensures n > 0 ==> '1' <= DecimalText(n)[0] <= '9'
  {
    if n >= 10 {
      DecimalRoundTrip(n / 10);
      var t := DecimalText(n);
      assert t[..|t| - 1] == DecimalText(n / 10);
    } else {
      var t := DecimalText(n);
      assert t[..|t| - 1] == "";
      assert Decimal("") == 0;
    }
  }

  lemma {:induction false} DigitRunOf(digits: string, rest: string)
    requires forall i :: 0 <= i < |digits| ==> IsDigit(digits[i])
    requires rest == "" || !IsDigit(rest[0])
    ensures DigitRun(digits + rest) == |digits|
  {
    if digits == "" {
      assert digits + rest == rest;
    } else {
      DigitRunOf(digits[1..], rest);
      assert (digits + rest)[1..] == digits[1..] + rest;
    }
  }

  /** A printed reference is plain text that ends in a digit. */
  lemma PrintedReference(n: int)
    requires n > 0
    ensures Plain(PrintReference(n)) && Clean(PrintReference(n))
    ensures PrintReference(n)[0] == '$' && PrintReference(n)[|PrintReference(n)| - 1] != '='
  {
    var digits, s := DecimalText(n), PrintReference(n);
    DecimalRoundTrip(n);
    assert forall i :: 1 <= i < |s| ==> s[i] == digits[i - 1];
    assert forall i :: 0 <= i < |s| ==> s[i] != '\\' && s[i] != ';' && s[i] != '=' && IsClean(s[i]);
  }

  lemma {:induction false} PrintedReplace(tokens: seq<Token>, captures: nat)
    requires ReplaceShape(tokens, captures) && CleanTokens(tokens) && PositiveReferences(tokens)
    ensures Plain(PrintReplace(tokens)) && Clean(PrintReplace(tokens))
    ensures tokens != [] ==> PrintReplace(tokens) != ""
    ensures tokens != [] && tokens[0].literal == "" ==> PrintReplace(tokens)[0] == '$'
    ensures tokens != [] && tokens[0].literal != "" ==>
              PrintReplace(tokens)[0] == '\\' || PrintReplace(tokens)[0] == tokens[0].literal[0]
  {
    if tokens != [] {
      var t := tokens[0].literal;
      PrintedReplace(tokens[1..], captures);
      var head;
      if t != "" {
        head := PrintLiteral(t);
        PrintedLiteral(t);
      } else {
        head := PrintReference(tokens[0].capture);
        PrintedReference(tokens[0].capture);
      }
      PlainConcat(head, PrintReplace(tokens[1..]));
      CleanConcat(head, PrintReplace(tokens[1..]));
    }
  }

  lemma ReplacePrintedLiteral(tokens: seq<Token>, captures: nat)
    requires tokens != [] && tokens[0].literal != "" && tokens[0].capture == 0
    requires ReplaceTokens(PrintReplace(tokens[1..]), tokens[0].literal, captures) ==
             Ok(Flush(tokens[0].literal) + tokens[1..])
    ensures ReplaceTokens(PrintReplace(tokens), "", captures) == Ok(Flush("") + tokens)
  {
    var t := tokens[0].literal;
    assert "" + t == t;
    assert Flush("") + tokens == Flush(t) + tokens[1..];
    ReplaceLiteral(t, PrintReplace(tokens[1..]), "", captures);
  }

  lemma ReplacePrintedReference(tokens: seq<Token>, lit: string, captures: nat)
    requires tokens != [] && tokens[0].literal == "" && 0 < tokens[0].capture <= captures < INT64_HALF
    requires !StartsWithDigit(tokens[1..])
    requires ReplaceTokens(PrintReplace(tokens[1..]), "", captures) == Ok(Flush("") + tokens[1..])
    ensures ReplaceTokens(PrintReplace(tokens), lit, captures) == Ok(Flush(lit) + tokens)
  {
    var n, rest := tokens[0].capture, PrintReplace(tokens[1..]);
    TokensAgain(tokens, lit);
    ReplaceStart(tokens[1..]);
    assert Wrap64(n) == n;
    ReplaceReference(n, rest, lit, captures);
  }

  lemma TokensAgain(tokens: seq<Token>, lit: string)
    requires tokens != [] && tokens[0].literal == ""
    ensures Flush(lit) + [Token("", tokens[0].capture)] + (Flush("") + tokens[1..]) == Flush(lit) + tokens
  {
    assert tokens == [Token("", tokens[0].capture)] + tokens[1..];
    assert Flush("") + tokens[1..] == tokens[1..];
    Associative(Flush(lit), [Token("", tokens[0].capture)], tokens[1..]);
  }

  /** A printed number reads back as its 64-bit value. */
  lemma ReplaceReference(n: nat, rest: string, lit: string, captures: nat)
    requires n > 0 && Wrap64(n) != 0 && Wrap64(n) <= captures && (rest == "" || !IsDigit(rest[0]))
    ensures ReplaceTokens(PrintReference(n) + rest, lit, captures) ==
            PutBefore(Flush(lit) + [Token("", Wrap64(n))], ReplaceTokens(rest, "", captures))
  {
    var digits := DecimalText(n);
    var s := PrintReference(n) + rest;
    DecimalRoundTrip(n);
    DigitRunOf(digits, rest);
    assert s[1..] == digits + rest;
    assert s[1..1 + |digits|] == digits;
    assert s[1 + |digits|..] == rest;
    assert s[1] == digits[0];
  }

  /** Printed tokens start with a digit only when a literal does. */
  lemma ReplaceStart(tokens: seq<Token>)
    requires !StartsWithDigit(tokens)
    ensures PrintReplace(tokens) == "" || !IsDigit(PrintReplace(tokens)[0])
  {
    if tokens != [] && tokens[0].literal != "" {
      assert PrintLiteral(tokens[0].literal)[0] == Unit(tokens[0].literal)[0];
    }
  }

  lemma {:induction false} ReplacePrinted(tokens: seq<Token>, lit: string, captures: nat)
    requires ReplaceShape(tokens, captures) && PositiveReferences(tokens) && captures < INT64_HALF
    requires lit != "" && tokens != [] ==> tokens[0].literal == ""
    ensures ReplaceTokens(PrintReplace(tokens), lit, captures) == Ok(Flush(lit) + tokens)
  {
    if tokens == [] {
      assert Flush(lit) + tokens == Flush(lit);
    } else if tokens[0].literal != "" {
      ReplacePrinted(tokens[1..], tokens[0].literal, captures);
      ReplacePrintedLiteral(tokens, captures);
    } else {
      ReplacePrinted(tokens[1..], "", captures);
      ReplacePrintedReference(tokens, lit, captures);
    }
  }

  // ----------------------------------------------------------- whole lists

  lemma PrintedRule(r: Rule)
    requires CanonicalRule(r)
    ensures RuleOf(PrintRule(r)) == Ok(r)
    ensures Closed(PrintRule(r)) && NoCut(PrintRule(r)) && Clean(PrintRule(r)) && PrintRule(r) != ""
  {
    if r.caseOperation == CaseNone {
      PrintedMapping(r);
      PrintedMappingText(r);
    } else {
      var s := PrintRule(r);
      assert s[0] == '\\' && EscapedAt(s, 1);
    }
  }

  /** A text with one separator between two sides that parse is a mapping rule. */
  lemma MappingOf(r: Rule, s: string, find: string, replace: string)
    requires r.caseOperation == CaseNone && find != "" && replace != ""
    requires OnlySeparator(s) == Some(|find|) && s != "\\a" && s != "\\A" && |find| + 2 <= |s|
    requires s[..|find|] == find && s[|find| + 2..] == replace
    requires Flush("") + r.patternTokens == r.patternTokens && Flush("") + r.replacementTokens == r.replacementTokens
    requires FindTokens(find, "", 0) == Ok((Flush("") + r.patternTokens, 0 + r.captureCount))
    requires ReplaceTokens(replace, "", r.captureCount) == Ok(Flush("") + r.replacementTokens)
    ensures RuleOf(s) == Ok(r)
  {}

  lemma SidesOf(find: string, replace: string)
    ensures (find + "=>" + replace)[..|find|] == find && (find + "=>" + replace)[|find| + 2..] == replace
  {}

  lemma PrintedMapping(r: Rule)
    requires CanonicalRule(r) && r.caseOperation == CaseNone
    ensures RuleOf(PrintRule(r)) == Ok(r)
  {
    var find, replace := PrintFind(r.patternTokens), PrintReplace(r.replacementTokens);
    PrintedFind(r.patternTokens, 0);
    PrintedReplace(r.replacementTokens, r.captureCount);
    PrintedSeparator(find, replace);
    SidesOf(find, replace);
    PrintedTokens(r);
    MappingOf(r, find + "=>" + replace, find, replace);
  }

  lemma PrintedTokens(r: Rule)
    requires CanonicalRule(r) && r.caseOperation == CaseNone
    ensures Flush("") + r.patternTokens == r.patternTokens && Flush("") + r.replacementTokens == r.replacementTokens
    ensures FindTokens(PrintFind(r.patternTokens), "", 0) == Ok((Flush("") + r.patternTokens, 0 + r.captureCount))
    ensures ReplaceTokens(PrintReplace(r.replacementTokens), "", r.captureCount) == Ok(Flush("") + r.replacementTokens)
  {
    FindPrinted(r.patternTokens, "", 0);
    ReplacePrinted(r.replacementTokens, "", r.captureCount);
  }

  lemma PrintedMappingText(r: Rule)
    requires CanonicalRule(r) && r.caseOperation == CaseNone
    ensures Closed(PrintRule(r)) && NoCut(PrintRule(r)) && Clean(PrintRule(r)) && PrintRule(r) != ""
  {
    PrintedFind(r.patternTokens, 0);
    PrintedReplace(r.replacementTokens, r.captureCount);
    MappingText(PrintFind(r.patternTokens), PrintReplace(r.replacementTokens));
  }

  lemma MappingText(find: string, replace: string)
    requires Plain(find) && Plain(replace) && find != "" && replace != "" && Clean(find) && Clean(replace)
    ensures Closed(find + "=>" + replace) && NoCut(find + "=>" + replace) && Clean(find + "=>" + replace)
  {
    PrintedSeparator(find, replace);
    CleanConcat(find, "=>");
    CleanConcat(find + "=>", replace);
  }

  /** The separator between two plain sides is the only one. */
  lemma PrintedSeparator(find: string, replace: string)
    requires Plain(find) && Plain(replace) && find != "" && replace != ""
    ensures OnlySeparator(find + "=>" + replace) == Some(|find|)
    ensures Closed(find + "=>" + replace) && NoCut(find + "=>" + replace)
    ensures find + "=>" + replace != "\\a" && find + "=>" + replace != "\\A"
  {
    var s := find + "=>" + replace;
    var tail := "=>" + replace;
    assert s == find + tail;
    assert Closed("=>");
    EscapedAfter("=>", replace, |replace|);
    EscapedAfter(find, tail, |tail|);
    forall i ensures !CutAt(s, i) && (SeparatorAt(s, i) <==> i == |find|) {
      CutsOfConcat(find, tail, i);
      CutsOfConcat("=>", replace, i - |find|);
      SeparatorsOfConcat(find, tail, i);
      SeparatorsOfConcat("=>", replace, i - |find|);
      assert !CutAt(find, i) && !CutAt(replace, i - |find| - 2);
      assert !SeparatorAt(find, i) && !SeparatorAt(replace, i - |find| - 2);
    }
    assert IsOnlySeparator(s, |find|);
  }

  /** Closed parts without `;` are the segments of their join. */
  lemma {:induction false} SegmentsOfJoin(parts: seq<string>)
    requires parts != [] && forall p :: p in parts ==> Closed(p) && NoCut(p)
    ensures Segments(Join(parts, ";")) == parts && Closed(Join(parts, ";"))
  {
    var s := Join(parts, ";");
    if |parts| == 1 {
      NoCutBeforeEnd(s, 0);
    } else {
      var rest := Join(parts[1..], ";");
      SegmentsOfJoin(parts[1..]);
      var a := parts[0] + ";";
      assert s == a + rest;
      EscapedAfter(parts[0], ";", 0);
      EscapedAfter(parts[0], ";", 1);
      assert parts[0] + ";" + "" == a;
      EscapedAfter(a, rest, |rest|);
      forall i | 0 <= i <= |parts[0]|
        ensures CutAt(s, i) <==> i == |parts[0]|
      {
        CutsOfConcat(a, rest, i);
        CutsOfConcat(parts[0], ";", i);
        assert !CutAt(parts[0], i);
      }
      assert NextCut(s, 0) == |parts[0]| by {
        assert CutAt(s, |parts[0]|);
      }
      assert s[0..|parts[0]|] == parts[0];
      SegmentsShift(s, a, rest, 0);
      assert parts == [parts[0]] + parts[1..];
    }
  }

  lemma NoCutBeforeEnd(s: string, i: nat)
    requires i <= |s| && NoCut(s)
    ensures NextCut(s, i) == |s|
  {
    var k := NextCut(s, i);
    assert !CutAt(s, k);
  }

  lemma NextCutShift(a: string, b: string, j: nat)
    requires Closed(a) && j <= |b|
    ensures NextCut(a + b, |a| + j) == |a| + NextCut(b, j)
    decreases |b| - j
  {
    CutsOfConcat(a, b, |a| + j);
    if j < |b| && !CutAt(b, j) {
      NextCutShift(a, b, j + 1);
    }
  }

  lemma SliceShift(s: string, a: string, b: string, i: nat, j: nat)
    requires s == a + b && i <= j <= |b|
    ensures s[|a| + i..] == b[i..] && s[|a| + i..|a| + j] == b[i..j]
  {}

  lemma SegmentsAgree(s: string, i: nat, t: string, j: nat)
    requires i <= |s| && j <= |t| && |s| - i == |t| - j
    requires NextCut(s, i) - i == NextCut(t, j) - j
    requires s[i..] == t[j..] && s[i..NextCut(s, i)] == t[j..NextCut(t, j)]
    requires NextCut(s, i) < |s| ==> SegmentsFrom(s, NextCut(s, i) + 1) == SegmentsFrom(t, NextCut(t, j) + 1)
    ensures SegmentsFrom(s, i) == SegmentsFrom(t, j)
  {}

  lemma {:induction false} SegmentsShift(s: string, a: string, b: string, j: nat)
    requires Closed(a) && j <= |b| && s == a + b
    ensures SegmentsFrom(s, |a| + j) == SegmentsFrom(b, j)
    decreases |b| - j
  {
    var k := NextCut(b, j);
    NextCutShift(a, b, j);
    SliceShift(s, a, b, j, k);
    if k < |b| {
      SegmentsShift(s, a, b, k + 1);
    }
    SegmentsAgree(s, |a| + j, b, j);
  }

  lemma {:induction false} PrintedParts(rules: seq<Rule>)
    requires forall r :: r in rules ==> CanonicalRule(r)
    ensures RulesOf(PrintEach(rules)) == Ok(rules) && |PrintEach(rules)| == |rules|
    ensures forall p :: p in PrintEach(rules) ==> Closed(p) && NoCut(p) && Clean(p) && p != ""
  {
    if rules != [] {
      PrintedRule(rules[0]);
      PrintedParts(rules[1..]);
      assert rules == [rules[0]] + rules[1..];
      assert PrintEach(rules)[1..] == PrintEach(rules[1..]);
    }
  }

  lemma {:induction false} CleanJoin(parts: seq<string>)
    requires parts != [] && forall p :: p in parts ==> Clean(p) && p != ""
    ensures Clean(Join(parts, ";")) && Join(parts, ";") != ""
  {
    if |parts| > 1 {
      CleanJoin(parts[1..]);
      CleanConcat(parts[0], ";");
      CleanConcat(parts[0] + ";", Join(parts[1..], ";"));
    }
  }

  /** Printing a canonical rule list and parsing it back gives the same rules. */
  lemma ParsePrint(rules: seq<Rule>)
    requires CanonicalRules(rules)
    ensures Parse(Print(rules)) == Ok(rules)
  {
    PrintedParts(rules);
    var parts := PrintEach(rules);
    SegmentsOfJoin(parts);
    CleanJoin(parts);
    NoErrorMeansClean(Print(rules));
  }
}
