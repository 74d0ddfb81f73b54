/** The grammar of a rule's two sides: which texts the parser accepts, what it reads them as, and why it refuses the
    others. */
module RuleGrammar {
  import opened Common
  import opened RuleMatcher
  import opened RuleSyntax
  import opened RulePrinting

  /** A side is spelled unit by unit. */
  datatype Unit = Plain(c: char) | Escaped(text: string) | Star | Ref(digits: string)

  function SpellUnit(u: Unit): string {
    match u
    case Plain(c) => [c]
    case Escaped(text) => "\\" + text
    case Star => "*"
    case Ref(digits) => "$" + digits
  }

  function Spell(units: seq<Unit>): string {
    if units == [] then "" else SpellUnit(units[0]) + Spell(units[1..])
  }

  const ESCAPES: seq<string> := ["*", ";", "$", "\\", "=>"]

  predicate IsNumber(digits: string) {
    digits != "" && digits[0] != '0' && forall i :: 0 <= i < |digits| ==> digits[i] in "0123456789"
  }

  predicate IsFindUnit(u: Unit) {
    match u
    case Plain(c) => c != '\\' && c != '*'
    case Escaped(text) => text in ESCAPES
    case Star => true
    case Ref(_) => false
  }

  /** On the right a dollar sign starts a reference; its number is at most `captures` when read in 64 bits. */
  predicate IsReplaceUnit(u: Unit, captures: nat) {
    match u
    case Plain(c) => c != '\\' && c != '$'
    case Escaped(text) => text in ESCAPES
    case Star => false
    case Ref(digits) => IsNumber(digits) && 0 != Number(digits) <= captures
  }

  function Number(digits: string): int { Wrap64(Decimal(digits)) }

  predicate FindUnits(units: seq<Unit>) { units == [] || (IsFindUnit(units[0]) && FindUnits(units[1..])) }

  /** A reference takes all digits that follow. */
  predicate ReplaceUnits(units: seq<Unit>, captures: nat) {
    units == [] ||
    (IsReplaceUnit(units[0], captures) && ReplaceUnits(units[1..], captures) &&
     (units[0].Ref? && |units| > 1 && units[1].Plain? ==> units[1].c !in "0123456789"))
  }

  // ----------------------------------------------------------------------- reading

  /** What a side says, character by character and capture by capture. */
  datatype Atom = Char(c: char) | Capture(k: int)

  function Chars(text: string): seq<Atom> { if text == "" then [] else [Char(text[0])] + Chars(text[1..]) }

  function Atoms(tokens: seq<Token>): seq<Atom> {
    if tokens == [] then []
    else
      (if tokens[0].literal != "" then Chars(tokens[0].literal) else [Capture(tokens[0].capture)]) +
      Atoms(tokens[1..])
  }

  /** The stars of a left side are numbered on from `n`. */
  function Reading(units: seq<Unit>, n: nat): seq<Atom> {
    if units == [] then []
    else
      match units[0]
      case Plain(c) => [Char(c)] + Reading(units[1..], n)
      case Escaped(text) => Chars(text) + Reading(units[1..], n)
      case Star => [Capture(n + 1)] + Reading(units[1..], n + 1)
      case Ref(digits) => [Capture(Number(digits))] + Reading(units[1..], n)
  }

  function Stars(units: seq<Unit>): nat {
    if units == [] then 0 else (if units[0].Star? then 1 else 0) + Stars(units[1..])
  }

  lemma {:induction false} CharsConcat(a: string, b: string)
    ensures Chars(a + b) == Chars(a) + Chars(b)
  {
    if a == "" {
      assert a + b == b;
    } else {
      assert (a + b)[0] == a[0] && (a + b)[1..] == a[1..] + b;
      CharsConcat(a[1..], b);
    }
  }

  lemma {:induction false} AtomsConcat(a: seq<Token>, b: seq<Token>)
    ensures Atoms(a + b) == Atoms(a) + Atoms(b)
  {
    if a == [] {
      assert a + b == b;
    } else {
      assert (a + b)[0] == a[0] && (a + b)[1..] == a[1..] + b;
      AtomsConcat(a[1..], b);
    }
  }

  lemma FlushAtoms(lit: string)
    ensures Atoms(Flush(lit)) == Chars(lit)
  {
    if lit != "" {
      assert Flush(lit)[1..] == [] && Chars(lit) + [] == Chars(lit);
    }
  }

  lemma CaptureAtoms(lit: string, k: int, rest: seq<Token>)
    ensures Atoms(Flush(lit) + [Token("", k)] + rest) == Chars(lit) + [Capture(k)] + Atoms(rest)
  {
    var one := [Token("", k)];
    assert one[1..] == [] && Atoms(one) == [Capture(k)] + [];
    FlushAtoms(lit);
    AtomsConcat(Flush(lit), one);
    AtomsConcat(Flush(lit) + one, rest);
  }

  lemma OneChar(lit: string, c: char, more: seq<Atom>)
    ensures Chars(lit + [c]) + more == Chars(lit) + ([Char(c)] + more)
  {
    CharsConcat(lit, [c]);
    assert [c][1..] == "" && Chars([c]) == [Char(c)];
  }

  lemma MoreChars(lit: string, text: string, more: seq<Atom>)
    ensures Chars(lit + text) + more == Chars(lit) + (Chars(text) + more)
  {
    CharsConcat(lit, text);
  }

  // ----------------------------------------------------------------------- escapes

  /** The five escapes are exactly what a backslash may stand before. */
  lemma EscapeReads(text: string, rest: string)
    requires text in ESCAPES
    ensures Escape("\\" + text + rest) == Ok((text, 1 + |text|)) && ("\\" + text + rest)[1 + |text|..] == rest
  {
    var s := "\\" + text + rest;
    assert s[1] == text[0] && (|text| == 2 ==> s[2] == text[1]);
    assert s[1..1 + |text|] == text;
    assert [s[1]] == s[1..2];
  }

  predicate StartsWithEscape(s: string) { exists i :: 0 <= i < |ESCAPES| && "\\" + ESCAPES[i] <= s }

  lemma EscapeSplits(s: string)
    requires s != "" && s[0] == '\\'
    ensures match Escape(s)
            case Ok(e) => e.0 in ESCAPES && e.1 == 1 + |e.0| && s == "\\" + e.0 + s[e.1..]
            case Err(error) =>
              !StartsWithEscape(s) && if s == "\\" then error == DanglingEscape else error == InvalidEscape
  {
    if Escape(s).Ok? {
      var (text, k) := Escape(s).value;
      assert s == [s[0]] + s[1..k] + s[k..];
      assert [s[1]] == "*" || [s[1]] == ";" || [s[1]] == "$" || [s[1]] == "\\" || text == "=>";
      assert ESCAPES[0] == "*" && ESCAPES[1] == ";" && ESCAPES[2] == "$" && ESCAPES[3] == "\\" && ESCAPES[4] == "=>";
    } else if i :| 0 <= i < |ESCAPES| && "\\" + ESCAPES[i] <= s {
      EscapeStarts(s, i);
    }
  }

  lemma EscapeStarts(s: string, i: nat)
    requires s != "" && i < |ESCAPES| && "\\" + ESCAPES[i] <= s
    ensures s[0] == '\\' && Escape(s).Ok?
  {
    var text := ESCAPES[i];
    EscapeReads(text, s[1 + |text|..]);
    assert s == "\\" + text + s[1 + |text|..];
  }

  // --------------------------------------------------------------------- left sides

  lemma SpellFirst(u: Unit, more: seq<Unit>)
    ensures Spell([u] + more) == SpellUnit(u) + Spell(more)
  {
    assert ([u] + more)[1..] == more;
  }

  /** Every spelled left side is accepted and read as it is spelled. */
  lemma {:induction false} FindReads(units: seq<Unit>, lit: string, n: nat)
    requires FindUnits(units)
    ensures FindTokens(Spell(units), lit, n).Ok?
    ensures var (tokens, m) := FindTokens(Spell(units), lit, n).value;
            Atoms(tokens) == Chars(lit) + Reading(units, n) && m == n + Stars(units)
    decreases |units|
  {
    if units == [] {
      FlushAtoms(lit);
      assert Chars(lit) + [] == Chars(lit);
    } else {
      var s, rest := Spell(units), Spell(units[1..]);
      match units[0] {
        case Plain(c) =>
          assert s[0] == c && s[1..] == rest;
          FindReads(units[1..], lit + [c], n);
          OneChar(lit, c, Reading(units[1..], n));
        case Escaped(text) =>
          assert s == "\\" + text + rest;
          EscapeReads(text, rest);
          FindReads(units[1..], lit + text, n);
          MoreChars(lit, text, Reading(units[1..], n));
        case Star =>
          assert s[0] == '*' && s[1..] == rest;
          FindReads(units[1..], "", n + 1);
          var tokens := FindTokens(rest, "", n + 1).value.0;
          assert Chars("") + Reading(units[1..], n + 1) == Reading(units[1..], n + 1);
          CaptureAtoms(lit, n + 1, tokens);
          Associative(Chars(lit), [Capture(n + 1)], Atoms(tokens));
      }
    }
  }

  /** Every text is spelled up to a place where the parser stops: its end, or a backslash that starts no escape. */
  lemma {:induction false} FindStops(s: string, lit: string, n: nat) returns (units: seq<Unit>, rest: string)
    ensures FindUnits(units) && s == Spell(units) + rest
    ensures match FindTokens(s, lit, n)
            case Ok(_) => rest == ""
            case Err(error) =>
              rest != "" && rest[0] == '\\' && !StartsWithEscape(rest) &&
              if rest == "\\" then error == DanglingEscape else error == InvalidEscape
    decreases |s|
  {
    if s == "" {
      units, rest := [], "";
    } else if s[0] == '\\' {
      EscapeSplits(s);
      match Escape(s) {
        case Ok(e) =>
          units, rest := FindStops(s[e.1..], lit + e.0, n);
          units := AddUnit(Escaped(e.0), units, s[e.1..], rest, s);
        case Err(_) =>
          units, rest := [], s;
      }
    } else {
      var star := s[0] == '*';
      assert s == [s[0]] + s[1..];
      if star {
        units, rest := FindStops(s[1..], "", n + 1);
        units := AddUnit(Star, units, s[1..], rest, s);
      } else {
        units, rest := FindStops(s[1..], lit + [s[0]], n);
        units := AddUnit(Plain(s[0]), units, s[1..], rest, s);
      }
    }
  }

  lemma AddUnit(u: Unit, more: seq<Unit>, t: string, rest: string, s: string) returns (units: seq<Unit>)
    requires t == Spell(more) + rest && s == SpellUnit(u) + t
    ensures units == [u] + more && units[1..] == more && s == Spell(units) + rest
  {
    units := [u] + more;
    SpellFirst(u, more);
    Associative(SpellUnit(u), Spell(more), rest);
  }

  lemma WholeFindReads(units: seq<Unit>)
    requires FindUnits(units)
    ensures FindTokens(Spell(units), "", 0).Ok?
    ensures var (tokens, captures) := FindTokens(Spell(units), "", 0).value;
            Atoms(tokens) == Reading(units, 0) && captures == Stars(units)
  {
    FindReads(units, "", 0);
    assert Chars("") + Reading(units, 0) == Reading(units, 0);
  }

  /** A left side is accepted exactly when it can be spelled in units. */
  lemma FindGrammar(s: string)
    ensures FindTokens(s, "", 0).Ok? <==> exists units :: FindUnits(units) && Spell(units) == s
    ensures forall units :: FindUnits(units) && Spell(units) == s ==>
              FindTokens(s, "", 0).Ok? &&
              var (tokens, captures) := FindTokens(s, "", 0).value;
              Atoms(tokens) == Reading(units, 0) && captures == Stars(units)
  {
    var units, rest := FindStops(s, "", 0);
    assert rest == "" ==> Spell(units) == s;
    forall units | FindUnits(units) && Spell(units) == s
      ensures FindTokens(s, "", 0).Ok? &&
              var (tokens, captures) := FindTokens(s, "", 0).value;
              Atoms(tokens) == Reading(units, 0) && captures == Stars(units)
    {
      WholeFindReads(units);
    }
  }

  // -------------------------------------------------------------------- right sides

  lemma DigitsAre(c: char)
    ensures c in "0123456789" <==> IsDigit(c)
  {
    if IsDigit(c) {
      assert "0123456789"[c as int - 48] == c;
    }
  }

  /** No digit comes next. */
  predicate NumberEnds(rest: string) { rest == "" || rest[0] !in "0123456789" }

  lemma {:induction false} RunOfDigits(digits: string, rest: string)
    requires (forall i :: 0 <= i < |digits| ==> digits[i] in "0123456789") && NumberEnds(rest)
    ensures DigitRun(digits + rest) == |digits|
  {
    if digits == "" {
      assert digits + rest == rest;
      if rest != "" {
        DigitsAre(rest[0]);
      }
    } else {
      DigitsAre(digits[0]);
      assert (digits + rest)[1..] == digits[1..] + rest;
      RunOfDigits(digits[1..], rest);
    }
  }

  /** A number of this size read in 64 bits stands at the front, behind a dollar sign. */
  predicate ReferenceTo(s: string, k: nat, captures: nat) {
    2 <= k <= |s| && s[0] == '$' && IsNumber(s[1..k]) && NumberEnds(s[k..]) && 0 != Number(s[1..k]) <= captures
  }

  lemma ReferenceRun(s: string, k: nat, captures: nat)
    requires ReferenceTo(s, k, captures)
    ensures k == 1 + DigitRun(s[1..]) && s == "$" + s[1..k] + s[k..] && '1' <= s[1] <= '9'
  {
    assert s[1..] == s[1..k] + s[k..];
    RunOfDigits(s[1..k], s[k..]);
    DigitsAre(s[1..k][0]);
    assert s[1..k][0] == s[1];
  }

  /** What the parser does at a dollar sign. */
  lemma DollarReads(s: string, lit: string, captures: nat)
    requires s != "" && s[0] == '$'
    ensures (exists k: nat :: ReferenceTo(s, k, captures)) || ReplaceTokens(s, lit, captures) == Err(InvalidReference)
    ensures forall k: nat :: ReferenceTo(s, k, captures) ==>
              ReplaceTokens(s, lit, captures) ==
              PutBefore(Flush(lit) + [Token("", Number(s[1..k]))], ReplaceTokens(s[k..], "", captures))
  {
    forall k: nat | ReferenceTo(s, k, captures)
      ensures ReplaceTokens(s, lit, captures) ==
              PutBefore(Flush(lit) + [Token("", Number(s[1..k]))], ReplaceTokens(s[k..], "", captures))
    {
      ReferenceRun(s, k, captures);
    }
    if ReplaceTokens(s, lit, captures) != Err(InvalidReference) {
      DigitsStandThere(s);
      assert ReferenceTo(s, 1 + DigitRun(s[1..]), captures);
    }
  }

  lemma DigitsStandThere(s: string)
    requires |s| >= 2 && '1' <= s[1] <= '9'
    ensures var k := 1 + DigitRun(s[1..]); 2 <= k <= |s| && IsNumber(s[1..k]) && NumberEnds(s[k..])
  {
    var k := 1 + DigitRun(s[1..]);
    assert s[1..k][0] == s[1];
    forall i | 0 <= i < k - 1 ensures s[1..k][i] in "0123456789" {
      assert s[1..k][i] == s[1..][i];
      DigitsAre(s[1..][i]);
    }
    if k < |s| {
      assert s[k..][0] == s[1..][k - 1];
      DigitsAre(s[k]);
    }
  }

  lemma NextIsNoDigit(units: seq<Unit>, captures: nat)
    requires ReplaceUnits(units, captures) && (units != [] && units[0].Plain? ==> units[0].c !in "0123456789")
    ensures NumberEnds(Spell(units))
  {}

  /** Every spelled right side is accepted and read as it is spelled. */
  lemma {:induction false} ReplaceReads(units: seq<Unit>, lit: string, captures: nat)
    requires ReplaceUnits(units, captures)
    ensures ReplaceTokens(Spell(units), lit, captures).Ok?
    ensures Atoms(ReplaceTokens(Spell(units), lit, captures).value) == Chars(lit) + Reading(units, 0)
    decreases |units|
  {
    if units == [] {
      FlushAtoms(lit);
      assert Chars(lit) + [] == Chars(lit);
    } else {
      var s, rest := Spell(units), Spell(units[1..]);
      match units[0] {
        case Plain(c) =>
          assert s[0] == c && s[1..] == rest;
          ReplaceReads(units[1..], lit + [c], captures);
          OneChar(lit, c, Reading(units[1..], 0));
        case Escaped(text) =>
          assert s == "\\" + text + rest;
          EscapeReads(text, rest);
          ReplaceReads(units[1..], lit + text, captures);
          MoreChars(lit, text, Reading(units[1..], 0));
        case Ref(digits) =>
          ReferenceReads(units, captures);
          DollarReads(s, lit, captures);
          ReplaceReads(units[1..], "", captures);
          var tokens := ReplaceTokens(rest, "", captures).value;
          assert Chars("") + Reading(units[1..], 0) == Reading(units[1..], 0);
          CaptureAtoms(lit, Number(digits), tokens);
          Associative(Chars(lit), [Capture(Number(digits))], Atoms(tokens));
      }
    }
  }

  lemma ReferenceReads(units: seq<Unit>, captures: nat)
    requires units != [] && units[0].Ref? && ReplaceUnits(units, captures)
    ensures var s, digits := Spell(units), units[0].digits;
            s != "" && s[0] == '$' && ReferenceTo(s, 1 + |digits|, captures) && s[1..1 + |digits|] == digits &&
            s[1 + |digits|..] == Spell(units[1..])
  {
    NextIsNoDigit(units[1..], captures);
  }

  predicate StartsWithReference(s: string, captures: nat) {
    exists k: nat :: 2 <= k <= |s| && ReferenceTo(s, k, captures)
  }

  lemma AddReference(s: string, k: nat, more: seq<Unit>, rest: string, captures: nat) returns (units: seq<Unit>)
    requires ReferenceTo(s, k, captures) && ReplaceUnits(more, captures) && s[k..] == Spell(more) + rest
    ensures ReplaceUnits(units, captures) && s == Spell(units) + rest
  {
    ReferenceRun(s, k, captures);
    assert more != [] && more[0].Plain? ==> s[k..][0] == more[0].c;
    units := AddUnit(Ref(s[1..k]), more, s[k..], rest, s);
  }

  /** Every text is spelled up to a place where the parser stops: its end, a backslash that starts no escape, or a
      dollar sign that starts no reference in range. */
  lemma {:induction false} ReplaceStops(s: string, lit: string, captures: nat) returns (units: seq<Unit>, rest: string)
    ensures ReplaceUnits(units, captures) && s == Spell(units) + rest
    ensures match ReplaceTokens(s, lit, captures)
            case Ok(_) => rest == ""
            case Err(error) =>
              rest != "" &&
              if rest[0] == '\\' then
                !StartsWithEscape(rest) && if rest == "\\" then error == DanglingEscape else error == InvalidEscape
              else rest[0] == '$' && !StartsWithReference(rest, captures) && error == InvalidReference
    decreases |s|
  {
    if s == "" {
      units, rest := [], "";
    } else if s[0] == '\\' {
      EscapeSplits(s);
      match Escape(s) {
        case Ok(e) =>
          units, rest := ReplaceStops(s[e.1..], lit + e.0, captures);
          units := AddUnit(Escaped(e.0), units, s[e.1..], rest, s);
        case Err(_) =>
          units, rest := [], s;
      }
    } else if s[0] == '$' {
      DollarReads(s, lit, captures);
      if k: nat :| ReferenceTo(s, k, captures) {
        ReferenceRun(s, k, captures);
        units, rest := ReplaceStops(s[k..], "", captures);
        units := AddReference(s, k, units, rest, captures);
      } else {
        units, rest := [], s;
      }
    } else {
      assert s == [s[0]] + s[1..];
      units, rest := ReplaceStops(s[1..], lit + [s[0]], captures);
      units := AddUnit(Plain(s[0]), units, s[1..], rest, s);
    }
  }

  lemma WholeReplaceReads(units: seq<Unit>, captures: nat)
    requires ReplaceUnits(units, captures)
    ensures ReplaceTokens(Spell(units), "", captures).Ok?
    ensures Atoms(ReplaceTokens(Spell(units), "", captures).value) == Reading(units, 0)
  {
    ReplaceReads(units, "", captures);
    assert Chars("") + Reading(units, 0) == Reading(units, 0);
  }

  /** A right side is accepted exactly when it can be spelled in units. */
  lemma ReplaceGrammar(s: string, captures: nat)
    ensures ReplaceTokens(s, "", captures).Ok? <==> exists units :: ReplaceUnits(units, captures) && Spell(units) == s
    ensures forall units :: ReplaceUnits(units, captures) && Spell(units) == s ==>
              ReplaceTokens(s, "", captures).Ok? &&
              Atoms(ReplaceTokens(s, "", captures).value) == Reading(units, 0)
  {
    var units, rest := ReplaceStops(s, "", captures);
    assert rest == "" ==> Spell(units) == s;
    forall units | ReplaceUnits(units, captures) && Spell(units) == s
      ensures ReplaceTokens(s, "", captures).Ok? &&
              Atoms(ReplaceTokens(s, "", captures).value) == Reading(units, 0)
    {
      WholeReplaceReads(units, captures);
    }
  }

  /** Reading in 64 bits: the number in range that differs from the spelled one by a multiple of 2^64. */
  lemma NumberIs(digits: string) returns (q: int)
    ensures Number(digits) == Decimal(digits) - q * 0x1_0000_0000_0000_0000
    ensures -0x8000_0000_0000_0000 <= Number(digits) < 0x8000_0000_0000_0000
  {
    q := (Decimal(digits) + INT64_HALF) / INT64_SPAN;
  }

  // -------------------------------------------------------------------- whole texts

  ghost predicate IsFindSide(find: string, units: seq<Unit>) { FindUnits(units) && Spell(units) == find != "" }

  ghost predicate IsReplaceSide(replace: string, units: seq<Unit>, captures: nat) {
    ReplaceUnits(units, captures) && Spell(units) == replace != ""
  }

  /** Two sides spelled around the only unescaped arrow. */
  ghost predicate IsMapping(part: string, k: nat, find: seq<Unit>, replace: seq<Unit>) {
    k + 2 <= |part| && IsOnlySeparator(part, k) && IsFindSide(part[..k], find) &&
    IsReplaceSide(part[k + 2..], replace, Stars(find))
  }

  ghost predicate IsEntry(part: string) {
    part == "\\a" || part == "\\A" || exists k, find, replace :: IsMapping(part, k, find, replace)
  }

  /** An entry that is accepted is a case entry or a mapping. */
  lemma AcceptedEntry(part: string)
    requires RuleOf(part).Ok?
    ensures IsEntry(part)
  {
    if part != "\\a" && part != "\\A" {
      var k := OnlySeparator(part).value;
      FindGrammar(part[..k]);
      var find :| FindUnits(find) && Spell(find) == part[..k];
      ReplaceGrammar(part[k + 2..], Stars(find));
      var replace :| ReplaceUnits(replace, Stars(find)) && Spell(replace) == part[k + 2..];
      assert IsMapping(part, k, find, replace);
    }
  }

  lemma RuleOfSides(part: string, k: nat)
    requires part != "\\a" && part != "\\A" && OnlySeparator(part) == Some(k) && 0 < k && k + 2 < |part|
    requires FindTokens(part[..k], "", 0).Ok?
    ensures var (tokens, captures) := FindTokens(part[..k], "", 0).value;
            var replacement := ReplaceTokens(part[k + 2..], "", captures);
            replacement.Ok? ==> RuleOf(part) == Ok(Rule(tokens, replacement.value, captures, CaseNone))
  {}

  /** A mapping is accepted and read as its two sides are spelled. */
  lemma MappingReads(part: string, k: nat, find: seq<Unit>, replace: seq<Unit>)
    requires IsMapping(part, k, find, replace) && part != "\\a" && part != "\\A"
    ensures RuleOf(part).Ok? && var r := RuleOf(part).value;
            r.caseOperation == CaseNone && r.captureCount == Stars(find) &&
            Atoms(r.patternTokens) == Reading(find, 0) && Atoms(r.replacementTokens) == Reading(replace, 0)
  {
    assert OnlySeparator(part) == Some(k);
    WholeFindReads(find);
    WholeReplaceReads(replace, Stars(find));
    RuleOfSides(part, k);
  }

  lemma EntryGrammar(part: string)
    ensures RuleOf(part).Ok? <==> IsEntry(part)
  {
    if RuleOf(part).Ok? {
      AcceptedEntry(part);
    } else if k, find, replace :| IsMapping(part, k, find, replace) {
      MappingReads(part, k, find, replace);
    }
  }

  lemma {:induction false} EntriesGrammar(parts: seq<string>)
    ensures RulesOf(parts).Ok? <==> forall p :: p in parts ==> IsEntry(p)
  {
    if parts != [] {
      EntryGrammar(parts[0]);
      EntriesGrammar(parts[1..]);
      assert parts == [parts[0]] + parts[1..];
    }
  }

  /** A text is accepted exactly when it is not empty, has no white space, quotes or control characters, does not end
      in an open escape, and every stretch between unescaped semicolons is an entry. */
  lemma AcceptedTexts(raw: string)
    ensures Parse(raw).Ok? <==>
            raw != "" && Clean(raw) && Closed(raw) && forall part :: part in Segments(raw) ==> IsEntry(part)
  {
    NoErrorMeansClean(raw);
    EntriesGrammar(Segments(raw));
    if "" in Segments(raw) {
      EntryGrammar("");
    }
  }

  /** The first character that is not allowed decides what a text is refused for. */
  lemma {:induction false} FirstUnclean(raw: string, k: nat)
    requires k < |raw| && Clean(raw[..k]) && !IsClean(raw[k])
    ensures CharacterError(raw) ==
            Some(if raw[k] in "\"'" || IsSpace(raw[k]) then InvalidCharacter else InvalidControlCharacter)
    ensures Parse(raw) == Err(CharacterError(raw).value)
    decreases k
  {
    if k > 0 {
      assert raw[..k][0] == raw[0];
      assert raw[1..][..k - 1] == raw[..k][1..];
      assert forall i :: 0 <= i < k - 1 ==> raw[..k][1..][i] == raw[..k][i + 1];
      FirstUnclean(raw[1..], k - 1);
    }
  }
}
