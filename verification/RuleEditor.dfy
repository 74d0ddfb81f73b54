/** The admin page's rule editor: cutting a rule text into rows and joining the rows again. */
module RuleEditor {
  import opened Common
  import opened RuleSyntax
  import opened RuleRange

  datatype Entry = MapEntry(find: string, replace: string) | CaseEntry(lower: bool)

  /** How many backslashes stand directly before `i`. */
  function Backslashes(s: string, i: nat): nat
    requires i <= |s|
  {
    if i > 0 && s[i - 1] == '\\' then 1 + Backslashes(s, i - 1) else 0
  }

  /** Counting backslashes backwards agrees with the parser's forward escape flag. */
  lemma {:induction false} ParityIsEscape(s: string, i: nat)
    requires i <= |s|
    ensures EscapedAt(s, i) <==> Backslashes(s, i) % 2 == 1
  {
    if i > 0 {
      ParityIsEscape(s, i - 1);
    }
  }

  method IsEscaped(s: string, i: nat) returns (escaped: bool)
    requires i <= |s|
    ensures escaped == EscapedAt(s, i)
  {
    var backslashes, j := 0, i;
    while j > 0 && s[j - 1] == '\\'
      invariant 0 <= j <= i
      invariant Backslashes(s, i) == backslashes + Backslashes(s, j)
    {
      backslashes := backslashes + 1;
      j := j - 1;
    }
    ParityIsEscape(s, i);
    return backslashes % 2 == 1;
  }

  method SplitUnescaped(s: string) returns (out: seq<string>)
    ensures out == Segments(s)
  {
    out := [];
    var start := 0;
    for i := 0 to |s|
      invariant start <= i
      invariant NextCut(s, start) == NextCut(s, i)
      invariant Segments(s) == out + SegmentsFrom(s, start)
    {
      var escaped := IsEscaped(s, i);
      if s[i] == ';' && !escaped {
        out := out + [s[start..i]];
        start := i + 1;
      }
    }
    out := out + [s[start..]];
  }

  /** The first unescaped `=>` at or after `i`. */
  function FirstSeparator(s: string, i: nat): (k: Option<nat>)
    requires i <= |s|
    ensures k.Some? ==> i <= k.value && SeparatorAt(s, k.value) && forall j :: i <= j < k.value ==> !SeparatorAt(s, j)
    ensures k.None? ==> forall j :: i <= j ==> !SeparatorAt(s, j)
    decreases |s| - i
  {
    if SeparatorAt(s, i) then Some(i) else if i == |s| then None else FirstSeparator(s, i + 1)
  }

  /** The row of one segment; nothing for an empty segment or one without a separator. */
  function EntryOf(raw: string): Option<Entry> {
    if raw == "" then None
    else if raw == "\\a" then Some(CaseEntry(true))
    else if raw == "\\A" then Some(CaseEntry(false))
    else
      var k := FirstSeparator(raw, 0);
      if k.None? then None else Some(MapEntry(raw[..k.value], raw[k.value + 2..]))
  }

  function EntriesOf(segments: seq<string>): seq<Entry> {
    if segments == [] then []
    else (if EntryOf(segments[0]).Some? then [EntryOf(segments[0]).value] else []) + EntriesOf(segments[1..])
  }

  method SplitEntries(dsl: string) returns (entries: seq<Entry>)
    ensures entries == EntriesOf(Segments(dsl))
  {
    entries := [];
    var segments := SplitUnescaped(dsl);
    assert segments[0..] == segments;
    for n := 0 to |segments|
      invariant EntriesOf(segments) == entries + EntriesOf(segments[n..])
    {
      assert segments[n..][1..] == segments[n + 1..];
      var entry := SplitEntry(segments[n]);
      if entry.Some? {
        entries := entries + [entry.value];
      }
    }
  }

  /** One turn of the segment loop. */
  method SplitEntry(raw: string) returns (entry: Option<Entry>)
    ensures entry == EntryOf(raw)
  {
    if raw == "" {
      return None;
    }
    if raw == "\\a" {
      return Some(CaseEntry(true));
    }
    if raw == "\\A" {
      return Some(CaseEntry(false));
    }
    var i := 0;
    while i + 1 < |raw|
      invariant i <= |raw|
      invariant FirstSeparator(raw, 0) == FirstSeparator(raw, i)
    {
      var escaped := IsEscaped(raw, i);
      if raw[i] == '=' && raw[i + 1] == '>' && !escaped {
        return Some(MapEntry(raw[..i], raw[i + 2..]));
      }
      i := i + 1;
    }
    assert FirstSeparator(raw, i).None?;
    return None;
  }

  // ------------------------------------------------------------------ joining

  const BYTE_ORDER_MARK: int := 0xfeff

  /** The code points JavaScript's trim removes. */
  predicate IsTrimmed(c: char) {
    var u := c as int;
    9 <= u <= 13 || u == 0x20 || u == 0xa0 || u == 0x1680 || 0x2000 <= u <= 0x200a ||
    u == 0x2028 || u == 0x2029 || u == 0x202f || u == 0x205f || u == 0x3000 || u == BYTE_ORDER_MARK
  }

  predicate Blank(t: string) { forall i :: 0 <= i < |t| ==> IsTrimmed(t[i]) }

  function EntryText(e: Entry): string {
    match e
    case CaseEntry(lower) => if lower then "\\a" else "\\A"
    case MapEntry(find, replace) => if Blank(find) || Blank(replace) then "" else find + "=>" + replace
  }

  function NonEmptyTexts(entries: seq<Entry>): seq<string> {
    if entries == [] then []
    else (if EntryText(entries[0]) != "" then [EntryText(entries[0])] else []) + NonEmptyTexts(entries[1..])
  }

  function JoinEntries(entries: seq<Entry>): string { Join(NonEmptyTexts(entries), ";") }

  // ----------------------------------------------------------- split and join

  lemma {:induction false} SegmentsJoinBack(s: string, start: nat)
    requires start <= |s|
    ensures SegmentsFrom(s, start) != [] && Join(SegmentsFrom(s, start), ";") == s[start..]
    decreases |s| - start
  {
    var k := NextCut(s, start);
    if k < |s| {
      SegmentsJoinBack(s, k + 1);
      var rest := SegmentsFrom(s, k + 1);
      assert ([s[start..k]] + rest)[1..] == rest;
      assert s[start..] == s[start..k] + ";" + s[k + 1..];
    }
  }

  /** The two sides both tools cut the segment into. */
  lemma SameCut(part: string)
    requires RuleOf(part).Ok? && part != "\\a" && part != "\\A"
    ensures OnlySeparator(part).Some? && FirstSeparator(part, 0) == OnlySeparator(part)
    ensures EntryOf(part) == Some(MapEntry(part[..OnlySeparator(part).value], part[OnlySeparator(part).value + 2..]))
  {
    assert IsOnlySeparator(part, OnlySeparator(part).value);
  }

  /** A side made only of byte order marks. */
  predicate OnlyMarks(t: string) { forall i :: 0 <= i < |t| ==> t[i] as int == BYTE_ORDER_MARK }

  lemma CleanBlank(t: string)
    requires Clean(t)
    ensures Blank(t) <==> OnlyMarks(t)
  {
    forall i | 0 <= i < |t|
      ensures IsTrimmed(t[i]) <==> t[i] as int == BYTE_ORDER_MARK
    {
      assert IsClean(t[i]);
    }
  }

  /** The mapping has a side that trims to nothing although the parser accepts it. */
  predicate HasBlankSide(part: string) {
    var e := EntryOf(part);
    e.Some? && e.value.MapEntry? && (OnlyMarks(e.value.find) || OnlyMarks(e.value.replace))
  }

  lemma PartText(part: string)
    requires RuleOf(part).Ok? && Clean(part)
    ensures EntryOf(part).Some? && EntryText(EntryOf(part).value) == if HasBlankSide(part) then "" else part
    ensures part != ""
  {
    if part != "\\a" && part != "\\A" {
      SameCut(part);
      var k := OnlySeparator(part).value;
      CleanSlice(part, 0, k);
      CleanSlice(part, k + 2, |part|);
      CleanBlank(part[..k]);
      CleanBlank(part[k + 2..]);
      assert SeparatorAt(part, k);
      assert part == part[..k] + "=>" + part[k + 2..];
    }
  }

  /** Joining the rows of accepted segments gives the segments back, less those with a blank side. */
  lemma {:induction false} KeptTexts(parts: seq<string>)
    requires RulesOf(parts).Ok? && forall p :: p in parts ==> Clean(p)
    ensures |EntriesOf(parts)| == |parts|
    ensures (forall p :: p in parts ==> !HasBlankSide(p)) ==> NonEmptyTexts(EntriesOf(parts)) == parts
    ensures (exists p :: p in parts && HasBlankSide(p)) ==>
              JoinedLength(NonEmptyTexts(EntriesOf(parts))) < JoinedLength(parts)
    ensures JoinedLength(NonEmptyTexts(EntriesOf(parts))) <= JoinedLength(parts)
  {
    if parts != [] {
      var rest := parts[1..];
      PartText(parts[0]);
      KeptTexts(rest);
      assert parts == [parts[0]] + rest;
      var e := EntryOf(parts[0]).value;
      assert EntriesOf(parts)[1..] == EntriesOf(rest);
      var texts := NonEmptyTexts(EntriesOf(rest));
      assert NonEmptyTexts(EntriesOf(parts)) == if HasBlankSide(parts[0]) then texts else [parts[0]] + texts;
      assert !HasBlankSide(parts[0]) ==> ([parts[0]] + texts)[1..] == texts;
    }
  }

  /** The length of the parts with one separator after each. */
  function JoinedLength(parts: seq<string>): nat {
    if parts == [] then 0 else |parts[0]| + 1 + JoinedLength(parts[1..])
  }

  lemma {:induction false} JoinLength(parts: seq<string>)
    requires parts != []
    ensures |Join(parts, ";")| + 1 == JoinedLength(parts)
  {
    if |parts| > 1 {
      JoinLength(parts[1..]);
    } else {
      assert parts[1..] == [];
    }
  }

  /** On accepted text, splitting into rows and joining is the identity exactly when no side is made of byte order
      marks. */
  lemma EditorRoundTrip(raw: string)
    requires Parse(raw).Ok?
    ensures JoinEntries(EntriesOf(Segments(raw))) == raw <==> forall p :: p in Segments(raw) ==> !HasBlankSide(p)
  {
    var parts := Segments(raw);
    NoErrorMeansClean(raw);
    CleanSegments(raw, 0);
    KeptTexts(parts);
    SegmentsJoinBack(raw, 0);
    assert raw[0..] == raw;
    JoinLength(parts);
    var texts := NonEmptyTexts(EntriesOf(parts));
    if texts != [] {
      JoinLength(texts);
    }
  }

  lemma {:induction false} AsciiPartsHaveText(parts: seq<string>)
    requires RulesOf(parts).Ok? && forall p, i :: p in parts && 0 <= i < |p| ==> p[i] as int < 128
    ensures forall p :: p in parts ==> !HasBlankSide(p)
  {
    if parts != [] {
      AsciiPartsHaveText(parts[1..]);
      assert parts == [parts[0]] + parts[1..];
      var part := parts[0];
      assert part in parts && RuleOf(part).Ok?;
      if part != "\\a" && part != "\\A" {
        SameCut(part);
        var k := OnlySeparator(part).value;
        assert SeparatorAt(part, k);
        assert part[..k] != "" && part[k + 2..] != "";
        assert part[..k][0] as int < 128 && part[k + 2..][0] as int < 128;
      }
    }
  }

  lemma {:induction false} SegmentCharacters(s: string, start: nat)
    requires start <= |s| && forall i :: 0 <= i < |s| ==> s[i] as int < 128
    ensures forall p, i :: p in SegmentsFrom(s, start) && 0 <= i < |p| ==> p[i] as int < 128
    decreases |s| - start
  {
    var k := NextCut(s, start);
    if k < |s| {
      SegmentCharacters(s, k + 1);
    }
  }

  /** On accepted ASCII text the editor's split and join cancel out. */
  lemma AsciiRoundTrip(raw: string)
    requires Parse(raw).Ok? && forall i :: 0 <= i < |raw| ==> raw[i] as int < 128
    ensures JoinEntries(EntriesOf(Segments(raw))) == raw
  {
    SegmentCharacters(raw, 0);
    AsciiPartsHaveText(Segments(raw));
    EditorRoundTrip(raw);
  }
}
