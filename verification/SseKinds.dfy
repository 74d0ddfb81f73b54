/** What the chunk rewriter takes for a stream, what it holds back, and what white space it strips. */
module SseKinds {
  import opened Common
  import opened RuleSyntax
  import opened SseStream
  import opened SseChunking
  import opened SseSeams

  const WHITE: set<byte> := {SPACE, TAB, CR, LF}

  /** A chunk counts as a stream when a field name or comment stands behind nothing but white space, or when a blank
      line is somewhere in it. */
  lemma StreamChunks(p: Bytes)
    ensures IsSseChunk(p) <==>
            || Leads(p, WHITE, STARTS)
            || exists i :: OccursAt(p, i, Ascii("\n\n")) || OccursAt(p, i, Ascii("\r\n\r\n"))
  {
    NamesAreAscii();
    assert Ascii("\n\n") == [LF, LF] && Ascii("\r\n\r\n") == [CR, LF, CR, LF];
    var names := [DATA, EVENT, [COLON]];
    assert STARTS == names;
    LeadsOneOf(p, WHITE, names);
    LeadsIsPrefix(p, WHITE, DATA);
    LeadsIsPrefix(p, WHITE, EVENT);
    LeadsIsPrefix(p, WHITE, [COLON]);
    assert names[0] == DATA && names[1] == EVENT && names[2] == [COLON];
  }

  /** The proper start of a field name or comment stands at the end of `p`, behind nothing but white space. */
  predicate EndsInStart(p: Bytes) {
    exists k :: 0 <= k < |p| && OnlyOf(p[..k], WHITE) && StartsSome(p[k..])
  }

  predicate StartsSome(t: Bytes) { exists i :: 0 <= i < |STARTS| && t < STARTS[i] }

  lemma StartsNamed(t: Bytes)
    ensures StartsSome(t) <==> t < DATA || t < EVENT || t < [COLON]
    ensures t != [] && StartsSome(t) ==> t[0] !in WHITE && CR !in t && LF !in t && COLON !in t
  {
    NamesAreAscii();
    assert STARTS == [DATA, EVENT, [COLON]];
    assert STARTS[0] == DATA && STARTS[1] == EVENT && STARTS[2] == [COLON];
    if t < DATA {
      assert t == DATA[..|t|];
    }
    if t < EVENT {
      assert t == EVENT[..|t|];
    }
  }

  /** Only such a chunk is held back. */
  lemma HeldChunks(p: Bytes)
    ensures IsIncompletePrefix(p) <==> EndsInStart(p)
  {
    var j := TrimmedAt(p, WHITE);
    assert forall i :: 0 <= i < j ==> p[i] == p[..j][i];
    StartsNamed(p[j..]);
    if k :| 0 <= k < |p| && OnlyOf(p[..k], WHITE) && StartsSome(p[k..]) {
      StartsNamed(p[k..]);
      assert forall i :: 0 <= i < k ==> p[i] == p[..k][i];
      assert p[k..][0] == p[k];
      assert j == k;
    }
  }

  lemma NoField(line: Bytes)
    requires DATA <= line
    ensures COLON in line
  {
    assert DATA[4] == COLON && line[4] == DATA[4];
  }

  lemma {:induction false} NoColonKeeps(host: Host, event: Bytes)
    requires COLON !in event
    ensures KeepsPayloads(host, event)
    decreases |event|
  {
    if event != [] {
      var (line, _, rest) := FirstLine(event);
      assert forall x :: x in line || x in rest ==> x in event;
      if DATA <= line {
        NoField(line);
      }
      NoColonKeeps(host, rest);
    }
  }

  /** Bytes that are still held back when the stream ends go out unchanged. */
  lemma HeldBytesArrive(host: Host, p: Bytes, sseMode: bool)
    requires IsIncompletePrefix(p) && !IsSseChunk(p)
    ensures Concat(StreamFlush(host, StreamState(EMPTY, p, sseMode)).1) == p
  {
    HeldChunks(p);
    var k :| 0 <= k < |p| && OnlyOf(p[..k], WHITE) && StartsSome(p[k..]);
    StartsNamed(p[k..]);
    assert p == p[..k] + p[k..];
    assert COLON !in p[..k];
    assert p[|p| - 1] == p[k..][|p| - k - 1];
    NoColonKeeps(host, p);
    RewriteKeeps(host, p);
    assert EventDelimiter(p) == (0, 0);
    OneWrite(host, p);
  }

  /** One write and a flush of a text without a delimiter. */
  lemma OneWrite(host: Host, p: Bytes)
    requires p != [] && EventDelimiter(p).1 == 0 && Concat(RewrittenLines(host, p)) == p
    ensures var (sse, chunks) := SseWrite(host, EMPTY, p);
            Concat(chunks + SseFlush(host, sse).1) == p
  {
    var none: seq<Bytes> := [];
    assert [] + p == p && none + [p] + none == [p] && none + RewrittenLines(host, p) == RewrittenLines(host, p);
    assert [p][1..] == [] && p + [] == p;
    assert Extract(p) == ([], p);
  }

  // ------------------------------------------------------------------- white space

  /** The UTF-8 bytes of a character below U+10000. */
  function Utf8(c: char): (b: Bytes)
    requires c as int < 0x10000
    ensures 1 <= |b| <= 3
  {
    var u := c as int;
    if u < 0x80 then [u as byte]
    else if u < 0x800 then [(0xc0 + u / 64) as byte, (0x80 + u % 64) as byte]
    else [(0xe0 + u / 4096) as byte, (0x80 + u / 64 % 64) as byte, (0x80 + u % 64) as byte]
  }

  /** The bytes are one white space character. */
  ghost predicate IsOneSpace(t: Bytes) { exists c :: IsSpace(c) && Utf8(c) == t }

  predicate SpaceBytes(t: Bytes) {
    || (|t| == 1 && (9 <= t[0] <= 13 || t[0] == 32))
    || (|t| == 2 && t[0] == 0xc2 && (t[1] == 0x85 || t[1] == 0xa0))
    || (|t| == 3 && IsWideSpace(t))
  }

  lemma SpaceBytesOf(c: char)
    requires IsSpace(c)
    ensures SpaceBytes(Utf8(c))
  {
    var u := c as int;
    if 0x2000 <= u <= 0x200a {
      assert u / 4096 == 2 && u / 64 % 64 == 0 && u % 64 == u - 0x2000;
    }
  }

  lemma OneSpace(t: Bytes)
    ensures IsOneSpace(t) <==> SpaceBytes(t)
  {
    forall c | IsSpace(c) && Utf8(c) == t ensures SpaceBytes(t) {
      SpaceBytesOf(c);
    }
    if SpaceBytes(t) {
      var u := if |t| == 1 then t[0] as int else if |t| == 2 then t[1] as int
               else (t[0] as int - 0xe0) * 4096 + (t[1] as int - 0x80) * 64 + t[2] as int - 0x80;
      assert IsSpace(u as char);
      assert Utf8(u as char) == t;
    }
  }

  lemma Leading(b: Bytes)
    ensures var n := LeadingSpace(b);
            if n > 0 then IsOneSpace(b[..n]) else forall k :: 0 <= k <= |b| ==> !IsOneSpace(b[..k])
  {
    var n := LeadingSpace(b);
    if n > 0 {
      OneSpace(b[..n]);
    } else {
      forall k | 0 <= k <= |b| ensures !IsOneSpace(b[..k]) {
        OneSpace(b[..k]);
      }
    }
  }

  /** The last bytes from `k` on, one by one. */
  lemma Suffix(b: Bytes, k: nat)
    requires k <= |b|
    ensures SpaceBytes(b[k..]) ==> TrailingSpace(b) > 0
    ensures TrailingSpace(b) == |b| - k > 0 ==> SpaceBytes(b[k..])
  {
    var t, m := b[k..], |b|;
    if |t| == 1 {
      assert t[0] == b[m - 1];
    } else if |t| == 2 {
      assert t[0] == b[m - 2] && t[1] == b[m - 1];
    } else if |t| == 3 {
      assert t == b[m - 3..];
    }
  }

  lemma Trailing(b: Bytes)
    ensures var n := TrailingSpace(b);
            if n > 0 then IsOneSpace(b[|b| - n..]) else forall k :: 0 <= k <= |b| ==> !IsOneSpace(b[k..])
  {
    var n := TrailingSpace(b);
    if n > 0 {
      Suffix(b, |b| - n);
      OneSpace(b[|b| - n..]);
    } else {
      forall k | 0 <= k <= |b| ensures !IsOneSpace(b[k..]) {
        Suffix(b, k);
        OneSpace(b[k..]);
      }
    }
  }

  ghost predicate NoSpaceAtEnds(t: Bytes) {
    forall k :: 0 <= k <= |t| ==> !IsOneSpace(t[..k]) && !IsOneSpace(t[k..])
  }

  ghost predicate AllSpaces(ts: seq<Bytes>) { forall t :: t in ts ==> IsOneSpace(t) }

  /** What stands around a trimmed text is white space characters, and the trimmed text neither starts nor ends with
      any. */
  lemma {:induction false} TrimmedOf(b: Bytes) returns (before: seq<Bytes>, after: seq<Bytes>)
    ensures b == Concat(before) + TrimSpace(b) + Concat(after) && AllSpaces(before) && AllSpaces(after)
    ensures NoSpaceAtEnds(TrimSpace(b))
    decreases |b|
  {
    Leading(b);
    Trailing(b);
    if LeadingSpace(b) > 0 {
      var n := LeadingSpace(b);
      var inner;
      inner, after := TrimmedOf(b[n..]);
      before := [b[..n]] + inner;
      ConcatFirst(b[..n], inner);
      CutFront(b, n, Concat(inner), TrimSpace(b), Concat(after));
    } else if TrailingSpace(b) > 0 {
      var n := |b| - TrailingSpace(b);
      var inner;
      before, inner := TrimmedOf(b[..n]);
      after := inner + [b[n..]];
      ConcatAppend(inner, [b[n..]]);
      assert [b[n..]][1..] == [] && b[n..] + [] == b[n..];
      CutBack(b, n, Concat(before), TrimSpace(b), Concat(inner));
    } else {
      before, after := [], [];
      assert b == [] + b + [];
    }
  }

  lemma CutFront(b: Bytes, n: nat, before: Bytes, middle: Bytes, after: Bytes)
    requires n <= |b| && b[n..] == before + middle + after
    ensures b == b[..n] + before + middle + after
  {
    assert b == b[..n] + b[n..];
  }

  lemma CutBack(b: Bytes, n: nat, before: Bytes, middle: Bytes, after: Bytes)
    requires n <= |b| && b[..n] == before + middle + after
    ensures b == before + middle + (after + b[n..])
  {
    assert b == b[..n] + b[n..];
  }
}
