/** Bare JSON values in a stream: what a client gets of each, framed as an event or as it is. */
module SseRawJson {
  import opened Common
  import opened SseStream
  import opened SseChunking
  import opened SseClient

  /** The lines of a frame, as a client reads them. */
  function FramedLines(lines: seq<Bytes>): seq<Bytes> {
    if lines == [] then [] else [DATA + [SPACE] + lines[0]] + FramedLines(lines[1..])
  }

  predicate OneLiners(lines: seq<Bytes>) { forall l :: l in lines ==> LF !in l && CR !in l }

  /** Cutting at line feeds and joining with them gives the text back. */
  lemma {:induction false} LinesJoin(p: Bytes)
    ensures Lines(p) != [] && Join(Lines(p), [LF]) == p && forall l :: l in Lines(p) ==> LF !in l
    ensures CR !in p ==> OneLiners(Lines(p))
    decreases |p|
  {
    var end := IndexFrom(p, 0, [LF]);
    if end.None? {
      forall i | 0 <= i < |p| ensures p[i] != LF {
        assert !OccursAt(p, i, [LF]) && p[i..i + 1] == [p[i]];
      }
    } else {
      var k := end.value;
      OccursByte(p, k, [LF], 0);
      forall i | 0 <= i < k ensures p[i] != LF {
        assert !OccursAt(p, i, [LF]) && p[i..i + 1] == [p[i]];
      }
      LinesJoin(p[k + 1..]);
      assert p == p[..k] + [LF] + p[k + 1..];
      assert Lines(p)[1..] == Lines(p[k + 1..]);
    }
  }

  lemma {:induction false} FrameReads(lines: seq<Bytes>, more: Bytes)
    requires OneLiners(lines)
    ensures ClientLines(FrameLines(lines) + [LF] + more) == FramedLines(lines) + [[]] + ClientLines(more)
  {
    if lines == [] {
      var none: Bytes := [];
      assert FrameLines(lines) + [LF] + more == none + [LF] + more;
      FirstClientLine(none, [LF], more);
    } else {
      assert lines[0] in lines;
      FrameReads(lines[1..], more);
      FrameStep(lines[0], FrameLines(lines[1..]), FramedLines(lines[1..]), more);
    }
  }

  lemma FrameStep(line: Bytes, frame: Bytes, framed: seq<Bytes>, more: Bytes)
    requires LF !in line && CR !in line && ClientLines(frame + [LF] + more) == framed + [[]] + ClientLines(more)
    ensures var text := DATA + [SPACE] + line;
            ClientLines(text + [LF] + frame + [LF] + more) == [text] + framed + [[]] + ClientLines(more)
  {
    var text := DATA + [SPACE] + line;
    Regroup(text + [LF], frame, [LF], more);
    FirstClientLine(text, [LF], frame + [LF] + more);
    Regroup([text], framed, [[]], ClientLines(more));
  }

  lemma {:induction false} FrameIsOneBlock(lines: seq<Bytes>, open: seq<Bytes>, more: seq<Bytes>)
    requires open + FramedLines(lines) != []
    ensures Blocks(FramedLines(lines) + [[]] + more, open) == [open + FramedLines(lines)] + Blocks(more, [])
    decreases |lines|
  {
    var all := FramedLines(lines) + [[]] + more;
    if lines == [] {
      assert all[0] == [] && all[1..] == more && open + FramedLines(lines) == open;
    } else {
      var text := DATA + [SPACE] + lines[0];
      assert all[0] == text && text != [] && all[1..] == FramedLines(lines[1..]) + [[]] + more;
      FrameIsOneBlock(lines[1..], open + [text], more);
      assert open + [text] + FramedLines(lines[1..]) == open + FramedLines(lines);
    }
  }

  lemma {:induction false} FramedDataValues(lines: seq<Bytes>)
    ensures DataValues(FramedLines(lines)) == lines
  {
    if lines != [] {
      var text := DATA + [SPACE] + lines[0];
      assert text[..|DATA|] == DATA && text[|DATA|..] == [SPACE] + lines[0] && ([SPACE] + lines[0])[1..] == lines[0];
      FramedDataValues(lines[1..]);
      assert FramedLines(lines)[1..] == FramedLines(lines[1..]);
      assert lines == [lines[0]] + lines[1..];
    }
  }

  /** The event a client gets for a framed value. */
  function FramedEvent(p: Bytes): seq<Bytes> { FramedLines(Lines(p)) }

  /** A framed value without CR is one event whose data is the value, and what follows is read on its own. */
  lemma FramedValueArrives(p: Bytes, more: Bytes)
    requires CR !in p
    ensures ClientEvents(FrameData(p) + more) == [FramedEvent(p)] + ClientEvents(more) && DataOf(FramedEvent(p)) == p
  {
    LinesJoin(p);
    var none: seq<Bytes> := [];
    FrameReads(Lines(p), more);
    assert none + FramedLines(Lines(p)) == FramedLines(Lines(p)) != [];
    FrameIsOneBlock(Lines(p), none, ClientLines(more));
    FramedDataValues(Lines(p));
  }

  // -------------------------------------------------------- values with a CR in them

  lemma {:induction false} BlockLines(lines: seq<Bytes>, open: seq<Bytes>)
    requires OneLiners(lines) && OneLiners(open)
    ensures forall e :: e in Blocks(lines, open) ==> OneLiners(e)
    decreases |lines|
  {
    if lines != [] {
      assert lines[0] in lines;
      BlockLines(lines[1..], []);
      BlockLines(lines[1..], open + [lines[0]]);
    }
  }

  lemma {:induction false} DataHasNoCr(event: seq<Bytes>)
    requires OneLiners(event)
    ensures forall v :: v in DataValues(event) ==> CR !in v
  {
    if event != [] {
      assert event[0] in event;
      DataHasNoCr(event[1..]);
    }
  }

  lemma {:induction false} JoinHasNoCr(values: seq<Bytes>)
    requires forall v :: v in values ==> CR !in v
    ensures CR !in Join(values, [LF])
  {
    if values != [] {
      assert values[0] in values;
      JoinHasNoCr(values[1..]);
    }
  }

  /** A framed value arrives as one event with that value exactly when it has no CR: a client takes every CR for a
      line break. */
  lemma FramedExactlyWithoutCr(p: Bytes)
    ensures (exists e :: ClientEvents(FrameData(p)) == [e] && DataOf(e) == p) <==> CR !in p
  {
    if CR !in p {
      FramedValueArrives(p, []);
      assert FrameData(p) + [] == FrameData(p) && [FramedEvent(p)] + ClientEvents([]) == [FramedEvent(p)];
    }
    if e :| ClientEvents(FrameData(p)) == [e] && DataOf(e) == p {
      ClientLinesHaveNoBreak(FrameData(p));
      BlockLines(ClientLines(FrameData(p)), []);
      assert e in [e];
      DataHasNoCr(e);
      JoinHasNoCr(DataValues(e));
    }
  }

  // ------------------------------------------------------------------- whole chunks

  lemma {:induction false} ValuesInOrder(host: Host, values: seq<Bytes>)
    ensures |RawValues(host, values)| == |values|
    ensures forall i :: 0 <= i < |values| ==>
              RawValues(host, values)[i] ==
              if host.frameRawJson then FrameData(host.restore(values[i]).0) else host.restore(values[i]).0
  {
    if values != [] {
      ValuesInOrder(host, values[1..]);
    }
  }

  function FramedEvents(host: Host, values: seq<Bytes>): seq<seq<Bytes>> {
    if values == [] then [] else [FramedEvent(host.restore(values[0]).0)] + FramedEvents(host, values[1..])
  }

  lemma {:induction false} FramedValuesArrive(host: Host, values: seq<Bytes>)
    requires host.frameRawJson && forall v :: v in values ==> CR !in host.restore(v).0
    ensures ClientEvents(Concat(RawValues(host, values))) == FramedEvents(host, values)
    ensures |FramedEvents(host, values)| == |values|
    ensures forall i :: 0 <= i < |values| ==> DataOf(FramedEvents(host, values)[i]) == host.restore(values[i]).0
  {
    if values != [] {
      var p := host.restore(values[0]).0;
      assert values[0] in values;
      FramedValuesArrive(host, values[1..]);
      FramedValueArrives(p, Concat(RawValues(host, values[1..])));
      ConcatFirst(FrameData(p), RawValues(host, values[1..]));
    }
  }

  /** A chunk of bare JSON values: framed, a client gets one event per value, in order, whose data is the value with
      the model name restored; unframed, the values come out restored, in order and one by one. A chunk that is not
      a row of values comes out as it is, as one event if it is a single JSON text to be framed. */
  lemma RawJsonArrives(host: Host, p: Bytes)
    ensures var out, values := RawJsonChunks(host, p), SplitValues(host, p);
            match values
            case Some(vs) =>
              |out| == |vs| &&
              (!host.frameRawJson ==> forall i :: 0 <= i < |vs| ==> out[i] == host.restore(vs[i]).0) &&
              (host.frameRawJson && (forall v :: v in vs ==> CR !in host.restore(v).0) ==>
                 var events := ClientEvents(Concat(out));
                 |events| == |vs| && forall i :: 0 <= i < |vs| ==> DataOf(events[i]) == host.restore(vs[i]).0)
            case None =>
              if host.frameRawJson && host.valid(p) then
                CR !in p ==> ClientEvents(Concat(out)) == [FramedEvent(p)] && DataOf(FramedEvent(p)) == p
              else
                out == [p]
  {
    var values := SplitValues(host, p);
    if values.Some? {
      ValuesInOrder(host, values.value);
      if host.frameRawJson && forall v :: v in values.value ==> CR !in host.restore(v).0 {
        FramedValuesArrive(host, values.value);
      }
    } else if host.frameRawJson && host.valid(p) && CR !in p {
      FramedValueArrives(p, []);
      var out := [FrameData(p)];
      assert RawJsonChunks(host, p) == out && out[1..] == [] && Concat(out) == FrameData(p) + [];
      assert [FramedEvent(p)] + ClientEvents([]) == [FramedEvent(p)];
    }
  }

  // ------------------------------------------------------------------- whole runs

  /** The chunk after its own restoring, which is tried on the whole of it first. */
  function RestoredChunk(host: Host, p: Bytes): Bytes { if host.restore(p).1 then host.restore(p).0 else p }

  function RawOutput(host: Host, chunks: seq<Bytes>): seq<Bytes> {
    if chunks == [] then [] else RawJsonChunks(host, RestoredChunk(host, chunks[0])) + RawOutput(host, chunks[1..])
  }

  /** Neither a stream nor the start of one. */
  predicate IsRaw(p: Bytes) { !IsSseChunk(p) && !IsIncompletePrefix(p) }

  /** Chunks that are no stream are handled one by one, and nothing is held back or left over. */
  lemma {:induction false} RawRun(host: Host, chunks: seq<Bytes>)
    requires forall p :: p in chunks ==> IsRaw(p)
    ensures StreamRun(host, START, chunks) == (START, RawOutput(host, chunks))
    ensures StreamOutput(host, chunks) == RawOutput(host, chunks)
    decreases |chunks|
  {
    var out, none: seq<Bytes> := RawOutput(host, chunks), [];
    if chunks != [] {
      assert chunks[0] in chunks && [] + chunks[0] == chunks[0];
      RawRun(host, chunks[1..]);
    }
    assert out + none == out;
  }
}
