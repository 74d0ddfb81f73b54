/** What the audit reader makes of a file, told by the events in it: which event begins and which ends an operation,
    what its item holds field by field, and which lines are warned about. */
module AuditFields {
  import opened Common
  import opened Sorting
  import opened AuditJournal
  import opened AuditReader

  // ------------------------------------------------------------------------- items

  /** What an item has from the start of its operation, whatever follows. */
  predicate StartedBy(item: Item, start: Event) {
    item.id == start.id && item.actor == start.actor && item.action == start.action && item.owner == start.owner &&
    item.objectType == start.objectType && item.objectRef == start.objectRef && item.startedAt == start.at
  }

  /** An operation that has begun and not ended. */
  predicate IsBegun(item: Item, start: Event, outcome: string) {
    StartedBy(item, start) && NamedBy(item, start) && item.outcome == outcome && item.finishedAt == None &&
    item.changed == None && item.changes == map[] && item.errorCode == ""
  }

  predicate NamedBy(item: Item, start: Event) { item.objectLabel == start.objectLabel && item.labels == start.labels }

  /** The finish names the object where it can, the start where the finish does not. */
  predicate Renamed(item: Item, start: Event, fin: Event) {
    && item.objectLabel == (if fin.objectLabel == "" then start.objectLabel else fin.objectLabel)
    && item.labels.Keys == start.labels.Keys + fin.labels.Keys
    && (forall k :: k in fin.labels ==> item.labels[k] == fin.labels[k])
    && (forall k :: k in start.labels && k !in fin.labels ==> item.labels[k] == start.labels[k])
  }

  /** An operation that has ended. */
  predicate IsEnded(item: Item, start: Event, fin: Event) {
    StartedBy(item, start) && Renamed(item, start, fin) && item.finishedAt == Some(fin.at) &&
    item.outcome == fin.outcome && item.changed == fin.changed && item.errorCode == fin.errorCode &&
    item.changes == fin.changes
  }

  /** An operation whose end is in doubt: the finish may have named the object, and says nothing else. */
  predicate IsInDoubt(item: Item, start: Event, fin: Event) {
    StartedBy(item, start) && (NamedBy(item, start) || Renamed(item, start, fin)) && item.outcome == "unknown" &&
    item.finishedAt == None && item.changed == None && item.changes == map[] &&
    item.errorCode == "audit_write_failed"
  }

  lemma StartedItem(start: Event, running: bool)
    ensures IsBegun(StartItem(start, running), start, if running then "running" else "unknown")
  {}

  lemma FinishedItem(item: Item, start: Event, fin: Event, outcome: string)
    requires IsBegun(item, start, outcome)
    ensures IsEnded(Finished(item, fin), start, fin)
  {}

  lemma DoubtedItem(item: Item, start: Event, fin: Event, outcome: string)
    requires IsBegun(item, start, outcome) || IsEnded(item, start, fin)
    ensures IsInDoubt(Doubted(item), start, fin)
  {}

  /** What an end may say: how it went, and whether it changed anything. */
  const ENDS: set<(string, Option<bool>)> :=
    {("succeeded", Some(true)), ("succeeded", Some(false)), ("failed", Some(false)), ("unknown", None)}

  /** Which events written by this version are accepted. */
  lemma AcceptedEvents(e: Event, id: string, at: int)
    ensures ValidEvent(FinishOf(e, id, at)) <==>
            id != "" && at != 0 && e.owner != "" && (e.outcome, e.changed) in ENDS
    ensures ValidEvent(StartOf(e, id, at)) <==>
            id != "" && at != 0 && e.owner != "" && e.actor == "management_api" && e.action != "" &&
            e.objectType != "" && e.objectRef != "" && e.outcome == ""
  {
    assert "start"[0] != "finish"[0];
    assert e.changed == None || if e.changed.value then e.changed == Some(true) else e.changed == Some(false);
    assert "succeeded"[0] == 's' && "failed"[0] == 'f' && "unknown"[0] == 'u';
  }

  // ------------------------------------------------------------- first start, first finish

  predicate Opens(e: Event, id: string) { ValidEvent(e) && e.id == id && e.phase == "start" }

  predicate Closes(e: Event, id: string, since: int) {
    ValidEvent(e) && e.id == id && e.phase == "finish" && e.at >= since
  }

  predicate NeverOpened(events: seq<Event>, id: string) { forall i :: 0 <= i < |events| ==> !Opens(events[i], id) }

  predicate FirstStart(events: seq<Event>, id: string, i: nat) {
    i < |events| && Opens(events[i], id) && forall j :: 0 <= j < i ==> !Opens(events[j], id)
  }

  predicate NeverClosed(events: seq<Event>, id: string, i: nat)
    requires i < |events|
  {
    forall k :: i < k < |events| ==> !Closes(events[k], id, events[i].at)
  }

  predicate FirstFinish(events: seq<Event>, id: string, i: nat, k: nat)
    requires i < |events|
  {
    i < k < |events| && Closes(events[k], id, events[i].at) &&
    forall j :: i < j < k ==> !Closes(events[j], id, events[i].at)
  }

  /** The item as it follows from the start at `i`: ended by the first finish behind it, if there is one. */
  ghost predicate FollowsFrom(events: seq<Event>, id: string, running: bool, item: Item, i: nat) {
    FirstStart(events, id, i) &&
    if NeverClosed(events, id, i) then IsBegun(item, events[i], if running then "running" else "unknown")
    else exists k: nat :: FirstFinish(events, id, i, k) && IsEnded(item, events[i], events[k])
  }

  /** What the item of an operation is after these events. */
  ghost predicate FollowsEvents(events: seq<Event>, id: string, running: bool, item: Option<Item>) {
    if item.None? then NeverOpened(events, id) else exists i: nat :: FollowsFrom(events, id, running, item.value, i)
  }

  lemma OpenedByLast(events: seq<Event>, e: Event, id: string, running: bool)
    requires NeverOpened(events, id) && Opens(e, id)
    ensures FollowsFrom(events + [e], id, running, StartItem(e, running), |events|)
  {
    assert (events + [e])[|events|] == e;
    StartedItem(e, running);
  }

  lemma ClosedByLast(events: seq<Event>, e: Event, id: string, running: bool, item: Item, i: nat)
    requires FirstStart(events, id, i) && NeverClosed(events, id, i) && Closes(e, id, events[i].at)
    requires IsBegun(item, events[i], if running then "running" else "unknown")
    ensures FollowsFrom(events + [e], id, running, Finished(item, e), i)
  {
    var all := events + [e];
    assert all[|events|] == e;
    FinishedItem(item, events[i], e, if running then "running" else "unknown");
    assert FirstFinish(all, id, i, |events|);
  }

  lemma NotClosedByLast(events: seq<Event>, e: Event, id: string, running: bool, item: Item, i: nat)
    requires FollowsFrom(events, id, running, item, i)
    requires NeverClosed(events, id, i) ==> !Closes(e, id, events[i].at)
    ensures FollowsFrom(events + [e], id, running, item, i)
  {
    var all := events + [e];
    assert all[|events|] == e;
    if !NeverClosed(events, id, i) {
      var k: nat :| FirstFinish(events, id, i, k) && IsEnded(item, events[i], events[k]);
      assert FirstFinish(all, id, i, k);
    }
  }

  lemma NotOpenedByLast(events: seq<Event>, e: Event, id: string)
    requires NeverOpened(events, id) && !Opens(e, id)
    ensures NeverOpened(events + [e], id)
  {
    assert (events + [e])[|events|] == e;
  }

  /** One more event. */
  lemma FollowsOneMore(events: seq<Event>, e: Event, id: string, running: bool, item: Option<Item>)
    requires FollowsEvents(events, id, running, item) && e.id == id
    ensures var next := Absorb(item, e, running);
            FollowsEvents(events + [e], id, running, if next.Ok? then Some(next.value) else item)
  {
    assert "start"[0] != "finish"[0];
    if item.None? {
      if Opens(e, id) {
        OpenedByLast(events, e, id, running);
      } else {
        NotOpenedByLast(events, e, id);
      }
    } else {
      var i: nat :| FollowsFrom(events, id, running, item.value, i);
      if NeverClosed(events, id, i) && Closes(e, id, events[i].at) {
        ClosedByLast(events, e, id, running, item.value, i);
      } else {
        NotClosedByLast(events, e, id, running, item.value, i);
      }
    }
  }

  lemma {:induction false} ReadAppend(items: map<string, Item>, events: seq<Event>, e: Event,
      running: map<string, string>, path: string)
    ensures ReadAll(items, events + [e], running, path) ==
            Read(ReadAll(items, events, running, path), e, running, path)
    decreases |events|
  {
    if events == [] {
      assert events + [e] == [e] && [e][1..] == [];
    } else {
      assert (events + [e])[0] == events[0] && (events + [e])[1..] == events[1..] + [e];
      ReadAppend(Read(items, events[0], running, path), events[1..], e, running, path);
    }
  }

  /** Whatever is in the file, the item of an operation follows from its first start and the first finish behind it
      that is not older; no other event touches it. */
  lemma {:induction false} ItemFollowsEvents(events: seq<Event>, running: map<string, string>, path: string,
      id: string)
    ensures FollowsEvents(events, id, IsRunning(running, id, path),
                          Lookup(ReadAll(map[], events, running, path), id))
    decreases |events|
  {
    if events != [] {
      var init, e := events[..|events| - 1], events[|events| - 1];
      assert events == init + [e];
      ItemFollowsEvents(init, running, path, id);
      ReadAppend(map[], init, e, running, path);
      var items := ReadAll(map[], init, running, path);
      if e.id == id {
        FollowsOneMore(init, e, id, IsRunning(running, id, path), Lookup(items, id));
      } else {
        FollowsOther(init, e, id, IsRunning(running, id, path), Lookup(items, id));
      }
    }
  }

  lemma FollowsOther(events: seq<Event>, e: Event, id: string, running: bool, item: Option<Item>)
    requires FollowsEvents(events, id, running, item) && e.id != id
    ensures FollowsEvents(events + [e], id, running, item)
  {
    if item.None? {
      NotOpenedByLast(events, e, id);
    } else {
      var i: nat :| FollowsFrom(events, id, running, item.value, i);
      NotClosedByLast(events, e, id, running, item.value, i);
    }
  }

  // ---------------------------------------------------------------------- warnings

  /** Why an event behind `events` is refused, if it is. */
  ghost predicate RefusedAs(events: seq<Event>, text: Option<Event>, code: string) {
    if text.None? || !ValidEvent(text.value) then code == "invalid_event"
    else
      var e := text.value;
      if NeverOpened(events, e.id) then e.phase == "finish" && code == "orphan_finish"
      else if e.phase == "start" then code == "duplicate_start"
      else exists i: nat :: FirstStart(events, e.id, i) &&
             if !NeverClosed(events, e.id, i) then code == "duplicate_finish"
             else e.at < events[i].at && code == "invalid_event_order"
  }

  /** The warning for a line, from the events in front of it. */
  lemma WarningIs(events: seq<Event>, text: Option<Event>, running: map<string, string>, path: string, line: nat,
      code: string)
    ensures var warnings := WarningFor(ReadAll(map[], events, running, path), text, running, path, line);
            |warnings| <= 1 && (warnings == [Warning(line, code)] <==> RefusedAs(events, text, code)) &&
            (warnings == [] <==> forall any :: !RefusedAs(events, text, any))
  {
    if text.Some? && ValidEvent(text.value) {
      var e := text.value;
      ItemFollowsEvents(events, running, path, e.id);
      var item := Lookup(ReadAll(map[], events, running, path), e.id);
      var next := Absorb(item, e, IsRunning(running, e.id, path));
      RefusalIs(events, e, IsRunning(running, e.id, path), item);
      assert next.Err? ==> RefusedAs(events, text, next.error);
    } else {
      assert RefusedAs(events, text, "invalid_event");
    }
  }

  lemma RefusalIs(events: seq<Event>, e: Event, running: bool, item: Option<Item>)
    requires ValidEvent(e) && FollowsEvents(events, e.id, running, item)
    ensures forall code :: RefusedAs(events, Some(e), code) <==> Absorb(item, e, running) == Err(code)
  {
    assert "start"[0] != "finish"[0];
    if item.Some? {
      var i: nat :| FollowsFrom(events, e.id, running, item.value, i);
      assert !NeverOpened(events, e.id);
      assert forall j: nat :: FirstStart(events, e.id, j) ==> j == i;
    }
  }

  ghost predicate Warned(c: Codec, lines: seq<Bytes>, k: nat, code: string)
    requires k < |lines|
  {
    RefusedAs(DecodeLines(c, lines[..k]), c.decode(lines[k]), code)
  }

  lemma {:induction false} WarningsFrom(c: Codec, lines: seq<Bytes>, running: map<string, string>, path: string, n: nat)
    requires n <= |lines|
    ensures var items := ReadAll(map[], DecodeLines(c, lines[..n]), running, path);
            var warnings := Warnings(c, items, lines[n..], running, path, n + 1);
            && (forall w :: w in warnings <==> n < w.line <= |lines| && Warned(c, lines, w.line - 1, w.code))
            && (forall i, j :: 0 <= i < j < |warnings| ==> warnings[i].line < warnings[j].line)
    decreases |lines| - n
  {
    if n < |lines| {
      var before, text := DecodeLines(c, lines[..n]), c.decode(lines[n]);
      var items := ReadAll(map[], before, running, path);
      var first := WarningFor(items, text, running, path, n + 1);
      var rest := Warnings(c, AfterLine(items, text, running, path), lines[n + 1..], running, path, n + 2);
      NextItems(c, lines, running, path, n);
      WarningsFrom(c, lines, running, path, n + 1);
      assert lines[n..][0] == lines[n] && lines[n..][1..] == lines[n + 1..];
      forall code ensures |first| <= 1 && (first == [Warning(n + 1, code)] <==> Warned(c, lines, n, code)) {
        WarningIs(before, text, running, path, n + 1, code);
      }
      FirstWarning(c, lines, n, first, rest);
    }
  }

  lemma FirstWarning(c: Codec, lines: seq<Bytes>, n: nat, first: seq<Warning>, rest: seq<Warning>)
    requires n < |lines|
    requires forall code :: |first| <= 1 && (first == [Warning(n + 1, code)] <==> Warned(c, lines, n, code))
    requires forall w :: w in first ==> w.line == n + 1
    requires forall w :: w in rest <==> n + 1 < w.line <= |lines| && Warned(c, lines, w.line - 1, w.code)
    requires forall i, j :: 0 <= i < j < |rest| ==> rest[i].line < rest[j].line
    ensures var all := first + rest;
            && (forall w :: w in all <==> n < w.line <= |lines| && Warned(c, lines, w.line - 1, w.code))
            && (forall i, j :: 0 <= i < j < |all| ==> all[i].line < all[j].line)
  {
    var all := first + rest;
    forall w ensures w in first <==> w.line == n + 1 && Warned(c, lines, n, w.code) {
      assert first == [Warning(n + 1, w.code)] <==> Warned(c, lines, n, w.code);
    }
  }

  lemma NextItems(c: Codec, lines: seq<Bytes>, running: map<string, string>, path: string, n: nat)
    requires n < |lines|
    ensures ReadAll(map[], DecodeLines(c, lines[..n + 1]), running, path) ==
            AfterLine(ReadAll(map[], DecodeLines(c, lines[..n]), running, path), c.decode(lines[n]), running, path)
  {
    var text := c.decode(lines[n]);
    assert lines[..n + 1] == lines[..n] + [lines[n]];
    DecodeAppend(c, lines[..n], [lines[n]]);
    assert [lines[n]][1..] == [];
    assert DecodeLines(c, [lines[n]]) == if text.Some? then [text.value] else [];
    if text.Some? {
      ReadAppend(map[], DecodeLines(c, lines[..n]), text.value, running, path);
    } else {
      assert DecodeLines(c, lines[..n]) + [] == DecodeLines(c, lines[..n]);
    }
  }

  /** The warnings for a file are exactly its refused lines, by number and in order, each with the reason that the
      lines in front of it give. */
  lemma WarningsListRefusals(c: Codec, lines: seq<Bytes>, running: map<string, string>, path: string)
    ensures var warnings := Warnings(c, map[], lines, running, path, 1);
            && (forall w :: w in warnings <==> 0 < w.line <= |lines| && Warned(c, lines, w.line - 1, w.code))
            && (forall i, j :: 0 <= i < j < |warnings| ==> warnings[i].line < warnings[j].line)
  {
    WarningsFrom(c, lines, running, path, 0);
    assert lines[0..] == lines && lines[..0] == [];
  }

  // ------------------------------------------------------------------- the listing

  /** A listing runs from the newest start to the oldest, and from the greatest ID to the least among equal times. */
  lemma ListingRunsDown(listing: seq<Item>, report: map<string, Item>, i: nat, j: nat)
    requires IsListing(listing, report) && i < j < |listing|
    ensures listing[i].startedAt >= listing[j].startedAt
    ensures listing[i].startedAt == listing[j].startedAt ==> exists k: nat :: LessAt(listing[j].id, listing[i].id, k)
  {
    assert Precedes(listing[i], listing[j]);
    LeqIsLexicographic(listing[j].id, listing[i].id);
  }
}
