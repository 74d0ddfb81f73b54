/** Reading a day of the audit journal back into operations, and what a run of operations reports. */
module AuditReader {
  import opened Common
  import opened Sorting
  import opened AuditJournal

  datatype Item = Item(
    id: string, actor: string, action: string, owner: string, objectType: string, objectRef: string,
    objectLabel: string, labels: map<string, string>, startedAt: int, finishedAt: Option<int>,
    outcome: string, changed: Option<bool>, changes: map<string, Change>, errorCode: string)

  datatype Warning = Warning(line: nat, code: string)

  predicate ValidEvent(e: Event) {
    && e.id != "" && e.at != 0
    && (e.version == 1 || (e.version == 2 && e.owner != ""))
    && if e.phase == "start" then
         e.actor == "management_api" && e.action != "" && e.objectType != "" && e.objectRef != "" && e.outcome == ""
       else
         && e.phase == "finish"
         && ((e.outcome == "succeeded" && e.changed.Some?) ||
             (e.outcome == "failed" && e.changed == Some(false)) ||
             (e.outcome == "unknown" && e.changed == None))
  }

  function StartItem(e: Event, running: bool): Item {
    Item(e.id, e.actor, e.action, e.owner, e.objectType, e.objectRef, e.objectLabel, e.labels, e.at, None,
         if running then "running" else "unknown", None, map[], "")
  }

  /** The finish wins over the start; labels are merged. */
  function Finished(item: Item, e: Event): Item {
    item.(finishedAt := Some(e.at), outcome := e.outcome, changed := e.changed, errorCode := e.errorCode,
          objectLabel := if e.objectLabel != "" then e.objectLabel else item.objectLabel,
          labels := item.labels + e.labels,
          changes := if e.changes != map[] then e.changes else item.changes)
  }

  /** What one event does to the item of its operation, or why it is skipped. */
  function Absorb(item: Option<Item>, e: Event, running: bool): Result<Item, string> {
    if !ValidEvent(e) then Err("invalid_event")
    else if e.phase == "start" then
      if item.Some? then Err("duplicate_start") else Ok(StartItem(e, running))
    else if item.None? then Err("orphan_finish")
    else if item.value.finishedAt.Some? then Err("duplicate_finish")
    else if e.at < item.value.startedAt then Err("invalid_event_order")
    else Ok(Finished(item.value, e))
  }

  function Lookup(items: map<string, Item>, id: string): Option<Item> { if id in items then Some(items[id]) else None }

  predicate IsRunning(running: map<string, string>, id: string, path: string) { id in running && running[id] == path }

  function Read(items: map<string, Item>, e: Event, running: map<string, string>, path: string): map<string, Item> {
    match Absorb(Lookup(items, e.id), e, IsRunning(running, e.id, path))
    case Ok(item) => items[e.id := item]
    case Err(_) => items
  }

  function ReadAll(items: map<string, Item>, events: seq<Event>, running: map<string, string>,
      path: string): map<string, Item>
    decreases |events|
  {
    if events == [] then items else ReadAll(Read(items, events[0], running, path), events[1..], running, path)
  }

  /** The items after a line that decodes to `text`. */
  function AfterLine(items: map<string, Item>, text: Option<Event>, running: map<string, string>, path: string):
      map<string, Item> {
    if text.Some? then Read(items, text.value, running, path) else items
  }

  /** The warning for line `line`, if its text or its event is refused. */
  function WarningFor(items: map<string, Item>, text: Option<Event>, running: map<string, string>, path: string,
      line: nat): seq<Warning> {
    if text.None? then [Warning(line, "invalid_event")]
    else
      match Absorb(Lookup(items, text.value.id), text.value, IsRunning(running, text.value.id, path))
      case Ok(_) => []
      case Err(code) => [Warning(line, code)]
  }

  /** The warnings for `lines`, numbered from `line`. */
  function Warnings(c: Codec, items: map<string, Item>, lines: seq<Bytes>, running: map<string, string>,
      path: string, line: nat): seq<Warning>
    decreases |lines|
  {
    if lines == [] then []
    else
      var text := c.decode(lines[0]);
      WarningFor(items, text, running, path, line) +
      Warnings(c, AfterLine(items, text, running, path), lines[1..], running, path, line + 1)
  }

  /** An operation whose finish could not be confirmed in this process. */
  function Doubted(item: Item): Item {
    item.(outcome := "unknown", changed := None, finishedAt := None, changes := map[],
        errorCode := "audit_write_failed")
  }

  function Reported(item: Item, unconfirmed: map<string, string>, path: string): Item {
    if item.id in unconfirmed && unconfirmed[item.id] == path then Doubted(item) else item
  }

  function ReportAll(items: map<string, Item>, unconfirmed: map<string, string>, path: string): map<string, Item> {
    map id | id in items :: Reported(items[id], unconfirmed, path)
  }

  /** The operations of one day, by ID. */
  function Report(c: Codec, j: Journal, path: string): map<string, Item> {
    ReportAll(ReadAll(map[], Decoded(c, FileAt(j.files, path)), j.running, path), j.unconfirmed, path)
  }

  // ---------------------------------------------------------------- the reader

  /** The bytes cut at every newline. */
  method SplitLines(raw: Bytes) returns (lines: seq<Bytes>, tail: Bytes)
    ensures lines == Lines(raw) && tail == Tail(raw)
  {
    lines, tail := [], [];
    for i := 0 to |raw|
      invariant lines == Lines(raw[..i]) && tail == Tail(raw[..i])
    {
      TakeOne(raw[..i], raw[i]);
      assert raw[..i + 1] == raw[..i] + [raw[i]];
      if raw[i] == LF {
        lines, tail := lines + [tail], [];
      } else {
        tail := tail + [raw[i]];
      }
    }
    assert raw[..|raw|] == raw;
  }

  lemma ReadStep(c: Codec, items: map<string, Item>, lines: seq<Bytes>, running: map<string, string>, path: string,
      all: map<string, Item>)
    requires lines != [] && all == ReadAll(items, DecodeLines(c, lines), running, path)
    ensures var text := c.decode(lines[0]);
            all == ReadAll(AfterLine(items, text, running, path), DecodeLines(c, lines[1..]), running, path)
  {
    var text := c.decode(lines[0]);
    if text.Some? {
      assert DecodeLines(c, lines)[0] == text.value && DecodeLines(c, lines)[1..] == DecodeLines(c, lines[1..]);
    } else {
      assert DecodeLines(c, lines) == DecodeLines(c, lines[1..]);
    }
  }

  lemma WarnStep(c: Codec, items: map<string, Item>, lines: seq<Bytes>, running: map<string, string>, path: string,
      line: nat, sofar: seq<Warning>, all: seq<Warning>)
    requires lines != [] && all == sofar + Warnings(c, items, lines, running, path, line)
    ensures var text := c.decode(lines[0]);
            all == sofar + WarningFor(items, text, running, path, line) +
                   Warnings(c, AfterLine(items, text, running, path), lines[1..], running, path, line + 1)
  {
    var text := c.decode(lines[0]);
    Associative(sofar, WarningFor(items, text, running, path, line),
      Warnings(c, AfterLine(items, text, running, path), lines[1..], running, path, line + 1));
  }

  /** One event of the line loop. */
  method ReadEvent(items: map<string, Item>, e: Event, running: map<string, string>, path: string)
    returns (items': map<string, Item>, warning: Option<string>)
    ensures items' == Read(items, e, running, path)
    ensures warning == match Absorb(Lookup(items, e.id), e, IsRunning(running, e.id, path))
                       case Ok(_) => None
                       case Err(code) => Some(code)
  {
    items' := items;
    if !ValidEvent(e) {
      return items, Some("invalid_event");
    }
    if e.phase == "start" {
      if e.id in items {
        return items, Some("duplicate_start");
      }
      var running := e.id in running && running[e.id] == path;
      return items[e.id := StartItem(e, running)], None;
    }
    if e.id !in items {
      return items, Some("orphan_finish");
    }
    var item := items[e.id];
    if item.finishedAt.Some? {
      return items, Some("duplicate_finish");
    }
    if e.at < item.startedAt {
      return items, Some("invalid_event_order");
    }
    item := MergeFinish(item, e);
    return items[e.id := item], None;
  }

  method MergeFinish(started: Item, e: Event) returns (item: Item)
    ensures item == Finished(started, e)
  {
    item := started.(finishedAt := Some(e.at), outcome := e.outcome, changed := e.changed, errorCode := e.errorCode);
    if e.objectLabel != "" {
      item := item.(objectLabel := e.objectLabel);
    }
    if |e.labels| > 0 {
      item := item.(labels := item.labels + e.labels);
    }
    if e.changes != map[] {
      item := item.(changes := e.changes);
    }
    assert started.labels + e.labels == item.labels;
  }

  /** The body of the line loop; `text` is what the decoder made of the line. */
  method ReadLine(items: map<string, Item>, text: Option<Event>, running: map<string, string>, path: string,
      line: nat, sofar: seq<Warning>)
    returns (items': map<string, Item>, warnings: seq<Warning>)
    ensures items' == AfterLine(items, text, running, path)
    ensures warnings == sofar + WarningFor(items, text, running, path, line)
  {
    if text.None? {
      return items, sofar + [Warning(line, "invalid_event")];
    }
    var warning;
    items', warning := ReadEvent(items, text.value, running, path);
    warnings := if warning.Some? then sofar + [Warning(line, warning.value)] else sofar;
  }

  /** The line loop over the whole file. */
  method ReadLines(c: Codec, lines: seq<Bytes>, running: map<string, string>, path: string)
    returns (items: map<string, Item>, warnings: seq<Warning>)
    ensures items == ReadAll(map[], DecodeLines(c, lines), running, path)
    ensures warnings == Warnings(c, map[], lines, running, path, 1)
  {
    items, warnings := map[], [];
    assert lines[0..] == lines;
    ghost var allItems := ReadAll(map[], DecodeLines(c, lines), running, path);
    ghost var allWarnings := Warnings(c, map[], lines, running, path, 1);
    for i := 0 to |lines|
      invariant allItems == ReadAll(items, DecodeLines(c, lines[i..]), running, path)
      invariant allWarnings == warnings + Warnings(c, items, lines[i..], running, path, i + 1)
    {
      ReadStep(c, items, lines[i..], running, path, allItems);
      WarnStep(c, items, lines[i..], running, path, i + 1, warnings, allWarnings);
      assert lines[i..][1..] == lines[i + 1..];
      items, warnings := ReadLine(items, c.decode(lines[i]), running, path, i + 1, warnings);
    }
  }

  method ReadAuditDay(c: Codec, raw: Bytes, running: map<string, string>, unconfirmed: map<string, string>,
      path: string)
    returns (listing: seq<Item>, warnings: seq<Warning>)
    ensures IsListing(listing, ReportAll(ReadAll(map[], Decoded(c, raw), running, path), unconfirmed, path))
    ensures warnings == Warnings(c, map[], Lines(raw), running, path, 1) +
                        if Tail(raw) == [] then [] else [Warning(|Lines(raw)| + 1, "truncated_line")]
  {
    var lines, tail := SplitLines(raw);
    var items;
    items, warnings := ReadLines(c, lines, running, path);
    if tail != [] {
      warnings := warnings + [Warning(|lines| + 1, "truncated_line")];
    }
    ItemsKnowTheirId(map[], DecodeLines(c, lines), running, path);
    listing := ListItems(map id | id in items :: Reported(items[id], unconfirmed, path));
  }

  // ---------------------------------------------------------------- the listing

  /** The newest operation first, then the greater ID. */
  predicate Precedes(a: Item, b: Item) {
    a.startedAt > b.startedAt || (a.startedAt == b.startedAt && a.id != b.id && Leq(b.id, a.id))
  }

  predicate NewestFirst(listing: seq<Item>) {
    forall i, j :: 0 <= i < j < |listing| ==> Precedes(listing[i], listing[j])
  }

  /** Every operation of the report once, the newest first. */
  ghost predicate IsListing(listing: seq<Item>, report: map<string, Item>) {
    NewestFirst(listing) && forall x :: x in listing <==> x.id in report && report[x.id] == x
  }

  function KeyOrder(): ((int, string), (int, string)) -> bool {
    (a: (int, string), b: (int, string)) => a.0 > b.0 || (a.0 == b.0 && Leq(b.1, a.1))
  }

  lemma KeyOrderIsTotal()
    ensures TotalOrder(KeyOrder())
  {
    var leq := KeyOrder();
    forall a, b ensures (leq(a, b) || leq(b, a)) && (leq(a, b) && leq(b, a) ==> a == b) {
      LeqTotal(a.1, b.1);
    }
    forall a, b, c ensures leq(a, b) && leq(b, c) ==> leq(a, c) {
      LeqTransitive(c.1, b.1, a.1);
    }
  }

  /** The sort keys of the report, each once, in whatever order the map gives them. */
  method CollectKeys(report: map<string, Item>) returns (keys: seq<(int, string)>)
    ensures Distinct(keys)
    ensures forall k :: k in keys <==> k.1 in report && k.0 == report[k.1].startedAt
  {
    keys := [];
    var left := report.Keys;
    while left != {}
      invariant left <= report.Keys && Distinct(keys)
      invariant forall k :: k in keys <==> k.1 in report && k.1 !in left && k.0 == report[k.1].startedAt
      decreases left
    {
      var id :| id in left;
      keys := keys + [(report[id].startedAt, id)];
      left := left - {id};
    }
  }

  method ListItems(report: map<string, Item>) returns (listing: seq<Item>)
    requires forall id :: id in report ==> report[id].id == id
    ensures IsListing(listing, report)
  {
    var keys := CollectKeys(report);
    var sorted := Sort(KeyOrder(), keys);
    SortedKeys(report, keys);
    listing := seq(|sorted|, i requires 0 <= i < |sorted| => report[sorted[i].1]);
    forall x ensures x in listing <==> x.id in report && report[x.id] == x {
      if x.id in report && report[x.id] == x {
        assert (x.startedAt, x.id) in sorted;
        var i :| 0 <= i < |sorted| && sorted[i] == (x.startedAt, x.id);
        assert listing[i] == x;
      }
    }
  }

  lemma SortedKeys(report: map<string, Item>, keys: seq<(int, string)>)
    requires Distinct(keys) && forall k :: k in keys <==> k.1 in report && k.0 == report[k.1].startedAt
    ensures var sorted := Sort(KeyOrder(), keys);
            && (forall k :: k in sorted <==> k.1 in report && k.0 == report[k.1].startedAt)
            && (forall i :: 0 <= i < |sorted| ==> sorted[i].1 in report && sorted[i].0 == report[sorted[i].1].startedAt)
            && (forall i, j :: 0 <= i < j < |sorted| ==> KeyOrder()(sorted[i], sorted[j]) && sorted[i] != sorted[j])
  {
    var sorted := Sort(KeyOrder(), keys);
    KeyOrderIsTotal();
    SortSorts(KeyOrder(), keys);
    SortedDistinct(KeyOrder(), keys);
    forall k ensures k in sorted <==> k in keys {
      assert k in multiset(sorted) <==> k in multiset(keys);
    }
    forall i | 0 <= i < |sorted| ensures sorted[i].1 in report && sorted[i].0 == report[sorted[i].1].startedAt {
      assert sorted[i] in sorted;
    }
  }

  /** A report has one listing, so the order the map gives its items in does not show. */
  lemma OneListing(report: map<string, Item>, a: seq<Item>, b: seq<Item>)
    requires IsListing(a, report) && IsListing(b, report)
    ensures a == b
  {
    SameListing(a, b);
  }

  lemma {:induction false} SameListing(a: seq<Item>, b: seq<Item>)
    requires NewestFirst(a) && NewestFirst(b) && forall x :: x in a <==> x in b
    ensures a == b
    decreases |a|
  {
    assert a != [] ==> a[0] in b;
    assert b != [] ==> b[0] in a;
    if a != [] {
      var i :| 0 <= i < |a| && a[i] == b[0];
      var j :| 0 <= j < |b| && b[j] == a[0];
      LeqTotal(a[0].id, b[0].id);
      assert i > 0 ==> Precedes(a[0], b[0]);
      assert j > 0 ==> Precedes(b[0], a[0]);
      assert a[0] == b[0];
      TailListing(a, b);
      SameListing(a[1..], b[1..]);
      assert a == [a[0]] + a[1..] && b == [b[0]] + b[1..];
    }
  }

  lemma TailListing(a: seq<Item>, b: seq<Item>)
    requires a != [] && b != [] && a[0] == b[0] && NewestFirst(a) && NewestFirst(b) && forall x :: x in a <==> x in b
    ensures NewestFirst(a[1..]) && NewestFirst(b[1..]) && forall x :: x in a[1..] <==> x in b[1..]
  {
    FirstIsNotInTail(a);
    FirstIsNotInTail(b);
    forall x ensures x in a[1..] <==> x in b[1..] {
      assert x in a <==> x in b;
    }
  }

  lemma FirstIsNotInTail(a: seq<Item>)
    requires a != [] && NewestFirst(a)
    ensures NewestFirst(a[1..]) && a[0] !in a[1..] && forall x :: x in a <==> x == a[0] || x in a[1..]
  {
    assert a == [a[0]] + a[1..];
    forall i | 0 <= i < |a| - 1 ensures a[1..][i] != a[0] {
      assert Precedes(a[0], a[i + 1]);
    }
  }

  // ------------------------------------------------- one operation at a time

  function EventsOf(events: seq<Event>, id: string): seq<Event> {
    if events == [] then []
    else (if events[0].id == id then [events[0]] else []) + EventsOf(events[1..], id)
  }

  /** The item of one operation, from its own events. */
  function Follow(item: Option<Item>, events: seq<Event>, running: bool): Option<Item>
    decreases |events|
  {
    if events == [] then item
    else
      var next := Absorb(item, events[0], running);
      Follow(if next.Ok? then Some(next.value) else item, events[1..], running)
  }

  /** What the reader says of an operation depends on its own events alone. */
  lemma {:induction false} OwnEventsOnly(items: map<string, Item>, events: seq<Event>,
      running: map<string, string>, path: string, id: string)
    ensures Lookup(ReadAll(items, events, running, path), id) ==
            Follow(Lookup(items, id), EventsOf(events, id), IsRunning(running, id, path))
    decreases |events|
  {
    if events != [] {
      OwnEventsOnly(Read(items, events[0], running, path), events[1..], running, path, id);
      FollowStep(items, events, running, path, id);
    }
  }

  lemma FollowStep(items: map<string, Item>, events: seq<Event>, running: map<string, string>, path: string, id: string)
    requires events != []
    ensures Follow(Lookup(items, id), EventsOf(events, id), IsRunning(running, id, path)) ==
            Follow(Lookup(Read(items, events[0], running, path), id), EventsOf(events[1..], id),
                IsRunning(running, id, path))
  {
    if events[0].id == id {
      assert EventsOf(events, id)[0] == events[0] && EventsOf(events, id)[1..] == EventsOf(events[1..], id);
    } else {
      assert EventsOf(events, id) == EventsOf(events[1..], id);
    }
  }

  lemma {:induction false} EventsOfConcat(a: seq<Event>, b: seq<Event>, id: string)
    ensures EventsOf(a + b, id) == EventsOf(a, id) + EventsOf(b, id)
  {
    if a == [] {
      assert a + b == b;
    } else {
      EventsOfConcat(a[1..], b, id);
      assert (a + b)[0] == a[0] && (a + b)[1..] == a[1..] + b;
      Associative(if a[0].id == id then [a[0]] else [], EventsOf(a[1..], id), EventsOf(b, id));
    }
  }

  lemma {:induction false} ItemsKnowTheirId(items: map<string, Item>, events: seq<Event>,
      running: map<string, string>, path: string)
    requires forall id :: id in items ==> items[id].id == id
    ensures forall id :: id in ReadAll(items, events, running, path) ==>
            ReadAll(items, events, running, path)[id].id == id
    decreases |events|
  {
    if events != [] {
      ItemsKnowTheirId(Read(items, events[0], running, path), events[1..], running, path);
    }
  }

  /** The reported item of an operation, from its own events and the tables of the process. */
  function ReportOf(events: seq<Event>, running: bool, unconfirmed: bool): Option<Item> {
    match Follow(None, events, running)
    case None => None
    case Some(item) => Some(if unconfirmed then Doubted(item) else item)
  }

  lemma ReportIs(c: Codec, j: Journal, path: string, id: string)
    ensures Lookup(Report(c, j, path), id) ==
            ReportOf(EventsOf(Decoded(c, FileAt(j.files, path)), id),
                     IsRunning(j.running, id, path), IsRunning(j.unconfirmed, id, path))
  {
    OwnEventsOnly(map[], Decoded(c, FileAt(j.files, path)), j.running, path, id);
    ItemsKnowTheirId(map[], Decoded(c, FileAt(j.files, path)), j.running, path);
  }
}
