/**
 What every run of the audit writers keeps: the stored rows always verify. And what a batch that comes twice does to the
 cached tip and to the archive.
 */
module AuditLaws {
  import opened Text
  import opened AuditEvents
  import opened AuditArchive
  import opened AuditChain

  ghost predicate UniqueIDs(rows: seq<Record>) {
    forall i, j | 0 <= i < j < |rows| :: rows[i].event.auditID != rows[j].event.auditID
  }

  ghost predicate Numbered(table: Table) {
    && (forall i, j | 0 <= i < j < |table.rows| :: table.rows[i].seq_ < table.rows[j].seq_)
    && (forall i | 0 <= i < |table.rows| :: table.rows[i].seq_ < table.nextSeq)
  }

  /** The stored rows verify from the empty start. */
  ghost predicate TrailHolds(codec: Codec, table: Table) {
    Intact(codec, Events(table.rows), []) && UniqueIDs(table.rows) && Numbered(table)
  }

  /** What is cached of the rows is true. */
  predicate TipIsTrue(w: World) {
    w.read ==> w.tip == TipOfRows(w.table.rows)
  }

  /** Every archived line is the hash of a stored row. */
  ghost predicate ArchiveAgrees(w: World) {
    forall i | 0 <= i < |w.lines| :: RowWith(w.table.rows, w.lines[i])
  }

  ghost predicate RowWith(rows: seq<Record>, line: Line) {
    exists k | 0 <= k < |rows| :: LineOf(rows[k].event) == line
  }

  ghost predicate Sound(codec: Codec, w: World) {
    TrailHolds(codec, w.table) && TipIsTrue(w) && ArchiveAgrees(w)
  }

  /** None of the events was recorded before, and no two share an id. */
  ghost predicate Fresh(rows: seq<Record>, events: seq<Event>) {
    && (forall i | 0 <= i < |events| :: !HasID(rows, events[i].auditID))
    && (forall i, j | 0 <= i < j < |events| :: events[i].auditID != events[j].auditID)
  }

  // ----- linking and storing -----

  lemma StoredIsGood(codec: Codec, e: Event, previous: bytes)
    ensures GoodLink(codec, Stored(e), previous) <==> GoodLink(codec, e, previous)
  {
    assert Micros(Micros(e.eventAt) * 1000) == Micros(e.eventAt);
  }

  lemma {:induction false} LinkIsIntact(codec: Codec, previous: bytes, events: seq<Event>)
    requires codec.Valid() && Link(codec, previous, events).Some?
    ensures var linked := Link(codec, previous, events).value;
            && Intact(codec, linked, previous)
            && forall i | 0 <= i < |events| :: linked[i].auditID == events[i].auditID
    decreases |events|
  {
    if events != [] {
      var linked := Link(codec, previous, events).value;
      var first, rest := linked[0], linked[1..];
      LinkIsIntact(codec, first.hash, events[1..]);
      assert first.Content() == events[0].Content();
      assert GoodLink(codec, first, previous);
      IntactInParts(codec, [first], rest, previous);
      assert linked == [first] + rest && Link(codec, first.hash, events[1..]).value == rest;
      forall i | 0 <= i < |events|
        ensures linked[i].auditID == events[i].auditID
      {
        if i > 0 {
          assert linked[i] == rest[i - 1] && events[i] == events[1..][i - 1];
        }
      }
    }
  }

  lemma EventsOfAppended(rows: seq<Record>, r: Record)
    ensures Events(rows + [r]) == Events(rows) + [r.event]
  {
  }

  /** A row that follows the last one keeps the trail intact; any other row breaks it. */
  lemma OneMoreRow(codec: Codec, rows: seq<Record>, r: Record)
    ensures Intact(codec, Events(rows + [r]), [])
            <==> Intact(codec, Events(rows), []) && GoodLink(codec, r.event, LastHash(Events(rows), []))
    ensures LastHash(Events(rows + [r]), []) == r.event.hash
  {
    EventsOfAppended(rows, r);
    IntactInParts(codec, Events(rows), [r.event], []);
    assert GoodAt(codec, [r.event], LastHash(Events(rows), []), 0)
        <==> GoodLink(codec, r.event, LastHash(Events(rows), []));
    assert Intact(codec, [r.event], LastHash(Events(rows), []))
        <==> GoodAt(codec, [r.event], LastHash(Events(rows), []), 0);
  }

  /** An insert that goes through adds a row that follows, or none. */
  lemma InsertOneKeepsTheTrail(codec: Codec, table: Table, e: Event)
    requires TrailHolds(codec, table) && GoodLink(codec, e, e.prevHash)
    ensures InsertOne(table, e).Some? ==>
      var next := InsertOne(table, e).value;
      && TrailHolds(codec, next) && table.rows <= next.rows
      && (forall id :: HasID(next.rows, id) <==> HasID(table.rows, id) || e.auditID == id)
      && (!HasID(table.rows, e.auditID) ==> TipOfRows(next.rows) == e.hash && RowWith(next.rows, LineOf(e)))
      && (HasID(table.rows, e.auditID) ==> next.rows == table.rows)
  {
    if InsertOne(table, e).Some? && !HasID(table.rows, e.auditID) {
      var row := Record(table.nextSeq, Stored(e));
      var rows := table.rows + [row];
      StoredIsGood(codec, e, e.prevHash);
      OneMoreRow(codec, table.rows, row);
      assert rows[|table.rows|].event.auditID == e.auditID && LineOf(rows[|table.rows|].event) == LineOf(e);
      assert forall i | 0 <= i < |table.rows| :: rows[i] == table.rows[i];
    }
  }

  lemma LinkInParts(codec: Codec, linked: seq<Event>, previous: bytes)
    requires linked != [] && Intact(codec, linked, previous)
    ensures GoodLink(codec, linked[0], previous) && Intact(codec, linked[1..], linked[0].hash)
    ensures linked[0].prevHash == previous && LastHash(linked, previous) == LastHash(linked[1..], linked[0].hash)
    ensures |linked| > 1 ==> linked[1].prevHash == linked[0].hash
  {
    assert linked == [linked[0]] + linked[1..];
    IntactInParts(codec, [linked[0]], linked[1..], previous);
    assert GoodAt(codec, linked, previous, 0);
    assert |linked| > 1 ==> GoodAt(codec, linked, previous, 1);
  }

  /** Whatever a batch was linked to and whatever ids it holds: if the table takes it, the rows still verify. */
  lemma {:induction false} AcceptedBatchesKeepTheTrail(codec: Codec, table: Table, linked: seq<Event>, previous: bytes)
    requires TrailHolds(codec, table) && Intact(codec, linked, previous)
    ensures InsertAll(table, linked).Some? ==>
      var after := InsertAll(table, linked).value;
      TrailHolds(codec, after) && table.rows <= after.rows
    decreases |linked|
  {
    if linked != [] {
      LinkInParts(codec, linked, previous);
      InsertOneKeepsTheTrail(codec, table, linked[0]);
      if InsertOne(table, linked[0]).Some? {
        AcceptedBatchesKeepTheTrail(codec, InsertOne(table, linked[0]).value, linked[1..], linked[0].hash);
      }
    }
  }

  lemma SinkKeepsTheTrail(codec: Codec, table: Table, linked: seq<Event>, previous: bytes, outcome: SinkOutcome)
    requires TrailHolds(codec, table) && Intact(codec, linked, previous)
    ensures TrailHolds(codec, SinkAppend(table, linked, outcome))
      && table.rows <= SinkAppend(table, linked, outcome).rows
  {
    AcceptedBatchesKeepTheTrail(codec, table, linked, previous);
  }

  // ----- every run, of any writers -----

  /** `Handover`: another writer goes on, with whatever it has cached. `Midnight`: the archive's next file begins. */
  datatype Step =
    | Append(events: seq<Event>, faults: Faults)
    | Restart
    | Handover(tip: bytes, read: bool)
    | Midnight

  /** A new process starts with nothing cached. */
  function Take(codec: Codec, w: World, step: Step): World {
    match step
    case Append(events, faults) => AppendStep(codec, w, events, faults).0
    case Restart => w.(tip := [], read := false)
    case Handover(tip, read) => w.(tip := tip, read := read)
    case Midnight => w.(files := w.files + [""])
  }

  function Run(codec: Codec, w: World, steps: seq<Step>): World {
    if steps == [] then w else Take(codec, Run(codec, w, steps[..|steps| - 1]), steps[|steps| - 1])
  }

  function Empty(archived: bool): World {
    World(Table([], 1), archived, [], [], [], false)
  }

  /** The stored rows and the archive only grow. */
  ghost predicate Extends(before: World, after: World) {
    before.table.rows <= after.table.rows && before.lines <= after.lines && before.archived == after.archived
  }

  lemma AppendKeepsTheTrail(codec: Codec, w: World, events: seq<Event>, faults: Faults)
    requires codec.Valid() && TrailHolds(codec, w.table)
    ensures var after := AppendStep(codec, w, events, faults).0;
      TrailHolds(codec, after.table) && Extends(w, after)
  {
    var tip := TipOf(w);
    if Link(codec, tip, events).Some? {
      LinkIsIntact(codec, tip, events);
      SinkKeepsTheTrail(codec, w.table, Link(codec, tip, events).value, tip, faults.sink);
    }
  }

  /**
   Over every run of appends, failures and restarts, of any number of writers with anything in their caches, and
   whatever ids come back: the stored rows verify from the empty start, and nothing stored or archived is lost.
   */
  lemma {:induction false} RowsVerifyAfterEveryRun(codec: Codec, w: World, steps: seq<Step>)
    requires codec.Valid() && TrailHolds(codec, w.table)
    ensures TrailHolds(codec, Run(codec, w, steps).table) && Extends(w, Run(codec, w, steps))
  {
    if steps != [] {
      var last := |steps| - 1;
      RowsVerifyAfterEveryRun(codec, w, steps[..last]);
      if steps[last].Append? {
        AppendKeepsTheTrail(codec, Run(codec, w, steps[..last]), steps[last].events, steps[last].faults);
      }
    }
  }

  // ----- which batches the table takes -----

  lemma FreshAfterInsert(codec: Codec, table: Table, events: seq<Event>)
    requires TrailHolds(codec, table) && events != [] && GoodLink(codec, events[0], events[0].prevHash)
    requires InsertOne(table, events[0]).Some?
    ensures Fresh(table.rows, events) <==>
              !HasID(table.rows, events[0].auditID) && Fresh(InsertOne(table, events[0]).value.rows, events[1..])
  {
    var rest := events[1..];
    assert forall i | 0 <= i < |rest| :: rest[i] == events[i + 1];
    InsertOneKeepsTheTrail(codec, table, events[0]);
    if !HasID(table.rows, events[0].auditID) && Fresh(InsertOne(table, events[0]).value.rows, rest) {
      forall i | 0 <= i < |events|
        ensures !HasID(table.rows, events[i].auditID)
      {
        assert i > 0 ==> events[i] == rest[i - 1];
      }
      forall i, j | 0 <= i < j < |events|
        ensures events[i].auditID != events[j].auditID
      {
        assert events[j] == rest[j - 1];
        assert i > 0 ==> events[i] == rest[i - 1];
      }
    }
  }

  /** No digest of the batch was there before: none is the hash of a row, and no two are the same. */
  ghost predicate NewHashes(rows: seq<Record>, linked: seq<Event>) {
    && (forall i | 0 <= i < |linked| :: !HasHash(rows, linked[i].hash) && linked[i].hash != [])
    && (forall i, j | 0 <= i < j < |linked| :: linked[i].hash != linked[j].hash)
  }

  lemma NewHashesAreNotTheTip(rows: seq<Record>, linked: seq<Event>, i: nat)
    requires NewHashes(rows, linked) && i < |linked|
    ensures linked[i].hash != TipOfRows(rows)
  {
    if rows != [] {
      assert TipOfRows(rows) == rows[|rows| - 1].event.hash;
    }
  }

  lemma NewHashesAfterInsert(table: Table, linked: seq<Event>)
    requires linked != [] && NewHashes(table.rows, linked) && InsertOne(table, linked[0]).Some?
    ensures NewHashes(InsertOne(table, linked[0]).value.rows, linked[1..])
  {
    var rows, rest := InsertOne(table, linked[0]).value.rows, linked[1..];
    assert forall i | 0 <= i < |rest| :: rest[i] == linked[i + 1];
    forall i | 0 <= i < |rest|
      ensures !HasHash(rows, rest[i].hash)
    {
      assert forall k | 0 <= k < |rows| ::
          rows[k] == (if k < |table.rows| then table.rows[k] else Record(table.nextSeq, Stored(linked[0])));
    }
  }

  /**
   A batch linked to the stored tip is taken if and only if none of its events but the last has an id that is known:
   behind a dropped event the next one no longer follows. (No digest of the batch is one that was there before.)
   */
  lemma {:induction false} AcceptedIffOnlyTheLastIsKnown(codec: Codec, table: Table, linked: seq<Event>)
    requires TrailHolds(codec, table) && linked != []
    requires Intact(codec, linked, TipOfRows(table.rows)) && NewHashes(table.rows, linked)
    ensures InsertAll(table, linked).Some? <==> Fresh(table.rows, linked[..|linked| - 1])
    decreases |linked|
  {
    var first, rest := linked[0], linked[1..];
    LinkInParts(codec, linked, TipOfRows(table.rows));
    InsertOneKeepsTheTrail(codec, table, first);
    assert InsertOne(table, first).Some?;
    var next := InsertOne(table, first).value;
    if rest != [] {
      var front := linked[..|linked| - 1];
      assert front[0] == first && front[1..] == rest[..|rest| - 1];
      FreshAfterInsert(codec, table, front);
      if HasID(table.rows, first.auditID) {
        NewHashesAreNotTheTip(table.rows, linked, 0);
        assert InsertOne(next, rest[0]).None?;
      } else {
        NewHashesAfterInsert(table, linked);
        AcceptedIffOnlyTheLastIsKnown(codec, next, rest);
      }
    }
  }

  /** A digest that equals the one it was signed onto. */
  ghost predicate FixedPoint(linked: seq<Event>) {
    exists j | 0 <= j < |linked| :: linked[j].hash == linked[j].prevHash
  }

  lemma FixedPointOfRest(linked: seq<Event>)
    requires linked != []
    ensures FixedPoint(linked[1..]) ==> FixedPoint(linked)
  {
    assert forall j | 0 <= j < |linked[1..]| :: linked[1..][j] == linked[j + 1];
  }

  /**
   Whatever it was linked to: a batch with a stored event before its last is refused, save for a fixed point of
   the digest.
   */
  lemma {:induction false} KnownBeforeTheLastIsRefused(codec: Codec, table: Table, linked: seq<Event>,
      previous: bytes, i: nat)
    requires TrailHolds(codec, table) && Intact(codec, linked, previous)
    requires i + 1 < |linked| && HasID(table.rows, linked[i].auditID)
    ensures InsertAll(table, linked).None? || FixedPoint(linked)
    decreases |linked|
  {
    var first, rest := linked[0], linked[1..];
    LinkInParts(codec, linked, previous);
    InsertOneKeepsTheTrail(codec, table, first);
    if InsertOne(table, first).Some? {
      var next := InsertOne(table, first).value;
      if i > 0 {
        KnownBeforeTheLastIsRefused(codec, next, rest, first.hash, i - 1);
        FixedPointOfRest(linked);
      } else if first.hash != first.prevHash {
        assert InsertOne(next, rest[0]).None?;
      }
    }
  }

  // ----- the cached tip and the archive -----

  /** Where the table ends after it took a batch: at the batch's end if and only if the batch was fresh. */
  lemma {:induction false} EndsWithTheBatchIffFresh(codec: Codec, table: Table, linked: seq<Event>, previous: bytes)
    requires TrailHolds(codec, table) && Intact(codec, linked, previous) && InsertAll(table, linked).Some?
    requires linked != [] && !FixedPoint(linked)
    ensures TipOfRows(InsertAll(table, linked).value.rows) == LastHash(linked, previous) <==> Fresh(table.rows, linked)
    decreases |linked|
  {
    var first, rest := linked[0], linked[1..];
    var next := InsertOne(table, first).value;
    LinkInParts(codec, linked, previous);
    InsertOneKeepsTheTrail(codec, table, first);
    FreshAfterInsert(codec, table, linked);
    if rest != [] {
      FixedPointOfRest(linked);
      EndsWithTheBatchIffFresh(codec, next, rest, first.hash);
    }
  }

  /** Fresh events that the table takes all become rows. */
  lemma {:induction false} FreshEventsAreStored(codec: Codec, table: Table, linked: seq<Event>, previous: bytes)
    requires TrailHolds(codec, table) && Intact(codec, linked, previous) && InsertAll(table, linked).Some?
    requires Fresh(table.rows, linked) && previous == TipOfRows(table.rows)
    ensures var after := InsertAll(table, linked).value.rows;
            && TipOfRows(after) == LastHash(linked, previous)
            && forall i | 0 <= i < |linked| :: RowWith(after, LineOf(linked[i]))
    decreases |linked|
  {
    if linked != [] {
      var first, rest := linked[0], linked[1..];
      var next := InsertOne(table, first).value;
      LinkInParts(codec, linked, previous);
      InsertOneKeepsTheTrail(codec, table, first);
      FreshAfterInsert(codec, table, linked);
      FreshEventsAreStored(codec, next, rest, first.hash);
      AcceptedBatchesKeepTheTrail(codec, next, rest, first.hash);
      var after := InsertAll(table, linked).value.rows;
      forall i | 0 <= i < |linked|
        ensures RowWith(after, LineOf(linked[i]))
      {
        if i == 0 {
          var k :| 0 <= k < |next.rows| && LineOf(next.rows[k].event) == LineOf(first);
          assert after[k] == next.rows[k];
        } else {
          assert linked[i] == rest[i - 1];
        }
      }
    }
  }

  ghost predicate Archived(w: World, events: seq<Event>) {
    ListsIDs(w.lines, events)
  }

  lemma FreshLinked(rows: seq<Record>, events: seq<Event>, linked: seq<Event>)
    requires |events| == |linked| && forall i | 0 <= i < |events| :: linked[i].auditID == events[i].auditID
    ensures Fresh(rows, events) <==> Fresh(rows, linked)
  {
  }

  lemma GrowingKeepsLines(rows: seq<Record>, more: seq<Record>, lines: seq<Line>)
    requires rows <= more && forall i | 0 <= i < |lines| :: RowWith(rows, lines[i])
    ensures forall i | 0 <= i < |lines| :: RowWith(more, lines[i])
  {
    forall i | 0 <= i < |lines|
      ensures RowWith(more, lines[i])
    {
      var k :| 0 <= k < |rows| && LineOf(rows[k].event) == lines[i];
      assert more[k] == rows[k];
    }
  }

  ghost predicate HasLine(lines: seq<Line>, id: string) {
    exists k | 0 <= k < |lines| :: lines[k].auditID == id
  }

  ghost predicate ListsIDs(lines: seq<Line>, events: seq<Event>) {
    forall i | 0 <= i < |events| :: HasLine(lines, events[i].auditID)
  }

  /** The archive's side: it writes nothing but hashes of rows, and all of the batch when it succeeds. */
  lemma ArchiveKeepsToTheRows(codec: Codec, rows: seq<Record>, lines: seq<Line>, linked: seq<Event>,
      outcome: ArchiveOutcome)
    requires forall i | 0 <= i < |lines| :: RowWith(rows, lines[i])
    requires forall i | 0 <= i < |linked| :: RowWith(rows, LineOf(linked[i]))
    ensures var after := lines + LinesReached(codec, linked, outcome);
            && lines <= after
            && (forall i | 0 <= i < |after| :: RowWith(rows, after[i]))
            && (outcome == Written ==> ListsIDs(after, linked))
  {
    var after := lines + LinesReached(codec, linked, outcome);
    forall i | 0 <= i < |after|
      ensures RowWith(rows, after[i])
    {
      if i >= |lines| {
        assert after[i] == LineOf(linked[i - |lines|]);
      }
    }
    if outcome == Written {
      forall i | 0 <= i < |linked|
        ensures HasLine(after, linked[i].auditID)
      {
        assert after[|lines| + i] == LineOf(linked[i]);
      }
    }
  }

  /** The table committed the batch and said so: only then does an append go on to the archive and the cached tip. */
  ghost predicate Confirmed(codec: Codec, w: World, events: seq<Event>, faults: Faults) {
    && events != [] && (w.read || !faults.tipFails) && Link(codec, TipOf(w), events).Some?
    && faults.sink == Committed && InsertAll(w.table, Link(codec, TipOf(w), events).value).Some?
  }

  lemma ConfirmedWasLinkedToTheTip(codec: Codec, w: World, events: seq<Event>, faults: Faults)
    requires codec.Valid() && Confirmed(codec, w, events, faults)
    ensures TipOf(w) == TipOfRows(w.table.rows)
  {
    LinkIsIntact(codec, TipOf(w), events);
    LinkInParts(codec, Link(codec, TipOf(w), events).value, TipOf(w));
  }

  /**
   Everything stays sound whatever fails, as long as the batches that are confirmed are fresh: the cached tip is
   true, and the archive holds nothing but hashes of rows. An append that succeeds is in the archive.
   */
  lemma AppendKeepsSound(codec: Codec, w: World, events: seq<Event>, faults: Faults)
    requires codec.Valid() && Sound(codec, w)
    requires Confirmed(codec, w, events, faults) ==> Fresh(w.table.rows, events)
    ensures var (after, result) := AppendStep(codec, w, events, faults);
            && Sound(codec, after)
            && Extends(w, after)
            && (result.Accepted? ==> result.count == |events|)
            && (result.Accepted? && w.archived ==> Archived(after, events))
  {
    var tip := TipOf(w);
    AppendKeepsTheTrail(codec, w, events, faults);
    var after := AppendStep(codec, w, events, faults).0;
    GrowingKeepsLines(w.table.rows, after.table.rows, w.lines);
    if Confirmed(codec, w, events, faults) {
      var linked := Link(codec, tip, events).value;
      LinkIsIntact(codec, tip, events);
      FreshLinked(w.table.rows, events, linked);
      ConfirmedWasLinkedToTheTip(codec, w, events, faults);
      FreshEventsAreStored(codec, w.table, linked, tip);
      ArchiveKeepsToTheRows(codec, after.table.rows, w.lines, linked, faults.archive);
    }
  }

  /** One writer: nobody else hands it a cache. */
  predicate OneWriter(steps: seq<Step>) {
    forall k | 0 <= k < |steps| :: !steps[k].Handover?
  }

  /** Every batch of the run that the table confirmed was fresh when it came. */
  ghost predicate FreshRun(codec: Codec, w: World, steps: seq<Step>) {
    forall k | 0 <= k < |steps| && steps[k].Append? :: FreshAt(codec, Run(codec, w, steps[..k]), steps[k])
  }

  ghost predicate FreshAt(codec: Codec, w: World, step: Step)
    requires step.Append?
  {
    Confirmed(codec, w, step.events, step.faults) ==> Fresh(w.table.rows, step.events)
  }

  /** The k-th step of a run was an append that returned success. */
  ghost predicate Succeeded(codec: Codec, w: World, steps: seq<Step>, k: nat)
    requires k < |steps|
  {
    steps[k].Append? && AppendStep(codec, Run(codec, w, steps[..k]), steps[k].events, steps[k].faults).1.Accepted?
  }

  lemma MoreLinesListMore(lines: seq<Line>, more: seq<Line>, events: seq<Event>)
    requires lines <= more && ListsIDs(lines, events)
    ensures ListsIDs(more, events)
  {
    forall i | 0 <= i < |events|
      ensures HasLine(more, events[i].auditID)
    {
      var k :| 0 <= k < |lines| && lines[k].auditID == events[i].auditID;
      assert more[k] == lines[k];
    }
  }

  lemma SucceededBefore(codec: Codec, w: World, steps: seq<Step>, last: nat, k: nat)
    requires k < last < |steps|
    ensures Succeeded(codec, w, steps[..last], k) <==> Succeeded(codec, w, steps, k)
  {
    assert steps[..last][..k] == steps[..k];
  }

  lemma FreshRunBefore(codec: Codec, w: World, steps: seq<Step>, last: nat)
    requires last < |steps| && FreshRun(codec, w, steps)
    ensures FreshRun(codec, w, steps[..last])
    ensures steps[last].Append? ==> FreshAt(codec, Run(codec, w, steps[..last]), steps[last])
  {
    forall k | 0 <= k < last && steps[..last][k].Append?
      ensures FreshAt(codec, Run(codec, w, steps[..last][..k]), steps[..last][k])
    {
      assert steps[..last][..k] == steps[..k];
    }
  }

  /**
   Over every run of one writer with restarts and failures, whose confirmed batches were fresh: the cached tip is
   the last stored hash whenever it is trusted, the archive holds nothing but hashes of rows, and every batch that
   was answered with success is in it.
   */
  lemma {:induction false} EveryRunStaysSound(codec: Codec, archived: bool, steps: seq<Step>)
    requires codec.Valid() && OneWriter(steps) && FreshRun(codec, Empty(archived), steps)
    ensures var end := Run(codec, Empty(archived), steps);
            && Sound(codec, end) && end.archived == archived
            && (forall k | 0 <= k < |steps| :: archived && Succeeded(codec, Empty(archived), steps, k) ==>
                  Archived(end, steps[k].events))
  {
    var start := Empty(archived);
    if steps != [] {
      var last := |steps| - 1;
      var before := Run(codec, start, steps[..last]);
      FreshRunBefore(codec, start, steps, last);
      EveryRunStaysSound(codec, archived, steps[..last]);
      if steps[last].Append? {
        AppendKeepsSound(codec, before, steps[last].events, steps[last].faults);
      }
      forall k | 0 <= k < last && archived && Succeeded(codec, start, steps, k)
        ensures Archived(Run(codec, start, steps), steps[k].events)
      {
        StaysArchived(codec, start, steps, k);
      }
    }
  }

  lemma StaysArchived(codec: Codec, w: World, steps: seq<Step>, k: nat)
    requires var last := |steps| - 1;
      && k < last && Succeeded(codec, w, steps, k)
      && (Succeeded(codec, w, steps[..last], k) ==> Archived(Run(codec, w, steps[..last]), steps[k].events))
      && Run(codec, w, steps[..last]).lines <= Run(codec, w, steps).lines
    ensures Archived(Run(codec, w, steps), steps[k].events)
  {
    var last := |steps| - 1;
    SucceededBefore(codec, w, steps, last, k);
    MoreLinesListMore(Run(codec, w, steps[..last]).lines, Run(codec, w, steps).lines, steps[k].events);
  }

  lemma {:induction false} HashesFindTheirLine(lines: seq<Line>, id: string)
    ensures id in Hashes(lines) <==> HasLine(lines, id)
    ensures id in Hashes(lines) ==> exists k | 0 <= k < |lines| :: lines[k] == Line(id, Hashes(lines)[id])
  {
    if lines != [] {
      var last := |lines| - 1;
      HashesFindTheirLine(lines[..last], id);
      assert forall k | 0 <= k < last :: lines[..last][k] == lines[k];
      assert lines[last].auditID == id ==> lines[last] == Line(id, Hashes(lines)[id]);
    }
  }

  /** In a sound world the archived hash of a row, when there is one, is the row's own. */
  lemma ArchivedHashIsTheRows(codec: Codec, w: World, k: nat)
    requires Sound(codec, w) && k < |w.table.rows|
    ensures var e := w.table.rows[k].event;
            e.auditID in Hashes(w.lines) ==> Hashes(w.lines)[e.auditID] == e.hash
  {
    var e := w.table.rows[k].event;
    HashesFindTheirLine(w.lines, e.auditID);
    if e.auditID in Hashes(w.lines) {
      var i :| 0 <= i < |w.lines| && w.lines[i] == Line(e.auditID, Hashes(w.lines)[e.auditID]);
      var j :| 0 <= j < |w.table.rows| && LineOf(w.table.rows[j].event) == w.lines[i];
      assert j == k;
    }
  }

  // ----- the batch that comes twice -----

  /**
   A success leaves the cached tip true if and only if the batch was fresh: a dropped last event still advances it. (No
   digest of the batch equals the one before it.)
   */
  lemma SuccessKeepsTheTipIffFresh(codec: Codec, w: World, events: seq<Event>, faults: Faults)
    requires codec.Valid() && TrailHolds(codec, w.table) && events != []
    requires AppendStep(codec, w, events, faults).1.Accepted? && !FixedPoint(Link(codec, TipOf(w), events).value)
    ensures TipIsTrue(AppendStep(codec, w, events, faults).0) <==> Fresh(w.table.rows, events)
  {
    var linked := Link(codec, TipOf(w), events).value;
    LinkIsIntact(codec, TipOf(w), events);
    FreshLinked(w.table.rows, events, linked);
    EndsWithTheBatchIffFresh(codec, w.table, linked, TipOf(w));
  }

  /** An append came to nothing: it failed, and neither a row nor a line, nor a part of one, is new. */
  predicate CameToNothing(before: World, after: World, result: Result) {
    && result == Failed && after.table.rows == before.table.rows
    && after.lines == before.lines && after.files == before.files
  }

  /**
   Once an event before the last of a batch is stored, that batch is refused for good: after any run, by any writer,
   under any circumstances. The only way out is a digest that equals the one it was signed onto.
   */
  lemma StoredBatchIsRefusedForGood(codec: Codec, w: World, steps: seq<Step>, events: seq<Event>, i: nat,
      faults: Faults)
    requires codec.Valid() && TrailHolds(codec, w.table)
    requires i + 1 < |events| && HasID(w.table.rows, events[i].auditID)
    ensures var v := Run(codec, w, steps);
            var (after, result) := AppendStep(codec, v, events, faults);
            var linked := Link(codec, TipOf(v), events);
            CameToNothing(v, after, result) || (linked.Some? && FixedPoint(linked.value))
  {
    var v := Run(codec, w, steps);
    RowsVerifyAfterEveryRun(codec, w, steps);
    var k :| 0 <= k < |w.table.rows| && w.table.rows[k].event.auditID == events[i].auditID;
    assert v.table.rows[k] == w.table.rows[k];
    var tip := TipOf(v);
    if Link(codec, tip, events).Some? {
      LinkIsIntact(codec, tip, events);
      KnownBeforeTheLastIsRefused(codec, v.table, Link(codec, tip, events).value, tip, i);
    }
  }

  /** The table took the batch, yet the caller was told of a failure: the archive failed, or the commit seemed to. */
  predicate StoredButFailed(faults: Faults) {
    && !faults.tipFails && !faults.sink.RolledBack?
    && (faults.sink == CommitReportedAsFailure || faults.archive != Written)
  }

  lemma NewBatchIsAccepted(codec: Codec, table: Table, linked: seq<Event>)
    requires TrailHolds(codec, table) && linked != [] && Intact(codec, linked, TipOfRows(table.rows))
    requires Fresh(table.rows, linked) && NewHashes(table.rows, linked)
    ensures InsertAll(table, linked).Some?
    ensures forall i | 0 <= i < |linked| :: HasID(InsertAll(table, linked).value.rows, linked[i].auditID)
  {
    AcceptedIffOnlyTheLastIsKnown(codec, table, linked);
    FreshEventsAreStored(codec, table, linked, TipOfRows(table.rows));
    forall i | 0 <= i < |linked|
      ensures HasID(InsertAll(table, linked).value.rows, linked[i].auditID)
    {
      assert RowWith(InsertAll(table, linked).value.rows, LineOf(linked[i]));
    }
  }

  lemma StoredThoughFailed(codec: Codec, w: World, events: seq<Event>, faults: Faults)
    requires codec.Valid() && Sound(codec, w) && w.archived && events != [] && Fresh(w.table.rows, events)
    requires Link(codec, TipOf(w), events).Some? && NewHashes(w.table.rows, Link(codec, TipOf(w), events).value)
    requires StoredButFailed(faults)
    ensures var (after, result) := AppendStep(codec, w, events, faults);
            && result == Failed && Sound(codec, after) && !after.read
            && forall i | 0 <= i < |events| :: HasID(after.table.rows, events[i].auditID)
  {
    var tip := TipOf(w);
    var linked := Link(codec, tip, events).value;
    LinkIsIntact(codec, tip, events);
    FreshLinked(w.table.rows, events, linked);
    NewBatchIsAccepted(codec, w.table, linked);
    AppendKeepsSound(codec, w, events, faults);
  }

  /**
   The API server retries a batch that was answered with an error. If the batch had been stored, a retry of two or more
   events is refused, and so is every later one: what of it is missing from the archive stays missing.
   */
  lemma RetryOfManyIsRefusedForGood(codec: Codec, w: World, events: seq<Event>, first: Faults, steps: seq<Step>,
      later: Faults)
    requires codec.Valid() && Sound(codec, w) && w.archived && |events| >= 2 && Fresh(w.table.rows, events)
    requires Link(codec, TipOf(w), events).Some? && NewHashes(w.table.rows, Link(codec, TipOf(w), events).value)
    requires StoredButFailed(first)
    ensures var v := Run(codec, AppendStep(codec, w, events, first).0, steps);
            var (after, result) := AppendStep(codec, v, events, later);
            var linked := Link(codec, TipOf(v), events);
            CameToNothing(v, after, result) || (linked.Some? && FixedPoint(linked.value))
  {
    StoredThoughFailed(codec, w, events, first);
    StoredBatchIsRefusedForGood(codec, AppendStep(codec, w, events, first).0, steps, events, 0, later);
  }

  const NoFaults := Faults(false, Committed, Written)

  /** A batch of one event that is stored already is taken: no row is new, and the cached tip is one no row has. */
  lemma RetryOfOneIsAccepted(codec: Codec, w: World, e: Event)
    requires codec.Valid() && Sound(codec, w) && HasID(w.table.rows, e.auditID) && Link(codec, TipOf(w), [e]).Some?
    ensures var (retried, result) := AppendStep(codec, w, [e], NoFaults);
            var linked := Link(codec, TipOf(w), [e]).value[0];
            && result == Accepted(1) && retried.table.rows == w.table.rows
            && retried.read && retried.tip == linked.hash
            && retried.lines == (if w.archived then w.lines + [LineOf(linked)] else w.lines)
  {
    var linked := Link(codec, TipOf(w), [e]).value;
    LinkIsIntact(codec, TipOf(w), [e]);
    LinkInParts(codec, linked, TipOf(w));
    assert Lines(linked) == [LineOf(linked[0])];
    assert linked[0].auditID == [e][0].auditID;
    var next := w.table.(nextSeq := w.table.nextSeq + 1);
    assert InsertOne(w.table, linked[0]) == Some(next);
    assert InsertAll(next, linked[1..]) == Some(next);
    assert LastHash(linked, TipOf(w)) == linked[0].hash;
  }

  /** With a tip that no row has, the next append is refused, and the tip is read again for the one after it. */
  lemma ARefusalHealsTheTip(codec: Codec, w: World, events: seq<Event>, faults: Faults)
    requires codec.Valid() && w.read && !TipIsTrue(w)
    requires events != [] && Link(codec, w.tip, events).Some?
    ensures var (refused, result) := AppendStep(codec, w, events, faults);
            CameToNothing(w, refused, result) && !refused.read && TipIsTrue(refused)
  {
    LinkIsIntact(codec, w.tip, events);
    LinkInParts(codec, Link(codec, w.tip, events).value, w.tip);
  }

  /** An append of fresh events onto a true tip is taken when nothing fails. */
  lemma FreshIsAccepted(codec: Codec, w: World, events: seq<Event>)
    requires codec.Valid() && TrailHolds(codec, w.table) && TipIsTrue(w) && events != [] && Fresh(w.table.rows, events)
    requires Link(codec, TipOf(w), events).Some? && NewHashes(w.table.rows, Link(codec, TipOf(w), events).value)
    ensures AppendStep(codec, w, events, NoFaults).1 == Accepted(|events|)
  {
    var linked := Link(codec, TipOf(w), events).value;
    LinkIsIntact(codec, TipOf(w), events);
    FreshLinked(w.table.rows, events, linked);
    NewBatchIsAccepted(codec, w.table, linked);
  }

  /** No batch of the run carries the id. */
  ghost predicate NoneCarries(steps: seq<Step>, id: string) {
    forall k, i | 0 <= k < |steps| && steps[k].Append? && 0 <= i < |steps[k].events| :: steps[k].events[i].auditID != id
  }

  lemma {:induction false} HashesOfOthers(lines: seq<Line>, more: seq<Line>, id: string)
    requires forall i | 0 <= i < |more| :: more[i].auditID != id
    ensures id in Hashes(lines + more) <==> id in Hashes(lines)
    ensures id in Hashes(lines) ==> Hashes(lines + more)[id] == Hashes(lines)[id]
  {
    if more == [] {
      assert lines + more == lines;
    } else {
      var last := |more| - 1;
      HashesOfOthers(lines, more[..last], id);
      assert (lines + more)[..|lines + more| - 1] == lines + more[..last];
    }
  }

  lemma AppendOfOthersKeepsTheLine(codec: Codec, w: World, events: seq<Event>, faults: Faults, id: string)
    requires codec.Valid() && forall i | 0 <= i < |events| :: events[i].auditID != id
    ensures var after := AppendStep(codec, w, events, faults).0;
            && (id in Hashes(after.lines) <==> id in Hashes(w.lines))
            && (id in Hashes(w.lines) ==> Hashes(after.lines)[id] == Hashes(w.lines)[id])
  {
    var after := AppendStep(codec, w, events, faults).0;
    if after.lines != w.lines {
      var linked := Link(codec, TipOf(w), events).value;
      LinkIsIntact(codec, TipOf(w), events);
      var more := LinesReached(codec, linked, faults.archive);
      assert after.lines == w.lines + more;
      HashesOfOthers(w.lines, more, id);
    }
  }

  lemma {:induction false} LineStaysOverEveryRun(codec: Codec, w: World, steps: seq<Step>, id: string)
    requires codec.Valid() && NoneCarries(steps, id) && id in Hashes(w.lines)
    ensures var v := Run(codec, w, steps); id in Hashes(v.lines) && Hashes(v.lines)[id] == Hashes(w.lines)[id]
  {
    if steps != [] {
      var last := |steps| - 1;
      assert forall k | 0 <= k < last :: steps[..last][k] == steps[k];
      LineStaysOverEveryRun(codec, w, steps[..last], id);
      if steps[last].Append? {
        AppendOfOthersKeepsTheLine(codec, Run(codec, w, steps[..last]), steps[last].events, steps[last].faults, id);
      }
    }
  }

  /**
   The accepted retry of a stored event leaves a line in the archive that is not the row's hash, and the line is
   still the one the archive answers with after every later run that does not carry that id again. (The two digests
   of the event, onto the tip and onto the row before it, differ.)
   */
  lemma StaleLineStays(codec: Codec, w: World, e: Event, k: nat, steps: seq<Step>)
    requires codec.Valid() && Sound(codec, w) && w.archived && Link(codec, TipOf(w), [e]).Some?
    requires k < |w.table.rows| && w.table.rows[k].event.auditID == e.auditID
    requires Link(codec, TipOf(w), [e]).value[0].hash != w.table.rows[k].event.hash && NoneCarries(steps, e.auditID)
    ensures var v := Run(codec, AppendStep(codec, w, [e], NoFaults).0, steps);
            && k < |v.table.rows| && v.table.rows[k] == w.table.rows[k]
            && e.auditID in Hashes(v.lines) && Hashes(v.lines)[e.auditID] != v.table.rows[k].event.hash
  {
    var retried := AppendStep(codec, w, [e], NoFaults).0;
    var linked := Link(codec, TipOf(w), [e]).value;
    RetryOfOneIsAccepted(codec, w, e);
    LinkIsIntact(codec, TipOf(w), [e]);
    assert retried.lines[..|retried.lines| - 1] == w.lines;
    LineStaysOverEveryRun(codec, retried, steps, e.auditID);
    AppendKeepsTheTrail(codec, w, [e], NoFaults);
    RowsVerifyAfterEveryRun(codec, retried, steps);
  }
}
