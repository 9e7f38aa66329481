/**
 The writer of the audit trail (internal/audit/chain.go) and the table it appends to with its trigger and constraints
 (internal/audit/store.go, internal/db/migrations/0005_audit.sql). What each I/O call does is a parameter.
 */
module AuditChain {
  import opened Text
  import opened AuditEvents
  import opened AuditArchive

  // ----- the table audit_events -----

  datatype Record = Record(seq_: nat, event: Event)

  /** `nextSeq` is the identity column: every attempted insert takes a number, also one that is dropped or undone. */
  datatype Table = Table(rows: seq<Record>, nextSeq: nat)

  /** What a row keeps of an event: microseconds, and no annotations. */
  function Stored(e: Event): Event {
    e.(eventAt := Micros(e.eventAt) * 1000, extra := e.extra.(annotations := map[]))
  }

  function Events(rows: seq<Record>): (events: seq<Event>)
    ensures |events| == |rows|
  {
    seq(|rows|, i requires 0 <= i < |rows| => rows[i].event)
  }

  predicate HasID(rows: seq<Record>, id: string) {
    exists i | 0 <= i < |rows| :: rows[i].event.auditID == id
  }

  predicate HasHash(rows: seq<Record>, hash: bytes) {
    exists i | 0 <= i < |rows| :: rows[i].event.hash == hash
  }

  /** What the insert trigger reads as the current tip. */
  function TipOfRows(rows: seq<Record>): bytes {
    LastHash(Events(rows), [])
  }

  /**
   INSERT ... ON CONFLICT (audit_id) DO NOTHING. None when the table refuses: the trigger on insert, which runs before
   the conflict is looked for, wants `prev_hash` to be the current tip; a row that is new also needs a new hash.
   */
  function InsertOne(table: Table, e: Event): Option<Table> {
    if e.prevHash != TipOfRows(table.rows) then None
    else if HasID(table.rows, e.auditID) then Some(table.(nextSeq := table.nextSeq + 1))
    else if HasHash(table.rows, e.hash) then None
    else Some(Table(table.rows + [Record(table.nextSeq, Stored(e))], table.nextSeq + 1))
  }

  function InsertAll(table: Table, events: seq<Event>): Option<Table>
    decreases |events|
  {
    if events == [] then Some(table)
    else
      match InsertOne(table, events[0])
      case None => None
      case Some(next) => InsertAll(next, events[1..])
  }

  /** How many inserts a transaction attempts, up to the one that is refused. */
  function Attempts(table: Table, events: seq<Event>): nat
    decreases |events|
  {
    if events == [] then 0
    else
      match InsertOne(table, events[0])
      case None => 1
      case Some(next) => 1 + Attempts(next, events[1..])
  }

  datatype SinkOutcome =
    | Committed
    | RolledBack(attempted: nat)
    | CommitReportedAsFailure

  class Store {
    var rows: seq<Record>
    var nextSeq: nat

    constructor ()
      ensures rows == [] && nextSeq == 1
    {
      rows, nextSeq := [], 1;
    }

    ghost function Contents(): Table
      reads this
    {
      Table(rows, nextSeq)
    }

    method Tip(fails: bool) returns (hash: Option<bytes>)
      ensures hash == if fails then None else Some(TipOfRows(rows))
    {
      if fails {
        return None;
      }
      hash := if rows == [] then Some([]) else Some(rows[|rows| - 1].event.hash);
    }

    /** One insert, with the trigger and the constraints of the table; it takes a number also when it is refused. */
    method Insert(event: Event) returns (ok: bool)
      modifies this
      ensures ok <==> InsertOne(old(Contents()), event).Some?
      ensures Contents() == if ok then InsertOne(old(Contents()), event).value
                            else old(Contents()).(nextSeq := old(nextSeq) + 1)
    {
      var tip := if rows == [] then [] else rows[|rows| - 1].event.hash;
      ok := event.prevHash == tip && (HasID(rows, event.auditID) || !HasHash(rows, event.hash));
      if ok && !HasID(rows, event.auditID) {
        rows := rows + [Record(nextSeq, Stored(event))];
      }
      nextSeq := nextSeq + 1;
    }

    /** One transaction: every insert, then commit. A failed transaction leaves only the sequence advanced. */
    method Append(events: seq<Event>, outcome: SinkOutcome) returns (ok: bool)
      modifies this
      ensures ok <==> outcome == Committed && InsertAll(old(Contents()), events).Some?
      ensures Contents() == SinkAppend(old(Contents()), events, outcome)
    {
      var rowsBefore, nextBefore := rows, nextSeq;
      ghost var before := Contents();
      var i := 0;
      ok := true;
      while i < |events| && ok
        invariant 0 <= i <= |events|
        invariant ok ==>
          && InsertAll(Contents(), events[i..]) == InsertAll(before, events)
          && nextSeq + Attempts(Contents(), events[i..]) == before.nextSeq + Attempts(before, events)
        invariant !ok ==> InsertAll(before, events) == None && nextSeq == before.nextSeq + Attempts(before, events)
        decreases |events| - i, ok
      {
        assert events[i..][0] == events[i] && events[i..][1..] == events[i + 1..];
        ok := Insert(events[i]);
        i := if ok then i + 1 else i;
      }
      assert ok ==> events[i..] == [];
      if !ok || outcome.RolledBack? {
        rows := rowsBefore;
        nextSeq := if outcome.RolledBack? then nextBefore + outcome.attempted else nextSeq;
        return false;
      }
      ok := outcome == Committed;
    }
  }

  function SinkAppend(table: Table, events: seq<Event>, outcome: SinkOutcome): Table {
    if outcome.RolledBack? then table.(nextSeq := table.nextSeq + outcome.attempted)
    else
      match InsertAll(table, events)
      case None => table.(nextSeq := table.nextSeq + Attempts(table, events))
      case Some(after) => after
  }

  // ----- Chain -----

  datatype Faults = Faults(tipFails: bool, sink: SinkOutcome, archive: ArchiveOutcome)

  datatype Result = Accepted(count: nat) | Failed

  /** Everything an append can change. `lines` are those that reached the archive's files whole. */
  datatype World = World(table: Table, archived: bool, lines: seq<Line>, files: seq<string>, tip: bytes, read: bool)

  /** Each event signed onto the one before it; None when an event cannot be marshalled. */
  function Link(codec: Codec, previous: bytes, events: seq<Event>): (linked: Option<seq<Event>>)
    ensures linked.Some? ==> |linked.value| == |events|
    decreases |events|
  {
    if events == [] then Some([])
    else
      match codec.marshal(events[0])
      case None => None
      case Some(canonical) =>
        var digest := Digest(codec, previous, canonical);
        match Link(codec, digest, events[1..])
        case None => None
        case Some(rest) =>
          Some([events[0].(prevHash := previous, hash := digest, canonicalBytes := canonical)] + rest)
  }

  /** The loop of Append: the events signed one onto the other, and the digest of the last. */
  method LinkOnto(codec: Codec, tip: bytes, events: seq<Event>) returns (result: Option<seq<Event>>, previous: bytes)
    ensures result == Link(codec, tip, events)
    ensures result.Some? ==> previous == LastHash(result.value, tip)
  {
    previous := tip;
    var linked: seq<Event> := [];
    assert events[0..] == events;
    assert forall rest: seq<Event> :: linked + rest == rest;
    for i := 0 to |events|
      invariant |linked| == i
      invariant previous == LastHash(linked, tip)
      invariant Link(codec, tip, events) == match Link(codec, previous, events[i..])
                                            case None => None
                                            case Some(rest) => Some(linked + rest)
    {
      assert events[i..][0] == events[i] && events[i..][1..] == events[i + 1..];
      var canonical := codec.marshal(events[i]);
      if canonical.None? {
        return None, previous;
      }
      var digest := Digest(codec, previous, canonical.value);
      var event := events[i].(prevHash := previous, hash := digest, canonicalBytes := canonical.value);
      ghost var before := linked;
      linked := linked + [event];
      assert forall rest: seq<Event> :: before + ([event] + rest) == linked + rest;
      previous := digest;
    }
    assert events[|events|..] == [] && linked + [] == linked;
    result := Some(linked);
  }

  function TipOf(w: World): bytes {
    if w.read then w.tip else TipOfRows(w.table.rows)
  }

  function AppendStep(codec: Codec, w: World, events: seq<Event>, faults: Faults): (World, Result) {
    if events == [] then (w, Accepted(0))
    else if !w.read && faults.tipFails then (w, Failed)
    else
      var w1 := w.(tip := TipOf(w), read := true);
      match Link(codec, w1.tip, events)
      case None => (w1, Failed)
      case Some(linked) =>
        var w2 := w1.(table := SinkAppend(w1.table, linked, faults.sink));
        if faults.sink != Committed || InsertAll(w1.table, linked).None? then (w2.(read := false), Failed)
        else
          var w3 := if !w.archived then w2
                    else w2.(lines := w.lines + LinesReached(codec, linked, faults.archive),
                             files := Appended(w.files, TextReached(codec, linked, faults.archive)));
          if w.archived && faults.archive != Written then (w3.(read := false), Failed)
          else (w3.(tip := LastHash(linked, w1.tip)), Accepted(|linked|))
  }

  class Chain {
    const codec: Codec
    const sink: Store
    const archive: Archive?
    var tip: bytes
    var read: bool

    constructor (codec: Codec, sink: Store, archive: Archive?)
      ensures this.codec == codec && this.sink == sink && this.archive == archive
      ensures !read && tip == []
    {
      this.codec, this.sink, this.archive := codec, sink, archive;
      tip, read := [], false;
    }

    ghost function State(): World
      reads this, sink, archive
    {
      World(sink.Contents(), archive != null, if archive == null then [] else archive.lines,
            if archive == null then [] else archive.files, tip, read)
    }

    method Append(events: seq<Event>, faults: Faults) returns (result: Result)
      modifies this, sink, archive
      ensures (State(), result) == AppendStep(codec, old(State()), events, faults)
    {
      if |events| == 0 {
        return Accepted(0);
      }
      if !read {
        var current := sink.Tip(faults.tipFails);
        if current.None? {
          return Failed;
        }
        tip, read := current.value, true;
      }
      var linked, previous := LinkOnto(codec, tip, events);
      if linked.None? {
        return Failed;
      }

      var stored := sink.Append(linked.value, faults.sink);
      if !stored {
        read := false;
        return Failed;
      }
      if archive != null {
        var written := archive.Write(codec, linked.value, faults.archive);
        if !written {
          read := false;
          return Failed;
        }
      }
      tip := previous;
      result := Accepted(|linked.value|);
    }
  }
}
