/**
 What a verification shows of a trail that was changed behind the writer's back: every column that is compared with the
 signed text, and every other way to change a row.
 */
module AuditTampering {
  import opened Text
  import opened AuditEvents
  import opened AuditArchive
  import opened AuditChain
  import opened AuditLaws

  /**
   In an intact trail every compared column of an event is that of the event whose text was signed, the time to the
   microsecond.
   */
  lemma IntactColumnsWereSigned(codec: Codec, events: seq<Event>, start: bytes, i: nat, signed: Event)
    requires codec.Valid() && Intact(codec, events, start) && i < |events|
    requires codec.marshal(signed) == Some(events[i].canonicalBytes)
    ensures var e := events[i];
      && e.auditID == signed.auditID && e.actor == signed.actor && e.impersonatedBy == signed.impersonatedBy
      && e.actingDivision == signed.actingDivision && e.verb == signed.verb && e.resource == signed.resource
      && e.subresource == signed.subresource && e.namespace == signed.namespace && e.objectName == signed.objectName
      && e.objectUID == signed.objectUID && e.responseCode == signed.responseCode
      && e.eventAt / 1000 == signed.eventAt / 1000
  {
    assert GoodAt(codec, events, start, i);
  }

  /** And it is linked: each event carries the hash of the one before it, and the digest of that and its own text. */
  lemma IntactIsLinked(codec: Codec, events: seq<Event>, start: bytes, i: nat)
    requires Intact(codec, events, start) && i < |events|
    ensures events[i].prevHash == if i == 0 then start else events[i - 1].hash
    ensures events[i].hash == codec.sha256(events[i].prevHash + events[i].canonicalBytes)
  {
    assert GoodAt(codec, events, start, i);
  }

  /** The events of the rows, with the kth rewritten. */
  function Rewritten(rows: seq<Record>, k: nat, e: Event): seq<Event>
    requires k < |rows|
  {
    Events(rows)[k := e]
  }

  /** Verify's answer: broken at `at`, for this reason. */
  ghost predicate BrokenAt(codec: Codec, events: seq<Event>, at: nat, reason: Reason) {
    forall v: Verification | Answers(codec, events, [], v) :: !v.intact && v.brokenAtSeq == at && v.reason == reason
  }

  lemma BreakIs(codec: Codec, events: seq<Event>, at: nat, reason: Reason)
    requires at < |events| && FirstBreak(codec, events, [], at)
    requires ReasonFor(codec, events[at], HashBefore(events, [], at)) == reason
    ensures BrokenAt(codec, events, at, reason)
  {
    forall v: Verification | Answers(codec, events, [], v)
      ensures !v.intact && v.brokenAtSeq == at && v.reason == reason
    {
      assert !GoodAt(codec, events, [], at);
    }
  }

  /** The rows before the one that was touched are as good as they were. */
  lemma GoodBefore(codec: Codec, rows: seq<Record>, events: seq<Event>, k: nat)
    requires Intact(codec, Events(rows), []) && k <= |rows| && k <= |events| && events[..k] == Events(rows)[..k]
    ensures forall i | 0 <= i < k :: GoodAt(codec, events, [], i)
    ensures k < |rows| ==> GoodLink(codec, rows[k].event, HashBefore(events, [], k))
  {
    forall i | 0 <= i <= k && i < |rows|
      ensures HashBefore(events, [], i) == HashBefore(Events(rows), [], i)
    {
      assert i > 0 ==> events[..k][i - 1] == Events(rows)[..k][i - 1];
    }
    forall i | 0 <= i < k ensures GoodAt(codec, events, [], i) {
      assert events[..k][i] == Events(rows)[..k][i];
      assert GoodAt(codec, Events(rows), [], i);
    }
    if k < |rows| {
      assert GoodAt(codec, Events(rows), [], k);
    }
  }

  /**
   After every run of any writers: when a compared column of one stored row is overwritten, the signed text left
   alone, the verification stops at that very row and says that the columns disagree with what was signed.
   */
  lemma ARewrittenColumnShows(codec: Codec, steps: seq<Step>, archived: bool, k: nat, e: Event)
    requires codec.Valid() && k < |Run(codec, Empty(archived), steps).table.rows|
    requires var row := Run(codec, Empty(archived), steps).table.rows[k].event;
      && e.prevHash == row.prevHash && e.hash == row.hash && e.canonicalBytes == row.canonicalBytes
      && (|| e.auditID != row.auditID || e.actor != row.actor || e.impersonatedBy != row.impersonatedBy
          || e.actingDivision != row.actingDivision || e.verb != row.verb || e.resource != row.resource
          || e.subresource != row.subresource || e.namespace != row.namespace || e.objectName != row.objectName
          || e.objectUID != row.objectUID || e.responseCode != row.responseCode
          || e.eventAt / 1000 != row.eventAt / 1000)
    ensures BrokenAt(codec, Rewritten(Run(codec, Empty(archived), steps).table.rows, k, e), k, Disagrees)
  {
    var rows := Run(codec, Empty(archived), steps).table.rows;
    var events := Rewritten(rows, k, e);
    RowsVerifyAfterEveryRun(codec, Empty(archived), steps);
    GoodBefore(codec, rows, events, k);
    BreakIs(codec, events, k, Disagrees);
  }

  /** Overwriting its signed text, or its hash, shows there as an alteration, unless the new text has the old digest. */
  lemma AnAlteredRowShows(codec: Codec, steps: seq<Step>, archived: bool, k: nat, e: Event)
    requires codec.Valid() && k < |Run(codec, Empty(archived), steps).table.rows|
    requires var row := Run(codec, Empty(archived), steps).table.rows[k].event;
      && e.prevHash == row.prevHash && (e.hash != row.hash || e.canonicalBytes != row.canonicalBytes)
      && (e.canonicalBytes == row.canonicalBytes || e.hash == row.hash)
    ensures var rows := Run(codec, Empty(archived), steps).table.rows;
      || BrokenAt(codec, Rewritten(rows, k, e), k, Altered)
      || Collision(codec, Hashed(e), Hashed(rows[k].event))
  {
    var rows := Run(codec, Empty(archived), steps).table.rows;
    var events := Rewritten(rows, k, e);
    RowsVerifyAfterEveryRun(codec, Empty(archived), steps);
    GoodBefore(codec, rows, events, k);
    if e.canonicalBytes == rows[k].event.canonicalBytes {
      BreakIs(codec, events, k, Altered);
    } else if codec.sha256(Hashed(e)) == codec.sha256(Hashed(rows[k].event)) {
      assert Hashed(e)[|e.prevHash|..] == e.canonicalBytes;
      assert Hashed(rows[k].event)[|e.prevHash|..] == rows[k].event.canonicalBytes;
    } else {
      BreakIs(codec, events, k, Altered);
    }
  }

  /** Overwriting its link shows there as one that does not follow. */
  lemma ARelinkedRowShows(codec: Codec, steps: seq<Step>, archived: bool, k: nat, e: Event)
    requires codec.Valid() && k < |Run(codec, Empty(archived), steps).table.rows|
    requires e.prevHash != Run(codec, Empty(archived), steps).table.rows[k].event.prevHash
    ensures BrokenAt(codec, Rewritten(Run(codec, Empty(archived), steps).table.rows, k, e), k, DoesNotFollow)
  {
    var rows := Run(codec, Empty(archived), steps).table.rows;
    var events := Rewritten(rows, k, e);
    RowsVerifyAfterEveryRun(codec, Empty(archived), steps);
    GoodBefore(codec, rows, events, k);
    BreakIs(codec, events, k, DoesNotFollow);
  }

  /**
   A row that is taken out, other than the last, shows at the one behind it, unless it carried its own hash as its
   link.
   */
  lemma ARemovedRowShows(codec: Codec, steps: seq<Step>, archived: bool, k: nat)
    requires codec.Valid() && k + 1 < |Run(codec, Empty(archived), steps).table.rows|
    ensures var rows := Run(codec, Empty(archived), steps).table.rows;
      || BrokenAt(codec, Events(rows)[..k] + Events(rows)[k + 1..], k, DoesNotFollow)
      || rows[k].event.hash == rows[k].event.prevHash
  {
    var rows := Run(codec, Empty(archived), steps).table.rows;
    var events := Events(rows)[..k] + Events(rows)[k + 1..];
    RowsVerifyAfterEveryRun(codec, Empty(archived), steps);
    assert events[..k] == Events(rows)[..k];
    GoodBefore(codec, rows, events, k);
    assert GoodAt(codec, Events(rows), [], k + 1);
    assert events[k] == rows[k + 1].event;
    if rows[k].event.hash != rows[k].event.prevHash {
      BreakIs(codec, events, k, DoesNotFollow);
    }
  }

  // ----- what the table holds -----

  /** A row keeps an event, its time to the microsecond and without its annotations. */
  lemma WhatARowKeeps(e: Event)
    ensures var row := Stored(e);
      && row.eventAt % 1000 == 0 && row.eventAt <= e.eventAt < row.eventAt + 1000
      && row.extra == Extra(e.extra.stage, e.extra.actorGroups, e.extra.sourceIPs, e.extra.userAgent, e.extra.payload,
                            map[])
      && row == e.(eventAt := row.eventAt, extra := row.extra)
  {
  }

  /**
   An insert goes through if and only if the event is linked to the last row's hash, or to nothing when there is none,
   and brings a new hash or a known id. A new id becomes the last row, under the next number; a known one changes
   nothing; both take a number.
   */
  lemma WhatAnInsertDoes(table: Table, e: Event)
    ensures var tip := if table.rows == [] then [] else table.rows[|table.rows| - 1].event.hash;
      var known := exists i :: 0 <= i < |table.rows| && table.rows[i].event.auditID == e.auditID;
      var seen := exists i :: 0 <= i < |table.rows| && table.rows[i].event.hash == e.hash;
      && (InsertOne(table, e).Some? <==> e.prevHash == tip && (known || !seen))
      && (InsertOne(table, e).Some? ==>
            InsertOne(table, e).value
            == Table(if known then table.rows else table.rows + [Record(table.nextSeq, Stored(e))], table.nextSeq + 1))
  {
    assert (exists i :: 0 <= i < |table.rows| && table.rows[i].event.auditID == e.auditID)
        <==> HasID(table.rows, e.auditID);
    assert (exists i :: 0 <= i < |table.rows| && table.rows[i].event.hash == e.hash) <==> HasHash(table.rows, e.hash);
  }

  /** A transaction is all of its inserts, one after the other, or none. */
  lemma WhatATransactionDoes(table: Table, events: seq<Event>)
    ensures InsertAll(table, []) == Some(table)
    ensures events != [] && InsertOne(table, events[0]).None? ==> InsertAll(table, events) == None
    ensures events != [] && InsertOne(table, events[0]).Some? ==>
      InsertAll(table, events) == InsertAll(InsertOne(table, events[0]).value, events[1..])
    ensures InsertAll(table, events).Some? ==> InsertAll(table, events).value.nextSeq == table.nextSeq + |events|
    decreases |events|
  {
    if events != [] && InsertOne(table, events[0]).Some? {
      WhatATransactionDoes(InsertOne(table, events[0]).value, events[1..]);
    }
  }

  ghost predicate HashesApart(rows: seq<Record>) {
    forall i, j :: 0 <= i < j < |rows| ==> rows[i].event.hash != rows[j].event.hash
  }

  lemma InsertKeepsHashesApart(table: Table, e: Event)
    requires HashesApart(table.rows)
    ensures InsertOne(table, e).Some? ==> HashesApart(InsertOne(table, e).value.rows)
  {
    if InsertOne(table, e).Some? && !HasID(table.rows, e.auditID) {
      assert forall i :: 0 <= i < |table.rows| ==> table.rows[i].event.hash != e.hash;
    }
  }

  lemma {:induction false} TransactionKeepsHashesApart(table: Table, events: seq<Event>)
    requires HashesApart(table.rows)
    ensures InsertAll(table, events).Some? ==> HashesApart(InsertAll(table, events).value.rows)
    decreases |events|
  {
    if events != [] {
      InsertKeepsHashesApart(table, events[0]);
      if InsertOne(table, events[0]).Some? {
        TransactionKeepsHashesApart(InsertOne(table, events[0]).value, events[1..]);
      }
    }
  }

  /** Over every run no two rows have the same hash. */
  lemma {:induction false} HashesStayApart(codec: Codec, archived: bool, steps: seq<Step>)
    ensures HashesApart(Run(codec, Empty(archived), steps).table.rows)
  {
    if steps != [] {
      var last := |steps| - 1;
      HashesStayApart(codec, archived, steps[..last]);
      if steps[last].Append? {
        var w := Run(codec, Empty(archived), steps[..last]);
        var linked := Link(codec, TipOf(w), steps[last].events);
        if linked.Some? {
          TransactionKeepsHashesApart(w.table, linked.value);
        }
      }
    }
  }

  /** The inserts of a refused batch end with the first that is refused. */
  lemma {:induction false} AttemptsEndAtTheRefusal(table: Table, events: seq<Event>)
    requires InsertAll(table, events) == None
    ensures var k := Attempts(table, events);
      1 <= k <= |events| && InsertAll(table, events[..k - 1]).Some? && InsertAll(table, events[..k]) == None
    decreases |events|
  {
    var k := Attempts(table, events);
    if k > 1 {
      AttemptsEndAtTheRefusal(InsertOne(table, events[0]).value, events[1..]);
      assert events[..k][1..] == events[1..][..k - 1] && events[..k - 1][1..] == events[1..][..k - 2];
    }
  }

  /**
   After a transaction the table holds the whole batch, also when only the answer to its commit was lost, or what it
   held before. The numbers that its inserts took are not given again.
   */
  lemma WhatTheTableKeeps(table: Table, events: seq<Event>, outcome: SinkOutcome)
    ensures var after := SinkAppend(table, events, outcome);
      match outcome
      case RolledBack(attempted) => after.rows == table.rows && after.nextSeq == table.nextSeq + attempted
      case _ =>
        && (InsertAll(table, events).Some? ==> Some(after) == InsertAll(table, events))
        && (InsertAll(table, events) == None ==>
              && after.rows == table.rows && table.nextSeq < after.nextSeq <= table.nextSeq + |events|
              && InsertAll(table, events[..after.nextSeq - table.nextSeq - 1]).Some?
              && InsertAll(table, events[..after.nextSeq - table.nextSeq]) == None)
  {
    if InsertAll(table, events) == None {
      AttemptsEndAtTheRefusal(table, events);
    }
  }

  // ----- what an append answers -----

  /** An append of nothing succeeds and does nothing. */
  lemma NothingIsAppended(codec: Codec, w: World, faults: Faults)
    ensures AppendStep(codec, w, [], faults) == (w, Accepted(0))
  {
  }

  /**
   An append fails before it reaches the table if the tip is needed and cannot be read, or an event cannot be
   marshalled.
   */
  lemma FailsBeforeTheTable(codec: Codec, w: World, events: seq<Event>, faults: Faults)
    requires events != [] && ((!w.read && faults.tipFails) || Link(codec, TipOf(w), events).None?)
    ensures var (after, result) := AppendStep(codec, w, events, faults);
      && result == Failed && after.table == w.table && after.lines == w.lines && after.files == w.files
      && (after.read ==> after.tip == TipOf(w))
  {
  }

  /**
   Past that it succeeds if and only if the table takes the batch and says so, and the archive, if there is one, is
   written whole. Then the last digest is the cached tip; after a failure nothing is cached.
   */
  lemma SucceedsIff(codec: Codec, w: World, events: seq<Event>, faults: Faults)
    requires events != [] && (w.read || !faults.tipFails) && Link(codec, TipOf(w), events).Some?
    ensures var (after, result) := AppendStep(codec, w, events, faults);
      var linked := Link(codec, TipOf(w), events).value;
      && (result == Accepted(|events|) <==>
            faults.sink == Committed && InsertAll(w.table, linked).Some? && (w.archived ==> faults.archive == Written))
      && (result == Accepted(|events|) || result == Failed)
      && (result == Failed ==> !after.read)
      && (result != Failed ==> after.read && after.tip == linked[|linked| - 1].hash)
      && (w.archived && (faults.sink != Committed || InsertAll(w.table, linked).None?) ==>
            after.lines == w.lines && after.files == w.files)
  {
  }
}
