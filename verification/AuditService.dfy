/**
 Verifying a window of the stored trail, and comparing it with the archive
 (Range in internal/audit/store.go, VerifyChain and compareArchive in internal/audit/service.go).
 */
module AuditService {
  import opened Text
  import opened AuditEvents
  import opened AuditArchive
  import opened AuditChain
  import opened AuditLaws
  import opened ArchiveLaws

  const NO_UPPER_BOUND: int := 0x4000_0000_0000_0000

  ghost predicate InOrder(rows: seq<Record>) {
    forall i, j | 0 <= i < j < |rows| :: rows[i].seq_ < rows[j].seq_
  }

  /** How many rows carry a number below `s`. */
  ghost function RowsBelow(rows: seq<Record>, s: int): (n: nat)
    ensures n <= |rows|
  {
    if rows == [] then 0 else RowsBelow(rows[..|rows| - 1], s) + if rows[|rows| - 1].seq_ < s then 1 else 0
  }

  lemma {:induction false} RowsBelowIsAPosition(rows: seq<Record>, s: int)
    requires InOrder(rows)
    ensures forall i | 0 <= i < |rows| :: rows[i].seq_ < s <==> i < RowsBelow(rows, s)
  {
    if rows != [] {
      var last := |rows| - 1;
      RowsBelowIsAPosition(rows[..last], s);
      assert forall i | 0 <= i < last :: rows[..last][i] == rows[i];
      assert rows[last].seq_ < s ==> forall i | 0 <= i < last :: rows[i].seq_ < s;
    }
  }

  /** The positions of the rows a window asks for. */
  ghost predicate Window(rows: seq<Record>, from: int, to: int, lo: nat, hi: nat) {
    && lo <= hi <= |rows|
    && (forall i | 0 <= i < |rows| :: rows[i].seq_ < from <==> i < lo)
    && (forall i | lo <= i < |rows| :: rows[i].seq_ <= to <==> i < hi)
  }

  /** Where the window ends that starts at `from`. */
  ghost function WindowEnd(rows: seq<Record>, from: int, to: int): (hi: nat)
    ensures RowsBelow(rows, from) <= hi <= |rows|
  {
    if RowsBelow(rows, to + 1) < RowsBelow(rows, from) then RowsBelow(rows, from) else RowsBelow(rows, to + 1)
  }

  /** A window holds exactly the rows whose numbers lie within it, and what is before it has lower numbers. */
  lemma AWindowIsItsNumbers(rows: seq<Record>, from: int, to: int, lo: nat, hi: nat)
    requires Window(rows, from, to, lo, hi)
    ensures lo <= hi <= |rows|
    ensures forall i :: 0 <= i < |rows| ==> (lo <= i < hi <==> from <= rows[i].seq_ <= to)
    ensures forall i :: 0 <= i < lo ==> rows[i].seq_ < from
    ensures lo < |rows| ==> rows[lo].seq_ >= from
  {
  }

  /** toSeq as the query reads it: none means all. */
  function UpperBound(to: int): int {
    if to <= 0 then NO_UPPER_BOUND else to
  }

  /** What Range answers: the rows from one number to another, or to the end, and the hash of the row before them. */
  lemma WhatRangeAnswers(rows: seq<Record>, from: int, to: int)
    requires InOrder(rows)
    ensures var lo, hi := RowsBelow(rows, from), WindowEnd(rows, from, UpperBound(to));
      var upper := if to <= 0 then 0x4000_0000_0000_0000 else to;
      && lo <= hi <= |rows|
      && (forall i :: 0 <= i < |rows| ==> (lo <= i < hi <==> from <= rows[i].seq_ <= upper))
      && HashBefore(Events(rows), [], lo) == (if lo == 0 then [] else rows[lo - 1].event.hash)
      && (lo > 0 ==> rows[lo - 1].seq_ < from) && (lo < |rows| ==> rows[lo].seq_ >= from)
  {
    RowsBelowIsAPosition(rows, from);
    RowsBelowIsAPosition(rows, UpperBound(to) + 1);
  }

  method Range(rows: seq<Record>, from: int, to: int) returns (records: seq<Record>, start: bytes)
    requires InOrder(rows)
    ensures records == rows[RowsBelow(rows, from)..WindowEnd(rows, from, UpperBound(to))]
    ensures start == HashBefore(Events(rows), [], RowsBelow(rows, from))
    ensures Window(rows, from, UpperBound(to), RowsBelow(rows, from), WindowEnd(rows, from, UpperBound(to)))
  {
    var upper := if to <= 0 then NO_UPPER_BOUND else to;
    records, start := [], [];
    ghost var lo, hi := RowsBelow(rows, from), WindowEnd(rows, from, upper);
    RowsBelowIsAPosition(rows, from);
    RowsBelowIsAPosition(rows, upper + 1);
    for i := 0 to |rows|
      invariant start == HashBefore(Events(rows), [], if i < lo then i else lo)
      invariant records == if i <= lo then [] else rows[lo..if i < hi then i else hi]
    {
      if rows[i].seq_ < from {
        start := rows[i].event.hash;
      } else if rows[i].seq_ <= upper {
        records := records + [rows[i]];
      }
    }
  }

  lemma WindowSeesTheWhole(codec: Codec, rows: seq<Record>, lo: nat, hi: nat)
    requires lo <= hi <= |rows|
    ensures forall j | 0 <= j < hi - lo ::
              GoodAt(codec, Events(rows[lo..hi]), HashBefore(Events(rows), [], lo), j) <==>
              GoodAt(codec, Events(rows), [], lo + j)
  {
    forall j | 0 <= j < hi - lo
      ensures GoodAt(codec, Events(rows[lo..hi]), HashBefore(Events(rows), [], lo), j)
        <==> GoodAt(codec, Events(rows), [], lo + j)
    {
      assert rows[lo..hi][j] == rows[lo + j];
      assert j > 0 ==> rows[lo..hi][j - 1] == rows[lo + j - 1];
    }
  }

  ghost predicate InArchive(hashes: map<string, bytes>, e: Event) {
    e.auditID in hashes && hashes[e.auditID] == e.hash
  }

  ghost predicate WindowLinked(codec: Codec, rows: seq<Record>, lo: nat, hi: nat)
    requires lo <= hi <= |rows|
  {
    forall k | lo <= k < hi :: GoodAt(codec, Events(rows), [], k)
  }

  ghost predicate WindowArchived(hashes: map<string, bytes>, rows: seq<Record>, lo: nat, hi: nat)
    requires lo <= hi <= |rows|
  {
    forall k | lo <= k < hi :: InArchive(hashes, rows[k].event)
  }

  /** `at` is the number of the first row of the window that does not follow the row before it. */
  ghost predicate FirstUnlinked(codec: Codec, rows: seq<Record>, lo: nat, hi: nat, at: int)
    requires lo <= hi <= |rows|
  {
    exists k | lo <= k < hi ::
      at == rows[k].seq_ && !GoodAt(codec, Events(rows), [], k) && WindowLinked(codec, rows, lo, k)
  }

  /** `at` is the number of the first row of the window that the archive does not have as it is. */
  ghost predicate FirstUnarchived(hashes: map<string, bytes>, rows: seq<Record>, lo: nat, hi: nat, at: int)
    requires lo <= hi <= |rows|
  {
    exists k | lo <= k < hi ::
      at == rows[k].seq_ && !InArchive(hashes, rows[k].event) && WindowArchived(hashes, rows, lo, k)
  }

  /** What reading the archive comes to, if there is one. */
  datatype ArchiveRead = NoArchive | Unreadable | Readable(hashes: map<string, bytes>)

  function ReadArchive(codec: Codec, w: World): ArchiveRead {
    if !w.archived then NoArchive
    else
      match ReadFiles(codec, w.files)
      case None => Unreadable
      case Some(hashes) => Readable(hashes)
  }

  method CompareArchive(records: seq<Record>, hashes: map<string, bytes>, before: Verification)
      returns (v: Verification, ghost at: nat)
    ensures at <= |records|
    ensures forall i | 0 <= i < at :: InArchive(hashes, records[i].event)
    ensures at < |records| ==> !InArchive(hashes, records[at].event)
    ensures v.firstSeq == before.firstSeq && v.lastSeq == before.lastSeq && v.checked == before.checked
      && v.archiveChecked
    ensures at == |records| ==> v == before.(archiveChecked := true)
    ensures at < |records| ==>
              && !v.intact && v.brokenAtSeq == records[at].seq_
              && v.reason == if records[at].event.auditID in hashes then ArchiveDiffers else NotArchived
  {
    v := before.(archiveChecked := true);
    at := |records|;
    for i := 0 to |records|
      invariant v == before.(archiveChecked := true)
      invariant forall k | 0 <= k < i :: InArchive(hashes, records[k].event)
    {
      var record := records[i];
      if record.event.auditID !in hashes {
        at := i;
        return v.(intact := false, brokenAtSeq := record.seq_, reason := NotArchived), at;
      }
      if hashes[record.event.auditID] != record.event.hash {
        at := i;
        return v.(intact := false, brokenAtSeq := record.seq_, reason := ArchiveDiffers), at;
      }
    }
  }

  method VerifyWindow(codec: Codec, rows: seq<Record>, ghost lo: nat, ghost hi: nat, records: seq<Record>, start: bytes)
    returns (v: Verification)
    requires lo <= hi <= |rows| && records == rows[lo..hi] && start == HashBefore(Events(rows), [], lo)
    ensures !v.archiveChecked
    ensures v.intact <==> WindowLinked(codec, rows, lo, hi)
    ensures lo < hi ==> v.firstSeq == rows[lo].seq_ && v.lastSeq == rows[hi - 1].seq_
    ensures !v.intact ==> FirstUnlinked(codec, rows, lo, hi, v.brokenAtSeq)
  {
    v := Verify(codec, Events(records), start);
    ghost var at := v.brokenAtSeq;
    WindowVerdict(codec, rows, lo, hi, v.intact, at);
    if |records| > 0 {
      v := v.(firstSeq := records[0].seq_, lastSeq := records[|records| - 1].seq_);
      if !v.intact && v.brokenAtSeq < |records| {
        v := v.(brokenAtSeq := records[v.brokenAtSeq].seq_);
      }
    }
  }

  /** What checking the window's events comes to in terms of the whole trail. */
  lemma WindowVerdict(codec: Codec, rows: seq<Record>, lo: nat, hi: nat, intact: bool, at: int)
    requires lo <= hi <= |rows|
    requires intact <==> Intact(codec, Events(rows[lo..hi]), HashBefore(Events(rows), [], lo))
    requires !intact ==> FirstBreak(codec, Events(rows[lo..hi]), HashBefore(Events(rows), [], lo), at)
    ensures intact <==> WindowLinked(codec, rows, lo, hi)
    ensures !intact ==> 0 <= at < hi - lo && FirstUnlinked(codec, rows, lo, hi, rows[lo..hi][at].seq_)
  {
    WindowIsLinkedIffIntact(codec, rows, lo, hi);
    if !intact {
      BreakInWindow(codec, rows, lo, hi, at);
      assert rows[lo..hi][at] == rows[lo + at];
    }
  }

  lemma WindowIsLinkedIffIntact(codec: Codec, rows: seq<Record>, lo: nat, hi: nat)
    requires lo <= hi <= |rows|
    ensures Intact(codec, Events(rows[lo..hi]), HashBefore(Events(rows), [], lo)) <==> WindowLinked(codec, rows, lo, hi)
  {
    WindowSeesTheWhole(codec, rows, lo, hi);
    var events, start := Events(rows[lo..hi]), HashBefore(Events(rows), [], lo);
    if Intact(codec, events, start) {
      forall k | lo <= k < hi
        ensures GoodAt(codec, Events(rows), [], k)
      {
        assert GoodAt(codec, events, start, k - lo);
      }
    }
  }

  lemma BreakInWindow(codec: Codec, rows: seq<Record>, lo: nat, hi: nat, at: nat)
    requires lo <= hi <= |rows| && FirstBreak(codec, Events(rows[lo..hi]), HashBefore(Events(rows), [], lo), at)
    ensures FirstUnlinked(codec, rows, lo, hi, rows[lo + at].seq_)
  {
    WindowSeesTheWhole(codec, rows, lo, hi);
    var events, start := Events(rows[lo..hi]), HashBefore(Events(rows), [], lo);
    forall k | lo <= k < lo + at
      ensures GoodAt(codec, Events(rows), [], k)
    {
      assert GoodAt(codec, events, start, k - lo);
    }
    assert !GoodAt(codec, Events(rows), [], lo + at) && WindowLinked(codec, rows, lo, lo + at);
  }

  /**
   A window is judged exactly as its rows are judged in the whole trail: what lies outside it does not
   matter, save the one hash before it. The number reported is that of the first row that fails; a
   difference with the archive takes precedence over a broken link, and an archive that cannot be read over any verdict.
   */
  method VerifyChain(codec: Codec, rows: seq<Record>, archive: ArchiveRead, fromSeq: int, toSeq: int,
                     compareArchive: bool)
    returns (answer: Option<Verification>, ghost lo: nat, ghost hi: nat)
    requires InOrder(rows)
    ensures Window(rows, if fromSeq <= 0 then 1 else fromSeq, if toSeq <= 0 then 0x4000_0000_0000_0000
      else toSeq, lo, hi)
    ensures answer.None? <==> compareArchive && archive.Unreadable?
    ensures answer.Some? ==>
      var v := answer.value;
      && (v.archiveChecked <==> compareArchive && archive.Readable?)
      && (v.intact <==> WindowLinked(codec, rows, lo, hi)
                        && (v.archiveChecked ==> WindowArchived(archive.hashes, rows, lo, hi)))
      && (lo < hi ==> v.firstSeq == rows[lo].seq_ && v.lastSeq == rows[hi - 1].seq_)
      && (v.archiveChecked && !WindowArchived(archive.hashes, rows, lo, hi) ==>
            FirstUnarchived(archive.hashes, rows, lo, hi, v.brokenAtSeq))
      && (!WindowLinked(codec, rows, lo, hi)
          && (v.archiveChecked ==> WindowArchived(archive.hashes, rows, lo, hi)) ==>
            FirstUnlinked(codec, rows, lo, hi, v.brokenAtSeq))
  {
    var from := if fromSeq <= 0 then 1 else fromSeq;
    var records, start;
    records, start := Range(rows, from, toSeq);
    lo, hi := RowsBelow(rows, from), WindowEnd(rows, from, UpperBound(toSeq));
    var v := VerifyWindow(codec, rows, lo, hi, records, start);

    if compareArchive && archive.Unreadable? {
      return None, lo, hi;
    }
    if compareArchive && archive.Readable? {
      ghost var at: nat;
      v, at := CompareArchive(records, archive.hashes, v);
      assert forall k | lo <= k < hi :: records[k - lo] == rows[k];
      if at < |records| {
        assert !InArchive(archive.hashes, rows[lo + at].event) && WindowArchived(archive.hashes, rows, lo, lo + at);
      }
    }
    answer := Some(v);
  }

  /**
   In a sound world the whole trail verifies, and compared with an archive that can be read it verifies exactly when the
   archive lists every row.
   */
  lemma SoundTrailsVerify(codec: Codec, w: World)
    requires Sound(codec, w)
    ensures InOrder(w.table.rows)
    ensures WindowLinked(codec, w.table.rows, 0, |w.table.rows|)
    ensures WindowArchived(Hashes(w.lines), w.table.rows, 0, |w.table.rows|)
            <==> forall k | 0 <= k < |w.table.rows| :: HasLine(w.lines, w.table.rows[k].event.auditID)
  {
    forall k | 0 <= k < |w.table.rows|
      ensures InArchive(Hashes(w.lines), w.table.rows[k].event) <==> HasLine(w.lines, w.table.rows[k].event.auditID)
    {
      HashesFindTheirLine(w.lines, w.table.rows[k].event.auditID);
      ArchivedHashIsTheRows(codec, w, k);
    }
  }

  /**
   After the accepted retry of a stored event, comparing any window that holds its row with the archive fails, and
   goes on failing over every later run that does not carry that id again.
   */
  lemma StaleRowFailsForGood(codec: Codec, w: World, e: Event, k: nat, steps: seq<Step>, lo: nat, hi: nat)
    requires codec.Valid() && Sound(codec, w) && w.archived && Link(codec, TipOf(w), [e]).Some?
    requires k < |w.table.rows| && w.table.rows[k].event.auditID == e.auditID
    requires Link(codec, TipOf(w), [e]).value[0].hash != w.table.rows[k].event.hash && NoneCarries(steps, e.auditID)
    requires lo <= k < hi
    ensures var v := Run(codec, AppendStep(codec, w, [e], NoFaults).0, steps);
            hi <= |v.table.rows| ==> !WindowArchived(Hashes(v.lines), v.table.rows, lo, hi)
  {
    StaleLineStays(codec, w, e, k, steps);
    var v := Run(codec, AppendStep(codec, w, [e], NoFaults).0, steps);
    assert !InArchive(Hashes(v.lines), v.table.rows[k].event);
  }

  /**
   What comparing with the archive meets after any run of the writers: an error if and only if a write of the run
   ruined the files, and otherwise the hashes of exactly the lines that were written.
   */
  lemma ComparisonFailsIffRuined(codec: Codec, steps: seq<Step>)
    requires LineFormat(codec)
    ensures var end := Run(codec, Empty(true), steps);
      ReadArchive(codec, end) ==
        if Ruined(Marks(codec, Empty(true), steps)) then Unreadable else Readable(Hashes(end.lines))
  {
    TheArchiveReadsBackIff(codec, true, steps);
    ArchiveStays(codec, Empty(true), steps);
  }

  lemma {:induction false} ArchiveStays(codec: Codec, w: World, steps: seq<Step>)
    ensures Run(codec, w, steps).archived == w.archived
  {
    if steps != [] {
      ArchiveStays(codec, w, steps[..|steps| - 1]);
    }
  }
}
