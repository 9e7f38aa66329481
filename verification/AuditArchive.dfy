/**
 The file archive (internal/audit/archive.go): one file a day, to which every batch is added as text, a line to an
 event. A write that fails leaves whatever part of its text had reached the file.
 */
module AuditArchive {
  import opened Text
  import opened AuditEvents

  /** The length at which a line no longer fits the scanner's buffer. */
  const LONGEST: nat := 16 * 1024 * 1024

  function LineOf(e: Event): Line {
    Line(e.auditID, e.hash)
  }

  function Lines(events: seq<Event>): (lines: seq<Line>)
    ensures |lines| == |events|
  {
    seq(|events|, i requires 0 <= i < |events| => LineOf(events[i]))
  }

  /** The last line written for an id wins. */
  function Hashes(lines: seq<Line>): map<string, bytes> {
    if lines == [] then map[]
    else Hashes(lines[..|lines| - 1])[lines[|lines| - 1].auditID := lines[|lines| - 1].hash]
  }

  // ----- writing -----

  /** The whole text of a batch. */
  function BatchText(codec: Codec, events: seq<Event>): string {
    if events == [] then ""
    else BatchText(codec, events[..|events| - 1]) + codec.encode(events[|events| - 1]) + ['\n']
  }

  /** The write goes through, or fails when so many bytes of it are in the file. */
  datatype ArchiveOutcome = Written | FailedAfter(size: nat)

  function FirstOf(text: string, size: nat): string {
    if size < |text| then text[..size] else text
  }

  /** What a write leaves in the file. */
  function TextReached(codec: Codec, events: seq<Event>, outcome: ArchiveOutcome): string {
    match outcome
    case Written => BatchText(codec, events)
    case FailedAfter(size) => FirstOf(BatchText(codec, events), size)
  }

  /** How many lines the first `size` bytes of a batch hold, the last of them perhaps without its newline. */
  function WholeIn(codec: Codec, events: seq<Event>, size: nat): (n: nat)
    ensures n <= |events|
  {
    if events == [] then 0
    else
      var front, last := events[..|events| - 1], events[|events| - 1];
      var before := |BatchText(codec, front)|;
      if size <= before then WholeIn(codec, front, size)
      else if size < before + |codec.encode(last)| then |front|
      else |events|
  }

  function LinesReached(codec: Codec, events: seq<Event>, outcome: ArchiveOutcome): seq<Line> {
    match outcome
    case Written => Lines(events)
    case FailedAfter(size) => Lines(events[..WholeIn(codec, events, size)])
  }

  /** The text added to the file of the day. */
  function Appended(files: seq<string>, text: string): seq<string> {
    if files == [] then [text] else files[..|files| - 1] + [files[|files| - 1] + text]
  }

  // ----- reading -----

  /** The lines of a text that end in a newline. */
  function Ended(text: string): seq<string> {
    if text == "" then []
    else
      var front := text[..|text| - 1];
      if text[|text| - 1] == '\n' then Ended(front) + [Tail(front)] else Ended(front)
  }

  /** What follows the last newline of a text. */
  function Tail(text: string): string {
    if text == "" || text[|text| - 1] == '\n' then "" else Tail(text[..|text| - 1]) + [text[|text| - 1]]
  }

  /** bufio.ScanLines: the last line needs no newline. */
  function Scanned(text: string): seq<string> {
    Ended(text) + if Tail(text) == "" then [] else [Tail(text)]
  }

  function AllScanned(files: seq<string>): seq<string> {
    if files == [] then [] else AllScanned(files[..|files| - 1]) + Scanned(files[|files| - 1])
  }

  function ReadLine(codec: Codec, text: string): Option<Line> {
    if |text| >= LONGEST then None else codec.decode(text)
  }

  /** One line that cannot be read fails them all. */
  function ReadLines(codec: Codec, texts: seq<string>): Option<seq<Line>> {
    if texts == [] then Some([])
    else
      match (ReadLines(codec, texts[..|texts| - 1]), ReadLine(codec, texts[|texts| - 1]))
      case (Some(front), Some(line)) => Some(front + [line])
      case _ => None
  }

  function ReadFiles(codec: Codec, files: seq<string>): Option<map<string, bytes>> {
    match ReadLines(codec, AllScanned(files))
    case None => None
    case Some(lines) => Some(Hashes(lines))
  }

  lemma {:induction false} ReadLinesInParts(codec: Codec, a: seq<string>, b: seq<string>)
    ensures ReadLines(codec, a + b) == match (ReadLines(codec, a), ReadLines(codec, b))
                                       case (Some(x), Some(y)) => Some(x + y)
                                       case _ => None
  {
    if b == [] {
      assert a + b == a;
      assert ReadLines(codec, a).Some? ==> ReadLines(codec, a).value + [] == ReadLines(codec, a).value;
    } else {
      ReadLinesInParts(codec, a, b[..|b| - 1]);
      assert (a + b)[..|a + b| - 1] == a + b[..|b| - 1];
      var whole, line := ReadLines(codec, b[..|b| - 1]), ReadLine(codec, b[|b| - 1]);
      if ReadLines(codec, a).Some? && whole.Some? && line.Some? {
        assert ReadLines(codec, a).value + (whole.value + [line.value])
            == ReadLines(codec, a).value + whole.value + [line.value];
      }
    }
  }

  lemma {:induction false} AllScannedInParts(files: seq<string>, k: nat)
    requires k < |files|
    ensures AllScanned(files[..k + 1]) == AllScanned(files[..k]) + Scanned(files[k])
    ensures AllScanned(files[..k + 1]) <= AllScanned(files)
  {
    assert files[..k + 1][..k] == files[..k];
    if k == |files| - 1 {
      assert files[..k + 1] == files;
    } else {
      AllScannedInParts(files[..|files| - 1], k);
      assert files[..|files| - 1][..k + 1] == files[..k + 1];
    }
  }

  lemma OneBadLineFailsAll(codec: Codec, texts: seq<string>, k: nat)
    requires k < |texts| && ReadLine(codec, texts[k]).None?
    ensures ReadLines(codec, texts).None?
  {
    ReadLinesInParts(codec, texts[..k + 1], texts[k + 1..]);
    assert texts == texts[..k + 1] + texts[k + 1..];
    assert texts[..k + 1][..k] == texts[..k];
  }

  lemma OneBadFileFailsAll(codec: Codec, files: seq<string>, k: nat)
    requires k < |files| && ReadLines(codec, Scanned(files[k])).None?
    ensures ReadFiles(codec, files).None?
  {
    AllScannedInParts(files, k);
    var upTo, all := AllScanned(files[..k + 1]), AllScanned(files);
    ReadLinesInParts(codec, AllScanned(files[..k]), Scanned(files[k]));
    ReadLinesInParts(codec, upTo, all[|upTo|..]);
    assert all == upTo + all[|upTo|..];
  }

  lemma HashesOfOneMore(lines: seq<Line>, line: Line)
    ensures Hashes(lines + [line]) == Hashes(lines)[line.auditID := line.hash]
  {
    assert (lines + [line])[..|lines|] == lines;
  }

  // ----- the archive itself -----

  class Archive {
    var files: seq<string>
    ghost var lines: seq<Line>

    constructor ()
      ensures files == [] && lines == []
    {
      files, lines := [], [];
    }

    /** Midnight: what is written next goes to a file of its own. */
    method NextDay()
      modifies this`files
      ensures files == old(files) + [""]
    {
      files := files + [""];
    }

    method Write(codec: Codec, events: seq<Event>, outcome: ArchiveOutcome) returns (ok: bool)
      modifies this
      ensures ok <==> outcome == Written
      ensures files == Appended(old(files), TextReached(codec, events, outcome))
      ensures lines == old(lines) + LinesReached(codec, events, outcome)
    {
      var text := "";
      for i := 0 to |events|
        invariant text == BatchText(codec, events[..i]) && files == old(files) && lines == old(lines)
      {
        assert events[..i + 1][..i] == events[..i];
        text := text + codec.encode(events[i]) + ['\n'];
      }
      assert events[..|events|] == events;
      var reached := if outcome.Written? then text else FirstOf(text, outcome.size);
      if files == [] {
        files := [reached];
      } else {
        files := files[|files| - 1 := files[|files| - 1] + reached];
      }
      lines := lines + LinesReached(codec, events, outcome);
      ok := outcome.Written?;
    }

    /** Every line of every file is read; one that cannot be read fails the whole call. */
    method ReadHashes(codec: Codec) returns (hashes: Option<map<string, bytes>>)
      ensures hashes == ReadFiles(codec, files)
    {
      var found: map<string, bytes> := map[];
      ghost var read: seq<Line> := [];
      for i := 0 to |files|
        invariant ReadLines(codec, AllScanned(files[..i])) == Some(read) && found == Hashes(read)
      {
        var result := ReadFile(codec, files[i], found, read);
        if result.None? {
          OneBadFileFailsAll(codec, files, i);
          return None;
        }
        AllScannedInParts(files, i);
        ReadLinesInParts(codec, AllScanned(files[..i]), Scanned(files[i]));
        read := read + ReadLines(codec, Scanned(files[i])).value;
        found := result.value;
      }
      assert files[..|files|] == files;
      hashes := Some(found);
    }
  }

  lemma OneMoreLine(codec: Codec, texts: seq<string>, k: nat, read: seq<Line>, more: seq<Line>, line: Line)
    requires k < |texts| && ReadLines(codec, texts[..k]) == Some(more) && ReadLine(codec, texts[k]) == Some(line)
    ensures ReadLines(codec, texts[..k + 1]) == Some(more + [line])
    ensures Hashes(read + (more + [line])) == Hashes(read + more)[line.auditID := line.hash]
  {
    assert texts[..k + 1][..k] == texts[..k];
    HashesOfOneMore(read + more, line);
    assert read + more + [line] == read + (more + [line]);
  }

  /** The loop over one file: the hashes found so far, and those of its lines. */
  method ReadFile(codec: Codec, text: string, before: map<string, bytes>, ghost read: seq<Line>)
      returns (found: Option<map<string, bytes>>)
    requires before == Hashes(read)
    ensures found == match ReadLines(codec, Scanned(text))
                     case None => None
                     case Some(more) => Some(Hashes(read + more))
  {
    var texts := Scanned(text);
    var hashes := before;
    ghost var more: seq<Line> := [];
    assert read + more == read;
    for k := 0 to |texts|
      invariant ReadLines(codec, texts[..k]) == Some(more) && hashes == Hashes(read + more)
    {
      var line := ReadLine(codec, texts[k]);
      if line.None? {
        OneBadLineFailsAll(codec, texts, k);
        return None;
      }
      OneMoreLine(codec, texts, k, read, more, line.value);
      more := more + [line.value];
      hashes := hashes[line.value.auditID := line.value.hash];
    }
    assert texts[..|texts|] == texts;
    found := Some(hashes);
  }
}
