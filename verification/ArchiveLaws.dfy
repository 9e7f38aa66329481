/**
 When the archive can be read back: what its files hold after any run of the writers, whatever part of a batch a failed
 write left in them.
 */
module ArchiveLaws {
  import opened Text
  import opened AuditEvents
  import opened AuditArchive
  import opened AuditChain
  import opened AuditLaws

  // ----- the text of a line -----

  /** The beginning of a line's text, or all of it. */
  ghost predicate Begins(codec: Codec, piece: string) {
    piece != "" && exists e: Event :: piece <= codec.encode(e)
  }

  ghost predicate Pieces(codec: Codec, pieces: seq<string>) {
    forall i :: 0 <= i < |pieces| ==> Begins(codec, pieces[i])
  }

  function Joined(pieces: seq<string>): string {
    if pieces == [] then "" else Joined(pieces[..|pieces| - 1]) + pieces[|pieces| - 1]
  }

  /** The first `n` characters of one line's text, with others run into it: not the whole of it and nothing else. */
  ghost predicate Spoils(codec: Codec, e: Event, n: nat, rest: seq<string>, text: string) {
    && 0 < n <= |codec.encode(e)| && Pieces(codec, rest) && (n < |codec.encode(e)| || rest != [])
    && text == codec.encode(e)[..n] + Joined(rest)
  }

  ghost predicate Spoilt(codec: Codec, text: string) {
    exists e: Event, n: nat, rest: seq<string> :: Spoils(codec, e, n, rest, text)
  }

  /**
   What JSON objects on lines of their own have: the text of a line holds no newline and reads back; a beginning of one
   does not read, nor does it with other lines or their beginnings behind it, nor does a whole one with such behind it.
   */
  ghost predicate LineFormat(codec: Codec) {
    && (forall e :: codec.encode(e) != "" && '\n' !in codec.encode(e))
    && (forall e :: codec.decode(codec.encode(e)) == Some(LineOf(e)))
    && (forall text :: Spoilt(codec, text) ==> codec.decode(text) == None)
  }

  lemma JoinedOneMore(pieces: seq<string>, piece: string)
    ensures Joined(pieces + [piece]) == Joined(pieces) + piece
  {
    assert (pieces + [piece])[..|pieces|] == pieces;
  }

  lemma SpoilsStays(codec: Codec, e: Event, n: nat, rest: seq<string>, text: string, piece: string)
    requires Spoils(codec, e, n, rest, text) && Begins(codec, piece)
    ensures Spoils(codec, e, n, rest + [piece], text + piece)
  {
    JoinedOneMore(rest, piece);
    assert codec.encode(e)[..n] + (Joined(rest) + piece) == text + piece;
  }

  lemma SpoiltStays(codec: Codec, text: string, piece: string)
    requires Spoilt(codec, text) && Begins(codec, piece)
    ensures Spoilt(codec, text + piece)
  {
    var e: Event, n: nat, rest: seq<string> :| Spoils(codec, e, n, rest, text);
    SpoilsStays(codec, e, n, rest, text, piece);
  }

  lemma ABeginningIsSpoilt(codec: Codec, e: Event, n: nat)
    requires 0 < n < |codec.encode(e)|
    ensures Spoilt(codec, codec.encode(e)[..n])
  {
    assert codec.encode(e)[..n] + Joined([]) == codec.encode(e)[..n];
    assert Spoils(codec, e, n, [], codec.encode(e)[..n]);
  }

  lemma RunTogetherIsSpoilt(codec: Codec, e: Event, piece: string)
    requires codec.encode(e) != "" && Begins(codec, piece)
    ensures Spoilt(codec, codec.encode(e) + piece)
  {
    JoinedOneMore([], piece);
    assert [] + [piece] == [piece] && "" + piece == piece;
    assert codec.encode(e)[..|codec.encode(e)|] == codec.encode(e);
    assert Spoils(codec, e, |codec.encode(e)|, [piece], codec.encode(e) + piece);
  }

  // ----- what a write does to the lines of the files -----

  /** The line the next write goes on with. */
  function LastTail(files: seq<string>): string {
    if files == [] then "" else Tail(files[|files| - 1])
  }

  lemma {:induction false} NoNewLine(text: string, x: string)
    requires '\n' !in x
    ensures Ended(text + x) == Ended(text) && Tail(text + x) == Tail(text) + x
  {
    if x == "" {
      assert text + x == text;
    } else {
      NoNewLine(text, x[..|x| - 1]);
      assert (text + x)[..|text + x| - 1] == text + x[..|x| - 1];
    }
  }

  lemma NewLine(text: string)
    ensures Ended(text + ['\n']) == Ended(text) + [Tail(text)] && Tail(text + ['\n']) == ""
  {
    assert (text + ['\n'])[..|text|] == text;
  }

  lemma AppendedTwice(files: seq<string>, a: string, b: string)
    ensures Appended(Appended(files, a), b) == Appended(files, a + b)
  {
    if files != [] {
      assert files[|files| - 1] + a + b == files[|files| - 1] + (a + b);
    }
  }

  lemma AllScannedOfAppended(files: seq<string>, x: string)
    ensures files == [] ==> AllScanned(Appended(files, x)) == Scanned(x)
    ensures files != [] ==> var last := |files| - 1;
      && AllScanned(Appended(files, x)) == AllScanned(files[..last]) + Scanned(files[last] + x)
      && AllScanned(files) == AllScanned(files[..last]) + Scanned(files[last])
  {
    if files == [] {
      assert [x][..0] == [];
      assert AllScanned([]) + Scanned(x) == Scanned(x);
    } else {
      assert Appended(files, x)[..|files| - 1] == files[..|files| - 1];
    }
  }

  lemma AppendedNothing(files: seq<string>)
    ensures AllScanned(Appended(files, "")) == AllScanned(files) && LastTail(Appended(files, "")) == LastTail(files)
  {
    AllScannedOfAppended(files, "");
    if files != [] {
      assert files[|files| - 1] + "" == files[|files| - 1];
    }
  }

  lemma ScannedOfPiece(text: string, x: string)
    requires x != "" && '\n' !in x
    ensures Scanned(text + x) == Ended(text) + [Tail(text) + x] && Tail(text + x) == Tail(text) + x
    ensures Scanned(text) == if Tail(text) == "" then Ended(text) else Ended(text) + [Tail(text)]
  {
    NoNewLine(text, x);
  }

  lemma LastIsLast<T>(a: seq<T>, b: seq<T>, x: T)
    ensures a + (b + [x]) == a + b + [x]
    ensures (a + (b + [x]))[..|a + b|] == a + b && |a + (b + [x])| == |a + b| + 1 && (a + (b + [x]))[|a + b|] == x
  {
  }

  /** A piece goes on with the last line, if that is not ended, and else begins one. */
  ghost predicate GoesOn(texts: seq<string>, tail: string, x: string, after: seq<string>) {
    && (tail == "" ==> after == texts + [tail + x])
    && (tail != "" ==> texts != [] && texts[|texts| - 1] == tail && after == texts[..|texts| - 1] + [tail + x])
  }

  /** With the lines of the earlier files before them. */
  lemma PieceBehind(before: seq<string>, text: string, x: string)
    requires x != "" && '\n' !in x
    ensures GoesOn(before + Scanned(text), Tail(text), x, before + Scanned(text + x))
  {
    ScannedOfPiece(text, x);
    LastIsLast(before, Ended(text), Tail(text) + x);
    LastIsLast(before, Ended(text), Tail(text));
  }

  lemma AddPieceToLast(files: seq<string>, x: string)
    requires x != "" && '\n' !in x && files != []
    ensures GoesOn(AllScanned(files), Tail(files[|files| - 1]), x, AllScanned(Appended(files, x)))
  {
    AllScannedOfAppended(files, x);
    PieceBehind(AllScanned(files[..|files| - 1]), files[|files| - 1], x);
  }

  lemma AddPiece(files: seq<string>, x: string)
    requires x != "" && '\n' !in x
    ensures LastTail(Appended(files, x)) == LastTail(files) + x
    ensures GoesOn(AllScanned(files), LastTail(files), x, AllScanned(Appended(files, x)))
  {
    if files == [] {
      AllScannedOfAppended(files, x);
      FirstPiece(x);
      assert "" + x == x && AllScanned(files) + ["" + x] == ["" + x];
    } else {
      AddPieceToLast(files, x);
      NoNewLine(files[|files| - 1], x);
    }
  }

  lemma FirstPiece(x: string)
    requires x != "" && '\n' !in x
    ensures Scanned(x) == [x] && Tail(x) == x
  {
    ScannedOfPiece("", x);
    assert "" + x == x;
  }

  lemma EndLine(files: seq<string>)
    requires LastTail(files) != ""
    ensures AllScanned(Appended(files, ['\n'])) == AllScanned(files) && LastTail(Appended(files, ['\n'])) == ""
  {
    AllScannedOfAppended(files, ['\n']);
    NewLine(files[|files| - 1]);
  }

  /** A line and its newline, or the first `k` characters of them. */
  function Part(codec: Codec, e: Event, k: nat): string {
    FirstOf(codec.encode(e) + ['\n'], k)
  }

  /** The piece of a part, and whether a newline follows. */
  lemma PartIsAPiece(codec: Codec, e: Event, k: nat)
    requires LineFormat(codec) && k > 0
    ensures var x := FirstOf(codec.encode(e), k);
      && Begins(codec, x) && '\n' !in x
      && Part(codec, e, k) == if k <= |codec.encode(e)| then x else x + ['\n']
  {
    assert codec.encode(e) != "" && '\n' !in codec.encode(e);
    var x := FirstOf(codec.encode(e), k);
    assert x <= codec.encode(e);
    if k <= |codec.encode(e)| {
      assert (codec.encode(e) + ['\n'])[..k] == codec.encode(e)[..k];
    }
  }

  lemma AddPart(codec: Codec, files: seq<string>, e: Event, k: nat)
    requires LineFormat(codec) && k > 0
    ensures var x, v := FirstOf(codec.encode(e), k), Appended(files, Part(codec, e, k));
      && Begins(codec, x) && x != "" && '\n' !in x
      && AllScanned(v) == AllScanned(Appended(files, x))
      && LastTail(v) == if k <= |codec.encode(e)| then LastTail(files) + x else ""
  {
    var x := FirstOf(codec.encode(e), k);
    PartIsAPiece(codec, e, k);
    AddPiece(files, x);
    if k > |codec.encode(e)| {
      EndLine(Appended(files, x));
      AppendedTwice(files, x, ['\n']);
    }
  }

  /** Some line is spoilt. */
  ghost predicate Broken(codec: Codec, texts: seq<string>) {
    exists i :: 0 <= i < |texts| && Spoilt(codec, texts[i])
  }

  lemma BrokenAt(codec: Codec, texts: seq<string>, i: nat)
    requires i < |texts| && Spoilt(codec, texts[i])
    ensures Broken(codec, texts)
  {
  }

  lemma PartOnBroken(codec: Codec, files: seq<string>, e: Event, k: nat)
    requires LineFormat(codec) && k > 0 && Broken(codec, AllScanned(files))
    ensures Broken(codec, AllScanned(Appended(files, Part(codec, e, k))))
  {
    var x, texts := FirstOf(codec.encode(e), k), AllScanned(files);
    AddPart(codec, files, e, k);
    AddPiece(files, x);
    var i: nat :| i < |texts| && Spoilt(codec, texts[i]);
    var after := AllScanned(Appended(files, x));
    if LastTail(files) != "" && i == |texts| - 1 {
      SpoiltStays(codec, texts[i], x);
      BrokenAt(codec, after, i);
    } else {
      assert after[i] == texts[i];
      BrokenAt(codec, after, i);
    }
  }

  /** Behind a line that lost its newline, whatever is written spoils it. */
  lemma PartOnRest(codec: Codec, files: seq<string>, before: Event, e: Event, k: nat)
    requires LineFormat(codec) && k > 0 && LastTail(files) == codec.encode(before)
    ensures Broken(codec, AllScanned(Appended(files, Part(codec, e, k))))
  {
    var x, texts := FirstOf(codec.encode(e), k), AllScanned(files);
    AddPart(codec, files, e, k);
    AddPiece(files, x);
    RunTogetherIsSpoilt(codec, before, x);
    LastIsLast([], texts[..|texts| - 1], LastTail(files) + x);
    BrokenAt(codec, AllScanned(Appended(files, x)), |texts| - 1);
  }

  /** Behind a newline a whole line is one more, and a beginning of one is spoilt. */
  lemma PartOnEnd(codec: Codec, files: seq<string>, e: Event, k: nat)
    requires LineFormat(codec) && k > 0 && LastTail(files) == ""
    ensures var v := Appended(files, Part(codec, e, k));
      && (k < |codec.encode(e)| ==> Broken(codec, AllScanned(v)))
      && (k >= |codec.encode(e)| ==> AllScanned(v) == AllScanned(files) + [codec.encode(e)])
      && (LastTail(v) != "" <==> k <= |codec.encode(e)|)
  {
    var x := FirstOf(codec.encode(e), k);
    AddPart(codec, files, e, k);
    AddPiece(files, x);
    assert LastTail(files) + x == x;
    if k < |codec.encode(e)| {
      ABeginningIsSpoilt(codec, e, k);
      BrokenAt(codec, AllScanned(Appended(files, x)), |AllScanned(files)|);
    }
  }

  // ----- what a write of a batch does -----

  /** Where a write stopped: after a newline, before one, or inside a line. */
  datatype Cut = Nothing | LineEnd | NewlineLost | Inside

  function CutIn(codec: Codec, events: seq<Event>, size: nat): Cut {
    if events == [] || size == 0 then Nothing
    else
      var front, last := events[..|events| - 1], events[|events| - 1];
      var before := |BatchText(codec, front)|;
      if size <= before then CutIn(codec, front, size)
      else if size < before + |codec.encode(last)| then Inside
      else if size == before + |codec.encode(last)| then NewlineLost
      else LineEnd
  }

  function Encoded(codec: Codec, events: seq<Event>): (texts: seq<string>)
    ensures |texts| == |events|
  {
    seq(|events|, i requires 0 <= i < |events| => codec.encode(events[i]))
  }

  /** The first characters of a batch: of its front alone, or the front and a part of its last line. */
  lemma FirstOfBatch(codec: Codec, events: seq<Event>, size: nat)
    requires events != []
    ensures var front, last := events[..|events| - 1], events[|events| - 1];
      var before := |BatchText(codec, front)|;
      FirstOf(BatchText(codec, events), size) ==
        if size <= before then FirstOf(BatchText(codec, front), size)
        else BatchText(codec, front) + Part(codec, last, size - before)
  {
    var front := BatchText(codec, events[..|events| - 1]);
    var line := codec.encode(events[|events| - 1]) + ['\n'];
    assert BatchText(codec, events) == front + line;
    if size > |front| && size < |front + line| {
      assert (front + line)[..size] == front + line[..size - |front|];
    }
  }

  /** The whole front. */
  lemma WholeFront(codec: Codec, events: seq<Event>)
    ensures FirstOf(BatchText(codec, events), |BatchText(codec, events)|) == BatchText(codec, events)
    ensures WholeIn(codec, events, |BatchText(codec, events)|) == |events|
    ensures CutIn(codec, events, |BatchText(codec, events)|) == if events == [] then Nothing else LineEnd
  {
  }

  /** Stopped behind the front, a write is that of the front and a part of the last line. */
  lemma BatchInTwo(codec: Codec, files: seq<string>, events: seq<Event>, size: nat)
    requires events != [] && size > |BatchText(codec, events[..|events| - 1])|
    ensures var front, last := events[..|events| - 1], events[|events| - 1];
      var text := BatchText(codec, front);
      && FirstOf(text, |text|) == text
      && Appended(files, FirstOf(BatchText(codec, events), size))
         == Appended(Appended(files, text), Part(codec, last, size - |text|))
  {
    var front, last := events[..|events| - 1], events[|events| - 1];
    var text := BatchText(codec, front);
    FirstOfBatch(codec, events, size);
    AppendedTwice(files, text, Part(codec, last, size - |text|));
  }

  /** Stopped within the front, it is that of the front alone. */
  lemma BatchInFront(codec: Codec, events: seq<Event>, size: nat)
    requires events != [] && size <= |BatchText(codec, events[..|events| - 1])|
    ensures var front := events[..|events| - 1];
      && FirstOf(BatchText(codec, events), size) == FirstOf(BatchText(codec, front), size)
      && events[..WholeIn(codec, events, size)] == front[..WholeIn(codec, front, size)]
      && CutIn(codec, events, size) == CutIn(codec, front, size)
  {
    FirstOfBatch(codec, events, size);
  }

  lemma BrokenBehind(codec: Codec, files: seq<string>, events: seq<Event>, size: nat)
    requires LineFormat(codec) && events != [] && size > |BatchText(codec, events[..|events| - 1])|
    requires Broken(codec, AllScanned(Appended(files, BatchText(codec, events[..|events| - 1]))))
    ensures Broken(codec, AllScanned(Appended(files, FirstOf(BatchText(codec, events), size))))
  {
    var text := BatchText(codec, events[..|events| - 1]);
    BatchInTwo(codec, files, events, size);
    PartOnBroken(codec, Appended(files, text), events[|events| - 1], size - |text|);
  }

  lemma {:induction false} BatchOnBroken(codec: Codec, files: seq<string>, events: seq<Event>, size: nat)
    requires LineFormat(codec) && Broken(codec, AllScanned(files))
    ensures Broken(codec, AllScanned(Appended(files, FirstOf(BatchText(codec, events), size))))
  {
    if events == [] {
      AppendedNothing(files);
    } else {
      var front := events[..|events| - 1];
      var before := |BatchText(codec, front)|;
      if size <= before {
        BatchInFront(codec, events, size);
        BatchOnBroken(codec, files, front, size);
      } else {
        WholeFront(codec, front);
        BatchOnBroken(codec, files, front, before);
        BrokenBehind(codec, files, events, size);
      }
    }
  }

  lemma {:induction false} BatchOnRest(codec: Codec, files: seq<string>, before: Event, events: seq<Event>, size: nat)
    requires LineFormat(codec) && LastTail(files) == codec.encode(before) && events != [] && size > 0
    ensures Broken(codec, AllScanned(Appended(files, FirstOf(BatchText(codec, events), size))))
  {
    var front, last := events[..|events| - 1], events[|events| - 1];
    var text := BatchText(codec, front);
    if size <= |text| {
      BatchInFront(codec, events, size);
      BatchOnRest(codec, files, before, front, size);
    } else {
      BatchInTwo(codec, files, events, size);
      if front == [] {
        RestBehindNothing(codec, files, before, last, size);
      } else {
        WholeFront(codec, front);
        BatchOnRest(codec, files, before, front, |text|);
        BrokenBehind(codec, files, events, size);
      }
    }
  }

  lemma RestBehindNothing(codec: Codec, files: seq<string>, before: Event, e: Event, k: nat)
    requires LineFormat(codec) && k > 0 && LastTail(files) == codec.encode(before)
    ensures Broken(codec, AllScanned(Appended(Appended(files, ""), Part(codec, e, k))))
  {
    AppendedNothing(files);
    PartOnRest(codec, Appended(files, ""), before, e, k);
  }

  lemma {:induction false} BatchOnEnd(codec: Codec, files: seq<string>, events: seq<Event>, size: nat)
    requires LineFormat(codec) && LastTail(files) == ""
    ensures var v := Appended(files, FirstOf(BatchText(codec, events), size));
      && (CutIn(codec, events, size) == Inside ==> Broken(codec, AllScanned(v)))
      && (CutIn(codec, events, size) != Inside ==>
            AllScanned(v) == AllScanned(files) + Encoded(codec, events[..WholeIn(codec, events, size)]))
      && (CutIn(codec, events, size) != Inside ==> (LastTail(v) != "" <==> CutIn(codec, events, size) == NewlineLost))
  {
    if events == [] {
      AppendedNothing(files);
      assert AllScanned(files) + Encoded(codec, []) == AllScanned(files);
    } else {
      var front, last := events[..|events| - 1], events[|events| - 1];
      var text := BatchText(codec, front);
      if size <= |text| {
        BatchInFront(codec, events, size);
        BatchOnEnd(codec, files, front, size);
      } else {
        BatchInTwo(codec, files, events, size);
        BatchOnEnd(codec, files, front, |text|);
        WholeFront(codec, front);
        BehindTheFront(codec, files, events, size);
      }
    }
  }

  /** The step of the induction: the front is in the files, and a part of the last line comes behind it. */
  lemma BehindTheFront(codec: Codec, files: seq<string>, events: seq<Event>, size: nat)
    requires LineFormat(codec) && events != [] && size > |BatchText(codec, events[..|events| - 1])|
    requires var front := events[..|events| - 1];
      var v := Appended(files, BatchText(codec, front));
      AllScanned(v) == AllScanned(files) + Encoded(codec, front) && LastTail(v) == ""
    ensures var v := Appended(Appended(files, BatchText(codec, events[..|events| - 1])),
                              Part(codec, events[|events| - 1], size - |BatchText(codec, events[..|events| - 1])|));
      && (CutIn(codec, events, size) == Inside ==> Broken(codec, AllScanned(v)))
      && (CutIn(codec, events, size) != Inside ==>
            AllScanned(v) == AllScanned(files) + Encoded(codec, events[..WholeIn(codec, events, size)]))
      && (CutIn(codec, events, size) != Inside ==> (LastTail(v) != "" <==> CutIn(codec, events, size) == NewlineLost))
  {
    var front, last := events[..|events| - 1], events[|events| - 1];
    var text := BatchText(codec, front);
    PartOnEnd(codec, Appended(files, text), last, size - |text|);
    EncodedOneMore(codec, AllScanned(files), events);
    CutBehind(codec, events, size);
  }

  lemma CutBehind(codec: Codec, events: seq<Event>, size: nat)
    requires events != [] && size > |BatchText(codec, events[..|events| - 1])|
    ensures var k := size - |BatchText(codec, events[..|events| - 1])|;
      var length := |codec.encode(events[|events| - 1])|;
      && (CutIn(codec, events, size) == Inside <==> k < length)
      && (CutIn(codec, events, size) == NewlineLost <==> k == length)
      && WholeIn(codec, events, size) == if k < length then |events| - 1 else |events|
  {
  }

  lemma EncodedOneMore(codec: Codec, texts: seq<string>, events: seq<Event>)
    requires events != []
    ensures var front := events[..|events| - 1];
      && front[..|front|] == front && events[..|events|] == events
      && texts + Encoded(codec, front) + [codec.encode(events[|events| - 1])] == texts + Encoded(codec, events)
  {
    var front := events[..|events| - 1];
    assert Encoded(codec, events) == Encoded(codec, front) + [codec.encode(events[|events| - 1])];
  }

  // ----- what a reading comes to -----

  /** The lines are whole, and say what was written. */
  ghost predicate Listed(codec: Codec, texts: seq<string>, lines: seq<Line>) {
    |texts| == |lines| && forall i :: 0 <= i < |texts| ==> WholeLine(codec, texts[i], lines[i])
  }

  ghost predicate WholeLine(codec: Codec, text: string, line: Line) {
    exists e: Event :: text == codec.encode(e) && LineOf(e) == line
  }

  /** Some line does not fit the scanner's buffer. */
  ghost predicate Overlong(texts: seq<string>) {
    exists i :: 0 <= i < |texts| && |texts[i]| >= LONGEST
  }

  lemma BrokenDoesNotRead(codec: Codec, texts: seq<string>)
    requires LineFormat(codec) && Broken(codec, texts)
    ensures ReadLines(codec, texts).None?
  {
    var i: nat :| i < |texts| && Spoilt(codec, texts[i]);
    OneBadLineFailsAll(codec, texts, i);
  }

  lemma OverlongDoesNotRead(codec: Codec, texts: seq<string>)
    requires Overlong(texts)
    ensures ReadLines(codec, texts).None?
  {
    var i: nat :| i < |texts| && |texts[i]| >= LONGEST;
    OneBadLineFailsAll(codec, texts, i);
  }

  lemma {:induction false} ListedReads(codec: Codec, texts: seq<string>, lines: seq<Line>)
    requires LineFormat(codec) && Listed(codec, texts, lines) && !Overlong(texts)
    ensures ReadLines(codec, texts) == Some(lines)
  {
    if texts != [] {
      var last := |texts| - 1;
      ListedReads(codec, texts[..last], lines[..last]);
      assert WholeLine(codec, texts[last], lines[last]);
      assert lines == lines[..last] + [lines[last]];
    }
  }

  lemma ListedMore(codec: Codec, texts: seq<string>, lines: seq<Line>, events: seq<Event>)
    requires Listed(codec, texts, lines)
    ensures Listed(codec, texts + Encoded(codec, events), lines + Lines(events))
  {
    var more := texts + Encoded(codec, events);
    forall i | 0 <= i < |more| ensures WholeLine(codec, more[i], (lines + Lines(events))[i]) {
      if i < |texts| {
        assert WholeLine(codec, texts[i], lines[i]);
      } else {
        assert more[i] == codec.encode(events[i - |texts|]);
      }
    }
  }

  lemma OverlongInParts(a: seq<string>, b: seq<string>)
    ensures Overlong(a + b) <==> Overlong(a) || Overlong(b)
  {
    if Overlong(a) {
      var i: nat :| i < |a| && |a[i]| >= LONGEST;
      assert (a + b)[i] == a[i];
    }
    if Overlong(b) {
      var i: nat :| i < |b| && |b[i]| >= LONGEST;
      assert (a + b)[|a| + i] == b[i];
    }
  }

  // ----- what the writes of a run were like -----

  /**
   What a step did to the archive: nothing, a new file, or a write, how it ended and whether it wrote too long a line.
   */
  datatype Mark = Quiet | NewFile | Wrote(cut: Cut, overlong: bool)

  function SizeOf(codec: Codec, events: seq<Event>, outcome: ArchiveOutcome): nat {
    match outcome
    case Written => |BatchText(codec, events)|
    case FailedAfter(size) => size
  }

  lemma ReachedBySize(codec: Codec, events: seq<Event>, outcome: ArchiveOutcome)
    ensures var size := SizeOf(codec, events, outcome);
      && TextReached(codec, events, outcome) == FirstOf(BatchText(codec, events), size)
      && LinesReached(codec, events, outcome) == Lines(events[..WholeIn(codec, events, size)])
  {
    if outcome.Written? {
      WholeFront(codec, events);
      assert events[..|events|] == events;
    }
  }

  ghost function MarkOfWrite(codec: Codec, linked: seq<Event>, size: nat): Mark {
    if CutIn(codec, linked, size) == Nothing then Quiet
    else Wrote(CutIn(codec, linked, size), Overlong(Encoded(codec, linked[..WholeIn(codec, linked, size)])))
  }

  /** The step is an append that gets as far as the archive. */
  ghost predicate Writes(codec: Codec, w: World, step: Step) {
    step.Append? && w.archived && Confirmed(codec, w, step.events, step.faults)
  }

  ghost function LinkedBy(codec: Codec, w: World, step: Step): seq<Event>
    requires Writes(codec, w, step)
  {
    Link(codec, TipOf(w), step.events).value
  }

  ghost function MarkOf(codec: Codec, w: World, step: Step): Mark {
    if step.Midnight? then NewFile
    else if Writes(codec, w, step) then
      MarkOfWrite(codec, LinkedBy(codec, w, step), SizeOf(codec, LinkedBy(codec, w, step), step.faults.archive))
    else Quiet
  }

  ghost function Marks(codec: Codec, w: World, steps: seq<Step>): (marks: seq<Mark>)
    ensures |marks| == |steps|
  {
    if steps == [] then []
    else
      var last := |steps| - 1;
      Marks(codec, w, steps[..last]) + [MarkOf(codec, Run(codec, w, steps[..last]), steps[last])]
  }

  predicate StoppedInside(mark: Mark) {
    mark.Wrote? && mark.cut == Inside
  }

  predicate LostItsNewline(mark: Mark) {
    mark.Wrote? && mark.cut == NewlineLost
  }

  predicate SameFile(marks: seq<Mark>, j: int, k: int) {
    forall i :: 0 <= i < |marks| && j < i < k ==> !marks[i].NewFile?
  }

  /** Some write stopped inside a line. */
  ghost predicate SomeTorn(marks: seq<Mark>) {
    exists k :: 0 <= k < |marks| && StoppedInside(marks[k])
  }

  ghost predicate GluedAt(marks: seq<Mark>, j: int, k: int) {
    0 <= j < k < |marks| && LostItsNewline(marks[j]) && marks[k].Wrote? && SameFile(marks, j, k)
  }

  /** Some write lost only its newline, and another one followed in the same file. */
  ghost predicate SomeGlued(marks: seq<Mark>) {
    exists j, k :: GluedAt(marks, j, k)
  }

  ghost predicate SomeOverlong(marks: seq<Mark>) {
    exists k :: 0 <= k < |marks| && marks[k].Wrote? && marks[k].overlong
  }

  ghost predicate OpenSince(marks: seq<Mark>, j: int) {
    0 <= j < |marks| && LostItsNewline(marks[j]) && SameFile(marks, j, |marks|)
  }

  /** The newline of the file's last line is missing. */
  ghost predicate LeftOpen(marks: seq<Mark>) {
    exists j :: OpenSince(marks, j)
  }

  lemma TornOneMore(marks: seq<Mark>, mark: Mark)
    ensures SomeTorn(marks + [mark]) <==> SomeTorn(marks) || StoppedInside(mark)
    ensures SomeOverlong(marks + [mark]) <==> SomeOverlong(marks) || (mark.Wrote? && mark.overlong)
  {
    var more := marks + [mark];
    assert more[|marks|] == mark && forall k | 0 <= k < |marks| :: more[k] == marks[k];
  }

  lemma SameFileOneMore(marks: seq<Mark>, mark: Mark, j: int, k: int)
    requires k <= |marks|
    ensures SameFile(marks + [mark], j, k) <==> SameFile(marks, j, k)
  {
    assert forall i | 0 <= i < |marks| :: (marks + [mark])[i] == marks[i];
  }

  lemma GluedOneMore(marks: seq<Mark>, mark: Mark)
    ensures SomeGlued(marks + [mark]) <==> SomeGlued(marks) || (LeftOpen(marks) && mark.Wrote?)
  {
    var more := marks + [mark];
    forall j, k
      ensures GluedAt(more, j, k) <==> GluedAt(marks, j, k) || (k == |marks| && OpenSince(marks, j) && mark.Wrote?)
    {
      if k <= |marks| {
        SameFileOneMore(marks, mark, j, k);
      }
    }
    if LeftOpen(marks) && mark.Wrote? {
      var j :| OpenSince(marks, j);
      assert GluedAt(more, j, |marks|);
    }
    if SomeGlued(marks) {
      var j, k :| GluedAt(marks, j, k);
      assert GluedAt(more, j, k);
    }
  }

  lemma OpenOneMore(marks: seq<Mark>, mark: Mark)
    ensures LeftOpen(marks + [mark]) <==> LostItsNewline(mark) || (LeftOpen(marks) && !mark.NewFile?)
  {
    var more := marks + [mark];
    forall j ensures OpenSince(more, j) <==>
        (j == |marks| && LostItsNewline(mark)) || (OpenSince(marks, j) && !mark.NewFile?)
    {
      if j < |marks| {
        SameFileOneMore(marks, mark, j, |marks|);
        assert more[|marks|] == mark;
        assert SameFile(more, j, |more|) <==> SameFile(more, j, |marks|) && !mark.NewFile?;
      }
    }
    if LostItsNewline(mark) {
      assert OpenSince(more, |marks|);
    }
    if LeftOpen(marks) && !mark.NewFile? {
      var j :| OpenSince(marks, j);
      assert OpenSince(more, j);
    }
  }

  /** What the files are like after writes like these. */
  ghost predicate FilesHold(codec: Codec, v: World, marks: seq<Mark>) {
    if SomeTorn(marks) || SomeGlued(marks) then Broken(codec, AllScanned(v.files))
    else
      && Listed(codec, AllScanned(v.files), v.lines)
      && (LastTail(v.files) != "" <==> LeftOpen(marks))
      && (Overlong(AllScanned(v.files)) <==> SomeOverlong(marks))
  }

  lemma {:induction false} NothingIsNothing(codec: Codec, events: seq<Event>, size: nat)
    requires LineFormat(codec)
    ensures CutIn(codec, events, size) == Nothing <==> events == [] || size == 0
    ensures CutIn(codec, events, size) == Nothing ==>
      FirstOf(BatchText(codec, events), size) == "" && WholeIn(codec, events, size) == 0
  {
    if events != [] {
      NothingIsNothing(codec, events[..|events| - 1], size);
    }
  }

  /** The last line, when its newline is missing, is that of an event. */
  lemma OpenLineIsWhole(codec: Codec, files: seq<string>, lines: seq<Line>) returns (e: Event)
    requires Listed(codec, AllScanned(files), lines) && LastTail(files) != ""
    ensures LastTail(files) == codec.encode(e)
  {
    var texts := AllScanned(files);
    var last := files[|files| - 1];
    LastIsLast(AllScanned(files[..|files| - 1]), Ended(last), Tail(last));
    assert WholeLine(codec, texts[|texts| - 1], lines[|texts| - 1]);
    e :| texts[|texts| - 1] == codec.encode(e);
  }

  lemma WriteOnEnd(codec: Codec, w: World, v: World, marks: seq<Mark>, linked: seq<Event>, size: nat)
    requires LineFormat(codec) && FilesHold(codec, w, marks) && CutIn(codec, linked, size) != Nothing
    requires !SomeTorn(marks) && !SomeGlued(marks) && !LeftOpen(marks)
    requires v.files == Appended(w.files, FirstOf(BatchText(codec, linked), size))
      && v.lines == w.lines + Lines(linked[..WholeIn(codec, linked, size)])
    ensures FilesHold(codec, v, marks + [MarkOfWrite(codec, linked, size)])
  {
    var mark, written := MarkOfWrite(codec, linked, size), linked[..WholeIn(codec, linked, size)];
    TornOneMore(marks, mark);
    GluedOneMore(marks, mark);
    OpenOneMore(marks, mark);
    BatchOnEnd(codec, w.files, linked, size);
    if mark.cut != Inside {
      ListedMore(codec, AllScanned(w.files), w.lines, written);
      OverlongInParts(AllScanned(w.files), Encoded(codec, written));
    }
  }

  lemma WriteKeepsFiles(codec: Codec, w: World, v: World, marks: seq<Mark>, linked: seq<Event>, size: nat)
    requires LineFormat(codec) && FilesHold(codec, w, marks)
    requires v.files == Appended(w.files, FirstOf(BatchText(codec, linked), size))
      && v.lines == w.lines + Lines(linked[..WholeIn(codec, linked, size)])
    ensures FilesHold(codec, v, marks + [MarkOfWrite(codec, linked, size)])
  {
    var mark := MarkOfWrite(codec, linked, size);
    NothingIsNothing(codec, linked, size);
    TornOneMore(marks, mark);
    GluedOneMore(marks, mark);
    OpenOneMore(marks, mark);
    if SomeTorn(marks) || SomeGlued(marks) {
      BatchOnBroken(codec, w.files, linked, size);
    } else if mark.Quiet? {
      AppendedNothing(w.files);
      assert w.lines + Lines([]) == w.lines;
    } else if LeftOpen(marks) {
      var e := OpenLineIsWhole(codec, w.files, w.lines);
      BatchOnRest(codec, w.files, e, linked, size);
    } else {
      WriteOnEnd(codec, w, v, marks, linked, size);
    }
  }

  lemma NewFileKeepsFiles(codec: Codec, w: World, v: World, marks: seq<Mark>)
    requires FilesHold(codec, w, marks) && v.files == w.files + [""] && v.lines == w.lines
    ensures FilesHold(codec, v, marks + [NewFile])
  {
    TornOneMore(marks, NewFile);
    GluedOneMore(marks, NewFile);
    OpenOneMore(marks, NewFile);
    assert v.files[..|w.files|] == w.files;
    assert AllScanned(v.files) == AllScanned(w.files) + Scanned("") == AllScanned(w.files);
  }

  lemma QuietKeepsFiles(codec: Codec, w: World, v: World, marks: seq<Mark>)
    requires FilesHold(codec, w, marks) && v.files == w.files && v.lines == w.lines
    ensures FilesHold(codec, v, marks + [Quiet])
  {
    TornOneMore(marks, Quiet);
    GluedOneMore(marks, Quiet);
    OpenOneMore(marks, Quiet);
  }

  /** What a step does to the files, by what it is. */
  lemma FilesAfter(codec: Codec, w: World, step: Step)
    ensures var v := Take(codec, w, step);
      && (step.Midnight? ==> v.files == w.files + [""] && v.lines == w.lines)
      && (Writes(codec, w, step) ==>
            && v.files == Appended(w.files, TextReached(codec, LinkedBy(codec, w, step), step.faults.archive))
            && v.lines == w.lines + LinesReached(codec, LinkedBy(codec, w, step), step.faults.archive))
      && (!step.Midnight? && !Writes(codec, w, step) ==> v.files == w.files && v.lines == w.lines)
  {
  }

  lemma StepKeepsFiles(codec: Codec, w: World, step: Step, marks: seq<Mark>)
    requires LineFormat(codec) && FilesHold(codec, w, marks)
    ensures FilesHold(codec, Take(codec, w, step), marks + [MarkOf(codec, w, step)])
  {
    var v := Take(codec, w, step);
    FilesAfter(codec, w, step);
    if Writes(codec, w, step) {
      var linked := LinkedBy(codec, w, step);
      ReachedBySize(codec, linked, step.faults.archive);
      WriteKeepsFiles(codec, w, v, marks, linked, SizeOf(codec, linked, step.faults.archive));
    } else if step.Midnight? {
      NewFileKeepsFiles(codec, w, v, marks);
    } else {
      QuietKeepsFiles(codec, w, v, marks);
    }
  }

  lemma {:induction false} EveryRunKeepsFiles(codec: Codec, archived: bool, steps: seq<Step>)
    requires LineFormat(codec)
    ensures FilesHold(codec, Run(codec, Empty(archived), steps), Marks(codec, Empty(archived), steps))
  {
    if steps != [] {
      var last := |steps| - 1;
      EveryRunKeepsFiles(codec, archived, steps[..last]);
      StepKeepsFiles(codec, Run(codec, Empty(archived), steps[..last]), steps[last],
          Marks(codec, Empty(archived), steps[..last]));
    }
  }

  /** What makes the archive unreadable. */
  ghost predicate Ruined(marks: seq<Mark>) {
    SomeTorn(marks) || SomeGlued(marks) || SomeOverlong(marks)
  }

  /**
   After every run, of any writers under any faults: reading the archive fails if and only if some write of the run
   stopped inside a line, or lost only its newline and was followed by another write to the same file, or wrote a line
   too long for the scanner; and otherwise it gives the hashes of exactly the lines that were written.
   */
  lemma TheArchiveReadsBackIff(codec: Codec, archived: bool, steps: seq<Step>)
    requires LineFormat(codec)
    ensures var end := Run(codec, Empty(archived), steps);
      ReadFiles(codec, end.files) ==
        if Ruined(Marks(codec, Empty(archived), steps)) then None else Some(Hashes(end.lines))
  {
    var end, marks := Run(codec, Empty(archived), steps), Marks(codec, Empty(archived), steps);
    var texts := AllScanned(end.files);
    EveryRunKeepsFiles(codec, archived, steps);
    if SomeTorn(marks) || SomeGlued(marks) {
      BrokenDoesNotRead(codec, texts);
    } else if SomeOverlong(marks) {
      OverlongDoesNotRead(codec, texts);
    } else {
      ListedReads(codec, texts, end.lines);
    }
  }

  // ----- a newline that was lost -----

  /** One event alone, new and linked to the tip, gets as far as the archive. */
  lemma OneNewEventWrites(codec: Codec, w: World, e: Event, linked: Event, faults: Faults)
    requires codec.Valid() && TrailHolds(codec, w.table) && w.archived && !w.read && !HasID(w.table.rows, e.auditID)
    requires Link(codec, TipOf(w), [e]) == Some([linked]) && !HasHash(w.table.rows, linked.hash) && linked.hash != []
    requires !faults.tipFails && faults.sink == Committed
    ensures Writes(codec, w, Append([e], faults)) && LinkedBy(codec, w, Append([e], faults)) == [linked]
    ensures Take(codec, w, Append([e], faults)).table == InsertAll(w.table, [linked]).value
    ensures Take(codec, w, Append([e], faults)).archived
  {
    LinkIsIntact(codec, TipOf(w), [e]);
    assert linked.auditID == [e][0].auditID;
    NewBatchIsAccepted(codec, w.table, [linked]);
  }

  lemma RowOfOne(codec: Codec, table: Table, e: Event)
    requires InsertAll(table, [e]).Some? && !HasID(table.rows, e.auditID)
    ensures InsertAll(table, [e]).value.rows == table.rows + [Record(table.nextSeq, Stored(e))]
  {
    assert [e][1..] == [];
  }

  function LinkedEvent(codec: Codec, previous: bytes, e: Event, canonical: bytes): Event {
    e.(prevHash := previous, hash := Digest(codec, previous, canonical), canonicalBytes := canonical)
  }

  lemma LinkOfOne(codec: Codec, previous: bytes, e: Event)
    ensures Link(codec, previous, [e]) == match codec.marshal(e)
                                          case None => None
                                          case Some(canonical) => Some([LinkedEvent(codec, previous, e, canonical)])
  {
    var one := [e];
    assert one[1..] == [];
    if codec.marshal(e).Some? {
      assert [LinkedEvent(codec, previous, e, codec.marshal(e).value)] + []
          == [LinkedEvent(codec, previous, e, codec.marshal(e).value)];
    }
  }

  lemma LinkOfTwo(codec: Codec, previous: bytes, first: Event, second: Event)
    requires Link(codec, previous, [first, second]).Some?
    ensures var linked := Link(codec, previous, [first, second]).value;
      && Link(codec, previous, [first]) == Some([linked[0]])
      && Link(codec, linked[0].hash, [second]) == Some([linked[1]])
      && linked[0].auditID == first.auditID && linked[1].auditID == second.auditID
  {
    var two := [first, second];
    assert two[1..] == [second];
    LinkOfOne(codec, previous, first);
    LinkOfOne(codec, LinkedEvent(codec, previous, first, codec.marshal(first).value).hash, second);
  }

  /** What the archive's fault is when only the newline of this event is lost. */
  function NewlineNotWritten(codec: Codec, linked: Event): Faults {
    Faults(false, Committed, FailedAfter(|codec.encode(linked)|))
  }

  lemma MarksOfOne(codec: Codec, e: Event)
    requires LineFormat(codec)
    ensures MarkOfWrite(codec, [e], |codec.encode(e)|) == Wrote(NewlineLost, |codec.encode(e)| >= LONGEST)
    ensures MarkOfWrite(codec, [e], SizeOf(codec, [e], Written)) == Wrote(LineEnd, |codec.encode(e)| >= LONGEST)
  {
    var one := [e];
    assert one[..|one| - 1] == [] && one[..1] == one;
    assert codec.encode(e) != "";
    CutBehind(codec, one, |codec.encode(e)|);
    CutBehind(codec, one, |codec.encode(e)| + 1);
    NothingIsNothing(codec, one, |codec.encode(e)|);
    NothingIsNothing(codec, one, |codec.encode(e)| + 1);
    assert |BatchText(codec, one)| == |codec.encode(e)| + 1;
    var texts := Encoded(codec, one);
    assert texts[0] == codec.encode(e);
    assert Overlong(texts) <==> |texts[0]| >= LONGEST;
  }

  /** Two new events for an empty table, linked one onto the other. */
  ghost predicate NewPair(codec: Codec, first: Event, second: Event) {
    && first.auditID != second.auditID && Link(codec, [], [first, second]).Some?
    && var linked := Link(codec, [], [first, second]).value;
       linked[0].hash != linked[1].hash && linked[0].hash != [] && linked[1].hash != []
  }

  lemma FirstOfThePair(codec: Codec, first: Event, second: Event)
    requires codec.Valid() && NewPair(codec, first, second)
    ensures var linked := Link(codec, [], [first, second]).value;
      var w := Empty(true);
      var step := Append([first], NewlineNotWritten(codec, linked[0]));
      && Writes(codec, w, step) && LinkedBy(codec, w, step) == [linked[0]]
      && var v := Take(codec, w, step);
         && v.archived && !v.read && v.table.rows == [Record(1, Stored(linked[0]))] && TrailHolds(codec, v.table)
  {
    var linked := Link(codec, [], [first, second]).value;
    LinkOfTwo(codec, [], first, second);
    var faults := NewlineNotWritten(codec, linked[0]);
    OneNewEventWrites(codec, Empty(true), first, linked[0], faults);
    RowOfOne(codec, Table([], 1), linked[0]);
    AppendKeepsTheTrail(codec, Empty(true), [first], faults);
  }

  lemma SecondOfThePair(codec: Codec, w: World, first: Event, second: Event)
    requires codec.Valid() && NewPair(codec, first, second) && w.archived && !w.read && TrailHolds(codec, w.table)
    requires w.table.rows == [Record(1, Stored(Link(codec, [], [first, second]).value[0]))]
    ensures Writes(codec, w, Append([second], NoFaults))
    ensures LinkedBy(codec, w, Append([second], NoFaults)) == [Link(codec, [], [first, second]).value[1]]
  {
    var linked := Link(codec, [], [first, second]).value;
    LinkOfTwo(codec, [], first, second);
    assert TipOf(w) == linked[0].hash;
    OneNewEventWrites(codec, w, second, linked[1], NoFaults);
  }

  lemma MarksOneMore(codec: Codec, w: World, steps: seq<Step>, step: Step)
    ensures Marks(codec, w, steps + [step]) == Marks(codec, w, steps) + [MarkOf(codec, Run(codec, w, steps), step)]
    ensures Run(codec, w, steps + [step]) == Take(codec, Run(codec, w, steps), step)
  {
    assert (steps + [step])[..|steps|] == steps;
  }

  function LostAndNext(codec: Codec, first: Event, second: Event): (Step, Step)
    requires Link(codec, [], [first, second]).Some?
  {
    (Append([first], NewlineNotWritten(codec, Link(codec, [], [first, second]).value[0])), Append([second], NoFaults))
  }

  /** Where the line of the one or the other event is too long. */
  predicate LongLine(codec: Codec, first: Event, second: Event, k: nat)
    requires Link(codec, [], [first, second]).Some? && k < 2
  {
    |codec.encode(Link(codec, [], [first, second]).value[k])| >= LONGEST
  }

  lemma MarksOfThePair(codec: Codec, first: Event, second: Event)
    requires codec.Valid() && LineFormat(codec) && NewPair(codec, first, second)
    ensures var (lost, next) := LostAndNext(codec, first, second);
      var w := Take(codec, Empty(true), lost);
      var a, b := LongLine(codec, first, second, 0), LongLine(codec, first, second, 1);
      && MarkOf(codec, Empty(true), lost) == Wrote(NewlineLost, a)
      && MarkOf(codec, w, next) == Wrote(LineEnd, b)
      && MarkOf(codec, Take(codec, w, Midnight), next) == Wrote(LineEnd, b)
  {
    var linked := Link(codec, [], [first, second]).value;
    var (lost, next) := LostAndNext(codec, first, second);
    FirstOfThePair(codec, first, second);
    var w := Take(codec, Empty(true), lost);
    MarksOfOne(codec, linked[0]);
    MarksOfOne(codec, linked[1]);
    SecondOfThePair(codec, w, first, second);
    SecondOfThePair(codec, Take(codec, w, Midnight), first, second);
  }

  lemma MarksOfThree(codec: Codec, w: World, r: Step, s: Step, t: Step)
    ensures var w1 := Take(codec, w, r);
      var w2 := Take(codec, w1, s);
      && Marks(codec, w, [r]) == [MarkOf(codec, w, r)]
      && Marks(codec, w, [r, s]) == [MarkOf(codec, w, r), MarkOf(codec, w1, s)]
      && Marks(codec, w, [r, s, t]) == [MarkOf(codec, w, r), MarkOf(codec, w1, s), MarkOf(codec, w2, t)]
  {
    MarksOneMore(codec, w, [], r);
    MarksOneMore(codec, w, [r], s);
    MarksOneMore(codec, w, [r, s], t);
    assert [] + [r] == [r] && [r] + [s] == [r, s] && [r, s] + [t] == [r, s, t];
  }

  /**
   A write that lost only its newline, to an archive that was empty. The next append of the day succeeds, and the
   archive cannot be read from then on; had it come after midnight, it could.
   */
  lemma ALostNewlineSpoilsTheNextLine(codec: Codec, first: Event, second: Event)
    requires codec.Valid() && LineFormat(codec) && NewPair(codec, first, second)
    ensures var (lost, next) := LostAndNext(codec, first, second);
      var a, b := LongLine(codec, first, second, 0), LongLine(codec, first, second, 1);
      && (ReadFiles(codec, Run(codec, Empty(true), [lost]).files).Some? <==> !a)
      && ReadFiles(codec, Run(codec, Empty(true), [lost, next]).files).None?
      && (ReadFiles(codec, Run(codec, Empty(true), [lost, Midnight, next]).files).Some? <==> !a && !b)
  {
    var (lost, next) := LostAndNext(codec, first, second);
    MarksOfThePair(codec, first, second);
    MarksOfThree(codec, Empty(true), lost, next, next);
    MarksOfThree(codec, Empty(true), lost, Midnight, next);
    RuinOfThePair(LongLine(codec, first, second, 0), LongLine(codec, first, second, 1));
    TheArchiveReadsBackIff(codec, true, [lost]);
    TheArchiveReadsBackIff(codec, true, [lost, next]);
    TheArchiveReadsBackIff(codec, true, [lost, Midnight, next]);
  }

  lemma RuinOneMore(marks: seq<Mark>, mark: Mark)
    ensures Ruined(marks + [mark]) <==>
      Ruined(marks) || StoppedInside(mark) || (LeftOpen(marks) && mark.Wrote?) || (mark.Wrote? && mark.overlong)
  {
    TornOneMore(marks, mark);
    GluedOneMore(marks, mark);
  }

  lemma RuinOfThePair(a: bool, b: bool)
    ensures Ruined([Wrote(NewlineLost, a)]) <==> a
    ensures Ruined([Wrote(NewlineLost, a), Wrote(LineEnd, b)])
    ensures Ruined([Wrote(NewlineLost, a), NewFile, Wrote(LineEnd, b)]) <==> a || b
  {
    var lost, next := Wrote(NewlineLost, a), Wrote(LineEnd, b);
    RuinOneMore([], lost);
    OpenOneMore([], lost);
    RuinOneMore([lost], next);
    RuinOneMore([lost], NewFile);
    OpenOneMore([lost], NewFile);
    RuinOneMore([lost, NewFile], next);
    assert [] + [lost] == [lost] && [lost] + [next] == [lost, next] && [lost] + [NewFile] == [lost, NewFile];
    assert [lost, NewFile] + [next] == [lost, NewFile, next];
  }

  lemma WholeBatchOnEnd(codec: Codec, files: seq<string>, linked: seq<Event>)
    requires LineFormat(codec) && LastTail(files) == ""
    ensures var v := Appended(files, TextReached(codec, linked, Written));
      AllScanned(v) == AllScanned(files) + Encoded(codec, linked) && LastTail(v) == ""
  {
    WholeFront(codec, linked);
    BatchOnEnd(codec, files, linked, |BatchText(codec, linked)|);
    assert linked[..|linked|] == linked;
  }

  lemma SuccessAppends(codec: Codec, w: World, events: seq<Event>, faults: Faults)
    requires w.archived && events != [] && AppendStep(codec, w, events, faults).1 == Accepted(|events|)
    ensures Link(codec, TipOf(w), events).Some?
    ensures var after, linked := AppendStep(codec, w, events, faults).0, Link(codec, TipOf(w), events).value;
      && Some(after.table) == InsertAll(w.table, linked)
      && after.files == Appended(w.files, TextReached(codec, linked, Written))
      && after.lines == w.lines + LinesReached(codec, linked, Written)
  {
  }

  /**
   What a success leaves, behind whole lines: the rows of the batch in the table, and in the archive a line to each of
   its events, in order, with its id and its hash.
   */
  lemma ASuccessIsArchived(codec: Codec, w: World, events: seq<Event>, faults: Faults)
    requires LineFormat(codec) && w.archived && events != [] && LastTail(w.files) == ""
    requires AppendStep(codec, w, events, faults).1 == Accepted(|events|)
    ensures Link(codec, TipOf(w), events).Some?
    ensures var after, linked := AppendStep(codec, w, events, faults).0, Link(codec, TipOf(w), events).value;
      && Some(after.table) == InsertAll(w.table, linked)
      && AllScanned(after.files) == AllScanned(w.files) + seq(|linked|, i requires 0 <= i < |linked| =>
           codec.encode(linked[i]))
      && after.lines == w.lines + seq(|linked|, i requires 0 <= i < |linked| =>
           Line(linked[i].auditID, linked[i].hash))
      && LastTail(after.files) == "" && |linked| == |events|
  {
    SuccessAppends(codec, w, events, faults);
    var linked := Link(codec, TipOf(w), events).value;
    WholeBatchOnEnd(codec, w.files, linked);
    assert Encoded(codec, linked) == seq(|linked|, i requires 0 <= i < |linked| => codec.encode(linked[i]));
    assert Lines(linked) == seq(|linked|, i requires 0 <= i < |linked| => Line(linked[i].auditID, linked[i].hash));
  }

  /** A line is decoded if it is shorter than 16 MiB, and cannot be read if it is not. */
  lemma ALineBelow16MiBIsRead(codec: Codec, text: string)
    ensures ReadLine(codec, text) == if |text| < 16_777_216 then codec.decode(text) else None
  {
  }
}
