/**
 Audit events, how they are signed into a hash chain, and how a chain is checked
 (internal/audit/event.go, Verify in internal/audit/chain.go).
 */
module AuditEvents {
  import opened Text

  newtype byte = x: int | 0 <= x < 256
  type bytes = seq<byte>

  /** Fields that are signed but not compared by Matches. */
  datatype Extra = Extra(
    stage: string, actorGroups: seq<string>, sourceIPs: seq<string>, userAgent: string, payload: string,
    annotations: map<string, string>)

  /** `eventAt` counts nanoseconds from Go's zero time. */
  datatype Event = Event(
    auditID: string, eventAt: nat, actor: string, impersonatedBy: string, actingDivision: string,
    verb: string, resource: string, subresource: string, namespace: string, objectName: string, objectUID: string,
    responseCode: int, extra: Extra,
    prevHash: bytes, hash: bytes, canonicalBytes: bytes)
  {
    /** What json.Marshal sees: the three chain fields are tagged "-". */
    function Content(): Event {
      this.(prevHash := [], hash := [], canonicalBytes := [])
    }
  }

  /** What is read of an archived line. */
  datatype Line = Line(auditID: string, hash: bytes)

  /**
   encoding/json and SHA-256 (section 6.2 of FIPS 180-4), which are not modelled: marshalling may fail,
   what was marshalled reads back, and a digest has 32 bytes. Nothing is assumed about collisions. `encode` and `decode`
   are the text of an archived line, without its newline, and what is read of a text.
   */
  datatype Codec = Codec(marshal: Event -> Option<bytes>, unmarshal: bytes -> Option<Event>, sha256: bytes -> bytes,
      encode: Event -> string, decode: string -> Option<Line>)
  {
    ghost predicate Valid() {
      && (forall x :: |sha256(x)| == 32)
      && (forall e :: marshal(e) == marshal(e.Content()))
      && (forall e :: marshal(e).Some? ==> unmarshal(marshal(e).value) == Some(e.Content()))
    }
  }

  function Digest(codec: Codec, previous: bytes, canonical: bytes): bytes {
    codec.sha256(previous + canonical)
  }

  /** Truncate(time.Microsecond), as a count of microseconds. */
  function Micros(at: nat): nat {
    at / 1000
  }

  /** The fields an event shares with what was signed. */
  predicate SameSigned(e: Event, signed: Event) {
    && e.auditID == signed.auditID
    && e.actor == signed.actor
    && e.impersonatedBy == signed.impersonatedBy
    && e.actingDivision == signed.actingDivision
    && e.verb == signed.verb
    && e.resource == signed.resource
    && e.subresource == signed.subresource
    && e.namespace == signed.namespace
    && e.objectName == signed.objectName
    && e.objectUID == signed.objectUID
    && e.responseCode == signed.responseCode
    && Micros(e.eventAt) == Micros(signed.eventAt)
  }

  predicate Matches(codec: Codec, e: Event, canonical: bytes) {
    match codec.unmarshal(canonical)
    case None => false
    case Some(signed) => SameSigned(e, signed)
  }

  // ----- Verify -----

  datatype Reason = NoBreak | DoesNotFollow | Altered | Disagrees | NotArchived | ArchiveDiffers

  datatype Verification = Verification(
    intact: bool, checked: int, firstSeq: int, lastSeq: int, brokenAtSeq: int, reason: Reason, archiveChecked: bool)

  predicate GoodLink(codec: Codec, e: Event, previous: bytes) {
    && e.prevHash == previous
    && Digest(codec, previous, e.canonicalBytes) == e.hash
    && Matches(codec, e, e.canonicalBytes)
  }

  function HashBefore(events: seq<Event>, start: bytes, i: nat): bytes
    requires i <= |events|
  {
    if i == 0 then start else events[i - 1].hash
  }

  function LastHash(events: seq<Event>, start: bytes): bytes {
    HashBefore(events, start, |events|)
  }

  predicate GoodAt(codec: Codec, events: seq<Event>, start: bytes, i: nat)
    requires i < |events|
  {
    GoodLink(codec, events[i], HashBefore(events, start, i))
  }

  ghost predicate Intact(codec: Codec, events: seq<Event>, start: bytes) {
    forall i | 0 <= i < |events| :: GoodAt(codec, events, start, i)
  }

  ghost predicate FirstBreak(codec: Codec, events: seq<Event>, start: bytes, at: int) {
    && 0 <= at < |events|
    && !GoodAt(codec, events, start, at)
    && forall i | 0 <= i < at :: GoodAt(codec, events, start, i)
  }

  function ReasonFor(codec: Codec, e: Event, previous: bytes): Reason {
    if e.prevHash != previous then DoesNotFollow
    else if Digest(codec, previous, e.canonicalBytes) != e.hash then Altered
    else if !Matches(codec, e, e.canonicalBytes) then Disagrees
    else NoBreak
  }

  /** What Verify answers. */
  ghost predicate Answers(codec: Codec, events: seq<Event>, start: bytes, v: Verification) {
    && (v.intact <==> Intact(codec, events, start))
    && (v.intact ==> v.checked == |events| && v.brokenAtSeq == 0 && v.reason == NoBreak)
    && (!v.intact ==>
          && FirstBreak(codec, events, start, v.brokenAtSeq)
          && v.checked == v.brokenAtSeq + 1
          && v.reason == ReasonFor(codec, events[v.brokenAtSeq], HashBefore(events, start, v.brokenAtSeq)))
    && v.firstSeq == 0 && !v.archiveChecked
  }

  method Verify(codec: Codec, events: seq<Event>, expectedStart: bytes) returns (v: Verification)
    ensures Answers(codec, events, expectedStart, v)
  {
    v := Verification(true, 0, 0, 0, 0, NoBreak, false);
    var previous := expectedStart;
    for i := 0 to |events|
      invariant v.intact && v.checked == i && v.brokenAtSeq == 0 && v.reason == NoBreak
      invariant v.firstSeq == 0 && !v.archiveChecked
      invariant previous == HashBefore(events, expectedStart, i)
      invariant forall k | 0 <= k < i :: GoodAt(codec, events, expectedStart, k)
    {
      var event := events[i];
      assert GoodAt(codec, events, expectedStart, i) <==> GoodLink(codec, event, previous);
      v := v.(checked := v.checked + 1);
      if event.prevHash != previous {
        return v.(intact := false, brokenAtSeq := i, reason := DoesNotFollow);
      }
      if Digest(codec, previous, event.canonicalBytes) != event.hash {
        return v.(intact := false, brokenAtSeq := i, reason := Altered);
      }
      if !Matches(codec, event, event.canonicalBytes) {
        return v.(intact := false, brokenAtSeq := i, reason := Disagrees);
      }
      previous := event.hash;
      v := v.(lastSeq := i);
    }
  }

  // ----- laws of a verified trail -----

  /** A trail is intact exactly when both of its parts are, the second taken up where the first ended. */
  lemma IntactInParts(codec: Codec, a: seq<Event>, b: seq<Event>, start: bytes)
    ensures Intact(codec, a + b, start) <==> Intact(codec, a, start) && Intact(codec, b, LastHash(a, start))
    ensures LastHash(a + b, start) == LastHash(b, LastHash(a, start))
  {
    var whole := a + b;
    assert forall i | 0 <= i < |a| :: GoodAt(codec, whole, start, i) <==> GoodAt(codec, a, start, i);
    forall j | 0 <= j < |b|
      ensures GoodAt(codec, b, LastHash(a, start), j) <==> GoodAt(codec, whole, start, |a| + j)
    {
      assert whole[|a| + j] == b[j];
    }
    if Intact(codec, a, start) && Intact(codec, b, LastHash(a, start)) {
      forall i | 0 <= i < |whole|
        ensures GoodAt(codec, whole, start, i)
      {
        if i >= |a| {
          assert GoodAt(codec, b, LastHash(a, start), i - |a|);
        }
      }
    }
  }

  /** The break a caller sees in the whole trail is the break of the first broken part. */
  lemma FirstBreakInParts(codec: Codec, a: seq<Event>, b: seq<Event>, start: bytes, at: int)
    ensures FirstBreak(codec, a + b, start, at) <==>
              FirstBreak(codec, a, start, at)
              || (Intact(codec, a, start) && FirstBreak(codec, b, LastHash(a, start), at - |a|))
  {
    var whole := a + b;
    assert forall i | 0 <= i < |a| :: GoodAt(codec, whole, start, i) <==> GoodAt(codec, a, start, i);
    forall j | 0 <= j < |b|
      ensures GoodAt(codec, b, LastHash(a, start), j) <==> GoodAt(codec, whole, start, |a| + j)
    {
      assert whole[|a| + j] == b[j];
    }
    if Intact(codec, a, start) && FirstBreak(codec, b, LastHash(a, start), at - |a|) {
      forall i | 0 <= i < at
        ensures GoodAt(codec, whole, start, i)
      {
        if i >= |a| {
          assert GoodAt(codec, b, LastHash(a, start), i - |a|);
        }
      }
    }
  }

  /** Two different texts with one digest. */
  ghost predicate Collision(codec: Codec, x: bytes, y: bytes) {
    x != y && codec.sha256(x) == codec.sha256(y)
  }

  function Hashed(e: Event): bytes {
    e.prevHash + e.canonicalBytes
  }

  ghost predicate SameTrail(a: seq<Event>, b: seq<Event>) {
    && |a| == |b|
    && forall i | 0 <= i < |a| ::
         && a[i].canonicalBytes == b[i].canonicalBytes && a[i].prevHash == b[i].prevHash && a[i].hash == b[i].hash
         && SameColumns(a[i], b[i])
  }

  /** Every compared column agrees, the time to the microsecond. */
  predicate SameColumns(e: Event, f: Event) {
    && e.auditID == f.auditID && e.actor == f.actor && e.impersonatedBy == f.impersonatedBy
    && e.actingDivision == f.actingDivision && e.verb == f.verb && e.resource == f.resource
    && e.subresource == f.subresource && e.namespace == f.namespace && e.objectName == f.objectName
    && e.objectUID == f.objectUID && e.responseCode == f.responseCode && e.eventAt / 1000 == f.eventAt / 1000
  }

  /**
   Tampering shows: two intact trails of one length with the same start and the same last hash are the same
   trail, or some position of theirs is a collision of the digest.
   */
  lemma {:induction false} TamperingNeedsACollision(codec: Codec, a: seq<Event>, b: seq<Event>, start: bytes)
    requires codec.Valid() && |a| == |b|
    requires Intact(codec, a, start) && Intact(codec, b, start)
    requires LastHash(a, start) == LastHash(b, start)
    ensures SameTrail(a, b) || exists i | 0 <= i < |a| :: Collision(codec, Hashed(a[i]), Hashed(b[i]))
  {
    if a != [] {
      var last := |a| - 1;
      var a', b' := a[..last], b[..last];
      PrefixIsIntact(codec, a, start);
      PrefixIsIntact(codec, b, start);
      if !Collision(codec, Hashed(a[last]), Hashed(b[last])) {
        SameLastLink(codec, a[last], b[last], LastHash(a', start), LastHash(b', start));
        TamperingNeedsACollision(codec, a', b', start);
        if !SameTrail(a', b') {
          var i :| 0 <= i < |a'| && Collision(codec, Hashed(a'[i]), Hashed(b'[i]));
          assert Collision(codec, Hashed(a[i]), Hashed(b[i]));
        } else {
          assert forall i | 0 <= i < last :: a[i] == a'[i] && b[i] == b'[i];
        }
      }
    }
  }

  lemma PrefixIsIntact(codec: Codec, a: seq<Event>, start: bytes)
    requires codec.Valid() && Intact(codec, a, start) && a != []
    ensures Intact(codec, a[..|a| - 1], start)
    ensures GoodLink(codec, a[|a| - 1], LastHash(a[..|a| - 1], start))
    ensures LastHash(a[..|a| - 1], start) == start || |LastHash(a[..|a| - 1], start)| == 32
    ensures |a| > 1 ==> |LastHash(a[..|a| - 1], start)| == 32
  {
    var a' := a[..|a| - 1];
    assert forall i | 0 <= i < |a'| :: GoodAt(codec, a, start, i) <==> GoodAt(codec, a', start, i);
    assert GoodAt(codec, a, start, |a| - 1);
    assert |a| > 1 ==> GoodAt(codec, a, start, |a| - 2);
  }

  lemma SameLastLink(codec: Codec, x: Event, y: Event, p: bytes, q: bytes)
    requires GoodLink(codec, x, p) && GoodLink(codec, y, q)
    requires |p| == |q| && x.hash == y.hash && !Collision(codec, Hashed(x), Hashed(y))
    ensures x.prevHash == y.prevHash && x.canonicalBytes == y.canonicalBytes && SameColumns(x, y)
    ensures p == q
  {
    assert Hashed(x) == Hashed(y);
    assert p == Hashed(x)[..|p|] && q == Hashed(y)[..|q|];
    assert x.canonicalBytes == Hashed(x)[|p|..] && y.canonicalBytes == Hashed(y)[|q|..];
  }
}
