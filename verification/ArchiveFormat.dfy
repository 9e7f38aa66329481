/**
 A format that has what ArchiveLaws asks of one: an identifier and a hash as lists of numbers between braces, a brace
 standing nowhere else.
 */
module ArchiveFormat {
  import opened Text
  import opened AuditEvents
  import opened AuditArchive
  import opened ArchiveLaws

  predicate Plain(text: string) {
    forall i :: 0 <= i < |text| ==> text[i] == ',' || IsDigit(text[i])
  }

  /** The numbers in decimal, a comma before each. */
  function Listing(numbers: seq<nat>): (text: string)
    ensures Plain(text)
  {
    if numbers == [] then "" else Listing(numbers[..|numbers| - 1]) + [','] + Digits(numbers[|numbers| - 1])
  }

  lemma {:induction false} ListingIsInjective(a: seq<nat>, b: seq<nat>)
    requires Listing(a) == Listing(b)
    ensures a == b
  {
    if a != [] && b != [] {
      var x, y := a[|a| - 1], b[|b| - 1];
      assert forall i | 0 <= i < |Digits(x)| :: IsDigit(Digits(x)[i]);
      assert forall i | 0 <= i < |Digits(y)| :: IsDigit(Digits(y)[i]);
      CutLastIsInjective(Listing(a[..|a| - 1]), Listing(b[..|b| - 1]), ',', Digits(x), Digits(y));
      DigitsIsInjective(x, y);
      ListingIsInjective(a[..|a| - 1], b[..|b| - 1]);
      assert a == a[..|a| - 1] + [x] && b == b[..|b| - 1] + [y];
    }
  }

  function OfChars(s: string): (numbers: seq<nat>)
    ensures |numbers| == |s|
  {
    seq(|s|, i requires 0 <= i < |s| => s[i] as nat)
  }

  function OfBytes(s: bytes): (numbers: seq<nat>)
    ensures |numbers| == |s|
  {
    seq(|s|, i requires 0 <= i < |s| => s[i] as nat)
  }

  lemma OfCharsIsInjective(a: string, b: string)
    requires OfChars(a) == OfChars(b)
    ensures a == b
  {
    forall i | 0 <= i < |a| ensures a[i] == b[i] {
      assert OfChars(a)[i] == OfChars(b)[i];
    }
  }

  lemma OfBytesIsInjective(a: bytes, b: bytes)
    requires OfBytes(a) == OfBytes(b)
    ensures a == b
  {
    assert |a| == |b|;
    forall i | 0 <= i < |a| ensures a[i] == b[i] {
      assert OfBytes(a)[i] == OfBytes(b)[i];
    }
  }

  function Body(e: Event): string {
    Listing(OfChars(e.auditID)) + ['|'] + Listing(OfBytes(e.hash))
  }

  function Braced(e: Event): string {
    ['{'] + Body(e) + ['}']
  }

  lemma BracedIsInjective(e: Event, f: Event)
    requires Braced(e) == Braced(f)
    ensures LineOf(e) == LineOf(f)
  {
    assert Body(e) == Braced(e)[1..|Braced(e)| - 1] && Body(f) == Braced(f)[1..|Braced(f)| - 1];
    CutIsInjective(Listing(OfChars(e.auditID)), Listing(OfChars(f.auditID)), '|', Listing(OfBytes(e.hash)),
        Listing(OfBytes(f.hash)));
    ListingIsInjective(OfChars(e.auditID), OfChars(f.auditID));
    ListingIsInjective(OfBytes(e.hash), OfBytes(f.hash));
    OfCharsIsInjective(e.auditID, f.auditID);
    OfBytesIsInjective(e.hash, f.hash);
  }

  /** The braces stand at the two ends. */
  lemma BracesOf(e: Event)
    ensures forall i :: 0 <= i < |Braced(e)| ==>
      && (Braced(e)[i] == '{' <==> i == 0) && (Braced(e)[i] == '}' <==> i == |Braced(e)| - 1) && Braced(e)[i] != '\n'
  {
    var id, hash := Listing(OfChars(e.auditID)), Listing(OfBytes(e.hash));
    forall i | 0 <= i < |Body(e)| ensures Body(e)[i] != '{' && Body(e)[i] != '}' && Body(e)[i] != '\n' {
      if i < |id| {
        assert Body(e)[i] == id[i];
      } else if i > |id| {
        assert Body(e)[i] == hash[i - |id| - 1];
      }
    }
  }

  ghost function Unbraced(text: string): (line: Option<Line>)
    ensures line.None? <==> forall e: Event :: text != Braced(e)
    ensures line.Some? ==> exists e: Event :: text == Braced(e) && line.value == LineOf(e)
  {
    if e: Event :| text == Braced(e) then Some(LineOf(e)) else None
  }

  lemma BracedReadsBack(e: Event)
    ensures Unbraced(Braced(e)) == Some(LineOf(e))
  {
    var text := Braced(e);
    var line := Unbraced(text);
    assert line.Some?;
    var f: Event :| text == Braced(f) && line.value == LineOf(f);
    BracedIsInjective(e, f);
  }

  lemma {:induction false} JoinedBegins(pieces: seq<string>)
    requires pieces != [] && forall i :: 0 <= i < |pieces| ==> pieces[i] != ""
    ensures Joined(pieces) != "" && Joined(pieces)[0] == pieces[0][0]
  {
    if |pieces| > 1 {
      JoinedBegins(pieces[..|pieces| - 1]);
    } else {
      assert Joined(pieces) == "" + pieces[0];
    }
  }

  lemma SpoiltIsNotBraced(codec: Codec, e: Event, n: nat, rest: seq<string>, text: string, f: Event)
    requires (forall x :: codec.encode(x) == Braced(x)) && Spoils(codec, e, n, rest, text)
    ensures text != Braced(f)
  {
    BracesOf(e);
    BracesOf(f);
    if rest == [] {
      assert text == Braced(e)[..n] && text[n - 1] != '}';
    } else {
      JoinedBegins(rest);
      var x: Event :| rest[0] <= codec.encode(x);
      BracesOf(x);
      assert rest[0][0] == Braced(x)[0] == '{';
      assert text[n] == Joined(rest)[0] == '{';
    }
  }

  /** What is asked of a format can be had, with whatever marshalling and hash. */
  lemma ALineFormatExists(codec: Codec) returns (with: Codec)
    ensures LineFormat(with)
    ensures with == codec.(encode := with.encode, decode := with.decode)
  {
    ghost var encode: Event -> string := e => Braced(e);
    ghost var decode: string -> Option<Line> := text => Unbraced(text);
    with := codec.(encode := encode, decode := decode);
    forall e ensures with.encode(e) != "" && '\n' !in with.encode(e) && with.decode(with.encode(e)) == Some(LineOf(e)) {
      BracesOf(e);
      BracedReadsBack(e);
    }
    forall text | Spoilt(with, text) ensures with.decode(text) == None {
      var e: Event, n: nat, rest: seq<string> :| Spoils(with, e, n, rest, text);
      forall f: Event ensures text != Braced(f) {
        SpoiltIsNotBraced(with, e, n, rest, text, f);
      }
    }
  }
}
