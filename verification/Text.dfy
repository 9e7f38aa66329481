/**
 Strings as Go sees them: byte order, searching, splitting, and the decimal numerals of strconv.
 */
module Text {

  datatype Option<+T> = None | Some(value: T)

  lemma SomeMember<T>(s: set<T>) returns (x: T)
    requires s != {}
    ensures x in s
  {
    x :| x in s;
  }

  lemma SameMap<K, V>(a: map<K, V>, b: map<K, V>)
    requires a.Keys == b.Keys && forall k | k in a.Keys :: a[k] == b[k]
    ensures a == b
  {
  }

  /** Go's `<` on strings: lexicographic by character. */
  predicate Less(a: string, b: string) {
    if b == [] then false
    else if a == [] then true
    else if a[0] != b[0] then a[0] < b[0]
    else Less(a[1..], b[1..])
  }

  lemma {:induction false} LessIsIrreflexive(a: string)
    ensures !Less(a, a)
  {
    if a != [] {
      LessIsIrreflexive(a[1..]);
    }
  }

  lemma {:induction false} LessIsTransitive(a: string, b: string, c: string)
    requires Less(a, b) && Less(b, c)
    ensures Less(a, c)
  {
    if a != [] && a[0] == b[0] && b[0] == c[0] {
      LessIsTransitive(a[1..], b[1..], c[1..]);
    }
  }

  lemma LessIsAsymmetric(a: string, b: string)
    ensures !(Less(a, b) && Less(b, a))
  {
    if Less(a, b) && Less(b, a) {
      LessIsTransitive(a, b, a);
      LessIsIrreflexive(a);
    }
  }

  lemma {:induction false} LessIsTotal(a: string, b: string)
    ensures a == b || Less(a, b) || Less(b, a)
  {
    if a != [] && b != [] && a[0] == b[0] {
      LessIsTotal(a[1..], b[1..]);
      assert a == [a[0]] + a[1..] && b == [b[0]] + b[1..];
    }
  }

  /** A text comes before another if and only if it begins it or has the lower character where they part. */
  lemma {:induction false} LessWhereTheyPart(a: string, b: string, k: nat)
    requires k <= |a| && k <= |b| && a[..k] == b[..k]
    requires k == |a| || k == |b| || a[k] != b[k]
    ensures Less(a, b) <==> k < |b| && (k == |a| || a[k] < b[k])
  {
    if k > 0 {
      assert a[0] == a[..k][0] && b[0] == b[..k][0];
      assert a[1..][..k - 1] == a[..k][1..] && b[1..][..k - 1] == b[..k][1..];
      LessWhereTheyPart(a[1..], b[1..], k - 1);
    }
  }

  /** strings.Index for one character; |s| when absent. */
  function Index(s: string, c: char): (i: nat)
    ensures i <= |s|
    ensures forall k | 0 <= k < i :: s[k] != c
    ensures i < |s| ==> s[i] == c
  {
    if s == [] || s[0] == c then 0 else 1 + Index(s[1..], c)
  }

  /** strings.LastIndex for one character; -1 when absent. */
  function LastIndex(s: string, c: char): (i: int)
    ensures -1 <= i < |s|
    ensures i >= 0 ==> s[i] == c
    ensures forall k | i < k < |s| :: s[k] != c
  {
    if s == [] then -1
    else if s[|s| - 1] == c then |s| - 1
    else LastIndex(s[..|s| - 1], c)
  }

  /** A string with the separator behind a head that lacks it is cut right there. */
  lemma IndexOfConcat(a: string, c: char, b: string)
    requires c !in a
    ensures Index(a + [c] + b, c) == |a|
  {
    var s := a + [c] + b;
    assert s[|a|] == c;
    assert forall k | 0 <= k < |a| :: s[k] == a[k];
  }

  lemma {:induction false} LastIndexOfConcat(a: string, c: char, b: string)
    requires c !in b
    ensures LastIndex(a + [c] + b, c) == |a|
  {
    var s := a + [c] + b;
    if b == [] {
      assert s[|s| - 1] == c;
    } else {
      var b' := b[..|b| - 1];
      LastIndexOfConcat(a, c, b');
      assert s[..|s| - 1] == a + [c] + b' && s[|s| - 1] == b[|b| - 1];
    }
  }

  /** Two strings cut at a separator that the heads do not contain agree piece by piece. */
  lemma CutIsInjective(a: string, b: string, c: char, x: string, y: string)
    requires c !in a && c !in b
    requires a + [c] + x == b + [c] + y
    ensures a == b && x == y
  {
    IndexOfConcat(a, c, x);
    IndexOfConcat(b, c, y);
    assert a == (a + [c] + x)[..|a|] && x == (a + [c] + x)[|a| + 1..];
    assert b == (b + [c] + y)[..|b|] && y == (b + [c] + y)[|b| + 1..];
  }

  /** The same, cut at the last separator. */
  lemma CutLastIsInjective(a: string, b: string, c: char, x: string, y: string)
    requires c !in x && c !in y
    requires a + [c] + x == b + [c] + y
    ensures a == b && x == y
  {
    LastIndexOfConcat(a, c, x);
    LastIndexOfConcat(b, c, y);
    assert a == (a + [c] + x)[..|a|] && x == (a + [c] + x)[|a| + 1..];
    assert b == (b + [c] + y)[..|b|] && y == (b + [c] + y)[|b| + 1..];
  }

  /** strings.Split by one character. */
  function Split(s: string, c: char): (parts: seq<string>)
    ensures |parts| >= 1
    decreases |s|
  {
    var i := Index(s, c);
    if i == |s| then [s] else [s[..i]] + Split(s[i + 1..], c)
  }

  /** strings.Join with one character. */
  function Join(parts: seq<string>, c: char): string
  {
    if parts == [] then ""
    else if |parts| == 1 then parts[0]
    else parts[0] + [c] + Join(parts[1..], c)
  }

  ghost predicate Free(parts: seq<string>, c: char) {
    forall i | 0 <= i < |parts| :: c !in parts[i]
  }

  lemma SplitStep(head: string, c: char, tail: string)
    requires c !in head
    ensures Split(head + [c] + tail, c) == [head] + Split(tail, c)
  {
    IndexOfConcat(head, c, tail);
    var s := head + [c] + tail;
    assert s[..|head|] == head && s[|head| + 1..] == tail;
  }

  lemma JoinStep(head: string, parts: seq<string>, c: char)
    requires parts != []
    ensures Join([head] + parts, c) == head + [c] + Join(parts, c)
  {
    assert ([head] + parts)[1..] == parts;
  }

  /** Split undoes Join on parts that do not hold the separator. */
  lemma {:induction false} SplitOfJoin(parts: seq<string>, c: char)
    requires parts != [] && Free(parts, c)
    ensures Split(Join(parts, c), c) == parts
  {
    assert parts == [parts[0]] + parts[1..];
    if |parts| > 1 {
      SplitOfJoin(parts[1..], c);
      JoinStep(parts[0], parts[1..], c);
      SplitStep(parts[0], c, Join(parts[1..], c));
    }
  }

  /** Every separator inside a part makes Split return more parts than were joined. */
  lemma {:induction false} SplitOfJoinGrows(parts: seq<string>, c: char)
    requires parts != []
    ensures |Split(Join(parts, c), c)| >= |parts|
    ensures !Free(parts, c) ==> |Split(Join(parts, c), c)| > |parts|
    decreases |parts|, |parts[0]|
  {
    assert parts == [parts[0]] + parts[1..];
    if c in parts[0] {
      var k := Index(parts[0], c);
      var head, tail := parts[0][..k], parts[0][k + 1..];
      assert parts[0] == head + [c] + tail;
      var rest := [tail] + parts[1..];
      if |parts| > 1 {
        JoinStep(parts[0], parts[1..], c);
        JoinStep(tail, parts[1..], c);
      }
      assert Join(parts, c) == head + [c] + Join(rest, c);
      SplitOfJoinGrows(rest, c);
      SplitStep(head, c, Join(rest, c));
    } else if |parts| > 1 {
      SplitOfJoinGrows(parts[1..], c);
      JoinStep(parts[0], parts[1..], c);
      SplitStep(parts[0], c, Join(parts[1..], c));
      if !Free(parts, c) {
        var i :| 0 <= i < |parts| && c in parts[i];
        assert parts[1..][i - 1] == parts[i];
      }
    }
  }

  function Digit(d: nat): char
    requires d < 10
  {
    '0' + d as char
  }

  predicate IsDigit(c: char) { '0' <= c <= '9' }

  predicate AllDigits(s: string) { forall i | 0 <= i < |s| :: IsDigit(s[i]) }

  /** strconv.FormatUint(n, 10). */
  function Digits(n: nat): (s: string)
    ensures |s| >= 1 && AllDigits(s)
  {
    if n < 10 then [Digit(n)] else Digits(n / 10) + [Digit(n % 10)]
  }

  function Value(s: string): nat
    requires AllDigits(s)
  {
    if s == [] then 0 else 10 * Value(s[..|s| - 1]) + (s[|s| - 1] - '0') as nat
  }

  lemma {:induction false} ValueOfDigits(n: nat)
    ensures Value(Digits(n)) == n
  {
    if n >= 10 {
      ValueOfDigits(n / 10);
      var s := Digits(n);
      assert s[..|s| - 1] == Digits(n / 10);
    } else {
      assert Digits(n)[..0] == [];
    }
  }

  lemma DigitsIsInjective(m: nat, n: nat)
    requires Digits(m) == Digits(n)
    ensures m == n
  {
    ValueOfDigits(m);
    ValueOfDigits(n);
  }

  const UINT64: nat := 0x1_0000_0000_0000_0000

  /** strconv.ParseUint(s, 10, 64). */
  function ParseUint(s: string): Option<nat> {
    if s == [] || !AllDigits(s) || Value(s) >= UINT64 then None else Some(Value(s))
  }

  lemma ParseUintOfDigits(n: nat)
    ensures ParseUint(Digits(n)) == if n < 0x1_0000_0000_0000_0000 then Some(n) else None
  {
    ValueOfDigits(n);
  }

  /** The %d verb. */
  function Decimal(n: int): (s: string)
    ensures forall i | 0 <= i < |s| :: IsDigit(s[i]) || s[i] == '-'
  {
    if n < 0 then "-" + Digits(-n) else Digits(n)
  }

  lemma DecimalIsInjective(m: int, n: int)
    requires Decimal(m) == Decimal(n)
    ensures m == n
  {
    assert m < 0 ==> Decimal(m)[0] == '-' && Decimal(m)[1..] == Digits(-m);
    assert n < 0 ==> Decimal(n)[0] == '-' && Decimal(n)[1..] == Digits(-n);
    assert m >= 0 ==> IsDigit(Decimal(m)[0]);
    assert n >= 0 ==> IsDigit(Decimal(n)[0]);
    if m < 0 {
      DigitsIsInjective(-m, -n);
    } else {
      DigitsIsInjective(m, n);
    }
  }
}
