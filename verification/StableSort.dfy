/**
 sort.SliceStable as a function: a stable insertion sort under any strict weak order.
 */
module StableSort {

  ghost predicate StrictWeak<T(!new)>(less: (T, T) -> bool) {
    && (forall x :: !less(x, x))
    && (forall x, y, z :: less(x, y) && less(y, z) ==> less(x, z))
    && (forall x, y, z :: !less(x, y) && !less(y, z) ==> !less(x, z))
  }

  ghost predicate Ordered<T>(less: (T, T) -> bool, s: seq<T>) {
    forall i, j | 0 <= i < j < |s| :: !less(s[j], s[i])
  }

  /** Puts `x` behind everything it is not less than. */
  function Insert<T>(less: (T, T) -> bool, s: seq<T>, x: T): (r: seq<T>)
    ensures multiset(r) == multiset(s) + multiset{x}
    ensures |r| == |s| + 1
  {
    if s == [] || !less(x, s[|s| - 1]) then s + [x]
    else
      assert s == s[..|s| - 1] + [s[|s| - 1]];
      Insert(less, s[..|s| - 1], x) + [s[|s| - 1]]
  }

  function Sort<T>(less: (T, T) -> bool, s: seq<T>): (r: seq<T>)
    ensures multiset(r) == multiset(s)
    ensures |r| == |s|
  {
    if s == [] then []
    else
      assert s == s[..|s| - 1] + [s[|s| - 1]];
      Insert(less, Sort(less, s[..|s| - 1]), s[|s| - 1])
  }

  lemma {:induction false} InsertOrders<T(!new)>(less: (T, T) -> bool, s: seq<T>, x: T)
    requires StrictWeak(less) && Ordered(less, s)
    ensures Ordered(less, Insert(less, s, x))
  {
    if s != [] && less(x, s[|s| - 1]) {
      var rest, last := s[..|s| - 1], s[|s| - 1];
      InsertOrders(less, rest, x);
      var r := Insert(less, rest, x);
      forall i | 0 <= i < |r|
        ensures !less(last, r[i])
      {
        assert r[i] in multiset(r);
        assert r[i] in multiset(rest) || r[i] == x;
      }
    } else if s != [] {
      var last := s[|s| - 1];
      forall i | 0 <= i < |s|
        ensures !less(x, s[i])
      {
        assert !less(last, s[i]);
      }
    }
  }

  lemma {:induction false} SortOrders<T(!new)>(less: (T, T) -> bool, s: seq<T>)
    requires StrictWeak(less)
    ensures Ordered(less, Sort(less, s))
  {
    if s != [] {
      SortOrders(less, s[..|s| - 1]);
      InsertOrders(less, Sort(less, s[..|s| - 1]), s[|s| - 1]);
    }
  }

  /** A sequence already in order is left alone. */
  lemma {:induction false} SortKeepsOrdered<T>(less: (T, T) -> bool, s: seq<T>)
    requires Ordered(less, s)
    ensures Sort(less, s) == s
  {
    if s != [] {
      SortKeepsOrdered(less, s[..|s| - 1]);
      assert s == s[..|s| - 1] + [s[|s| - 1]];
    }
  }

  function Filter<T>(keep: T -> bool, s: seq<T>): seq<T>
  {
    if s == [] then []
    else
      Filter(keep, s[..|s| - 1]) + if keep(s[|s| - 1]) then [s[|s| - 1]] else []
  }

  lemma {:induction false} FilterConcat<T>(keep: T -> bool, a: seq<T>, b: seq<T>)
    ensures Filter(keep, a + b) == Filter(keep, a) + Filter(keep, b)
  {
    if b == [] {
      assert a + b == a;
    } else {
      var b', x := b[..|b| - 1], b[|b| - 1];
      FilterConcat(keep, a, b');
      assert (a + b)[..|a + b| - 1] == a + b' && (a + b)[|a + b| - 1] == x;
    }
  }

  /** `keep` picks out elements none of which comes before another. */
  ghost predicate Tied<T(!new)>(less: (T, T) -> bool, keep: T -> bool) {
    forall y, z :: keep(y) && keep(z) ==> !less(y, z)
  }

  lemma {:induction false} InsertIsStable<T(!new)>(less: (T, T) -> bool, s: seq<T>, x: T, keep: T -> bool)
    requires Tied(less, keep)
    ensures Filter(keep, Insert(less, s, x)) == Filter(keep, s + [x])
  {
    if s != [] && less(x, s[|s| - 1]) {
      var rest, last := s[..|s| - 1], s[|s| - 1];
      calc {
        Filter(keep, Insert(less, s, x));
        Filter(keep, Insert(less, rest, x) + [last]);
        { FilterOfAppend(keep, Insert(less, rest, x), last); InsertIsStable(less, rest, x, keep); }
        Filter(keep, rest + [x]) + (if keep(last) then [last] else []);
        { FilterOfAppend(keep, rest, x); assert !(keep(x) && keep(last)); }
        Filter(keep, rest) + (if keep(last) then [last] else []) + (if keep(x) then [x] else []);
        { FilterOfAppend(keep, s, x); }
        Filter(keep, s + [x]);
      }
    }
  }

  /** Elements that compare as equal keep the order they came in. */
  lemma {:induction false} SortIsStable<T(!new)>(less: (T, T) -> bool, s: seq<T>, keep: T -> bool)
    requires Tied(less, keep)
    ensures Filter(keep, Sort(less, s)) == Filter(keep, s)
  {
    if s != [] {
      var rest, x := s[..|s| - 1], s[|s| - 1];
      assert s == rest + [x];
      SortIsStable(less, rest, keep);
      InsertIsStable(less, Sort(less, rest), x, keep);
      FilterConcat(keep, Sort(less, rest), [x]);
      FilterConcat(keep, rest, [x]);
    }
  }

  /** No two different elements of `s` tie. */
  ghost predicate NoTies<T>(less: (T, T) -> bool, s: seq<T>) {
    forall i, j | 0 <= i < |s| && 0 <= j < |s| && s[i] != s[j] :: less(s[i], s[j]) || less(s[j], s[i])
  }

  lemma SameElements<T>(a: seq<T>, b: seq<T>, i: nat) returns (j: nat)
    requires multiset(a) == multiset(b) && i < |a|
    ensures j < |b| && b[j] == a[i]
  {
    assert a[i] in multiset(b);
    j :| j < |b| && b[j] == a[i];
  }

  lemma SameLast<T>(less: (T, T) -> bool, a: seq<T>, b: seq<T>)
    requires multiset(a) == multiset(b) && a != [] && |a| == |b|
    requires Ordered(less, a) && Ordered(less, b) && NoTies(less, a)
    ensures a[|a| - 1] == b[|b| - 1]
  {
    var i := SameElements(a, b, |a| - 1);
    var j := SameElements(b, a, |b| - 1);
    assert i == |b| - 1 || !less(b[|b| - 1], b[i]);
    assert j == |a| - 1 || !less(a[|a| - 1], a[j]);
  }

  lemma DropLast<T>(a: seq<T>)
    requires a != []
    ensures multiset(a[..|a| - 1]) == multiset(a) - multiset{a[|a| - 1]}
  {
    assert a == a[..|a| - 1] + [a[|a| - 1]];
  }

  /** Distinct elements that never tie have only one ordered arrangement. */
  lemma {:induction false} OrderedIsUnique<T>(less: (T, T) -> bool, a: seq<T>, b: seq<T>)
    requires multiset(a) == multiset(b)
    requires Ordered(less, a) && Ordered(less, b) && NoTies(less, a)
    ensures a == b
  {
    assert |a| == |multiset(a)| && |b| == |multiset(b)|;
    if a != [] {
      SameLast(less, a, b);
      DropLast(a);
      DropLast(b);
      OrderedIsUnique(less, a[..|a| - 1], b[..|b| - 1]);
      assert a == a[..|a| - 1] + [a[|a| - 1]];
      assert b == b[..|b| - 1] + [b[|b| - 1]];
    }
  }

  /** Sorting forgets the order its input came in. */
  lemma SortForgetsOrder<T(!new)>(less: (T, T) -> bool, a: seq<T>, b: seq<T>)
    requires StrictWeak(less) && NoTies(less, a)
    requires multiset(a) == multiset(b)
    ensures Sort(less, a) == Sort(less, b)
  {
    SortOrders(less, a);
    SortOrders(less, b);
    var s := Sort(less, a);
    forall i, j | 0 <= i < |s| && 0 <= j < |s| && s[i] != s[j]
      ensures less(s[i], s[j]) || less(s[j], s[i])
    {
      var _ := SameElements(s, a, i);
      var _ := SameElements(s, a, j);
    }
    OrderedIsUnique(less, s, Sort(less, b));
  }

  lemma {:induction false} FilterKeepsMembers<T>(keep: T -> bool, s: seq<T>, x: T)
    ensures x in Filter(keep, s) <==> x in s && keep(x)
  {
    if |s| > 0 {
      FilterKeepsMembers(keep, s[..|s| - 1], x);
      assert s == s[..|s| - 1] + [s[|s| - 1]];
    }
  }

  lemma {:induction false} InsertKeepsCount<T>(less: (T, T) -> bool, keep: T -> bool, s: seq<T>, x: T)
    ensures |Filter(keep, Insert(less, s, x))| == |Filter(keep, s)| + |Filter(keep, [x])|
  {
    if |s| > 0 && less(x, s[|s| - 1]) {
      InsertKeepsCount(less, keep, s[..|s| - 1], x);
      FilterConcat(keep, Insert(less, s[..|s| - 1], x), [s[|s| - 1]]);
      FilterConcat(keep, s[..|s| - 1], [s[|s| - 1]]);
      assert s == s[..|s| - 1] + [s[|s| - 1]];
    } else {
      FilterConcat(keep, s, [x]);
    }
  }

  lemma FilterLast<T>(keep: T -> bool, s: seq<T>)
    requires |s| > 0
    ensures |Filter(keep, s)| == |Filter(keep, s[..|s| - 1])| + |Filter(keep, [s[|s| - 1]])|
  {
    assert s == s[..|s| - 1] + [s[|s| - 1]];
    FilterConcat(keep, s[..|s| - 1], [s[|s| - 1]]);
  }

  lemma {:induction false} SortKeepsCount<T>(less: (T, T) -> bool, keep: T -> bool, s: seq<T>)
    ensures |Filter(keep, Sort(less, s))| == |Filter(keep, s)|
  {
    if s != [] {
      SortKeepsCount(less, keep, s[..|s| - 1]);
      InsertKeepsCount(less, keep, Sort(less, s[..|s| - 1]), s[|s| - 1]);
      FilterLast(keep, s);
    }
  }

  lemma {:induction false} FilterIsPrefix<T>(keep: T -> bool, s: seq<T>, p: nat)
    requires p <= |s| && (forall j :: 0 <= j < p ==> keep(s[j])) && (forall j :: p <= j < |s| ==> !keep(s[j]))
    ensures Filter(keep, s) == s[..p]
  {
    if |s| > 0 {
      var rest := s[..|s| - 1];
      if p < |s| {
        FilterIsPrefix(keep, rest, p);
        assert rest[..p] == s[..p];
      } else {
        FilterIsPrefix(keep, rest, p - 1);
        assert rest[..p - 1] == rest;
        assert s[..p] == rest + [s[|s| - 1]];
      }
    }
  }

  lemma {:induction false} FilterAddsNothing<T>(keep: T -> bool, s: seq<T>, x: T)
    ensures multiset(Filter(keep, s))[x] <= multiset(s)[x]
  {
    if s != [] {
      FilterAddsNothing(keep, s[..|s| - 1], x);
      assert s == s[..|s| - 1] + [s[|s| - 1]];
    }
  }

  lemma TwiceCountsTwo<T>(s: seq<T>, i: nat, j: nat)
    requires i < j < |s| && s[i] == s[j]
    ensures multiset(s)[s[i]] >= 2
  {
    assert s == s[..j] + [s[j]] + s[j + 1..];
    assert s[..j][i] in multiset(s[..j]);
  }

  lemma OnceCountsOne<T>(s: seq<T>, k: nat)
    requires k < |s| && forall j :: 0 <= j < |s| && j != k ==> s[j] != s[k]
    ensures multiset(s)[s[k]] == 1
  {
    var front, back := s[..k], s[k + 1..];
    assert s == front + [s[k]] + back;
    assert s[k] !in front && s[k] !in back;
  }

  /** An element that occurs once and is kept has one place after filtering and sorting. */
  lemma OnePlaceAfterSorting<T(!new)>(less: (T, T) -> bool, keep: T -> bool, s: seq<T>, k: nat) returns (p: nat)
    requires k < |s| && keep(s[k]) && forall j :: 0 <= j < |s| && j != k ==> s[j] != s[k]
    ensures var sorted := Sort(less, Filter(keep, s));
      p < |sorted| && sorted[p] == s[k] && forall j :: 0 <= j < |sorted| && j != p ==> sorted[j] != s[k]
  {
    var kept := Filter(keep, s);
    var sorted := Sort(less, kept);
    FilterKeepsMembers(keep, s, s[k]);
    assert s[k] in multiset(kept);
    assert s[k] in multiset(sorted);
    p :| p < |sorted| && sorted[p] == s[k];
    FilterAddsNothing(keep, s, s[k]);
    OnceCountsOne(s, k);
    forall j | 0 <= j < |sorted| && j != p ensures sorted[j] != s[k] {
      if sorted[j] == s[k] {
        TwiceCountsTwo(sorted, if j < p then j else p, if j < p then p else j);
      }
    }
  }

  lemma InsertedComesFrom<T>(less: (T, T) -> bool, s: seq<T>, x: T, j: nat)
    requires j < |Insert(less, s, x)|
    ensures Insert(less, s, x)[j] == x || Insert(less, s, x)[j] in s
  {
    assert Insert(less, s, x)[j] in multiset(Insert(less, s, x));
  }

  lemma SortedComesFrom<T(!new)>(less: (T, T) -> bool, keep: T -> bool, s: seq<T>, j: nat)
    requires j < |Sort(less, Filter(keep, s))|
    ensures Sort(less, Filter(keep, s))[j] in s && keep(Sort(less, Filter(keep, s))[j])
  {
    var sorted := Sort(less, Filter(keep, s));
    assert sorted[j] in multiset(sorted);
    assert sorted[j] in multiset(Filter(keep, s));
    FilterKeepsMembers(keep, s, sorted[j]);
  }

  lemma {:induction false} FilterOfFilter<T>(keep: T -> bool, more: T -> bool, both: T -> bool, s: seq<T>)
    requires forall i :: 0 <= i < |s| ==> (both(s[i]) <==> keep(s[i]) && more(s[i]))
    ensures Filter(more, Filter(keep, s)) == Filter(both, s)
  {
    if s != [] {
      FilterOfFilter(keep, more, both, s[..|s| - 1]);
      FilterConcat(more, Filter(keep, s[..|s| - 1]), if keep(s[|s| - 1]) then [s[|s| - 1]] else []);
    }
  }

  /** Everything behind what `x` goes before, it goes before as well. */
  ghost predicate UpClosed<T>(less: (T, T) -> bool, x: T, s: seq<T>) {
    forall i, j | 0 <= i < j < |s| :: less(x, s[i]) ==> less(x, s[j])
  }

  lemma OrderedIsUpClosed<T(!new)>(less: (T, T) -> bool, x: T, s: seq<T>)
    requires StrictWeak(less) && Ordered(less, s)
    ensures UpClosed(less, x, s)
  {
  }

  lemma FilterOfAppend<T>(keep: T -> bool, s: seq<T>, x: T)
    ensures Filter(keep, s + [x]) == if keep(x) then Filter(keep, s) + [x] else Filter(keep, s)
  {
    assert (s + [x])[..|s + [x]| - 1] == s;
  }

  lemma InsertIntoAppend<T>(less: (T, T) -> bool, s: seq<T>, last: T, x: T)
    ensures Insert(less, s + [last], x) == if less(x, last) then Insert(less, s, x) + [last] else s + [last] + [x]
  {
    assert (s + [last])[..|s + [last]| - 1] == s;
  }

  /** Inserting into the kept elements, if the new one is kept at all. */
  function InsertKept<T>(less: (T, T) -> bool, keep: T -> bool, s: seq<T>, x: T): seq<T> {
    if keep(x) then Insert(less, Filter(keep, s), x) else Filter(keep, s)
  }

  lemma FilterPastLast<T>(less: (T, T) -> bool, keep: T -> bool, s: seq<T>, last: T, x: T)
    requires less(x, last)
    requires Filter(keep, Insert(less, s, x)) == InsertKept(less, keep, s, x)
    ensures Filter(keep, Insert(less, s + [last], x)) == InsertKept(less, keep, s + [last], x)
  {
    InsertIntoAppend(less, s, last, x);
    FilterOfAppend(keep, Insert(less, s, x), last);
    if keep(last) {
      InsertKeptPast(less, keep, s, last, x);
    } else {
      FilterOfAppend(keep, s, last);
      assert Filter(keep, s + [last]) == Filter(keep, s);
    }
  }

  lemma InsertKeptPast<T>(less: (T, T) -> bool, keep: T -> bool, s: seq<T>, last: T, x: T)
    requires less(x, last) && keep(last)
    ensures InsertKept(less, keep, s + [last], x) == InsertKept(less, keep, s, x) + [last]
  {
    FilterOfAppend(keep, s, last);
    if keep(x) {
      calc {
        InsertKept(less, keep, s + [last], x);
        Insert(less, Filter(keep, s) + [last], x);
        { InsertIntoAppend(less, Filter(keep, s), last, x); }
        Insert(less, Filter(keep, s), x) + [last];
      }
    }
  }

  lemma {:induction false} FilterGoesBehind<T>(less: (T, T) -> bool, keep: T -> bool, s: seq<T>, x: T)
    requires forall i | 0 <= i < |s| :: !less(x, s[i])
    ensures forall i | 0 <= i < |Filter(keep, s)| :: !less(x, Filter(keep, s)[i])
  {
    if s != [] {
      FilterGoesBehind(less, keep, s[..|s| - 1], x);
    }
  }

  lemma FilterAtEnd<T>(less: (T, T) -> bool, keep: T -> bool, s: seq<T>, x: T)
    requires UpClosed(less, x, s) && (s != [] ==> !less(x, s[|s| - 1]))
    ensures Insert(less, Filter(keep, s), x) == Filter(keep, s) + [x]
  {
    assert forall i | 0 <= i < |s| :: i == |s| - 1 || !less(x, s[i]);
    FilterGoesBehind(less, keep, s, x);
  }

  lemma {:induction false} FilterOfInsert<T>(less: (T, T) -> bool, keep: T -> bool, s: seq<T>, x: T)
    requires UpClosed(less, x, s)
    ensures Filter(keep, Insert(less, s, x)) == InsertKept(less, keep, s, x)
  {
    if s == [] || !less(x, s[|s| - 1]) {
      FilterAtEnd(less, keep, s, x);
      FilterOfAppend(keep, s, x);
    } else {
      var rest, last := s[..|s| - 1], s[|s| - 1];
      FilterOfInsert(less, keep, rest, x);
      FilterPastLast(less, keep, rest, last, x);
      SameSequence(s, rest, last);
    }
  }

  lemma SameSequence<T>(s: seq<T>, rest: seq<T>, last: T)
    requires s != [] && rest == s[..|s| - 1] && last == s[|s| - 1]
    ensures rest + [last] == s
  {
  }

  lemma FilterKeepsIndex<T>(keep: T -> bool, s: seq<T>, k: nat) returns (i: nat)
    requires k < |Filter(keep, s)|
    ensures i < |s| && s[i] == Filter(keep, s)[k]
  {
    FilterKeepsMembers(keep, s, Filter(keep, s)[k]);
    i :| i < |s| && s[i] == Filter(keep, s)[k];
  }

  lemma FilterCommutesStep<T>(less: (T, T) -> bool, keep: T -> bool, rest: seq<T>, x: T)
    requires UpClosed(less, x, Sort(less, rest)) && Filter(keep, Sort(less, rest)) == Sort(less, Filter(keep, rest))
    ensures Filter(keep, Sort(less, rest + [x])) == Sort(less, Filter(keep, rest + [x]))
  {
    calc {
      Filter(keep, Sort(less, rest + [x]));
      { SortOfAppend(less, rest, x); }
      Filter(keep, Insert(less, Sort(less, rest), x));
      { FilterOfInsert(less, keep, Sort(less, rest), x); }
      InsertKept(less, keep, Sort(less, rest), x);
      { SortOfAppend(less, Filter(keep, rest), x); }
      Sort(less, if keep(x) then Filter(keep, rest) + [x] else Filter(keep, rest));
      { FilterOfAppend(keep, rest, x); }
      Sort(less, Filter(keep, rest + [x]));
    }
  }

  lemma SortOfAppend<T>(less: (T, T) -> bool, s: seq<T>, x: T)
    ensures Sort(less, s + [x]) == Insert(less, Sort(less, s), x)
  {
    assert (s + [x])[..|s + [x]| - 1] == s;
  }

  /** Choosing before sorting and after it come to the same. */
  lemma {:induction false} FilterCommutesWithSort<T(!new)>(less: (T, T) -> bool, keep: T -> bool, s: seq<T>)
    requires StrictWeak(less)
    ensures Filter(keep, Sort(less, s)) == Sort(less, Filter(keep, s))
  {
    if s != [] {
      FilterCommutesWithSort(less, keep, s[..|s| - 1]);
      SortOrders(less, s[..|s| - 1]);
      OrderedIsUpClosed(less, s[|s| - 1], Sort(less, s[..|s| - 1]));
      FilterCommutesStep(less, keep, s[..|s| - 1], s[|s| - 1]);
      SameSequence(s, s[..|s| - 1], s[|s| - 1]);
    }
  }

  lemma {:induction false} FilterIsSuffix<T>(keep: T -> bool, s: seq<T>, p: nat)
    requires p <= |s| && (forall j :: 0 <= j < p ==> !keep(s[j])) && (forall j :: p <= j < |s| ==> keep(s[j]))
    ensures Filter(keep, s) == s[p..]
  {
    if |s| > 0 {
      var rest := s[..|s| - 1];
      if p < |s| {
        FilterIsSuffix(keep, rest, p);
        assert s[p..] == rest[p..] + [s[|s| - 1]];
      } else {
        FilterIsSuffix(keep, rest, p - 1);
      }
    }
  }

  // ----- parts of a sequence -----

  /** The first `n` elements, or all when there are fewer. */
  function AtMost<T>(s: seq<T>, n: nat): seq<T> {
    if |s| <= n then s else s[..n]
  }

  /** All but the kth element. */
  function Dropped<A>(s: seq<A>, k: nat): seq<A>
    requires k < |s|
  {
    s[..k] + s[k + 1..]
  }

  lemma DroppedOne<A>(s: seq<A>, k: nat)
    requires k < |s|
    ensures multiset(Dropped(s, k)) == multiset(s) - multiset{s[k]}
  {
    assert s == s[..k] + [s[k]] + s[k + 1..];
  }

  // ----- what the order of the input decides -----

  /** Picks out what neither comes before `y` nor behind it. */
  function TiesWith<T>(less: (T, T) -> bool, y: T): T -> bool {
    x => !less(x, y) && !less(y, x)
  }

  /** As many on both sides, and alike in every place. */
  ghost predicate OneByOne<T>(alike: (T, T) -> bool, a: seq<T>, b: seq<T>) {
    |a| == |b| && forall k | 0 <= k < |a| :: alike(a[k], b[k])
  }

  lemma FilterWithoutOne<T>(keep: T -> bool, s: seq<T>, k: nat)
    requires k < |s|
    ensures |Filter(keep, s)| == |Filter(keep, Dropped(s, k))| + if keep(s[k]) then 1 else 0
  {
    var front, back := s[..k], s[k + 1..];
    assert s == front + [s[k]] + back;
    FilterConcat(keep, front + [s[k]], back);
    FilterOfAppend(keep, front, s[k]);
    FilterConcat(keep, front, back);
  }

  lemma {:induction false} PermutedFilterHasAsMany<T>(keep: T -> bool, a: seq<T>, b: seq<T>)
    requires multiset(a) == multiset(b)
    ensures |a| == |b| && |Filter(keep, a)| == |Filter(keep, b)|
    decreases |a|
  {
    assert |a| == |multiset(a)| && |b| == |multiset(b)|;
    if |a| > 0 {
      var k := |a| - 1;
      var j := SameElements(a, b, k);
      DroppedOne(a, k);
      DroppedOne(b, j);
      PermutedFilterHasAsMany(keep, Dropped(a, k), Dropped(b, j));
      FilterWithoutOne(keep, a, k);
      FilterWithoutOne(keep, b, j);
    }
  }

  lemma {:induction false} FilterIsShorter<T>(keep: T -> bool, s: seq<T>)
    ensures |Filter(keep, s)| <= |s|
  {
    if s != [] {
      FilterIsShorter(keep, s[..|s| - 1]);
    }
  }

  function Before<T>(less: (T, T) -> bool, x: T): T -> bool {
    y => less(y, x)
  }

  /** In an ordered sequence no more than k come before the one in place k. */
  lemma NoMoreComeBefore<T(!new)>(less: (T, T) -> bool, s: seq<T>, k: nat)
    requires StrictWeak(less) && Ordered(less, s) && k < |s|
    ensures |Filter(Before(less, s[k]), s)| <= k
  {
    assert s == s[..k] + s[k..];
    FilterConcat(Before(less, s[k]), s[..k], s[k..]);
    FilterIsShorter(Before(less, s[k]), s[..k]);
    assert forall j | 0 <= j < |s[k..]| :: s[k..][j] == s[k + j];
    FilterIsPrefix(Before(less, s[k]), s[k..], 0);
  }

  /** And whatever comes behind the one in place k comes behind k + 1 of them. */
  lemma SoManyComeBefore<T(!new)>(less: (T, T) -> bool, s: seq<T>, k: nat, x: T)
    requires StrictWeak(less) && Ordered(less, s) && k < |s| && less(s[k], x)
    ensures |Filter(Before(less, x), s)| >= k + 1
  {
    var front := s[..k + 1];
    assert s == front + s[k + 1..];
    FilterConcat(Before(less, x), front, s[k + 1..]);
    forall j | 0 <= j < |front| ensures Before(less, x)(front[j]) {
      assert !less(s[k], s[j]);
    }
    FilterIsPrefix(Before(less, x), front, k + 1);
  }

  /** Two ordered arrangements of the same elements tie in every place. */
  lemma SamePlacesTie<T(!new)>(less: (T, T) -> bool, a: seq<T>, b: seq<T>, k: nat)
    requires StrictWeak(less) && Ordered(less, a) && Ordered(less, b) && multiset(a) == multiset(b) && k < |a|
    ensures |a| == |b| && !less(a[k], b[k])
  {
    PermutedFilterHasAsMany(x => true, a, b);
    if less(a[k], b[k]) {
      SoManyComeBefore(less, a, k, b[k]);
      NoMoreComeBefore(less, b, k);
      PermutedFilterHasAsMany(Before(less, b[k]), a, b);
    }
  }

  lemma {:induction false} FiltersAreAlike<T>(keep: T -> bool, alike: (T, T) -> bool, a: seq<T>, b: seq<T>)
    requires OneByOne(alike, a, b) && forall k | 0 <= k < |a| :: keep(a[k]) == keep(b[k])
    ensures OneByOne(alike, Filter(keep, a), Filter(keep, b))
  {
    if |a| > 0 {
      FiltersAreAlike(keep, alike, a[..|a| - 1], b[..|b| - 1]);
    }
  }

  /** Where a kept element comes among the kept ones. */
  lemma PlaceAmongTheKept<T>(keep: T -> bool, s: seq<T>, k: nat)
    requires k < |s| && keep(s[k])
    ensures var p := |Filter(keep, s[..k])|;
      p < |Filter(keep, s)| && Filter(keep, s)[p] == s[k]
  {
    assert s == s[..k] + [s[k]] + s[k + 1..];
    FilterConcat(keep, s[..k] + [s[k]], s[k + 1..]);
    FilterOfAppend(keep, s[..k], s[k]);
  }

  lemma AlikeInEveryPlace<T>(keep: T -> bool, alike: (T, T) -> bool, a: seq<T>, b: seq<T>, k: nat)
    requires |a| == |b| && k < |a| && keep(a[k]) && forall j | 0 <= j < |a| :: keep(a[j]) == keep(b[j])
    requires OneByOne(alike, Filter(keep, a), Filter(keep, b))
    ensures alike(a[k], b[k])
  {
    PlaceAmongTheKept(keep, a, k);
    PlaceAmongTheKept(keep, b, k);
    FiltersAreAlike(keep, (x, y) => true, a[..k], b[..k]);
  }

  lemma TiesWithIsTied<T(!new)>(less: (T, T) -> bool, y: T)
    requires StrictWeak(less)
    ensures Tied(less, TiesWith(less, y))
  {
  }

  lemma TiesAgree<T(!new)>(less: (T, T) -> bool, a: seq<T>, b: seq<T>, y: T)
    requires StrictWeak(less) && Ordered(less, a) && Ordered(less, b) && multiset(a) == multiset(b)
    ensures |a| == |b| && forall k | 0 <= k < |a| :: TiesWith(less, y)(a[k]) == TiesWith(less, y)(b[k])
  {
    PermutedFilterHasAsMany(x => true, a, b);
    forall k | 0 <= k < |a| ensures TiesWith(less, y)(a[k]) == TiesWith(less, y)(b[k]) {
      SamePlacesTie(less, a, b, k);
      SamePlacesTie(less, b, a, k);
    }
  }

  /** The elements that tie with `y`, in the order they came in, are alike one by one. */
  ghost predicate TiesAlike<T>(less: (T, T) -> bool, alike: (T, T) -> bool, a: seq<T>, b: seq<T>, y: T) {
    OneByOne(alike, Filter(TiesWith(less, y), a), Filter(TiesWith(less, y), b))
  }

  lemma SortedTiesAlike<T(!new)>(less: (T, T) -> bool, alike: (T, T) -> bool, a: seq<T>, b: seq<T>, y: T)
    requires StrictWeak(less)
    ensures TiesAlike(less, alike, Sort(less, a), Sort(less, b), y) <==> TiesAlike(less, alike, a, b, y)
  {
    TiesWithIsTied(less, y);
    SortIsStable(less, a, TiesWith(less, y));
    SortIsStable(less, b, TiesWith(less, y));
  }

  /**
   Two arrangements of the same elements are sorted alike, place by place, if and only if whatever ties came in alike:
   the order of the input decides nothing else.
   */
  lemma SortedAlikeIff<T(!new)>(less: (T, T) -> bool, alike: (T, T) -> bool, a: seq<T>, b: seq<T>)
    requires StrictWeak(less) && multiset(a) == multiset(b)
    ensures OneByOne(alike, Sort(less, a), Sort(less, b)) <==> forall y :: TiesAlike(less, alike, a, b, y)
  {
    var s, t := Sort(less, a), Sort(less, b);
    SortOrders(less, a);
    SortOrders(less, b);
    if OneByOne(alike, s, t) {
      forall y ensures TiesAlike(less, alike, a, b, y) {
        TiesAgree(less, s, t, y);
        FiltersAreAlike(TiesWith(less, y), alike, s, t);
        SortedTiesAlike(less, alike, a, b, y);
      }
    }
    if forall y :: TiesAlike(less, alike, a, b, y) {
      PermutedFilterHasAsMany(x => true, s, t);
      forall k | 0 <= k < |s| ensures alike(s[k], t[k]) {
        TiesAgree(less, s, t, s[k]);
        SortedTiesAlike(less, alike, a, b, s[k]);
        AlikeInEveryPlace(TiesWith(less, s[k]), alike, s, t, k);
      }
    }
  }
}
